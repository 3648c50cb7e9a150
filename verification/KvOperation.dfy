/** Operations of the key-value store, wrapped into one block of bytes for Paxos to decide on. */
module KvOperation {
  import opened Bytes
  import opened ByteArrays

  /** NOP, PUT, GET, DEL, BATCH_PUT. */
  const TYPE_COUNT: nat := 5

  function ArgNum(code: nat): (r: nat)
    ensures r <= 2
  {
    if code == 1 || code == 4 then 2 else if code == 2 || code == 3 then 1 else 0
  }

  /** One table for each pair; the arguments of all pairs one after another. */
  datatype Operation = Operation(code: nat, tables: seq<nat>, args: seq<seq<byte>>) {
    function Pairs(): nat { |tables| }
  }

  /** The numbers fit the fields that the source gives them. */
  ghost predicate Fits(op: Operation) {
    && op.code < TYPE_COUNT && op.Pairs() < 0x8000_0000 && |op.args| == Start(op.Pairs(), ArgNum(op.code))
    && (forall p :: 0 <= p < op.Pairs() ==> op.tables[p] < 0x1_0000_0000)
    && (forall i :: 0 <= i < |op.args| ==> |op.args[i]| < 0x1_0000_0000)
  }

  function ArgBytes(arg: seq<byte>): seq<byte> { Le(|arg|, 4) + arg }

  function ArgsBytes(args: seq<seq<byte>>): seq<byte> {
    if args == [] then [] else ArgBytes(args[0]) + ArgsBytes(args[1..])
  }

  /** Where the arguments of pair p begin. */
  function Start(p: nat, n: nat): nat { if p == 0 then 0 else Start(p - 1, n) + n }

  lemma {:induction false} StartIsProduct(p: nat, n: nat)
    ensures Start(p, n) == p * n
  {
    if p > 0 {
      StartIsProduct(p - 1, n);
      assert p * n == (p - 1) * n + n;
    }
  }

  lemma {:induction false} StartGrows(p: nat, q: nat, n: nat)
    requires p <= q
    ensures Start(p, n) <= Start(q, n)
    decreases q
  {
    if p < q { StartGrows(p, q - 1, n); }
  }

  /** The n arguments of pair p. */
  function PairArgs(args: seq<seq<byte>>, n: nat, p: nat): seq<seq<byte>> {
    if Start(p, n) + n <= |args| then args[Start(p, n)..Start(p, n) + n] else []
  }

  function PairBytes(op: Operation, n: nat, p: nat): seq<byte>
    requires p < op.Pairs()
  {
    Le(op.tables[p], 4) + ArgsBytes(PairArgs(op.args, n, p))
  }

  /** The pairs from p on: each its table and its arguments. */
  function PairsFrom(op: Operation, n: nat, p: nat): seq<byte>
    decreases op.Pairs() - p
  {
    if p >= op.Pairs() then [] else PairBytes(op, n, p) + PairsFrom(op, n, p + 1)
  }

  function Wrapped(op: Operation): seq<byte> {
    Le(op.code, 4) + Le(op.Pairs(), 4) + PairsFrom(op, ArgNum(op.code), 0)
  }

  /** The arguments are those of the pairs, one pair after another. */
  lemma ArgsOfPairs(op: Operation, n: nat, p: nat)
    requires |op.args| == Start(op.Pairs(), n) && p < op.Pairs()
    ensures Start(p, n) + n == Start(p + 1, n) <= |op.args| && |PairArgs(op.args, n, p)| == n
    ensures op.args[Start(p, n)..] == PairArgs(op.args, n, p) + op.args[Start(p + 1, n)..]
  {
    StartGrows(p + 1, op.Pairs(), n);
    TailSplit(op.args, Start(p, n), n);
  }

  lemma TailSplit(s: seq<seq<byte>>, x: nat, n: nat)
    requires x + n <= |s|
    ensures s[x..] == s[x..x + n] + s[x + n..]
  {
  }

  // ---------- unwrap ----------

  /** TooShort: the source would read beyond the block; OutsideTable: it looks up the number of
      arguments before its table of operations. */
  datatype Result<+T> = Ok(value: T) | BadCode | BadPairs | OutsideTable | TooShort

  datatype Part<+T> = Part(value: T, rest: seq<byte>)

  function ReadInt(b: seq<byte>): Result<Part<nat>> {
    if |b| < 4 then TooShort else Ok(Part(FromLe(b[..4]), b[4..]))
  }

  function ReadArgs(b: seq<byte>, n: nat): Result<Part<seq<seq<byte>>>>
    decreases n
  {
    if n == 0 then Ok(Part([], b))
    else
      match ReadInt(b)
      case Ok(len) =>
        if |len.rest| < len.value then TooShort
        else
          (match ReadArgs(len.rest[len.value..], n - 1)
           case Ok(more) => Ok(Part([len.rest[..len.value]] + more.value, more.rest))
           case _ => TooShort)
      case _ => TooShort
  }

  datatype PairList = PairList(tables: seq<nat>, args: seq<seq<byte>>)

  function ReadPairs(b: seq<byte>, pairs: nat, n: nat): Result<PairList>
    decreases pairs
  {
    if pairs == 0 then Ok(PairList([], []))
    else
      match ReadInt(b)
      case Ok(table) =>
        (match ReadArgs(table.rest, n)
         case Ok(args) =>
           (match ReadPairs(args.rest, pairs - 1, n)
            case Ok(more) => Ok(PairList([table.value] + more.tables, args.value + more.args))
            case _ => TooShort)
         case _ => TooShort)
      case _ => TooShort
  }

  /** The code word as a signed number. */
  function AsInt(word: nat): int { if word < 0x8000_0000 then word else word - 0x1_0000_0000 }

  /** The test against OP_NOP is unsigned, so that it rejects nothing; the test against the size of the
      table is signed. */
  function Unwrapped(b: seq<byte>): Result<Operation> {
    match ReadInt(b)
    case Ok(code) =>
      if AsInt(code.value) >= TYPE_COUNT then BadCode
      else
        (match ReadInt(code.rest)
         case Ok(pairs) =>
           if pairs.value == 0 then BadPairs
           else if AsInt(code.value) < 0 then OutsideTable
           else
             (match ReadPairs(pairs.rest, pairs.value, ArgNum(code.value))
              case Ok(l) => Ok(Operation(code.value, l.tables, l.args))
              case _ => TooShort)
         case _ => TooShort)
    case _ => TooShort
  }

  // ---------- round trip ----------

  lemma IntReads(n: nat, t: seq<byte>)
    requires n < 0x1_0000_0000
    ensures ReadInt(Le(n, 4) + t) == Ok(Part(n, t))
  {
    LeFour(n);
    assert (Le(n, 4) + t)[..4] == Le(n, 4) && (Le(n, 4) + t)[4..] == t;
  }

  lemma ArgInFront(args: seq<seq<byte>>, t: seq<byte>)
    requires args != []
    ensures ArgsBytes(args) + t == Le(|args[0]|, 4) + (args[0] + (ArgsBytes(args[1..]) + t))
  {
  }

  lemma {:induction false} ArgsRead(args: seq<seq<byte>>, t: seq<byte>)
    requires forall i :: 0 <= i < |args| ==> |args[i]| < 0x1_0000_0000
    ensures ReadArgs(ArgsBytes(args) + t, |args|) == Ok(Part(args, t))
  {
    if args == [] {
      assert ArgsBytes(args) + t == t;
    } else {
      ArgsRead(args[1..], t);
      ArgsReadMore(args, t);
    }
  }

  lemma ArgsReadMore(args: seq<seq<byte>>, t: seq<byte>)
    requires args != [] && |args[0]| < 0x1_0000_0000
    requires ReadArgs(ArgsBytes(args[1..]) + t, |args| - 1) == Ok(Part(args[1..], t))
    ensures ReadArgs(ArgsBytes(args) + t, |args|) == Ok(Part(args, t))
  {
    var a, more := args[0], ArgsBytes(args[1..]) + t;
    ArgInFront(args, t);
    IntReads(|a|, a + more);
    ArgsStep(ArgsBytes(args) + t, a, more, args[1..], t);
    assert args == [a] + args[1..];
  }

  lemma ArgsStep(b: seq<byte>, a: seq<byte>, more: seq<byte>, args: seq<seq<byte>>, t: seq<byte>)
    requires ReadInt(b) == Ok(Part(|a|, a + more)) && ReadArgs(more, |args|) == Ok(Part(args, t))
    ensures ReadArgs(b, |args| + 1) == Ok(Part([a] + args, t))
  {
    assert (a + more)[..|a|] == a && (a + more)[|a|..] == more;
  }

  lemma PairsStep(b: seq<byte>, table: nat, args: seq<seq<byte>>, x: seq<byte>, rest: seq<byte>, l: PairList,
                  pairs: nat, n: nat)
    requires ReadInt(b) == Ok(Part(table, x)) && ReadArgs(x, n) == Ok(Part(args, rest))
             && ReadPairs(rest, pairs, n) == Ok(l)
    ensures ReadPairs(b, pairs + 1, n) == Ok(PairList([table] + l.tables, args + l.args))
  {
  }

  /** From pair p on the bytes read as what is left of the operation. */
  ghost predicate ReadsFrom(op: Operation, n: nat, p: nat) {
    && p <= op.Pairs() && Start(p, n) <= |op.args|
    && ReadPairs(PairsFrom(op, n, p), op.Pairs() - p, n) == Ok(PairList(op.tables[p..], op.args[Start(p, n)..]))
  }

  lemma ReadsAtEnd(op: Operation, n: nat)
    requires |op.args| == Start(op.Pairs(), n)
    ensures ReadsFrom(op, n, op.Pairs())
  {
    assert op.tables[op.Pairs()..] == [] && op.args[Start(op.Pairs(), n)..] == [];
  }

  lemma ReadsBefore(op: Operation, n: nat, p: nat)
    requires Fits(op) && n == ArgNum(op.code) && p < op.Pairs() && ReadsFrom(op, n, p + 1)
    ensures ReadsFrom(op, n, p)
  {
    ArgsOfPairs(op, n, p);
    SmallArgs(op, n, p);
    RestSplits(op, n, p);
    PairReads(op, n, p, PairList(op.tables[p + 1..], op.args[Start(p + 1, n)..]));
  }

  lemma RestSplits(op: Operation, n: nat, p: nat)
    requires |op.args| == Start(op.Pairs(), n) && p < op.Pairs()
    ensures Start(p, n) <= |op.args| && Start(p + 1, n) <= |op.args|
    ensures op.tables[p..] == [op.tables[p]] + op.tables[p + 1..]
    ensures op.args[Start(p, n)..] == PairArgs(op.args, n, p) + op.args[Start(p + 1, n)..]
  {
    ArgsOfPairs(op, n, p);
  }

  lemma {:induction false} PairsRead(op: Operation, n: nat, p: nat)
    requires Fits(op) && n == ArgNum(op.code) && p <= op.Pairs()
    ensures ReadsFrom(op, n, p)
    decreases op.Pairs() - p
  {
    if p == op.Pairs() {
      ReadsAtEnd(op, n);
    } else {
      PairsRead(op, n, p + 1);
      ReadsBefore(op, n, p);
    }
  }

  lemma PairInFront(op: Operation, n: nat, p: nat)
    requires p < op.Pairs()
    ensures PairsFrom(op, n, p) == Le(op.tables[p], 4) + (ArgsBytes(PairArgs(op.args, n, p)) + PairsFrom(op, n, p + 1))
  {
  }

  lemma {:induction false} PairReads(op: Operation, n: nat, p: nat, l: PairList)
    requires p < op.Pairs() && op.tables[p] < 0x1_0000_0000 && |PairArgs(op.args, n, p)| == n
    requires forall i :: 0 <= i < |PairArgs(op.args, n, p)| ==> |PairArgs(op.args, n, p)[i]| < 0x1_0000_0000
    requires ReadPairs(PairsFrom(op, n, p + 1), op.Pairs() - (p + 1), n) == Ok(l)
    ensures ReadPairs(PairsFrom(op, n, p), op.Pairs() - p, n)
         == Ok(PairList([op.tables[p]] + l.tables, PairArgs(op.args, n, p) + l.args))
  {
    PairInFront(op, n, p);
    OnePairReads(PairsFrom(op, n, p), op.tables[p], PairArgs(op.args, n, p), PairsFrom(op, n, p + 1), l,
                 op.Pairs() - (p + 1), n);
  }

  lemma {:induction false} OnePairReads(b: seq<byte>, table: nat, args: seq<seq<byte>>, rest: seq<byte>, l: PairList,
                                        pairs: nat, n: nat)
    requires table < 0x1_0000_0000 && |args| == n && forall i :: 0 <= i < |args| ==> |args[i]| < 0x1_0000_0000
    requires b == Le(table, 4) + (ArgsBytes(args) + rest) && ReadPairs(rest, pairs, n) == Ok(l)
    ensures ReadPairs(b, pairs + 1, n) == Ok(PairList([table] + l.tables, args + l.args))
  {
    IntReads(table, ArgsBytes(args) + rest);
    ArgsRead(args, rest);
    PairsStep(b, table, args, ArgsBytes(args) + rest, rest, l, pairs, n);
  }

  lemma SmallArgs(op: Operation, n: nat, p: nat)
    requires Fits(op) && n == ArgNum(op.code) && p < op.Pairs()
    ensures forall i :: 0 <= i < |PairArgs(op.args, n, p)| ==> |PairArgs(op.args, n, p)[i]| < 0x1_0000_0000
  {
    ArgsOfPairs(op, n, p);
  }

  /** Unwrapping gives the operation back exactly if it has a pair. */
  lemma UnwrapWrap(op: Operation)
    requires Fits(op)
    ensures Unwrapped(Wrapped(op)) == if op.Pairs() > 0 then Ok(op) else BadPairs
  {
    var n := ArgNum(op.code);
    var ps := PairsFrom(op, n, 0);
    assert Wrapped(op) == Le(op.code, 4) + (Le(op.Pairs(), 4) + ps);
    IntReads(op.code, Le(op.Pairs(), 4) + ps);
    IntReads(op.Pairs(), ps);
    PairsRead(op, n, 0);
    assert op.tables[0..] == op.tables && op.args[Start(0, n)..] == op.args;
  }

  /** A word that is no code is rejected exactly if it is below 2^31. */
  lemma CodeRejected(b: seq<byte>)
    requires |b| >= 4 && FromLe(b[..4]) >= 5
    ensures Unwrapped(b) == BadCode <==> FromLe(b[..4]) < 0x8000_0000
  {
    FourBytes(b[..4]);
  }

  /** From 2^31 on it is used as an index below zero, if the block says that there is a pair. */
  lemma OutsideIff(b: seq<byte>)
    ensures Unwrapped(b) == OutsideTable <==>
            |b| >= 8 && FromLe(b[..4]) >= 0x8000_0000 && FromLe(b[4..][..4]) > 0
  {
    if |b| >= 4 { FourBytes(b[..4]); }
    if |b| >= 8 { FourBytes(b[4..][..4]); }
  }

  /** The code word FF FF FF FF and one pair: the index is -1. */
  lemma MinusOneIsOutside(b: seq<byte>)
    requires b == [255, 255, 255, 255, 1, 0, 0, 0]
    ensures Unwrapped(b) == OutsideTable && AsInt(FromLe(b[..4])) == -1
  {
    FourBytes(b[..4]);
    FourBytes(b[4..][..4]);
    OutsideIff(b);
  }

  // ---------- the bytes, written out ----------

  /** Each operation with one pair: a key and a value for a PUT and a BATCH_PUT, a key for a GET and a DEL,
      nothing for a NOP. */
  lemma {:induction false} TwoArguments(op: Operation, table: nat, a: seq<byte>, b: seq<byte>)
    requires op.code in {1, 4} && op.tables == [table] && op.args == [a, b]
    ensures Wrapped(op) == Le(op.code, 4) + Le(1, 4) + (Le(table, 4) + ((Le(|a|, 4) + a) + (Le(|b|, 4) + b)))
  {
    OnePair(op, table);
    assert Start(0, 2) == 0 && PairArgs(op.args, 2, 0) == [a, b];
    BytesOfTwo(a, b);
  }

  lemma {:induction false} OneArgument(op: Operation, table: nat, a: seq<byte>)
    requires op.code in {2, 3} && op.tables == [table] && op.args == [a]
    ensures Wrapped(op) == Le(op.code, 4) + Le(1, 4) + (Le(table, 4) + (Le(|a|, 4) + a))
  {
    OnePair(op, table);
    assert Start(0, 1) == 0 && PairArgs(op.args, 1, 0) == [a];
    BytesOfOne(a);
  }

  lemma {:induction false} NoArgument(op: Operation, table: nat)
    requires op.code == 0 && op.tables == [table] && op.args == []
    ensures Wrapped(op) == Le(0, 4) + Le(1, 4) + Le(table, 4)
  {
    OnePair(op, table);
  }

  lemma {:induction false} BytesOfOne(a: seq<byte>)
    ensures ArgsBytes([a]) == Le(|a|, 4) + a
  {
    assert [a][1..] == [] && ArgsBytes([a]) == ArgBytes(a) + ArgsBytes([]);
  }

  lemma {:induction false} BytesOfTwo(a: seq<byte>, b: seq<byte>)
    ensures ArgsBytes([a, b]) == (Le(|a|, 4) + a) + (Le(|b|, 4) + b)
  {
    assert [a, b][1..] == [b] && ArgsBytes([a, b]) == ArgBytes(a) + ArgsBytes([b]);
    BytesOfOne(b);
  }

  lemma {:induction false} OnePair(op: Operation, table: nat)
    requires op.tables == [table]
    ensures Wrapped(op) == Le(op.code, 4) + Le(1, 4) + (Le(table, 4) + ArgsBytes(PairArgs(op.args, ArgNum(op.code), 0)))
  {
    var n := ArgNum(op.code);
    assert PairsFrom(op, n, 0) == PairBytes(op, n, 0) + PairsFrom(op, n, 1) && PairsFrom(op, n, 1) == [];
  }

  /** A PUT of "AB" under "C" in table 258, byte by byte. */
  lemma PutBytes(op: Operation)
    requires op == Operation(1, [258], [[67], [65, 66]])
    ensures Wrapped(op) == [1, 0, 0, 0, 1, 0, 0, 0, 2, 1, 0, 0, 1, 0, 0, 0, 67, 2, 0, 0, 0, 65, 66]
  {
  }

  // ---------- wrap ----------

  /** The length that wrap computes before it writes. */
  method WrappedLength(op: Operation) returns (len: nat)
    requires Fits(op)
    ensures len == |Wrapped(op)|
  {
    var n := ArgNum(op.code);
    len := 4 + 4;
    for p := 0 to op.Pairs()
      invariant len + |PairsFrom(op, n, p)| == |Wrapped(op)|
    {
      ArgsOfPairs(op, n, p);
      assert PairsFrom(op, n, p) == PairBytes(op, n, p) + PairsFrom(op, n, p + 1);
      var k := ArgsLength(PairArgs(op.args, n, p));
      len := len + 4 + k;
    }
  }

  method ArgsLength(args: seq<seq<byte>>) returns (len: nat)
    ensures len == |ArgsBytes(args)|
  {
    len := 0;
    assert args[0..] == args;
    for i := 0 to |args|
      invariant len + |ArgsBytes(args[i..])| == |ArgsBytes(args)|
    {
      assert args[i..][0] == args[i] && args[i..][1..] == args[i + 1..];
      len := len + 4 + |args[i]|;
    }
  }

  /** wrap: an error for a code that is none. The block is filled exactly. */
  method Wrap(op: Operation) returns (r: Result<array<byte>>)
    requires op.code < 5 ==> Fits(op)
    ensures op.code >= 5 ==> r == BadCode
    ensures op.code < 5 ==> r.Ok? && fresh(r.value) && r.value[..] == Wrapped(op)
  {
    if op.code >= TYPE_COUNT { return BadCode; }
    var len := WrappedLength(op);
    var buf := new byte[len](_ => 0);
    ghost var x := buf[..];
    PutHead(op, buf);
    PutPairs(op, buf, x);
    WrittenSlice(x, buf[..], 0, Wrapped(op));
    r := Ok(buf);
  }

  method PutHead(op: Operation, buf: array<byte>)
    requires buf.Length >= 8
    modifies buf
    ensures Written(old(buf[..]), buf[..], 0, Le(op.code, 4) + Le(op.Pairs(), 4))
  {
    ghost var x := buf[..];
    PutAll(buf, 0, Le(op.code, 4));
    ghost var y := buf[..];
    PutAll(buf, 4, Le(op.Pairs(), 4));
    WrittenThen(x, y, buf[..], 0, Le(op.code, 4), Le(op.Pairs(), 4));
  }

  /** The loop over the pairs. */
  method PutPairs(op: Operation, buf: array<byte>, ghost x: seq<byte>)
    requires Fits(op) && buf.Length == |Wrapped(op)| && Written(x, buf[..], 0, Le(op.code, 4) + Le(op.Pairs(), 4))
    modifies buf
    ensures Written(x, buf[..], 0, Wrapped(op))
  {
    var n := ArgNum(op.code);
    var pos := 8;
    ghost var all, done := Wrapped(op), Le(op.code, 4) + Le(op.Pairs(), 4);
    for p := 0 to op.Pairs()
      invariant pos == |done| && Underway(x, buf[..], 0, all, done, PairsFrom(op, n, p))
    {
      ghost var one, z := PairBytes(op, n, p), buf[..];
      assert PairsFrom(op, n, p) == one + PairsFrom(op, n, p + 1);
      var k := PutPair(op, n, p, buf, pos);
      UnderwayNext(x, z, buf[..], 0, all, done, one, PairsFrom(op, n, p + 1));
      done := done + one;
      pos := pos + k;
    }
    UnderwayEnd(x, buf[..], 0, all, done);
  }

  method PutPair(op: Operation, n: nat, p: nat, buf: array<byte>, pos: nat) returns (k: nat)
    requires p < op.Pairs() && pos + |PairBytes(op, n, p)| <= buf.Length
    modifies buf
    ensures k == |PairBytes(op, n, p)| && Written(old(buf[..]), buf[..], pos, PairBytes(op, n, p))
  {
    ghost var x := buf[..];
    PutAll(buf, pos, Le(op.tables[p], 4));
    ghost var y := buf[..];
    k := PutArgs(PairArgs(op.args, n, p), buf, pos + 4);
    WrittenThen(x, y, buf[..], pos, Le(op.tables[p], 4), ArgsBytes(PairArgs(op.args, n, p)));
    k := 4 + k;
  }

  method PutArgs(args: seq<seq<byte>>, buf: array<byte>, pos: nat) returns (k: nat)
    requires pos + |ArgsBytes(args)| <= buf.Length
    modifies buf
    ensures k == |ArgsBytes(args)| && Written(old(buf[..]), buf[..], pos, ArgsBytes(args))
  {
    ghost var x, all := buf[..], ArgsBytes(args);
    ghost var done: seq<byte> := [];
    k := 0;
    UnderwayStart(x, pos, all);
    assert args[0..] == args;
    for i := 0 to |args|
      invariant k == |done| && Underway(x, buf[..], pos, all, done, ArgsBytes(args[i..]))
    {
      assert args[i..][0] == args[i] && args[i..][1..] == args[i + 1..];
      ghost var y := buf[..];
      PutArg(args[i], buf, pos + k);
      UnderwayNext(x, y, buf[..], pos, all, done, ArgBytes(args[i]), ArgsBytes(args[i + 1..]));
      done := done + ArgBytes(args[i]);
      k := k + 4 + |args[i]|;
    }
    UnderwayEnd(x, buf[..], pos, all, done);
  }

  method PutArg(arg: seq<byte>, buf: array<byte>, pos: nat)
    requires pos + |ArgBytes(arg)| <= buf.Length
    modifies buf
    ensures Written(old(buf[..]), buf[..], pos, ArgBytes(arg))
  {
    ghost var x := buf[..];
    PutAll(buf, pos, Le(|arg|, 4));
    ghost var y := buf[..];
    PutAll(buf, pos + 4, arg);
    WrittenThen(x, y, buf[..], pos, Le(|arg|, 4), arg);
  }

  // ---------- unwrap, with a moving offset ----------

  ghost predicate ArgGoal(b: seq<byte>, n: nat, args: seq<seq<byte>>, rest: seq<byte>, left: nat) {
    ReadArgs(b, n) == match ReadArgs(rest, left) case Ok(more) => Ok(Part(args + more.value, more.rest))
      case _ => TooShort
  }

  lemma {:induction false} ArgErrors(b: seq<byte>, n: nat)
    ensures ReadArgs(b, n).Ok? || ReadArgs(b, n).TooShort?
  {
  }

  lemma ArgGoalStart(b: seq<byte>, n: nat)
    ensures ArgGoal(b, n, [], b, n)
  {
    var r := ReadArgs(b, n);
    ArgErrors(b, n);
    if r.Ok? { assert [] + r.value.value == r.value.value; }
  }

  lemma ArgGoalNext(b: seq<byte>, n: nat, args: seq<seq<byte>>, rest: seq<byte>, left: nat, len: nat, tail: seq<byte>)
    requires ArgGoal(b, n, args, rest, left + 1) && ReadInt(rest) == Ok(Part(len, tail)) && len <= |tail|
    ensures ArgGoal(b, n, args + [tail[..len]], tail[len..], left)
  {
    var r := ReadArgs(tail[len..], left);
    if r.Ok? { assert args + ([tail[..len]] + r.value.value) == (args + [tail[..len]]) + r.value.value; }
  }

  /** The loop over the arguments of one pair. */
  method UnwrapArgs(b: seq<byte>, n: nat) returns (r: Result<Part<seq<seq<byte>>>>)
    ensures r == ReadArgs(b, n)
  {
    var args: seq<seq<byte>> := [];
    var rest := b;
    ArgGoalStart(b, n);
    for i := 0 to n
      invariant ArgGoal(b, n, args, rest, n - i)
    {
      var len := ReadInt(rest);
      if !len.Ok? || |len.value.rest| < len.value.value { return TooShort; }
      ArgGoalNext(b, n, args, rest, n - i - 1, len.value.value, len.value.rest);
      args := args + [len.value.rest[..len.value.value]];
      rest := len.value.rest[len.value.value..];
    }
    assert args + [] == args;
    r := Ok(Part(args, rest));
  }

  ghost predicate PairGoal(b: seq<byte>, pairs: nat, n: nat, l: PairList, rest: seq<byte>, left: nat) {
    ReadPairs(b, pairs, n)
    == match ReadPairs(rest, left, n) case Ok(more) => Ok(PairList(l.tables + more.tables, l.args + more.args))
      case _ => TooShort
  }

  lemma {:induction false} PairErrors(b: seq<byte>, pairs: nat, n: nat)
    ensures ReadPairs(b, pairs, n).Ok? || ReadPairs(b, pairs, n).TooShort?
  {
  }

  lemma PairGoalStart(b: seq<byte>, pairs: nat, n: nat)
    ensures PairGoal(b, pairs, n, PairList([], []), b, pairs)
  {
    var r := ReadPairs(b, pairs, n);
    PairErrors(b, pairs, n);
    if r.Ok? { assert [] + r.value.tables == r.value.tables && [] + r.value.args == r.value.args; }
  }

  lemma PairGoalNext(b: seq<byte>, pairs: nat, n: nat, l: PairList, rest: seq<byte>, left: nat,
                     table: nat, x: seq<byte>, args: seq<seq<byte>>, tail: seq<byte>)
    requires PairGoal(b, pairs, n, l, rest, left + 1) && ReadInt(rest) == Ok(Part(table, x))
             && ReadArgs(x, n) == Ok(Part(args, tail))
    ensures PairGoal(b, pairs, n, PairList(l.tables + [table], l.args + args), tail, left)
  {
    var r := ReadPairs(tail, left, n);
    if r.Ok? {
      assert l.tables + ([table] + r.value.tables) == (l.tables + [table]) + r.value.tables;
      assert l.args + (args + r.value.args) == (l.args + args) + r.value.args;
    }
  }

  /** unwrap. */
  method Unwrap(b: seq<byte>) returns (r: Result<Operation>)
    ensures r == Unwrapped(b)
  {
    var code := ReadInt(b);
    if !code.Ok? { return TooShort; }
    var opcode := AsInt(code.value.value);
    if opcode >= TYPE_COUNT { return BadCode; }
    var pairs := ReadInt(code.value.rest);
    if !pairs.Ok? { return TooShort; }
    if pairs.value.value == 0 { return BadPairs; }
    if opcode < 0 { return OutsideTable; }
    var l := UnwrapPairs(pairs.value.rest, pairs.value.value, ArgNum(code.value.value));
    r := match l case Ok(x) => Ok(Operation(code.value.value, x.tables, x.args)) case _ => TooShort;
  }

  /** The loop over the pairs. */
  method UnwrapPairs(b: seq<byte>, pairs: nat, n: nat) returns (r: Result<PairList>)
    ensures r == ReadPairs(b, pairs, n)
  {
    var l, rest := PairList([], []), b;
    PairGoalStart(b, pairs, n);
    for p := 0 to pairs
      invariant PairGoal(b, pairs, n, l, rest, pairs - p)
    {
      var table := ReadInt(rest);
      if !table.Ok? { return TooShort; }
      var args := UnwrapArgs(table.value.rest, n);
      if !args.Ok? { return TooShort; }
      PairGoalNext(b, pairs, n, l, rest, pairs - p - 1, table.value.value, table.value.rest, args.value.value,
        args.value.rest);
      l := PairList(l.tables + [table.value.value], l.args + args.value.value);
      rest := args.value.rest;
    }
    assert l.tables + [] == l.tables && l.args + [] == l.args;
    r := Ok(l);
  }
}
