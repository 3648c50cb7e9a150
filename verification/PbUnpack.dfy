/** Unpacking: scan the bytes into members, check the required fields, then parse every member. */
module PbUnpack {
  import opened Options
  import opened Bytes
  import opened PbVarint
  import opened PbMessage
  import opened PbLengths

  /** As many scanned members as the slabs hold: 16, 32, 64, ... in 23 slabs. */
  const MAX_MEMBERS: nat := 16 * 0x7f_ffff

  /** Merge: a singular message came twice, and the runtime would merge the two. Overrun: the runtime
      would count numbers beyond the end of the data. */
  datatype Outcome<+T> = Ok(value: T) | Fail | Merge | Overrun

  datatype Build = Build(slots: seq<Slot>, unknown: seq<Unknown>)

  function ReadNum(k: Kind, data: seq<byte>): nat { if k.KUInt64? then ReadUInt64(data) else ReadUInt32(data) }

  /** parse_packed_repeated_member. */
  function ReadNums(k: Kind, b: seq<byte>): Option<seq<Val>>
    decreases |b|
  {
    if b == [] then Some([])
    else
      var n := VarintLen(b, 10);
      if n == 0 then None
      else
        match ReadNums(k, b[n..])
        case None => None
        case Some(vs) => Some([Num(ReadNum(k, b[..n]))] + vs)
  }

  /** parse_required_member. */
  function ReadVal(s: Schema, k: Kind, m: Scanned): Outcome<Val>
    requires m.pref <= |m.data|
    decreases |m.data|, 3, 0
  {
    if IsNumber(k) then (if m.wire != 0 then Fail else Ok(Num(ReadNum(k, m.data))))
    else if m.wire != 2 then Fail
    else if k.KBytes? then Ok(Blob(m.data[m.pref..]))
    else
      match Unpack(s, k.sub, m.data[m.pref..])
      case Ok(sub) => Ok(Sub(sub))
      case Fail => Fail
      case Merge => Merge
      case Overrun => Overrun
  }

  function Set(st: Build, i: nat, vals: seq<Val>): Build
    requires i < |st.slots|
  {
    st.(slots := st.slots[i := Slot(vals)])
  }

  /** parse_member. */
  function ApplyOne(s: Schema, fs: seq<Field>, st: Build, m: Scanned): (r: Outcome<Build>)
    requires m.pref <= |m.data| && |st.slots| == |fs| && (m.field.Some? ==> m.field.value < |fs|)
    ensures r.Ok? ==> |r.value.slots| == |fs|
    decreases |m.data|, 4, 0
  {
    match m.field
    case None => Ok(st.(unknown := st.unknown + [Unknown(m.tag, m.wire, m.data)]))
    case Some(i) =>
      var f := fs[i];
      var vals := st.slots[i].vals;
      if f.rule.Repeated? && m.wire == 2 && IsNumber(f.kind) then
        match ReadNums(f.kind, m.data[m.pref..])
        case None => Fail
        case Some(vs) => Ok(Set(st, i, vals + vs))
      else
        match ReadVal(s, f.kind, m)
        case Fail => Fail
        case Merge => Merge
        case Overrun => Overrun
        case Ok(v) =>
          if f.rule.Repeated? then Ok(Set(st, i, vals + [v]))
          else if f.kind.KMessage? && vals != [] then Merge
          else Ok(Set(st, i, [v]))
  }

  ghost predicate Known(fs: seq<Field>, ms: seq<Scanned>) {
    forall i :: 0 <= i < |ms| ==> ms[i].field.Some? ==> ms[i].field.value < |fs|
  }

  function ApplyAll(s: Schema, fs: seq<Field>, st: Build, ms: seq<Scanned>, n: nat): Outcome<Build>
    requires Fits(ms, n) && Known(fs, ms) && |st.slots| == |fs|
    decreases n, 1, |ms|
  {
    if ms == [] then Ok(st)
    else
      match ApplyOne(s, fs, st, ms[0])
      case Fail => Fail
      case Merge => Merge
      case Overrun => Overrun
      case Ok(st') => ApplyAll(s, fs, st', ms[1..], n)
  }

  /** Every required field was scanned; the bitmap holds field numbers modulo 128. */
  predicate RequiredSeen(fs: seq<Field>, ms: seq<Scanned>) {
    forall f :: 0 <= f < |fs| && fs[f].rule.Required? ==> SeenBit(fs, ms, f)
  }

  predicate SeenBit(fs: seq<Field>, ms: seq<Scanned>, f: nat) {
    exists i :: 0 <= i < |ms| && ms[i].field.Some? && ms[i].field.value < |fs|
      && fs[ms[i].field.value].rule.Required? && ms[i].field.value % 128 == f % 128
  }

  function Empty(n: nat): (r: seq<Slot>)
    ensures |r| == n && forall i :: 0 <= i < n ==> r[i] == Slot([])
  {
    seq(n, i => Slot([]))
  }

  /** A repeated number field whose length wraps: its numbers are counted up to the length without the
      prefix, which is below zero and taken for a number of 64 bits. */
  predicate OverrunsHere(fs: seq<Field>, b: seq<byte>) {
    WrapsHere(b)
    && match Lookup(fs, ReadTag(b).value.tag) case None => false
       case Some(i) => fs[i].rule.Repeated? && IsNumber(fs[i].kind)
  }

  /** The scan comes to such a field while there is room for one more member. */
  predicate Overruns(fs: seq<Field>, b: seq<byte>, room: nat)
    decreases |b|
  {
    b != [] && room > 0
    && match ScanOne(fs, b) case None => OverrunsHere(fs, b) case Some(st) => Overruns(fs, b[st.used..], room - 1)
  }

  lemma {:induction false} OverrunFails(fs: seq<Field>, b: seq<byte>, room: nat)
    requires Overruns(fs, b, room)
    ensures Scan(fs, b) == None
    decreases |b|
  {
    if ScanOne(fs, b).Some? { OverrunFails(fs, b[ScanOne(fs, b).value.used..], room - 1); }
  }

  /** protobuf_c_message_unpack. */
  function Unpack(s: Schema, d: nat, b: seq<byte>): Outcome<Msg>
    decreases |b|, 2, 0
  {
    var fs := FieldsOf(s, d);
    if Overruns(fs, b, MAX_MEMBERS) then Overrun
    else
      match Scan(fs, b)
      case None => Fail
      case Some(ms) =>
        ScanKnows(fs, b);
        if |ms| > MAX_MEMBERS || !RequiredSeen(fs, ms) then Fail
        else
          match ApplyAll(s, fs, Build(Empty(|fs|), []), ms, |b|)
          case Fail => Fail
          case Merge => Merge
          case Overrun => Overrun
          case Ok(st) => Ok(Msg(d, st.slots, st.unknown))
  }

  /** A scan that succeeds does not overrun. */
  lemma CleanScan(fs: seq<Field>, b: seq<byte>)
    requires Scan(fs, b).Some?
    ensures !Overruns(fs, b, MAX_MEMBERS)
  {
    if Overruns(fs, b, MAX_MEMBERS) { OverrunFails(fs, b, MAX_MEMBERS); }
  }

  lemma {:induction false} ScanKnows(fs: seq<Field>, b: seq<byte>)
    ensures Scan(fs, b).Some? ==> Known(fs, Scan(fs, b).value)
    decreases |b|
  {
    if b != [] && ScanOne(fs, b).Some? {
      ScanKnows(fs, b[ScanOne(fs, b).value.used..]);
    }
  }

  // ---------- when the data is overrun ----------

  /** The bytes that are left after n members. */
  function After(fs: seq<Field>, b: seq<byte>, n: nat): Option<seq<byte>>
    decreases n
  {
    if n == 0 then Some(b)
    else if b == [] then None
    else match ScanOne(fs, b) case None => None case Some(st) => After(fs, b[st.used..], n - 1)
  }

  ghost predicate OverrunsAfter(fs: seq<Field>, b: seq<byte>, n: nat) {
    match After(fs, b, n) case None => false case Some(rest) => OverrunsHere(fs, rest)
  }

  ghost predicate OverrunsWithin(fs: seq<Field>, b: seq<byte>, room: nat) {
    exists n: nat {:trigger OverrunsAfter(fs, b, n)} :: n < room && OverrunsAfter(fs, b, n)
  }

  /** No member more. */
  lemma OverrunNow(fs: seq<Field>, b: seq<byte>, room: nat)
    requires b == [] || room == 0 || ScanOne(fs, b).None?
    ensures OverrunsWithin(fs, b, room) <==> Overruns(fs, b, room)
  {
    assert After(fs, b, 0) == Some(b);
    if OverrunsWithin(fs, b, room) {
      var n: nat :| n < room && OverrunsAfter(fs, b, n);
      assert n == 0;
    }
    if Overruns(fs, b, room) { assert OverrunsAfter(fs, b, 0); }
  }

  lemma OverrunLater(fs: seq<Field>, b: seq<byte>, room: nat, rest: seq<byte>)
    requires b != [] && room > 0 && ScanOne(fs, b).Some? && rest == b[ScanOne(fs, b).value.used..]
    ensures Overruns(fs, b, room) <==> Overruns(fs, rest, room - 1)
    ensures OverrunsWithin(fs, b, room) <==> OverrunsWithin(fs, rest, room - 1)
  {
    forall m: nat ensures OverrunsAfter(fs, b, m + 1) <==> OverrunsAfter(fs, rest, m) {
      assert After(fs, b, m + 1) == After(fs, rest, m);
    }
    if OverrunsWithin(fs, b, room) {
      var n: nat :| n < room && OverrunsAfter(fs, b, n);
      if n == 0 { WrappedScan(fs, b); }
      assert OverrunsAfter(fs, rest, n - 1) <==> OverrunsAfter(fs, b, n - 1 + 1);
    }
    if OverrunsWithin(fs, rest, room - 1) {
      var m: nat :| m < room - 1 && OverrunsAfter(fs, rest, m);
      assert OverrunsAfter(fs, b, m + 1) <==> OverrunsAfter(fs, rest, m);
    }
  }

  /** The scan of one message overruns exactly if, with fewer members than the slabs hold before it, it
      comes to a repeated number field whose length wraps. */
  lemma {:induction false} OverrunsIff(fs: seq<Field>, b: seq<byte>, room: nat)
    ensures Overruns(fs, b, room) <==> OverrunsWithin(fs, b, room)
    decreases |b|
  {
    if b == [] || room == 0 || ScanOne(fs, b).None? {
      OverrunNow(fs, b, room);
    } else {
      var rest := b[ScanOne(fs, b).value.used..];
      OverrunLater(fs, b, room, rest);
      OverrunsIff(fs, rest, room - 1);
    }
  }

  /** No message type has a repeated number field. */
  ghost predicate NoRepeatedNumbers(s: Schema) {
    forall d, i :: 0 <= d < |s| && 0 <= i < |s[d].fields| ==>
      !(s[d].fields[i].rule.Repeated? && IsNumber(s[d].fields[i].kind))
  }

  lemma {:induction false} FieldsNeverOverrun(fs: seq<Field>, b: seq<byte>, room: nat)
    requires forall i :: 0 <= i < |fs| ==> !(fs[i].rule.Repeated? && IsNumber(fs[i].kind))
    ensures !Overruns(fs, b, room)
    decreases |b|
  {
    if b != [] && room > 0 && ScanOne(fs, b).Some? {
      FieldsNeverOverrun(fs, b[ScanOne(fs, b).value.used..], room - 1);
    }
  }

  lemma {:induction false} ValNeverOverruns(s: Schema, k: Kind, m: Scanned)
    requires NoRepeatedNumbers(s) && m.pref <= |m.data|
    ensures !ReadVal(s, k, m).Overrun?
    decreases |m.data|, 3
  {
    if k.KMessage? && m.wire == 2 { NeverOverruns(s, k.sub, m.data[m.pref..]); }
  }

  lemma {:induction false} AllNeverOverrun(s: Schema, fs: seq<Field>, st: Build, ms: seq<Scanned>, n: nat)
    requires NoRepeatedNumbers(s) && Fits(ms, n) && Known(fs, ms) && |st.slots| == |fs|
    ensures !ApplyAll(s, fs, st, ms, n).Overrun?
    decreases n, 1, |ms|
  {
    if ms != [] {
      var m := ms[0];
      if m.field.Some? { ValNeverOverruns(s, fs[m.field.value].kind, m); }
      var one := ApplyOne(s, fs, st, m);
      if one.Ok? { AllNeverOverrun(s, fs, one.value, ms[1..], n); }
    }
  }

  /** Without repeated number fields no bytes whatever make unpacking overrun, not even in submessages. */
  lemma {:induction false} NeverOverruns(s: Schema, d: nat, b: seq<byte>)
    requires NoRepeatedNumbers(s)
    ensures !Unpack(s, d, b).Overrun?
    decreases |b|, 2
  {
    var fs := FieldsOf(s, d);
    FieldsNeverOverrun(fs, b, MAX_MEMBERS);
    if Scan(fs, b).Some? {
      ScanKnows(fs, b);
      AllNeverOverrun(s, fs, Build(Empty(|fs|), []), Scan(fs, b).value, |b|);
    }
  }

  /** Field 1, a repeated number, with the length 2^32 - 1. */
  lemma RepeatedOverruns(s: Schema, b: seq<byte>)
    requires s == [Desc([Field(1, Repeated, KUInt32, false)], [])] && b == [10, 255, 255, 255, 255, 15]
    ensures Unpack(s, 0, b) == Overrun
  {
    var fs := FieldsOf(s, 0);
    assert b[1..] == [255, 255, 255, 255, 15];
    LargestLength(b[1..]);
    assert b[..1] == [10] && Value(b[..1]) == 10;
    assert ReadTag(b) == Some(TagRead(1, 1, 2));
    assert Lookup(fs, 1) == Some(0);
    assert OverrunsHere(fs, b);
    WrappedScan(fs, b);
  }

  // ---------- well-formed messages ----------

  ghost predicate ValOk(s: Schema, k: Kind, v: Val)
    decreases v, 0
  {
    match k
    case KUInt64 => v.Num? && v.n < MAX64
    case KBytes => v.Blob? && |Prefixed(v.data)| < MAX32
    case KMessage(sub) => v.Sub? && v.msg.desc == sub && WellFormed(s, v.msg) && |Body(s, v)| < MAX32
    case _ => v.Num? && v.n < MAX32
  }

  ghost predicate CountOk(f: Field, vs: seq<Val>) {
    && (f.rule.Required? ==> |vs| == 1) && (f.rule.Optional? ==> |vs| <= 1)
    && (f.packed ==> |Prefixed(PackNums(vs))| < MAX32)
  }

  ghost predicate UnknownOk(fs: seq<Field>, u: Unknown) {
    u.tag < MAX32 && u.wire < 8 && Lookup(fs, u.tag).None? && exists pref :: WholeItem(u.wire, pref, u.data)
  }

  ghost predicate WellFormed(s: Schema, m: Msg)
    decreases m, 1
  {
    && m.desc < |s| && |m.slots| == |s[m.desc].fields|
    && (forall i, j :: 0 <= i < |m.slots| && 0 <= j < |m.slots[i].vals| ==>
        ValOk(s, s[m.desc].fields[i].kind, m.slots[i].vals[j]))
    && (forall i :: 0 <= i < |m.slots| ==> CountOk(s[m.desc].fields[i], m.slots[i].vals))
    && (forall u :: u in m.unknown ==> UnknownOk(s[m.desc].fields, u))
  }

  /** No message or submessage has more members than the slabs hold. */
  ghost predicate Bounded(s: Schema, m: Msg)
    decreases m
  {
    && |Members(s, m)| <= MAX_MEMBERS
    && forall i, j :: 0 <= i < |m.slots| && 0 <= j < |m.slots[i].vals| && m.slots[i].vals[j].Sub? ==>
       Bounded(s, m.slots[i].vals[j].msg)
  }

  // ---------- the members a packed message is made of ----------

  function PrefOf(s: Schema, v: Val): nat {
    match v case Num(_) => 0 case Blob(b) => |Varint(|b|)| case Sub(m) => |Varint(|Packed(s, m)|)|
  }

  function ValMembers(s: Schema, m: Msg, i: nat, j: nat): seq<Scanned>
    requires i < |m.slots| && i < |FieldsOf(s, m.desc)|
    decreases |m.slots[i].vals| - j
  {
    if j >= |m.slots[i].vals| then []
    else
      var f, v := FieldsOf(s, m.desc)[i], m.slots[i].vals[j];
      [Scanned(f.id, WireOf(f.kind), Some(i), PrefOf(s, v), Body(s, v))] + ValMembers(s, m, i, j + 1)
  }

  function FieldMembers(s: Schema, m: Msg, i: nat): seq<Scanned>
    requires i < |m.slots| && i < |FieldsOf(s, m.desc)|
  {
    var f, vs := FieldsOf(s, m.desc)[i], m.slots[i].vals;
    if !f.packed then ValMembers(s, m, i, 0)
    else if vs == [] then []
    else [Scanned(f.id, 2, Some(i), |Varint(|PackNums(vs)|)|, Prefixed(PackNums(vs)))]
  }

  function FieldsMembers(s: Schema, m: Msg, i: nat): seq<Scanned>
    decreases |m.slots| - i
  {
    if i >= |m.slots| || i >= |FieldsOf(s, m.desc)| then [] else FieldMembers(s, m, i) + FieldsMembers(s, m, i + 1)
  }

  function UnknownMembers(us: seq<Unknown>): seq<Scanned> {
    if us == [] then []
    else [Scanned(us[0].tag, us[0].wire, None, ItemPref(us[0]), us[0].data)] + UnknownMembers(us[1..])
  }

  function ItemPref(u: Unknown): nat { match ReadItem(u.wire, u.data) case None => 0 case Some(item) => item.pref }

  function Members(s: Schema, m: Msg): seq<Scanned> { FieldsMembers(s, m, 0) + UnknownMembers(m.unknown) }
}
