/** Messages on a byte stream: the size in four bytes, the message id in two, then the data. */
module RpcFrame {
  import opened Bytes
  import opened RpcBuf

  const SZ_SZMSG: nat := 4
  const SZ_MSGID: nat := 2

  datatype Message = Message(id: nat, data: seq<byte>)

  function Frame(m: Message): seq<byte> { Le(|m.data|, SZ_SZMSG) + Le(m.id, SZ_MSGID) + m.data }

  /** The first four bytes are the length of the data, the next two the id, lowest bytes first; then
      come the data. */
  lemma FrameBytes(m: Message)
    ensures Frame(m)[6..] == m.data && |Frame(m)| == 6 + |m.data|
    ensures var n := |m.data|;
            Frame(m)[..6] == [(n % 256) as byte, (n / 256 % 256) as byte, (n / 0x1_0000 % 256) as byte,
                              (n / 0x100_0000 % 256) as byte, (m.id % 256) as byte, (m.id / 256 % 256) as byte]
  {
    LePlaces(|m.data|);
    LePlaces(m.id);
  }

  function Stream(ms: seq<Message>): seq<byte> {
    if ms == [] then [] else Frame(ms[0]) + Stream(ms[1..])
  }

  predicate Fits(m: Message) { |m.data| < 0x1_0000_0000 && 0 < m.id < 0x1_0000 }

  ghost predicate AllFit(ms: seq<Message>) { forall m :: m in ms ==> Fits(m) }

  ghost predicate NoneEmpty(ms: seq<Message>) { forall m :: m in ms ==> m.data != [] }

  /** What the reader takes from its buffer, what it leaves, and whether it met a size of zero, at
      which the process stops. */
  datatype Parsed = Parsed(msgs: seq<Message>, rest: seq<byte>, stopped: bool)

  function Cons(m: Message, p: Parsed): Parsed { p.(msgs := [m] + p.msgs) }

  /** First p, then q for what p left. */
  function Then(p: Parsed, q: Parsed): Parsed { q.(msgs := p.msgs + q.msgs) }

  function Parse(b: seq<byte>): Parsed
    decreases |b|
  {
    if |b| <= SZ_SZMSG then Parsed([], b, false)
    else
      var n := FromLe(b[..SZ_SZMSG]);
      if n == 0 then Parsed([], b, true)
      else if |b| < n + SZ_SZMSG + SZ_MSGID then Parsed([], b, false)
      else
        var k := SZ_SZMSG + SZ_MSGID;
        Cons(Message(FromLe(b[SZ_SZMSG..k]), b[k..k + n]), Parse(b[k + n..]))
  }

  lemma ReadApart(b: seq<byte>, size: seq<byte>, id: seq<byte>, data: seq<byte>, rest: seq<byte>, n: nat)
    requires |size| == SZ_SZMSG && |id| == SZ_MSGID && |data| == n && n > 0 && FromLe(size) == n
    requires b == size + (id + (data + rest))
    ensures Parse(b) == Cons(Message(FromLe(id), data), Parse(rest))
  {
    var k := SZ_SZMSG + SZ_MSGID;
    assert b[..SZ_SZMSG] == size && b[SZ_SZMSG..k] == id && b[k..k + n] == data && b[k + n..] == rest;
  }

  lemma ConsThen(m: Message, p: Parsed, q: Parsed)
    ensures Then(Cons(m, p), q) == Cons(m, Then(p, q)) && Cons(m, p).rest == p.rest
  {
    assert ([m] + p.msgs) + q.msgs == [m] + (p.msgs + q.msgs);
  }

  /** A complete frame in front of a, taken apart; it is in front of a + b as well. */
  lemma FrontFrame(a: seq<byte>, b: seq<byte>) returns (m: Message, rest: seq<byte>)
    requires |a| > SZ_SZMSG && FromLe(a[..SZ_SZMSG]) > 0 && |a| >= FromLe(a[..SZ_SZMSG]) + SZ_SZMSG + SZ_MSGID
    ensures |rest| < |a|
    ensures Parse(a) == Cons(m, Parse(rest)) && Parse(a + b) == Cons(m, Parse(rest + b))
  {
    var n := FromLe(a[..SZ_SZMSG]);
    var k := SZ_SZMSG + SZ_MSGID;
    var size, id, data := a[..SZ_SZMSG], a[SZ_SZMSG..k], a[k..k + n];
    rest := a[k + n..];
    m := Message(FromLe(id), data);
    assert a == size + (id + (data + rest));
    assert a + b == size + (id + (data + (rest + b)));
    ReadApart(a, size, id, data, rest, n);
    ReadApart(a + b, size, id, data, rest + b, n);
  }

  /** Bytes that come later are handled as if they had come at once. */
  lemma {:induction false} ParseJoin(a: seq<byte>, b: seq<byte>)
    requires !Parse(a).stopped
    ensures Parse(a + b) == Then(Parse(a), Parse(Parse(a).rest + b))
    decreases |a|
  {
    if |a| > SZ_SZMSG && |a| >= FromLe(a[..SZ_SZMSG]) + SZ_SZMSG + SZ_MSGID {
      var m, rest := FrontFrame(a, b);
      ParseJoin(rest, b);
      ConsThen(m, Parse(rest), Parse(Parse(rest).rest + b));
    }
  }

  lemma FrameParts(m: Message, t: seq<byte>)
    requires Fits(m)
    ensures var b := Frame(m) + t;
            var k := SZ_SZMSG + SZ_MSGID;
            && |Frame(m)| == k + |m.data| && FromLe(b[..SZ_SZMSG]) == |m.data|
            && FromLe(b[SZ_SZMSG..k]) == m.id && b[k..k + |m.data|] == m.data && b[k + |m.data|..] == t
  {
    LeFour(|m.data|);
    LeTwo(m.id);
    var b := Frame(m) + t;
    assert b[..SZ_SZMSG] == Le(|m.data|, SZ_SZMSG);
    assert b[SZ_SZMSG..SZ_SZMSG + SZ_MSGID] == Le(m.id, SZ_MSGID);
  }

  /** A whole nonempty frame in front is one message. */
  lemma ParseFrame(m: Message, t: seq<byte>)
    requires Fits(m) && m.data != []
    ensures Parse(Frame(m) + t) == Cons(m, Parse(t))
  {
    FrameParts(m, t);
  }

  /** Part of a nonempty frame is left in the buffer. */
  lemma ParsePart(m: Message, b: seq<byte>)
    requires Fits(m) && m.data != [] && b <= Frame(m) && b != Frame(m)
    ensures Parse(b) == Parsed([], b, false)
  {
    FrameParts(m, []);
    assert Frame(m) + [] == Frame(m);
    if |b| > SZ_SZMSG { assert b[..SZ_SZMSG] == Frame(m)[..SZ_SZMSG]; }
  }

  /** The reader delivered exactly the messages of ms whose frames are complete in b, in order, and
      kept the bytes of the next one. */
  ghost predicate DeliversPrefix(ms: seq<Message>, b: seq<byte>, p: Parsed) {
    && !p.stopped && p.msgs <= ms && b == Stream(p.msgs) + p.rest
    && (p.msgs == ms ==> p.rest == [])
    && (p.msgs != ms ==> p.rest <= Frame(ms[|p.msgs|]) && p.rest != Frame(ms[|p.msgs|]))
  }

  lemma DeliversOneMore(m: Message, ms: seq<Message>, b: seq<byte>, p: Parsed)
    requires DeliversPrefix(ms, b, p)
    ensures DeliversPrefix([m] + ms, Frame(m) + b, Cons(m, p))
  {
    var ns := [m] + p.msgs;
    assert ns[1..] == p.msgs;
    assert Stream(ns) == Frame(m) + Stream(p.msgs);
    assert Frame(m) + b == Stream(ns) + p.rest;
    if p.msgs != ms { assert ([m] + ms)[|ns|] == ms[|p.msgs|]; }
    if ns == [m] + ms { assert ([m] + ms)[1..] == ms; }
  }

  /** From any beginning of a stream of nonempty messages. */
  lemma {:induction false} ParsePrefix(ms: seq<Message>, b: seq<byte>)
    requires AllFit(ms) && NoneEmpty(ms) && b <= Stream(ms)
    ensures DeliversPrefix(ms, b, Parse(b))
  {
    if ms != [] {
      var f := Frame(ms[0]);
      if |b| < |f| {
        assert b == Stream(ms)[..|b|] == f[..|b|];
        ParsePart(ms[0], b);
        assert Stream([]) + b == b;
      } else {
        var t := b[|f|..];
        CutFrame(ms, b);
        ParsePrefix(ms[1..], t);
        ParseFrame(ms[0], t);
        DeliversOneMore(ms[0], ms[1..], t, Parse(t));
        assert ms == [ms[0]] + ms[1..];
      }
    }
  }

  lemma CutFrame(ms: seq<Message>, b: seq<byte>)
    requires ms != [] && b <= Stream(ms) && |b| >= |Frame(ms[0])|
    ensures var f := Frame(ms[0]); b == f + b[|f|..] && b[|f|..] <= Stream(ms[1..])
  {
    var f := Frame(ms[0]);
    assert b[..|f|] == Stream(ms)[..|f|] == f;
    assert Stream(ms)[|f|..] == Stream(ms[1..]);
  }

  /** The reader survives the whole stream exactly if no message is empty, and then it has
      delivered them all. */
  lemma {:induction false} AllDeliveredIff(ms: seq<Message>)
    requires AllFit(ms)
    ensures !Parse(Stream(ms)).stopped <==> NoneEmpty(ms)
    ensures NoneEmpty(ms) ==> Parse(Stream(ms)) == Parsed(ms, [], false)
  {
    if ms != [] {
      var t := Stream(ms[1..]);
      assert ms == [ms[0]] + ms[1..];
      AllDeliveredIff(ms[1..]);
      if ms[0].data == [] {
        FrameParts(ms[0], t);
        assert ms[0] in ms;
      } else {
        ParseFrame(ms[0], t);
        assert NoneEmpty(ms) <==> NoneEmpty(ms[1..]);
      }
    }
  }

  // ---------- the writer ----------

  /** write_trigger_poll. Its assertion that the id is not zero is the precondition. */
  method Send(buf: Buf, id: nat, data: seq<byte>)
    requires buf.Valid() && id != 0
    modifies buf, buf.raw
    ensures buf.Valid() && (buf.raw == old(buf.raw) || fresh(buf.raw))
    ensures buf.Contents() == old(buf.Contents()) + Frame(Message(id, data))
  {
    buf.Readjust(|data| + SZ_SZMSG + SZ_MSGID);
    var n := buf.Write(Le(|data|, SZ_SZMSG));
    n := buf.Write(Le(id, SZ_MSGID));
    n := buf.Write(data);
  }

  // ---------- the reader ----------

  /** Of the messages in p the first were taken; the others, if any more are taken, are in rest. */
  ghost predicate Underway(p: Parsed, taken: seq<Message>, rest: seq<byte>, stopped: bool, more: bool) {
    if more then !stopped && p == Then(Parsed(taken, [], false), Parse(rest))
    else p == Parsed(taken, rest, stopped)
  }

  lemma {:induction false} UnderwayJoin(p: Parsed, taken: seq<Message>, b: seq<byte>, add: seq<Message>,
                                        rest: seq<byte>, stopped: bool,
                     more: bool)
    requires Underway(p, taken, b, false, true) && Underway(Parse(b), add, rest, stopped, more)
    ensures Underway(p, taken + add, rest, stopped, more)
  {
    assert taken + (add + Parse(rest).msgs) == (taken + add) + Parse(rest).msgs;
  }

  lemma UnderwayEnd(p: Parsed, taken: seq<Message>, rest: seq<byte>, stopped: bool, more: bool)
    requires Underway(p, taken, rest, stopped, more) && (more ==> |rest| <= SZ_SZMSG)
    ensures p == Parsed(taken, rest, stopped)
  {
  }

  class Reader {
    const buf: Buf
    var delivered: seq<Message>
    var stopped: bool

    constructor ()
      ensures fresh(buf) && fresh(buf.raw) && buf.Valid() && buf.Contents() == [] && delivered == [] && !stopped
    {
      buf := new Buf();
      delivered, stopped := [], false;
    }

    /** The body of the loop: false at a stop or when the next message is not complete. */
    method TakeMessage() returns (more: bool, ghost add: seq<Message>)
      requires buf.Valid() && !stopped && buf.idxWrite - buf.idxRead > SZ_SZMSG
      modifies this, buf`idxRead
      ensures buf.Valid() && (more ==> |buf.Contents()| < |old(buf.Contents())|)
      ensures delivered == old(delivered) + add
              && Underway(Parse(old(buf.Contents())), add, buf.Contents(), stopped, more)
    {
      ghost var b := buf.Contents();
      var size := buf.Peek(SZ_SZMSG);
      var n := FromLe(size);
      if n == 0 {
        stopped := true;
        return false, [];
      }
      if buf.idxWrite - buf.idxRead < n + SZ_SZMSG + SZ_MSGID { return false, []; }
      size := buf.Read(SZ_SZMSG);
      var id := buf.Read(SZ_MSGID);
      var data := buf.Read(n);
      assert b == size + (id + (data + buf.Contents()));
      ReadApart(b, size, id, data, buf.Contents(), n);
      add := [Message(FromLe(id), data)];
      delivered := delivered + [Message(FromLe(id), data)];
      more := true;
    }

    method TakeNext(ghost p0: Parsed, ghost d0: seq<Message>, ghost got: seq<Message>)
        returns (more: bool, ghost got': seq<Message>)
      requires buf.Valid() && !stopped && buf.idxWrite - buf.idxRead > SZ_SZMSG
      requires delivered == d0 + got && Underway(p0, got, buf.Contents(), stopped, true)
      modifies this, buf`idxRead
      ensures buf.Valid() && (more ==> buf.idxWrite - buf.idxRead < old(buf.idxWrite - buf.idxRead))
      ensures delivered == d0 + got' && Underway(p0, got', buf.Contents(), stopped, more)
    {
      ghost var b, add := buf.Contents(), [];
      more, add := TakeMessage();
      UnderwayJoin(p0, got, b, add, buf.Contents(), stopped, more);
      got' := got + add;
    }

    /** The loop of handle_sconn_read; stopped says that an assertion ended the process. */
    method TakeMessages() returns (ghost got: seq<Message>)
      requires buf.Valid() && !stopped
      modifies this, buf`idxRead
      ensures buf.Valid() && delivered == old(delivered) + got
      ensures Parse(old(buf.Contents())) == Parsed(got, buf.Contents(), stopped)
    {
      ghost var p0, d0 := Parse(buf.Contents()), delivered;
      got := [];
      var more := true;
      assert Underway(p0, [], buf.Contents(), stopped, true);
      while more && buf.idxWrite - buf.idxRead > SZ_SZMSG
        invariant buf.Valid() && delivered == d0 + got && Underway(p0, got, buf.Contents(), stopped, more)
        decreases more, buf.idxWrite - buf.idxRead
      {
        more, got := TakeNext(p0, d0, got);
      }
      UnderwayEnd(p0, got, buf.Contents(), stopped, more);
    }

    /** handle_sconn_read, when these bytes have arrived. */
    method HandleRead(arrived: seq<byte>)
      requires buf.Valid() && !stopped
      modifies this, buf, buf.raw
      ensures buf.Valid() && (buf.raw == old(buf.raw) || fresh(buf.raw))
      ensures var p := Parse(old(buf.Contents()) + arrived);
              delivered == old(delivered) + p.msgs && buf.Contents() == p.rest && stopped == p.stopped
    {
      buf.FromSock(arrived);
      ghost var got := TakeMessages();
    }
  }

  // ---------- any fragmentation ----------

  function Concat(chunks: seq<seq<byte>>): seq<byte> {
    if chunks == [] then [] else Concat(chunks[..|chunks| - 1]) + chunks[|chunks| - 1]
  }

  /** The reader's state after these chunks arrived one by one: each is one HandleRead, and after a
      stop nothing more is read. */
  function AfterChunks(chunks: seq<seq<byte>>): Parsed {
    if chunks == [] then Parsed([], [], false)
    else
      var s := AfterChunks(chunks[..|chunks| - 1]);
      if s.stopped then s
      else
        Then(s, Parse(s.rest + chunks[|chunks| - 1]))
  }

  /** How the bytes were cut makes no difference. */
  lemma {:induction false} CutsDoNotMatter(chunks: seq<seq<byte>>)
    ensures AfterChunks(chunks).stopped ==> Parse(Concat(chunks)).stopped
    ensures AfterChunks(chunks).msgs == Parse(Concat(chunks)).msgs
    ensures !AfterChunks(chunks).stopped ==> AfterChunks(chunks) == Parse(Concat(chunks))
  {
    if chunks != [] {
      var front, last := chunks[..|chunks| - 1], chunks[|chunks| - 1];
      CutsDoNotMatter(front);
      if AfterChunks(front).stopped {
        ParseStopped(Concat(front), last);
      } else {
        ParseJoin(Concat(front), last);
      }
    }
  }

  lemma {:induction false} ParseStopped(a: seq<byte>, b: seq<byte>)
    requires Parse(a).stopped
    ensures Parse(a + b).stopped && Parse(a + b).msgs == Parse(a).msgs
    decreases |a|
  {
    if FromLe(a[..SZ_SZMSG]) == 0 {
      assert (a + b)[..SZ_SZMSG] == a[..SZ_SZMSG];
    } else {
      var m, rest := FrontFrame(a, b);
      ParseStopped(rest, b);
    }
  }

  /** For every list of nonempty messages and every way to cut any beginning of their stream: what
      was delivered is a beginning of the list, with every message whose frame has arrived. */
  lemma DeliveredInOrder(ms: seq<Message>, chunks: seq<seq<byte>>)
    requires AllFit(ms) && NoneEmpty(ms) && Concat(chunks) <= Stream(ms)
    ensures var s := AfterChunks(chunks);
            && !s.stopped && s.msgs <= ms
            && (s.msgs != ms ==> |Concat(chunks)| < |Stream(s.msgs)| + |Frame(ms[|s.msgs|])|)
            && (Concat(chunks) == Stream(ms) ==> s.msgs == ms && s.rest == [])
  {
    CutsDoNotMatter(chunks);
    ParsePrefix(ms, Concat(chunks));
    if Concat(chunks) == Stream(ms) { AllDeliveredIff(ms); }
  }
}
