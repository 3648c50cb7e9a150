/** The byte buffer of a connection: it compacts or doubles when the tail is too short. */
module RpcBuf {
  import opened Bytes

  const SZ_BUF: nat := 1024 * 1024

  /** How much the buffer lacks to hold its content and need more bytes. */
  function Shortfall(size: nat, content: nat, need: nat): nat {
    if need + content > size then need + content - size else 0
  }

  /** The size doubled until it is at least this. */
  function SizeFor(size: nat, least: nat): (r: nat)
    requires size > 0
    ensures r >= least && r >= size && (r == size || r < 2 * least)
    decreases if size < least then least - size else 0
  {
    if size >= least then size else SizeFor(2 * size, least)
  }

  lemma {:induction false} SizeIsMultiple(size: nat, least: nat) returns (k: nat)
    requires size > 0
    ensures SizeFor(size, least) == k * size
    decreases if size < least then least - size else 0
  {
    if size >= least {
      k := 1;
    } else {
      var j := SizeIsMultiple(2 * size, least);
      k := 2 * j;
      assert j * (2 * size) == (2 * j) * size;
    }
  }

  /** The first attempt: twice the size, or the same again if at least half of it was read. */
  function FirstSize(size: nat, idxRead: nat): nat { if idxRead < size / 2 then 2 * size else size }

  class Buf {
    var raw: array<byte>
    var sz: nat
    var idxRead: nat
    var idxWrite: nat

    ghost predicate Valid()
      reads this
    {
      raw.Length == sz && idxRead <= idxWrite <= sz && sz >= SZ_BUF
    }

    /** The bytes written and not yet read. */
    function Contents(): seq<byte>
      reads this, raw
      requires Valid()
    {
      raw[idxRead..idxWrite]
    }

    /** buf_create. */
    constructor ()
      ensures Valid() && fresh(raw) && Contents() == []
    {
      raw := new byte[SZ_BUF](_ => 0);
      sz, idxRead, idxWrite := SZ_BUF, 0, 0;
    }

    /** A new array with the content at its front. */
    method CopyOut(size: nat) returns (nraw: array<byte>)
      requires Valid() && size >= idxWrite - idxRead
      ensures fresh(nraw) && nraw.Length == size && nraw[..idxWrite - idxRead] == Contents()
    {
      nraw := new byte[size](_ => 0);
      for i := 0 to idxWrite - idxRead
        invariant nraw[..i] == raw[idxRead..idxRead + i]
      {
        nraw[i] := raw[idxRead + i];
        assert nraw[..i + 1] == nraw[..i] + [nraw[i]];
        assert raw[idxRead..idxRead + i + 1] == raw[idxRead..idxRead + i] + [raw[idxRead + i]];
      }
    }

    /** buf_realloc: its assertion that the content fits is the precondition. */
    method Realloc(size: nat)
      requires Valid() && size > idxWrite - idxRead && size >= SZ_BUF
      modifies this
      ensures Valid() && fresh(raw) && Contents() == old(Contents())
      ensures sz == size && idxRead == 0 && idxWrite == old(idxWrite - idxRead)
    {
      raw := CopyOut(size);
      idxWrite := idxWrite - idxRead;
      idxRead, sz := 0, size;
    }

    /** Nothing has changed yet, or the content is at the front and the size on its way. */
    ghost predicate Resized(sz0: nat, idxRead0: nat, idxWrite0: nat, need: nat)
      reads this
    {
      || (sz == sz0 && idxRead == idxRead0 && idxWrite == idxWrite0)
      || (sz0 - idxWrite0 < need && idxRead == 0 && sz0 > 0 && sz > 0
          && SizeFor(sz, need + idxWrite) == SizeFor(FirstSize(sz0, idxRead0), need + idxWrite))
    }

    /** buf_readjust: makes room for need bytes behind the content, and stops. */
    method Readjust(need: nat)
      requires Valid()
      modifies this
      ensures Valid() && (raw == old(raw) || fresh(raw)) && Contents() == old(Contents())
      ensures sz - idxWrite >= need && sz >= old(sz)
      ensures old(sz - idxWrite) >= need ==> sz == old(sz) && idxRead == old(idxRead)
      ensures old(sz - idxWrite) < need ==>
                idxRead == 0
                && sz == SizeFor(FirstSize(old(sz), old(idxRead)), need + |Contents()|)
    {
      while sz - idxWrite < need
        invariant Valid() && (raw == old(raw) || fresh(raw)) && Contents() == old(Contents()) && sz >= old(sz)
        invariant Resized(old(sz), old(idxRead), old(idxWrite), need)
        decreases Shortfall(sz, idxWrite - idxRead, need), idxRead
      {
        if idxRead < sz / 2 {
          Realloc(sz * 2);
        } else {
          Realloc(sz);
        }
      }
    }

    /** The bytes stored behind the content become content. */
    method Store(data: seq<byte>)
      requires Valid() && sz - idxWrite >= |data|
      modifies this`idxWrite, raw
      ensures Valid() && Contents() == old(Contents()) + data
    {
      ghost var before := Contents();
      for i := 0 to |data|
        invariant Valid() && idxWrite == old(idxWrite)
        invariant raw[idxRead..idxWrite] == before && raw[idxWrite..idxWrite + i] == data[..i]
      {
        raw[idxWrite + i] := data[i];
        assert raw[idxWrite..idxWrite + i + 1] == raw[idxWrite..idxWrite + i] + [data[i]];
        assert data[..i + 1] == data[..i] + [data[i]];
      }
      assert raw[idxWrite..idxWrite + |data|] == data[..|data|] == data;
      assert raw[idxRead..idxWrite + |data|] == raw[idxRead..idxWrite] + raw[idxWrite..idxWrite + |data|];
      idxWrite := idxWrite + |data|;
    }

    /** buf_write. */
    method Write(data: seq<byte>) returns (n: nat)
      requires Valid()
      modifies this, raw
      ensures Valid() && (raw == old(raw) || fresh(raw)) && Contents() == old(Contents()) + data && n == |data|
    {
      Readjust(|data|);
      Store(data);
      n := |data|;
    }

    /** buf_read: takes at most n bytes. */
    method Read(n: nat) returns (data: seq<byte>)
      requires Valid()
      modifies this`idxRead
      ensures Valid()
      ensures data + Contents() == old(Contents()) && |data| == if |old(Contents())| >= n then n else |old(Contents())|
    {
      var k := if idxWrite - idxRead >= n then n else idxWrite - idxRead;
      data := raw[idxRead..idxRead + k];
      idxRead := idxRead + k;
    }

    /** buf_peek: the same bytes, left where they are. */
    method Peek(n: nat) returns (data: seq<byte>)
      requires Valid()
      ensures data == Contents()[..if |Contents()| >= n then n else |Contents()|]
    {
      var k := if idxWrite - idxRead >= n then n else idxWrite - idxRead;
      data := raw[idxRead..idxRead + k];
    }

    /** One round of buf_from_sock: as much of what has arrived as the tail holds. */
    method TakeSome(arrived: seq<byte>) returns (n: nat)
      requires Valid()
      modifies this, raw
      ensures Valid() && (raw == old(raw) || fresh(raw)) && n <= |arrived| && (n == 0 <==> arrived == [])
      ensures Contents() == old(Contents()) + arrived[..n]
    {
      Readjust(1);
      n := if |arrived| < sz - idxWrite then |arrived| else sz - idxWrite;
      Store(arrived[..n]);
    }

    /** buf_from_sock: takes what has arrived, until the socket has no more. */
    method FromSock(arrived: seq<byte>)
      requires Valid()
      modifies this, raw
      ensures Valid() && (raw == old(raw) || fresh(raw)) && Contents() == old(Contents()) + arrived
    {
      var rest := arrived;
      while true
        invariant Valid() && (raw == old(raw) || fresh(raw)) && Contents() + rest == old(Contents()) + arrived
        decreases |rest|
      {
        ghost var before := Contents();
        var n := TakeSome(rest);
        if n == 0 { break; }
        assert before + rest == before + rest[..n] + rest[n..];
        rest := rest[n..];
      }
    }
  }
}
