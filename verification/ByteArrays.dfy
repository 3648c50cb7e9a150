/** Writing bytes into an array: what was written where, and that nothing else changed. */
module ByteArrays {
  import opened Bytes

  /** From x to y exactly the bytes b were written at off. */
  ghost predicate Written(x: seq<byte>, y: seq<byte>, off: nat, b: seq<byte>) {
    && off + |b| <= |x| == |y|
    && forall i {:trigger y[i]} :: 0 <= i < |x| ==> (y[i] == if off <= i < off + |b| then b[i - off] else x[i])
  }

  lemma WrittenSlice(x: seq<byte>, y: seq<byte>, off: nat, b: seq<byte>)
    requires Written(x, y, off, b)
    ensures y[off..off + |b|] == b && y[..off] == x[..off] && y[off + |b|..] == x[off + |b|..]
  {
  }

  lemma WrittenNothing(x: seq<byte>, off: nat)
    requires off <= |x|
    ensures Written(x, x, off, [])
  {
  }

  lemma WrittenThen(x: seq<byte>, y: seq<byte>, z: seq<byte>, off: nat, a: seq<byte>, b: seq<byte>)
    requires Written(x, y, off, a) && Written(y, z, off + |a|, b)
    ensures Written(x, z, off, a + b)
  {
    forall i {:trigger z[i]} | 0 <= i < |x|
      ensures z[i] == if off <= i < off + |a + b| then (a + b)[i - off] else x[i] {
      assert y[i] == if off <= i < off + |a| then a[i - off] else x[i];
    }
  }

  method Put(out: array<byte>, off: nat, b: byte)
    requires off < out.Length
    modifies out
    ensures Written(old(out[..]), out[..], off, [b])
  {
    out[off] := b;
  }

  method PutAll(out: array<byte>, off: nat, bs: seq<byte>)
    requires off + |bs| <= out.Length
    modifies out
    ensures Written(old(out[..]), out[..], off, bs)
  {
    ghost var x := out[..];
    WrittenNothing(x, off);
    for i := 0 to |bs|
      invariant Written(x, out[..], off, bs[..i])
    {
      ghost var y := out[..];
      Put(out, off + i, bs[i]);
      WrittenThen(x, y, out[..], off, bs[..i], [bs[i]]);
      assert bs[..i + 1] == bs[..i] + [bs[i]];
    }
    assert bs[..|bs|] == bs;
  }

  /** Of the bytes all, done were written at off and rest is still to come. */
  ghost predicate Underway(x: seq<byte>, y: seq<byte>, off: nat, all: seq<byte>, done: seq<byte>, rest: seq<byte>) {
    Written(x, y, off, done) && all == done + rest
  }

  lemma UnderwayStart(x: seq<byte>, off: nat, all: seq<byte>)
    requires off <= |x|
    ensures Underway(x, x, off, all, [], all)
  {
  }

  lemma UnderwayNext(x: seq<byte>, y: seq<byte>, z: seq<byte>, off: nat, all: seq<byte>, done: seq<byte>,
                     one: seq<byte>, rest: seq<byte>)
    requires Underway(x, y, off, all, done, one + rest) && Written(y, z, off + |done|, one)
    ensures Underway(x, z, off, all, done + one, rest)
  {
    WrittenThen(x, y, z, off, done, one);
    assert done + (one + rest) == (done + one) + rest;
  }

  lemma UnderwayEnd(x: seq<byte>, y: seq<byte>, off: nat, all: seq<byte>, done: seq<byte>)
    requires Underway(x, y, off, all, done, [])
    ensures Written(x, y, off, all) && all == done
  {
    assert done + [] == done;
  }
}
