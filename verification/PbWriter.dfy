/** Writing into a byte array: varints, tags, and items whose length is known only once they are
    written, for which the bytes are moved up. */
module PbWriter {
  import opened Bytes
  import opened PbVarint
  import opened ByteArrays

  /** One byte of a varint that goes on. */
  method PutMore(out: array<byte>, off: nat, v: nat) returns (v': nat)
    requires off < out.Length && v >= 128
    modifies out
    ensures Written(old(out[..]), out[..], off, [(v % 128 + 128) as byte]) && v' == v / 128
    ensures Varint(v) == [(v % 128 + 128) as byte] + Varint(v')
  {
    Put(out, off, (v % 128 + 128) as byte);
    v' := v / 128;
  }

  lemma UInt32Fits(value: nat)
    requires value < MAX32
    ensures value / 128 / 128 / 128 / 128 < 128
  {
  }

  /** uint32_pack, branch by branch. */
  method UInt32Pack(value: nat, out: array<byte>, off: nat) returns (rv: nat)
    requires value < MAX32 && off + |Varint(value)| <= out.Length
    modifies out
    ensures rv == |Varint(value)| && Written(old(out[..]), out[..], off, Varint(value))
  {
    ghost var x := out[..];
    ghost var done: seq<byte> := [];
    var v := value;
    rv := 0;
    WrittenNothing(x, off);
    UInt32Fits(value);
    if v >= 0x80 {
      v, done := PackMore(out, off, v, value, rv, x, done);
      rv := 1;
      if v >= 0x80 {
        v, done := PackMore(out, off, v, value, rv, x, done);
        rv := 2;
        if v >= 0x80 {
          v, done := PackMore(out, off, v, value, rv, x, done);
          rv := 3;
          if v >= 0x80 {
            v, done := PackMore(out, off, v, value, rv, x, done);
            rv := 4;
          }
        }
      }
    }
    PutLast(out, off, rv, v, value, x, done);
    rv := rv + 1;
  }

  method PackMore(out: array<byte>, off: nat, v: nat, ghost value: nat, rv: nat, ghost x: seq<byte>,
                  ghost done: seq<byte>)
      returns (v': nat, ghost done': seq<byte>)
    requires v >= 128 && off + |Varint(value)| <= out.Length && |done| == rv
    requires Written(x, out[..], off, done) && Varint(value) == done + Varint(v)
    modifies out
    ensures v' == v / 128 && |done'| == rv + 1
    ensures Written(x, out[..], off, done') && Varint(value) == done' + Varint(v')
  {
    ghost var y := out[..];
    v' := PutMore(out, off + rv, v);
    done' := done + [(v % 128 + 128) as byte];
    WrittenThen(x, y, out[..], off, done, [(v % 128 + 128) as byte]);
    assert done + ([(v % 128 + 128) as byte] + Varint(v')) == done' + Varint(v');
  }

  /** The quotients of the whole by powers of 128, from its halves. */
  lemma Halves(value: nat, hi: nat, lo: nat)
    requires value == 0x1_0000_0000 * hi + lo && lo < 0x1_0000_0000
    ensures value % 128 == lo % 128 && value / 128 % 128 == lo / 128 % 128
    ensures value / 128 / 128 % 128 == lo / 0x4000 % 128
    ensures value / 128 / 128 / 128 % 128 == lo / 0x20_0000 % 128
    ensures value / 128 / 128 / 128 / 128 == 16 * hi + lo / 0x1000_0000
  {
    assert value / 128 == 0x200_0000 * hi + lo / 128;
    assert value / 128 / 128 == 0x4_0000 * hi + lo / 0x4000;
    assert value / 128 / 128 / 128 == 0x800 * hi + lo / 0x20_0000;
  }

  /** Four bytes that go on, and what is left of the number. */
  lemma FourMore(v: nat)
    requires v >= MAX32
    ensures var w := v / 128 / 128 / 128 / 128;
            w >= 16 && Varint(v) == [(v % 128 + 128) as byte, (v / 128 % 128 + 128) as byte,
              (v / 128 / 128 % 128 + 128) as byte,
                                     (v / 128 / 128 / 128 % 128 + 128) as byte] + Varint(w)
  {
    var v1 := v / 128;
    var v2 := v1 / 128;
    var v3 := v2 / 128;
    assert Varint(v) == [(v % 128 + 128) as byte] + Varint(v1);
    assert Varint(v1) == [(v1 % 128 + 128) as byte] + Varint(v2);
    assert Varint(v2) == [(v2 % 128 + 128) as byte] + Varint(v3);
    assert Varint(v3) == [(v3 % 128 + 128) as byte] + Varint(v3 / 128);
  }

  /** uint64_pack: four bytes from the lower half, one from both, the rest from the upper half. */
  method UInt64Pack(value: nat, out: array<byte>, off: nat) returns (rv: nat)
    requires value < MAX64 && off + |Varint(value)| <= out.Length
    modifies out
    ensures rv == |Varint(value)| && Written(old(out[..]), out[..], off, Varint(value))
  {
    var hi: nat, lo: nat := value / MAX32, value % MAX32;
    if hi == 0 {
      rv := UInt32Pack(lo, out, off);
    } else {
      ghost var x := out[..];
      ghost var four := PackLow(value, hi, lo, out, off);
      rv := PackHigh(value, hi, lo, out, off, x, four);
    }
  }

  method PackLow(value: nat, hi: nat, lo: nat, out: array<byte>, off: nat) returns (ghost four: seq<byte>)
    requires value == MAX32 * hi + lo && hi > 0 && lo < MAX32 && off + |Varint(value)| <= out.Length
    modifies out
    ensures |four| == 4 && Written(old(out[..]), out[..], off, four)
            && Varint(value) == four + Varint(16 * hi + lo / 0x1000_0000)
  {
    Halves(value, hi, lo);
    FourMore(value);
    var bs := [(lo % 128 + 128) as byte, (lo / 0x80 % 128 + 128) as byte, (lo / 0x4000 % 128 + 128) as byte,
               (lo / 0x20_0000 % 128 + 128) as byte];
    PutAll(out, off, bs);
    four := bs;
  }

  method PackHigh(value: nat, hi0: nat, lo: nat, out: array<byte>, off: nat, ghost x: seq<byte>, ghost four: seq<byte>)
      returns (rv: nat)
    requires hi0 > 0 && lo < MAX32 && off + |Varint(value)| <= out.Length && |four| == 4
    requires Written(x, out[..], off, four) && Varint(value) == four + Varint(16 * hi0 + lo / 0x1000_0000)
    modifies out
    ensures rv == |Varint(value)| && Written(x, out[..], off, Varint(value))
  {
    var hi: nat := hi0;
    if hi < 8 {
      PutLast(out, off, 4, 16 * hi + lo / 0x1000_0000, value, x, four);
      return 5;
    }
    ghost var done := PutFifth(out, off, hi, lo, value, x, four);
    hi := hi / 8;
    rv := 5;
    while hi >= 128
      invariant rv == |done| && Written(x, out[..], off, done) && Varint(value) == done + Varint(hi)
      decreases hi
    {
      hi, done := PackMore(out, off, hi, value, rv, x, done);
      rv := rv + 1;
    }
    PutLast(out, off, rv, hi, value, x, done);
    rv := rv + 1;
  }

  method PutFifth(out: array<byte>, off: nat, hi: nat, lo: nat, ghost value: nat, ghost x: seq<byte>,
                  ghost four: seq<byte>)
      returns (ghost done: seq<byte>)
    requires hi >= 8 && lo < MAX32 && off + |Varint(value)| <= out.Length && |four| == 4
    requires Written(x, out[..], off, four) && Varint(value) == four + Varint(16 * hi + lo / 0x1000_0000)
    modifies out
    ensures |done| == 5 && Written(x, out[..], off, done) && Varint(value) == done + Varint(hi / 8)
  {
    ghost var w := 16 * hi + lo / 0x1000_0000;
    assert 16 * (hi % 8) + lo / 0x1000_0000 == w % 128 && w / 128 == hi / 8;
    ghost var y := out[..];
    Put(out, off + 4, (16 * (hi % 8) + lo / 0x1000_0000 + 128) as byte);
    WrittenThen(x, y, out[..], off, four, [(w % 128 + 128) as byte]);
    done := four + [(w % 128 + 128) as byte];
    assert four + ([(w % 128 + 128) as byte] + Varint(hi / 8)) == done + Varint(hi / 8);
  }

  /** The byte that ends a varint. */
  method PutLast(out: array<byte>, off: nat, rv: nat, v: nat, ghost value: nat, ghost x: seq<byte>,
                 ghost done: seq<byte>)
    requires v < 128 && off + |Varint(value)| <= out.Length && |done| == rv
    requires Written(x, out[..], off, done) && Varint(value) == done + Varint(v)
    modifies out
    ensures Written(x, out[..], off, Varint(value)) && rv + 1 == |Varint(value)|
  {
    ghost var y := out[..];
    Put(out, off + rv, v as byte);
    WrittenThen(x, y, out[..], off, done, [v as byte]);
  }

  /** tag_pack and the wire type that the caller puts into the first byte. */
  method TagPack(id: nat, wire: nat, out: array<byte>, off: nat) returns (rv: nat)
    requires id < MAX32 && wire < 8 && off + |Tag(id, wire)| <= out.Length
    modifies out
    ensures rv == |Tag(id, wire)| && Written(old(out[..]), out[..], off, Tag(id, wire))
  {
    ghost var x := out[..];
    TagLength(id, wire);
    TagLength(id, 0);
    if id < 0x2000_0000 {
      rv := UInt32Pack(8 * id, out, off);
    } else {
      rv := UInt64Pack(8 * id, out, off);
    }
    WireBits(id, wire);
    assert out[off] == Varint(8 * id)[0];
    ghost var y := out[..];
    out[off] := (out[off] as int + wire) as byte;
    assert out[..] == y[off := Tag(id, wire)[0]];
    WrittenHead(x, y, out[..], off, Varint(8 * id), Tag(id, wire));
  }

  lemma WrittenHead(x: seq<byte>, y: seq<byte>, z: seq<byte>, off: nat, b: seq<byte>, c: seq<byte>)
    requires Written(x, y, off, b) && |b| == |c| > 0 && b[1..] == c[1..] && z == y[off := c[0]]
    ensures Written(x, z, off, c)
  {
    assert b == [b[0]] + b[1..] && c == [c[0]] + c[1..];
  }

  /** The wire type fills the three low bits of the first byte. */
  lemma WireBits(id: nat, wire: nat)
    requires wire < 8
    ensures var b, c := Varint(8 * id), Tag(id, wire);
            |b| == |c| && c[0] as int == b[0] as int + wire && b[1..] == c[1..]
  {
    assert (8 * id + wire) / 128 == 8 * id / 128;
    if 8 * id < 128 { assert 8 * id + wire < 128; }
  }
}
