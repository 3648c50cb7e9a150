/** Packing a message into a byte array, in place: a submessage and a packed field are written
    before their length is known and moved up if the length takes more bytes than were left for it. */
module PbPack {
  import opened Bytes
  import opened PbVarint
  import opened PbMessage
  import opened PbUnpack
  import opened PbRoundTrip
  import opened PbWriter
  import opened ByteArrays

  /** memmove within the array. */
  method MemMove(out: array<byte>, dst: nat, src: nat, n: nat)
    requires src + n <= out.Length && dst + n <= out.Length
    modifies out
    ensures Written(old(out[..]), out[..], dst, old(out[src..src + n]))
  {
    PutAll(out, dst, out[src..src + n]);
  }

  /** The item p was written at off + gap, moved to off + |v|, and its length v put before it. */
  lemma WrittenMoved(x: seq<byte>, y: seq<byte>, z: seq<byte>, w: seq<byte>, off: nat, gap: nat, v: seq<byte>,
                     p: seq<byte>)
    requires Written(x, y, off + gap, p) && 0 < gap <= |v| && Written(y, z, off + |v|, p) && Written(z, w, off, v)
    ensures Written(x, w, off, v + p)
  {
    forall i {:trigger w[i]} | 0 <= i < |x|
      ensures w[i] == if off <= i < off + |v + p| then (v + p)[i - off] else x[i] {
      assert w[i] == if off <= i < off + |v| then v[i - off] else z[i];
      assert z[i] == if off + |v| <= i < off + |v| + |p| then p[i - off - |v|] else y[i];
      assert y[i] == if off + gap <= i < off + gap + |p| then p[i - off - gap] else x[i];
    }
  }

  /** The item p stands at off + gap; it moves up if its length needs more than gap bytes, and the
      length is put before it. */
  method PutLength(out: array<byte>, off: nat, gap: nat, len: nat, ghost x: seq<byte>, ghost p: seq<byte>)
      returns (n: nat)
    requires len == |p| && |Prefixed(p)| < MAX32 && 0 < gap <= |Varint(len)| && off + |Prefixed(p)| <= out.Length
    requires Written(x, out[..], off + gap, p)
    modifies out
    ensures n == |Varint(len)| && Written(x, out[..], off, Prefixed(p))
  {
    ghost var y := out[..];
    WrittenSlice(x, y, off + gap, p);
    assert out[off + gap..off + gap + len] == p;
    n := MoveUp(out, off, gap, len, p);
    ghost var z := out[..];
    n := UInt32Pack(len, out, off);
    WrittenMoved(x, y, z, out[..], off, gap, Varint(len), p);
  }

  method MoveUp(out: array<byte>, off: nat, gap: nat, len: nat, ghost p: seq<byte>) returns (n: nat)
    requires len == |p| < MAX32 && gap <= |Varint(len)| && off + |Varint(len)| + len <= out.Length
    requires out[off + gap..off + gap + len] == p
    modifies out
    ensures n == |Varint(len)| && Written(old(out[..]), out[..], off + n, p)
  {
    n := UInt32Size(len);
    if n != gap {
      MemMove(out, off + n, off + gap, len);
    } else {
      WrittenSame(out[..], off + gap, p);
    }
  }

  lemma WrittenSame(x: seq<byte>, off: nat, p: seq<byte>)
    requires off + |p| <= |x| && x[off..off + |p|] == p
    ensures Written(x, x, off, p)
  {
    forall i | off <= i < off + |p| ensures x[i] == p[i - off] { assert x[off..off + |p|][i - off] == x[i]; }
  }

  /** binary_data_pack. */
  method BytesPack(b: seq<byte>, out: array<byte>, off: nat) returns (rv: nat)
    requires |b| < MAX32 && off + |Prefixed(b)| <= out.Length
    modifies out
    ensures rv == |Prefixed(b)| && Written(old(out[..]), out[..], off, Prefixed(b))
  {
    ghost var x := out[..];
    rv := UInt32Pack(|b|, out, off);
    ghost var y := out[..];
    PutAll(out, off + rv, b);
    WrittenThen(x, y, out[..], off, Varint(|b|), b);
    rv := rv + |b|;
  }

  /** prefixed_message_pack: one byte is left for the length. */
  method PrefixedMessagePack(s: Schema, m: Msg, out: array<byte>, off: nat) returns (rv: nat)
    requires SchemaOk(s) && WellFormed(s, m) && |Prefixed(Packed(s, m))| < MAX32
             && off + |Prefixed(Packed(s, m))| <= out.Length
    modifies out
    ensures rv == |Prefixed(Packed(s, m))| && Written(old(out[..]), out[..], off, Prefixed(Packed(s, m)))
    decreases m, 7
  {
    ghost var x := out[..];
    ghost var p := Packed(s, m);
    rv := MessagePack(s, m, out, off + 1);
    var n := PutLength(out, off, 1, rv, x, p);
    rv := n + rv;
  }

  /** required_field_pack. */
  method RequiredFieldPack(s: Schema, f: Field, v: Val, out: array<byte>, off: nat) returns (rv: nat)
    requires SchemaOk(s) && f.id < MAX32 && ValOk(s, f.kind, v)
    requires off + |Tag(f.id, WireOf(f.kind))| + |Body(s, v)| <= out.Length
    modifies out
    ensures rv == |Tag(f.id, WireOf(f.kind)) + Body(s, v)|
    ensures Written(old(out[..]), out[..], off, Tag(f.id, WireOf(f.kind)) + Body(s, v))
    decreases v, 1
  {
    ghost var x := out[..];
    rv := TagPack(f.id, WireOf(f.kind), out, off);
    ghost var y := out[..];
    var n := BodyPack(s, f, v, out, off + rv);
    WrittenThen(x, y, out[..], off, Tag(f.id, WireOf(f.kind)), Body(s, v));
    rv := rv + n;
  }

  /** The switch over the field's type. */
  method BodyPack(s: Schema, f: Field, v: Val, out: array<byte>, off: nat) returns (n: nat)
    requires SchemaOk(s) && ValOk(s, f.kind, v) && off + |Body(s, v)| <= out.Length
    modifies out
    ensures n == |Body(s, v)| && Written(old(out[..]), out[..], off, Body(s, v))
    decreases v, 0
  {
    match f.kind
    case KUInt64 => n := UInt64Pack(v.n, out, off);
    case KBytes => n := BytesPack(v.data, out, off);
    case KMessage(_) => n := PrefixedMessagePack(s, v.msg, out, off);
    case _ => n := UInt32Pack(v.n, out, off);
  }

  /** The values of a field, each with its tag. */
  method ValuesPack(s: Schema, m: Msg, i: nat, out: array<byte>, off: nat) returns (rv: nat)
    requires SchemaOk(s) && FieldGood(s, m, i) && off + |PackVals(s, m, i, 0)| <= out.Length
    modifies out
    ensures rv == |PackVals(s, m, i, 0)| && Written(old(out[..]), out[..], off, PackVals(s, m, i, 0))
    decreases m, 2
  {
    var f, vs := s[m.desc].fields[i], m.slots[i].vals;
    ghost var x := out[..];
    ghost var all, done := PackVals(s, m, i, 0), [];
    rv := 0;
    UnderwayStart(x, off, all);
    for j := 0 to |vs|
      invariant rv == |done| && Underway(x, out[..], off, all, done, PackVals(s, m, i, j))
    {
      var n := ValueStep(s, m, i, j, out, off, rv, x, all, done);
      done := done + (Tag(f.id, WireOf(f.kind)) + Body(s, vs[j]));
      rv := rv + n;
    }
    UnderwayEnd(x, out[..], off, all, done);
  }

  method ValueStep(s: Schema, m: Msg, i: nat, j: nat, out: array<byte>, off: nat, at: nat, ghost x: seq<byte>,
                   ghost all: seq<byte>, ghost done: seq<byte>) returns (n: nat)
    requires SchemaOk(s) && FieldGood(s, m, i) && j < |m.slots[i].vals| && at == |done| && off + |all| <= out.Length
    requires Underway(x, out[..], off, all, done, PackVals(s, m, i, j))
    modifies out
    ensures var one := Tag(s[m.desc].fields[i].id, WireOf(s[m.desc].fields[i].kind)) + Body(s, m.slots[i].vals[j]);
            n == |one| && Underway(x, out[..], off, all, done + one, PackVals(s, m, i, j + 1))
    decreases m, 1
  {
    ghost var y := out[..];
    var f, v := s[m.desc].fields[i], m.slots[i].vals[j];
    ghost var one := Tag(f.id, WireOf(f.kind)) + Body(s, v);
    assert PackVals(s, m, i, j) == one + PackVals(s, m, i, j + 1);
    n := RequiredFieldPack(s, f, v, out, off + at);
    UnderwayNext(x, y, out[..], off, all, done, one, PackVals(s, m, i, j + 1));
  }

  // ---------- packed fields ----------

  /** A varint payload has at least one and at most ten bytes a number. */
  lemma {:induction false} PayloadBounds(s: Schema, k: Kind, vs: seq<Val>)
    requires IsNumber(k) && forall j :: 0 <= j < |vs| ==> ValOk(s, k, vs[j])
    ensures |vs| <= |PackNums(vs)| <= 10 * |vs|
  {
    if vs != [] {
      assert UInt64Size(vs[0].n) <= 10;
      PayloadBounds(s, k, vs[1..]);
    }
  }

  /** The length of the payload takes at most one byte more than the count does: the assertion of
      repeated_field_pack holds. */
  lemma LengthByte(count: nat, payload: nat)
    requires 0 < count <= payload <= 10 * count && payload < MAX32
    ensures UInt32Size(payload) == UInt32Size(count) || UInt32Size(payload) == UInt32Size(count) + 1
  {
    var a, b := UInt32Size(count), UInt32Size(payload);
    SizeRange(count);
    SizeRange(payload);
  }

  lemma SizeRange(v: nat)
    requires v < MAX32
    ensures UInt32Size(v) == if v < 0x80 then 1 else if v < 0x4000 then 2 else if v < 0x20_0000 then 3
            else if v < 0x1000_0000 then 4 else 5
  {
    var r := if v < 0x80 then 1 else if v < 0x4000 then 2 else if v < 0x20_0000 then 3 else if v < 0x1000_0000 then 4
      else 5;
    Powers();
    VarintLength(v, r);
  }

  /** The loop over the numbers of a packed field. */
  method PayloadPack(s: Schema, k: Kind, vs: seq<Val>, out: array<byte>, off: nat) returns (len: nat)
    requires IsNumber(k) && forall j :: 0 <= j < |vs| ==> ValOk(s, k, vs[j])
    requires off + |PackNums(vs)| <= out.Length
    modifies out
    ensures len == |PackNums(vs)| && Written(old(out[..]), out[..], off, PackNums(vs))
  {
    ghost var x, all := out[..], PackNums(vs);
    ghost var done: seq<byte> := [];
    len := 0;
    UnderwayStart(x, off, all);
    assert vs[0..] == vs;
    for j := 0 to |vs|
      invariant len == |done| && Underway(x, out[..], off, all, done, PackNums(vs[j..]))
    {
      ghost var y := out[..];
      ghost var one := Varint(vs[j].n);
      assert vs[j..][0] == vs[j] && vs[j..][1..] == vs[j + 1..];
      assert ValOk(s, k, vs[j]);
      var n: nat;
      if k.KUInt64? { n := UInt64Pack(vs[j].n, out, off + len); } else { n := UInt32Pack(vs[j].n, out, off + len); }
      UnderwayNext(x, y, out[..], off, all, done, one, PackNums(vs[j + 1..]));
      done := done + one;
      len := len + n;
    }
    UnderwayEnd(x, out[..], off, all, done);
  }

  /** The packed case of repeated_field_pack: room is left for the length of at least one byte a
      number, and the payload moves up by one byte if that was not enough. */
  method PackedFieldPack(s: Schema, m: Msg, i: nat, out: array<byte>, off: nat) returns (rv: nat)
    requires SchemaOk(s) && FieldGood(s, m, i) && s[m.desc].fields[i].packed && off + |PackField(s, m, i)| <= out.Length
    modifies out
    ensures rv == |PackField(s, m, i)| && Written(old(out[..]), out[..], off, PackField(s, m, i))
  {
    var f, vs := s[m.desc].fields[i], m.slots[i].vals;
    ghost var x := out[..];
    WrittenNothing(x, off);
    if vs == [] { return 0; }
    PayloadBounds(s, f.kind, vs);
    var h := TagPack(f.id, 2, out, off);
    ghost var y := out[..];
    var n := PrefixedNumsPack(s, f.kind, vs, out, off + h);
    WrittenThen(x, y, out[..], off, Tag(f.id, 2), Prefixed(PackNums(vs)));
    rv := h + n;
  }

  method PrefixedNumsPack(s: Schema, k: Kind, vs: seq<Val>, out: array<byte>, off: nat) returns (rv: nat)
    requires IsNumber(k) && vs != [] && |Prefixed(PackNums(vs))| < MAX32 && off + |Prefixed(PackNums(vs))| <= out.Length
    requires forall j :: 0 <= j < |vs| ==> ValOk(s, k, vs[j])
    modifies out
    ensures rv == |Prefixed(PackNums(vs))| && Written(old(out[..]), out[..], off, Prefixed(PackNums(vs)))
  {
    ghost var x, p := out[..], PackNums(vs);
    PayloadBounds(s, k, vs);
    var sizeMin := UInt32Size(|vs|);
    LengthByte(|vs|, |p|);
    assert |Varint(|p|)| == sizeMin || |Varint(|p|)| == sizeMin + 1;
    var len := PayloadPack(s, k, vs, out, off + sizeMin);
    var n := PutLength(out, off, sizeMin, len, x, p);
    rv := n + len;
  }

  // ---------- the message ----------

  method FieldPack(s: Schema, m: Msg, i: nat, out: array<byte>, off: nat) returns (rv: nat)
    requires SchemaOk(s) && FieldGood(s, m, i) && off + |PackField(s, m, i)| <= out.Length
    modifies out
    ensures rv == |PackField(s, m, i)| && Written(old(out[..]), out[..], off, PackField(s, m, i))
    decreases m, 3
  {
    if s[m.desc].fields[i].packed {
      rv := PackedFieldPack(s, m, i, out, off);
    } else {
      rv := ValuesPack(s, m, i, out, off);
    }
  }

  method UnknownPack(fs: seq<Field>, us: seq<Unknown>, out: array<byte>, off: nat) returns (rv: nat)
    requires (forall u :: u in us ==> UnknownOk(fs, u)) && off + |PackUnknown(us)| <= out.Length
    modifies out
    ensures rv == |PackUnknown(us)| && Written(old(out[..]), out[..], off, PackUnknown(us))
  {
    ghost var x, all := out[..], PackUnknown(us);
    ghost var done: seq<byte> := [];
    rv := 0;
    UnderwayStart(x, off, all);
    assert us[0..] == us;
    for j := 0 to |us|
      invariant rv == |done| && Underway(x, out[..], off, all, done, PackUnknown(us[j..]))
    {
      var u := us[j];
      assert UnknownOk(fs, u);
      assert us[j..][0] == u && us[j..][1..] == us[j + 1..];
      ghost var y, one := out[..], Tag(u.tag, u.wire) + u.data;
      var n := OneUnknownPack(u, out, off + rv);
      UnderwayNext(x, y, out[..], off, all, done, one, PackUnknown(us[j + 1..]));
      done := done + one;
      rv := rv + n;
    }
    UnderwayEnd(x, out[..], off, all, done);
  }

  /** unknown_field_pack. */
  method OneUnknownPack(u: Unknown, out: array<byte>, off: nat) returns (n: nat)
    requires u.tag < MAX32 && u.wire < 8 && off + |Tag(u.tag, u.wire)| + |u.data| <= out.Length
    modifies out
    ensures n == |Tag(u.tag, u.wire) + u.data| && Written(old(out[..]), out[..], off, Tag(u.tag, u.wire) + u.data)
  {
    ghost var y := out[..];
    var h := TagPack(u.tag, u.wire, out, off);
    ghost var z := out[..];
    PutAll(out, off + h, u.data);
    WrittenThen(y, z, out[..], off, Tag(u.tag, u.wire), u.data);
    n := h + |u.data|;
  }

  /** protobuf_c_message_pack. */
  method MessagePack(s: Schema, m: Msg, out: array<byte>, off: nat) returns (rv: nat)
    requires SchemaOk(s) && WellFormed(s, m) && off + |Packed(s, m)| <= out.Length
    modifies out
    ensures rv == |Packed(s, m)| && Written(old(out[..]), out[..], off, Packed(s, m))
    decreases m, 6
  {
    ghost var x := out[..];
    rv := FieldsPack(s, m, out, off);
    ghost var y := out[..];
    var n := UnknownFieldsPack(s, m, out, off + rv);
    WrittenThen(x, y, out[..], off, PackFields(s, m, 0), PackUnknown(m.unknown));
    rv := rv + n;
  }

  method UnknownFieldsPack(s: Schema, m: Msg, out: array<byte>, off: nat) returns (rv: nat)
    requires WellFormed(s, m) && off + |PackUnknown(m.unknown)| <= out.Length
    modifies out
    ensures rv == |PackUnknown(m.unknown)| && Written(old(out[..]), out[..], off, PackUnknown(m.unknown))
  {
    rv := UnknownPack(s[m.desc].fields, m.unknown, out, off);
  }

  /** The loop over the fields of the descriptor. */
  method FieldsPack(s: Schema, m: Msg, out: array<byte>, off: nat) returns (rv: nat)
    requires SchemaOk(s) && WellFormed(s, m) && off + |PackFields(s, m, 0)| <= out.Length
    modifies out
    ensures rv == |PackFields(s, m, 0)| && Written(old(out[..]), out[..], off, PackFields(s, m, 0))
    decreases m, 5
  {
    ghost var x := out[..];
    ghost var all, done := PackFields(s, m, 0), [];
    rv := 0;
    UnderwayStart(x, off, all);
    for i := 0 to |m.slots|
      invariant rv == |done| && Underway(x, out[..], off, all, done, PackFields(s, m, i))
    {
      WellFormedField(s, m, i);
      var n := FieldStep(s, m, i, out, off, rv, x, all, done);
      done := done + PackField(s, m, i);
      rv := rv + n;
    }
    UnderwayEnd(x, out[..], off, all, done);
  }

  method FieldStep(s: Schema, m: Msg, i: nat, out: array<byte>, off: nat, at: nat, ghost x: seq<byte>,
                   ghost all: seq<byte>, ghost done: seq<byte>) returns (n: nat)
    requires SchemaOk(s) && FieldGood(s, m, i) && at == |done| && off + |all| <= out.Length
    requires Underway(x, out[..], off, all, done, PackFields(s, m, i))
    modifies out
    ensures n == |PackField(s, m, i)|
    ensures Underway(x, out[..], off, all, done + PackField(s, m, i), PackFields(s, m, i + 1))
    decreases m, 4
  {
    ghost var y := out[..];
    assert PackFields(s, m, i) == PackField(s, m, i) + PackFields(s, m, i + 1);
    n := FieldPack(s, m, i, out, off + at);
    UnderwayNext(x, y, out[..], off, all, done, PackField(s, m, i), PackFields(s, m, i + 1));
  }
}
