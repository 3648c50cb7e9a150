/** Packing into a buffer that grows, and the plain buffer that the runtime uses for submessages. */
module PbBuffer {
  import opened Bytes
  import opened PbVarint
  import opened PbMessage
  import opened PbUnpack
  import opened PbRoundTrip
  import opened PbWriter
  import opened ByteArrays
  import opened PbSize

  class Buffer {
    var data: array<byte>
    var len: nat
    var alloced: nat

    ghost predicate Valid()
      reads this
    {
      0 < alloced == data.Length && len <= alloced
    }

    function Contents(): seq<byte>
      reads this, data
      requires Valid()
    {
      data[..len]
    }

    /** PROTOBUF_C_BUFFER_SIMPLE_INIT with a scratch array. */
    constructor (size: nat)
      requires size > 0
      ensures Valid() && fresh(data) && Contents() == []
    {
      data := new byte[size](_ => 0);
      len, alloced := 0, size;
    }

    /** protobuf_c_buffer_simple_append: the size doubles until the bytes fit. */
    method Append(bs: seq<byte>)
      requires Valid()
      modifies this, data
      ensures Valid() && (data == old(data) || fresh(data)) && Contents() == old(Contents()) + bs
    {
      var newLen := len + |bs|;
      if newLen > alloced { Grow(newLen); }
      ghost var x := data[..];
      PutAll(data, len, bs);
      WrittenSlice(x, data[..], len, bs);
      assert data[..newLen] == data[..len] + data[len..newLen];
      len := newLen;
    }

    method Grow(newLen: nat)
      requires Valid() && newLen > alloced
      modifies this
      ensures Valid() && fresh(data) && len == old(len) && Contents() == old(Contents()) && newLen <= alloced
    {
      var size := alloced * 2;
      while size < newLen
        invariant size > 0 && size >= alloced
      {
        size := size + size;
      }
      var bytes := data[..len];
      data := new byte[size](_ => 0);
      alloced := size;
      PutAll(data, 0, bytes);
      assert data[..len] == bytes;
    }
  }

  /** The content c and what is still to come make up the goal. */
  ghost predicate Towards(c: seq<byte>, rest: seq<byte>, goal: seq<byte>) { c + rest == goal }

  lemma TowardsNext(c: seq<byte>, c': seq<byte>, one: seq<byte>, rest: seq<byte>, goal: seq<byte>)
    requires Towards(c, one + rest, goal) && c' == c + one
    ensures Towards(c', rest, goal)
  {
    assert c + (one + rest) == (c + one) + rest;
  }

  lemma TowardsEnd(c: seq<byte>, goal: seq<byte>)
    requires Towards(c, [], goal)
    ensures c == goal
  {
    assert c + [] == c;
  }

  /** The tag of a field and a varint, through a scratch array. */
  method AppendTagged(id: nat, wire: nat, n: nat, wide: bool, buffer: Buffer) returns (rv: nat)
    requires id < MAX32 && wire < 8 && n < MAX64 && (!wide ==> n < MAX32) && buffer.Valid()
    modifies buffer, buffer.data
    ensures buffer.Valid() && (buffer.data == old(buffer.data) || fresh(buffer.data))
    ensures buffer.Contents() == old(buffer.Contents()) + (Tag(id, wire) + Varint(n))
            && rv == |Tag(id, wire) + Varint(n)|
  {
    var scratch := new byte[20](_ => 0);
    TagLength(id, wire);
    assert UInt64Size(n) <= 10;
    ghost var x := scratch[..];
    rv := TagPack(id, wire, scratch, 0);
    ghost var y := scratch[..];
    var k: nat;
    if wide { k := UInt64Pack(n, scratch, rv); } else { k := UInt32Pack(n, scratch, rv); }
    WrittenThen(x, y, scratch[..], 0, Tag(id, wire), Varint(n));
    WrittenSlice(x, scratch[..], 0, Tag(id, wire) + Varint(n));
    rv := rv + k;
    buffer.Append(scratch[..rv]);
  }

  method BytesToBuffer(id: nat, b: seq<byte>, buffer: Buffer) returns (rv: nat)
    requires id < MAX32 && |b| < MAX32 && buffer.Valid()
    modifies buffer, buffer.data
    ensures buffer.Valid() && (buffer.data == old(buffer.data) || fresh(buffer.data))
    ensures buffer.Contents() == old(buffer.Contents()) + (Tag(id, 2) + Prefixed(b)) && rv == |Tag(id, 2) + Prefixed(b)|
  {
    rv := AppendTagged(id, 2, |b|, false, buffer);
    ghost var c := buffer.Contents();
    buffer.Append(b);
    assert (Tag(id, 2) + Varint(|b|)) + b == Tag(id, 2) + Prefixed(b);
    rv := rv + |b|;
  }

  /** required_field_pack_to_buffer: a submessage is packed into a buffer of its own first. */
  method RequiredFieldPackToBuffer(s: Schema, f: Field, v: Val, buffer: Buffer) returns (rv: nat)
    requires SchemaOk(s) && f.id < MAX32 && ValOk(s, f.kind, v) && buffer.Valid()
    modifies buffer, buffer.data
    ensures buffer.Valid() && (buffer.data == old(buffer.data) || fresh(buffer.data))
    ensures buffer.Contents() == old(buffer.Contents()) + (Tag(f.id, WireOf(f.kind)) + Body(s, v))
    ensures rv == |Tag(f.id, WireOf(f.kind)) + Body(s, v)|
    decreases v, 0
  {
    match f.kind
    case KUInt64 => rv := AppendTagged(f.id, 0, v.n, true, buffer);
    case KBytes => rv := BytesToBuffer(f.id, v.data, buffer);
    case KMessage(_) =>
      var simple := new Buffer(256);
      var sublen := MessagePackToBuffer(s, v.msg, simple);
      assert simple.Contents() == Packed(s, v.msg);
      rv := BytesToBuffer(f.id, simple.Contents(), buffer);
    case _ => rv := AppendTagged(f.id, 0, v.n, false, buffer);
  }

  method ValuesPackToBuffer(s: Schema, m: Msg, i: nat, buffer: Buffer) returns (rv: nat)
    requires SchemaOk(s) && FieldGood(s, m, i) && buffer.Valid()
    modifies buffer, buffer.data
    ensures buffer.Valid() && (buffer.data == old(buffer.data) || fresh(buffer.data))
    ensures buffer.Contents() == old(buffer.Contents()) + PackVals(s, m, i, 0) && rv == |PackVals(s, m, i, 0)|
    decreases m, 0
  {
    var f, vs := s[m.desc].fields[i], m.slots[i].vals;
    ghost var goal := buffer.Contents() + PackVals(s, m, i, 0);
    rv := 0;
    for j := 0 to |vs|
      invariant buffer.Valid() && (buffer.data == old(buffer.data) || fresh(buffer.data))
      invariant Towards(buffer.Contents(), PackVals(s, m, i, j), goal)
                && rv + |PackVals(s, m, i, j)| == |PackVals(s, m, i, 0)|
    {
      ghost var c := buffer.Contents();
      ghost var one := Tag(f.id, WireOf(f.kind)) + Body(s, vs[j]);
      assert PackVals(s, m, i, j) == one + PackVals(s, m, i, j + 1);
      var n := RequiredFieldPackToBuffer(s, f, vs[j], buffer);
      TowardsNext(c, buffer.Contents(), one, PackVals(s, m, i, j + 1), goal);
      rv := rv + n;
    }
    TowardsEnd(buffer.Contents(), goal);
  }

  /** pack_buffer_packed_payload. */
  method PayloadToBuffer(s: Schema, k: Kind, vs: seq<Val>, buffer: Buffer) returns (rv: nat)
    requires IsNumber(k) && (forall j :: 0 <= j < |vs| ==> ValOk(s, k, vs[j])) && buffer.Valid()
    modifies buffer, buffer.data
    ensures buffer.Valid() && (buffer.data == old(buffer.data) || fresh(buffer.data))
    ensures buffer.Contents() == old(buffer.Contents()) + PackNums(vs) && rv == |PackNums(vs)|
  {
    ghost var goal := buffer.Contents() + PackNums(vs);
    rv := 0;
    assert vs[0..] == vs;
    for j := 0 to |vs|
      invariant buffer.Valid() && (buffer.data == old(buffer.data) || fresh(buffer.data))
      invariant Towards(buffer.Contents(), PackNums(vs[j..]), goal) && rv + |PackNums(vs[j..])| == |PackNums(vs)|
    {
      ghost var c := buffer.Contents();
      assert vs[j..][0] == vs[j] && vs[j..][1..] == vs[j + 1..];
      assert ValOk(s, k, vs[j]);
      var len := NumberToBuffer(k, vs[j].n, buffer);
      TowardsNext(c, buffer.Contents(), Varint(vs[j].n), PackNums(vs[j + 1..]), goal);
      rv := rv + len;
    }
    TowardsEnd(buffer.Contents(), goal);
  }

  method NumberToBuffer(k: Kind, n: nat, buffer: Buffer) returns (len: nat)
    requires IsNumber(k) && n < (if k.KUInt64? then MAX64 else MAX32) && buffer.Valid()
    modifies buffer, buffer.data
    ensures buffer.Valid() && (buffer.data == old(buffer.data) || fresh(buffer.data))
    ensures buffer.Contents() == old(buffer.Contents()) + Varint(n) && len == |Varint(n)|
  {
    var scratch := new byte[16](_ => 0);
    assert UInt64Size(n) <= 10;
    ghost var x := scratch[..];
    if k.KUInt64? { len := UInt64Pack(n, scratch, 0); } else { len := UInt32Pack(n, scratch, 0); }
    WrittenSlice(x, scratch[..], 0, Varint(n));
    buffer.Append(scratch[..len]);
  }

  /** The packed case of repeated_field_pack_to_buffer: the payload is measured, then written. */
  method PackedFieldPackToBuffer(s: Schema, m: Msg, i: nat, buffer: Buffer) returns (rv: nat)
    requires SchemaOk(s) && FieldGood(s, m, i) && s[m.desc].fields[i].packed && buffer.Valid()
    modifies buffer, buffer.data
    ensures buffer.Valid() && (buffer.data == old(buffer.data) || fresh(buffer.data))
    ensures buffer.Contents() == old(buffer.Contents()) + PackField(s, m, i) && rv == |PackField(s, m, i)|
  {
    var f, vs := s[m.desc].fields[i], m.slots[i].vals;
    if vs == [] {
      assert buffer.Contents() + [] == buffer.Contents();
      return 0;
    }
    var len := PayloadSize(s, f.kind, vs);
    ghost var c := buffer.Contents();
    rv := AppendTagged(f.id, 2, len, false, buffer);
    var tmp := PayloadToBuffer(s, f.kind, vs, buffer);
    assert tmp == len;
    assert (c + (Tag(f.id, 2) + Varint(len))) + PackNums(vs) == c + (Tag(f.id, 2) + Prefixed(PackNums(vs)));
    rv := rv + len;
  }

  method FieldPackToBuffer(s: Schema, m: Msg, i: nat, buffer: Buffer) returns (rv: nat)
    requires SchemaOk(s) && FieldGood(s, m, i) && buffer.Valid()
    modifies buffer, buffer.data
    ensures buffer.Valid() && (buffer.data == old(buffer.data) || fresh(buffer.data))
    ensures buffer.Contents() == old(buffer.Contents()) + PackField(s, m, i) && rv == |PackField(s, m, i)|
    decreases m, 1
  {
    if s[m.desc].fields[i].packed {
      rv := PackedFieldPackToBuffer(s, m, i, buffer);
    } else {
      rv := ValuesPackToBuffer(s, m, i, buffer);
    }
  }

  method UnknownPackToBuffer(us: seq<Unknown>, buffer: Buffer) returns (rv: nat)
    requires (forall u :: u in us ==> u.tag < MAX32 && u.wire < 8) && buffer.Valid()
    modifies buffer, buffer.data
    ensures buffer.Valid() && (buffer.data == old(buffer.data) || fresh(buffer.data))
    ensures buffer.Contents() == old(buffer.Contents()) + PackUnknown(us) && rv == |PackUnknown(us)|
  {
    ghost var goal := buffer.Contents() + PackUnknown(us);
    rv := 0;
    assert us[0..] == us;
    for j := 0 to |us|
      invariant buffer.Valid() && (buffer.data == old(buffer.data) || fresh(buffer.data))
      invariant Towards(buffer.Contents(), PackUnknown(us[j..]), goal)
                && rv + |PackUnknown(us[j..])| == |PackUnknown(us)|
    {
      ghost var c := buffer.Contents();
      var u := us[j];
      ghost var rest := PackUnknown(us[j + 1..]);
      assert us[j..][0] == u && us[j..][1..] == us[j + 1..];
      var n := OneUnknownToBuffer(u, buffer);
      TowardsNext(c, buffer.Contents(), Tag(u.tag, u.wire) + u.data, rest, goal);
      rv := rv + n;
    }
    TowardsEnd(buffer.Contents(), goal);
  }

  method UnknownFieldsToBuffer(s: Schema, m: Msg, buffer: Buffer) returns (rv: nat)
    requires WellFormed(s, m) && buffer.Valid()
    modifies buffer, buffer.data
    ensures buffer.Valid() && (buffer.data == old(buffer.data) || fresh(buffer.data))
    ensures buffer.Contents() == old(buffer.Contents()) + PackUnknown(m.unknown) && rv == |PackUnknown(m.unknown)|
  {
    assert forall u :: u in m.unknown ==> UnknownOk(s[m.desc].fields, u);
    rv := UnknownPackToBuffer(m.unknown, buffer);
  }

  /** unknown_field_pack_to_buffer. */
  method OneUnknownToBuffer(u: Unknown, buffer: Buffer) returns (n: nat)
    requires u.tag < MAX32 && u.wire < 8 && buffer.Valid()
    modifies buffer, buffer.data
    ensures buffer.Valid() && (buffer.data == old(buffer.data) || fresh(buffer.data))
    ensures buffer.Contents() == old(buffer.Contents()) + (Tag(u.tag, u.wire) + u.data)
            && n == |Tag(u.tag, u.wire) + u.data|
  {
    n := TagToBuffer(u.tag, u.wire, buffer);
    ghost var c := buffer.Contents();
    buffer.Append(u.data);
    n := n + |u.data|;
    assert buffer.Contents() == old(buffer.Contents()) + Tag(u.tag, u.wire) + u.data;
  }

  method TagToBuffer(id: nat, wire: nat, buffer: Buffer) returns (n: nat)
    requires id < MAX32 && wire < 8 && buffer.Valid()
    modifies buffer, buffer.data
    ensures buffer.Valid() && (buffer.data == old(buffer.data) || fresh(buffer.data))
    ensures buffer.Contents() == old(buffer.Contents()) + Tag(id, wire) && n == |Tag(id, wire)|
  {
    var header := new byte[10](_ => 0);
    TagLength(id, wire);
    ghost var x := header[..];
    n := TagPack(id, wire, header, 0);
    WrittenSlice(x, header[..], 0, Tag(id, wire));
    buffer.Append(header[..n]);
  }

  lemma PackedParts(s: Schema, m: Msg, c: seq<byte>)
    ensures (c + PackFields(s, m, 0)) + PackUnknown(m.unknown) == c + Packed(s, m)
    ensures |PackFields(s, m, 0)| + |PackUnknown(m.unknown)| == |Packed(s, m)|
  {
  }

  /** protobuf_c_message_pack_to_buffer. */
  method MessagePackToBuffer(s: Schema, m: Msg, buffer: Buffer) returns (rv: nat)
    requires SchemaOk(s) && WellFormed(s, m) && buffer.Valid()
    modifies buffer, buffer.data
    ensures buffer.Valid() && (buffer.data == old(buffer.data) || fresh(buffer.data))
    ensures buffer.Contents() == old(buffer.Contents()) + Packed(s, m) && rv == |Packed(s, m)|
    decreases m, 4
  {
    ghost var c := buffer.Contents();
    rv := FieldsPackToBuffer(s, m, buffer);
    var n := UnknownFieldsToBuffer(s, m, buffer);
    PackedParts(s, m, c);
    rv := rv + n;
  }

  method FieldsPackToBuffer(s: Schema, m: Msg, buffer: Buffer) returns (rv: nat)
    requires SchemaOk(s) && WellFormed(s, m) && buffer.Valid()
    modifies buffer, buffer.data
    ensures buffer.Valid() && (buffer.data == old(buffer.data) || fresh(buffer.data))
    ensures buffer.Contents() == old(buffer.Contents()) + PackFields(s, m, 0) && rv == |PackFields(s, m, 0)|
    decreases m, 3
  {
    ghost var goal := buffer.Contents() + PackFields(s, m, 0);
    rv := 0;
    for i := 0 to |m.slots|
      invariant buffer.Valid() && (buffer.data == old(buffer.data) || fresh(buffer.data))
      invariant Towards(buffer.Contents(), PackFields(s, m, i), goal)
                && rv + |PackFields(s, m, i)| == |PackFields(s, m, 0)|
    {
      WellFormedField(s, m, i);
      var n := FieldStepToBuffer(s, m, i, buffer, goal);
      rv := rv + n;
    }
    TowardsEnd(buffer.Contents(), goal);
  }

  method FieldStepToBuffer(s: Schema, m: Msg, i: nat, buffer: Buffer, ghost goal: seq<byte>) returns (n: nat)
    requires SchemaOk(s) && FieldGood(s, m, i) && buffer.Valid()
             && Towards(buffer.Contents(), PackFields(s, m, i), goal)
    modifies buffer, buffer.data
    ensures buffer.Valid() && (buffer.data == old(buffer.data) || fresh(buffer.data))
    ensures Towards(buffer.Contents(), PackFields(s, m, i + 1), goal)
            && n + |PackFields(s, m, i + 1)| == |PackFields(s, m, i)|
    decreases m, 2
  {
    ghost var c := buffer.Contents();
    assert PackFields(s, m, i) == PackField(s, m, i) + PackFields(s, m, i + 1);
    n := FieldPackToBuffer(s, m, i, buffer);
    TowardsNext(c, buffer.Contents(), PackField(s, m, i), PackFields(s, m, i + 1), goal);
  }
}
