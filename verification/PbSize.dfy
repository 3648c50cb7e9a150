/** The size of a packed message, computed before packing. */
module PbSize {
  import opened PbVarint
  import opened PbMessage
  import opened PbUnpack
  import opened PbRoundTrip

  /** The part of required_field_get_packed_size after the tag. */
  method BodySize(s: Schema, f: Field, v: Val) returns (rv: nat)
    requires SchemaOk(s) && ValOk(s, f.kind, v)
    ensures rv == |Body(s, v)|
    decreases v, 0
  {
    match f.kind
    case KUInt64 => rv := UInt64Size(v.n);
    case KBytes => rv := UInt32Size(|v.data|) + |v.data|;
    case KMessage(_) =>
      var sub := MessageSize(s, v.msg);
      rv := UInt32Size(sub) + sub;
    case _ => rv := UInt32Size(v.n);
  }

  /** The loop over the numbers of a packed field; get_packed_payload_length is the same loop. */
  method PayloadSize(s: Schema, k: Kind, vs: seq<Val>) returns (rv: nat)
    requires IsNumber(k) && forall j :: 0 <= j < |vs| ==> ValOk(s, k, vs[j])
    ensures rv == |PackNums(vs)|
  {
    rv := 0;
    assert vs[0..] == vs;
    for j := 0 to |vs|
      invariant |PackNums(vs)| == rv + |PackNums(vs[j..])|
    {
      assert vs[j..][0] == vs[j] && vs[j..][1..] == vs[j + 1..];
      assert ValOk(s, k, vs[j]);
      if k.KUInt64? { rv := rv + UInt64Size(vs[j].n); } else { rv := rv + UInt32Size(vs[j].n); }
    }
    assert vs[|vs|..] == [];
  }

  function Times(a: nat, b: nat): nat { a * b }

  lemma TimesNext(a: nat, b: nat)
    ensures Times(a, b + 1) == Times(a, b) + a && Times(a, 0) == 0
  {
  }

  /** repeated_field_get_packed_size, also right for required and optional fields. */
  method FieldSize(s: Schema, m: Msg, i: nat) returns (rv: nat)
    requires SchemaOk(s) && FieldGood(s, m, i)
    ensures rv == |PackField(s, m, i)|
    decreases m, 1
  {
    var f, vs := s[m.desc].fields[i], m.slots[i].vals;
    if |vs| == 0 { return 0; }
    TagLength(f.id, 2);
    if f.packed {
      var payload := PayloadSize(s, f.kind, vs);
      rv := TagSize(f.id) + UInt32Size(payload) + payload;
    } else {
      rv := ValuesSize(s, m, i);
    }
  }

  method ValuesSize(s: Schema, m: Msg, i: nat) returns (rv: nat)
    requires SchemaOk(s) && FieldGood(s, m, i) && !s[m.desc].fields[i].packed
    ensures rv == |PackVals(s, m, i, 0)|
    decreases m, 0
  {
    var f, vs := s[m.desc].fields[i], m.slots[i].vals;
    var header := Times(TagSize(f.id), |vs|);
    TagLength(f.id, WireOf(f.kind));
    rv := 0;
    TimesNext(TagSize(f.id), 0);
    for j := 0 to |vs|
      invariant |PackVals(s, m, i, 0)| == Times(TagSize(f.id), j) + rv + |PackVals(s, m, i, j)|
    {
      TimesNext(TagSize(f.id), j);
      assert PackVals(s, m, i, j) == Tag(f.id, WireOf(f.kind)) + Body(s, vs[j]) + PackVals(s, m, i, j + 1);
      var n := BodySize(s, f, vs[j]);
      rv := rv + n;
    }
    rv := header + rv;
  }

  method UnknownSize(fs: seq<Field>, us: seq<Unknown>) returns (rv: nat)
    requires forall u :: u in us ==> UnknownOk(fs, u)
    ensures rv == |PackUnknown(us)|
  {
    rv := 0;
    assert us[0..] == us;
    for j := 0 to |us|
      invariant |PackUnknown(us)| == rv + |PackUnknown(us[j..])|
    {
      assert us[j..][0] == us[j] && us[j..][1..] == us[j + 1..];
      assert UnknownOk(fs, us[j]);
      TagLength(us[j].tag, us[j].wire);
      rv := rv + TagSize(us[j].tag) + |us[j].data|;
    }
    assert us[|us|..] == [];
  }

  /** protobuf_c_message_get_packed_size. */
  method MessageSize(s: Schema, m: Msg) returns (rv: nat)
    requires SchemaOk(s) && WellFormed(s, m)
    ensures rv == |Packed(s, m)|
    decreases m, 3
  {
    rv := FieldsSize(s, m);
    var n := UnknownSize(s[m.desc].fields, m.unknown);
    rv := rv + n;
  }

  method FieldsSize(s: Schema, m: Msg) returns (rv: nat)
    requires SchemaOk(s) && WellFormed(s, m)
    ensures rv == |PackFields(s, m, 0)|
    decreases m, 2
  {
    rv := 0;
    for i := 0 to |m.slots|
      invariant |PackFields(s, m, 0)| == rv + |PackFields(s, m, i)|
    {
      WellFormedField(s, m, i);
      assert PackFields(s, m, i) == PackField(s, m, i) + PackFields(s, m, i + 1);
      var n := FieldSize(s, m, i);
      rv := rv + n;
    }
  }
}
