/** The message types that nodes exchange in a Paxos round, as the generated tables describe them. */
module PbMpaxos {
  import opened Bytes
  import opened PbVarint
  import opened PbRanges
  import opened PbMessage
  import opened PbUnpack
  import opened PbRoundTrip
  import opened PbUnpacker

  /** Fields 1, 2, 3, ... in one range. */
  function OneRange(fs: seq<Field>): Desc { Desc(fs, [IntRange(1, 0), IntRange(0, |fs|)]) }

  const ROUNDID: Desc := OneRange([
    Field(1, Required, KUInt32, false), Field(2, Required, KUInt64, false), Field(3, Required, KUInt64, false)])

  const HEADER: Desc := OneRange([
    Field(1, Required, KEnum, false), Field(2, Required, KUInt32, false), Field(3, Required, KUInt64, false)])

  const CODED_VALUE: Desc := OneRange([
    Field(1, Required, KUInt32, false), Field(2, Required, KUInt32, false), Field(3, Required, KUInt32, false),
    Field(4, Required, KUInt32, false), Field(5, Required, KBytes, false)])

  const PROPOSAL: Desc := OneRange([
    Field(1, Repeated, KMessage(0), false), Field(2, Required, KUInt64, false), Field(3, Required, KUInt32, false),
    Field(4, Optional, KBytes, false), Field(5, Optional, KMessage(2), false)])

  const RESPONSE: Desc := OneRange([
    Field(1, Required, KMessage(0), false), Field(2, Required, KEnum, false), Field(3, Repeated, KMessage(3), false)])

  const PREPARE: Desc := OneRange([Field(1, Required, KMessage(1), false), Field(2, Repeated, KMessage(0), false)])

  const PROMISE: Desc := OneRange([Field(1, Required, KMessage(1), false), Field(2, Repeated, KMessage(4), false)])

  /** Its fields have the numbers 1 and 3. */
  const ACCEPT: Desc := Desc(
    [Field(1, Required, KMessage(1), false), Field(3, Required, KMessage(3), false)],
    [IntRange(1, 0), IntRange(3, 1), IntRange(0, 2)])

  const ACCEPTED: Desc := OneRange([Field(1, Required, KMessage(1), false), Field(2, Repeated, KMessage(4), false)])

  const SCHEMA: Schema := [ROUNDID, HEADER, CODED_VALUE, PROPOSAL, RESPONSE, PREPARE, PROMISE, ACCEPT, ACCEPTED]

  lemma OneRangeOk(fs: seq<Field>)
    requires |fs| > 0 && forall i :: 0 <= i < |fs| ==> fs[i].id == i + 1 && i + 1 < 0x8000_0000
    ensures RangesOk(OneRange(fs))
  {
    var rs := OneRange(fs).ranges;
    assert Size(rs, 0) == |fs|;
    assert Expanded(rs, 0) == [];
    assert Expanded(rs, 1) == seq(|fs|, k => 1 + k);
  }

  lemma AcceptOk()
    ensures RangesOk(ACCEPT)
  {
    var rs := ACCEPT.ranges;
    assert Size(rs, 0) == 1 && Size(rs, 1) == 1;
    assert Expanded(rs, 0) == [];
    assert Expanded(rs, 1) == [1];
    assert Expanded(rs, 2) == [1, 3];
  }

  lemma NumberedFieldsOk(s: Schema, fs: seq<Field>)
    requires forall i :: 0 <= i < |fs| ==> fs[i].id == i + 1 && FieldOk(s, fs[i])
    ensures DescOk(s, OneRange(fs))
  {
  }

  lemma FirstTypesOk()
    ensures DescOk(SCHEMA, ROUNDID) && DescOk(SCHEMA, HEADER) && DescOk(SCHEMA, CODED_VALUE) && DescOk(SCHEMA, PROPOSAL)
  {
    NumberedFieldsOk(SCHEMA, ROUNDID.fields);
    NumberedFieldsOk(SCHEMA, HEADER.fields);
    NumberedFieldsOk(SCHEMA, CODED_VALUE.fields);
    NumberedFieldsOk(SCHEMA, PROPOSAL.fields);
  }

  lemma OtherTypesOk()
    ensures DescOk(SCHEMA, RESPONSE) && DescOk(SCHEMA, PREPARE) && DescOk(SCHEMA, PROMISE)
    ensures DescOk(SCHEMA, ACCEPT) && DescOk(SCHEMA, ACCEPTED)
  {
    NumberedFieldsOk(SCHEMA, RESPONSE.fields);
    NumberedFieldsOk(SCHEMA, PREPARE.fields);
    NumberedFieldsOk(SCHEMA, PROMISE.fields);
    NumberedFieldsOk(SCHEMA, ACCEPTED.fields);
  }

  lemma TablesAreOk()
    ensures TablesOk(SCHEMA)
  {
    OneRangeOk(ROUNDID.fields);
    OneRangeOk(HEADER.fields);
    OneRangeOk(CODED_VALUE.fields);
    OneRangeOk(PROPOSAL.fields);
    OneRangeOk(RESPONSE.fields);
    OneRangeOk(PREPARE.fields);
    OneRangeOk(PROMISE.fields);
    AcceptOk();
    OneRangeOk(ACCEPTED.fields);
  }

  /** The descriptors and tables of these types are in order. */
  lemma SchemaIsOk()
    ensures SchemaOk(SCHEMA) && TablesOk(SCHEMA)
  {
    FirstTypesOk();
    OtherTypesOk();
    TablesAreOk();
  }

  /** Every well-formed message of a Paxos round survives packing and unpacking. */
  lemma PaxosMessagesSurvive(m: Msg)
    requires WellFormed(SCHEMA, m) && Bounded(SCHEMA, m)
    ensures Unpack(SCHEMA, m.desc, Packed(SCHEMA, m)) == Ok(m)
  {
    SchemaIsOk();
    RoundTrip(SCHEMA, m);
  }

  /** None of these types has a repeated number, so that no bytes whatever are overrun. */
  lemma PaxosNeverOverruns(d: nat, b: seq<byte>)
    ensures !Unpack(SCHEMA, d, b).Overrun?
  {
    forall e, i | 0 <= e < |SCHEMA| && 0 <= i < |SCHEMA[e].fields|
      ensures !(SCHEMA[e].fields[i].rule.Repeated? && IsNumber(SCHEMA[e].fields[i].kind))
    {
      var fs := SCHEMA[e].fields;
      assert SCHEMA[e] in SCHEMA;
    }
    NeverOverruns(SCHEMA, d, b);
  }

  // ---------- the bytes, written out ----------

  lemma FieldsFrom(s: Schema, m: Msg, i: nat)
    requires i < |m.slots| && i < |FieldsOf(s, m.desc)|
    ensures PackFields(s, m, i) == PackField(s, m, i) + PackFields(s, m, i + 1)
  {
  }

  lemma {:induction false} OneValue(s: Schema, m: Msg, i: nat)
    requires i < |m.slots| && i < |FieldsOf(s, m.desc)| && |m.slots[i].vals| == 1 && !FieldsOf(s, m.desc)[i].packed
    ensures var f := FieldsOf(s, m.desc)[i];
            PackField(s, m, i) == Tag(f.id, WireOf(f.kind)) + Body(s, m.slots[i].vals[0])
  {
    assert PackVals(s, m, i, 1) == [];
  }

  /** The round id of group 7, slot 300 and ballot 1. */
  lemma RoundIdBytes(m: Msg)
    requires m == Msg(0, [Slot([Num(7)]), Slot([Num(300)]), Slot([Num(1)])], [])
    ensures Packed(SCHEMA, m) == [8, 7, 16, 172, 2, 24, 1]
  {
    FieldsFrom(SCHEMA, m, 0);
    FieldsFrom(SCHEMA, m, 1);
    FieldsFrom(SCHEMA, m, 2);
    OneValue(SCHEMA, m, 0);
    OneValue(SCHEMA, m, 1);
    OneValue(SCHEMA, m, 2);
    assert PackFields(SCHEMA, m, 3) == [];
    assert Varint(2) == [2] && Varint(300) == [172] + Varint(2);
  }

  /** The example of the Encoding guide: field 4 packed with 3, 270 and 86942. */
  lemma PackedBytes(s: Schema, m: Msg)
    requires s == [OneField(Field(4, Repeated, KUInt32, true))]
             && m == Msg(0, [Slot([Num(3), Num(270), Num(86942)])], [])
    ensures Packed(s, m) == [0x22, 6, 3, 0x8e, 2, 0x9e, 0xa7, 5]
  {
    var vs := m.slots[0].vals;
    FieldsFrom(s, m, 0);
    assert PackFields(s, m, 1) == [];
    assert vs[1..] == [Num(270), Num(86942)] && vs[1..][1..] == [Num(86942)] && vs[1..][1..][1..] == [];
    assert Varint(2) == [2] && Varint(270) == [0x8e] + Varint(2);
    assert Varint(5) == [5] && Varint(679) == [0xa7] + Varint(5) && Varint(86942) == [0x9e] + Varint(679);
    assert PackNums(vs) == [3] + ([0x8e, 2] + [0x9e, 0xa7, 5]);
  }

  function OneField(f: Field): Desc { Desc([f], []) }

  /** A field with a submessage: its bytes stand between their length and what follows. */
  lemma SubmessageBytes(s: Schema, sub: Msg, m: Msg, b: seq<byte>)
    requires s == [OneField(Field(3, Optional, KMessage(0), false))]
             && m == Msg(0, [Slot([Sub(sub)])], [Unknown(5, 0, [9])])
    requires Packed(s, sub) == b && |b| < 128
    ensures Packed(s, m) == [0x1a, |b| as byte] + b + [0x28, 9]
  {
    FieldsFrom(s, m, 0);
    OneValue(s, m, 0);
    assert PackFields(s, m, 1) == [];
    assert m.unknown[1..] == [];
    assert PackUnknown(m.unknown) == Tag(5, 0) + [9] + [];
  }
}
