/** Messages of the Protocol Buffers runtime as values, and the bytes they pack into. A message type
    is a number into a table of descriptors, so types may contain themselves. */
module PbMessage {
  import opened Options
  import opened Bytes
  import opened PbVarint
  import opened PbRanges

  datatype Kind = KUInt32 | KUInt64 | KEnum | KBytes | KMessage(sub: nat)

  datatype Label = Required | Optional | Repeated

  datatype Field = Field(id: nat, rule: Label, kind: Kind, packed: bool)

  /** The fields of a message type, and the table that finds them by their tags. */
  datatype Desc = Desc(fields: seq<Field>, ranges: seq<IntRange>)

  type Schema = seq<Desc>

  datatype Val = Num(n: nat) | Blob(data: seq<byte>) | Sub(msg: Msg)

  /** A field that the descriptor does not know: its bytes after the tag. */
  datatype Unknown = Unknown(tag: nat, wire: nat, data: seq<byte>)

  /** The values of one field: one, at most one, or any number. */
  datatype Slot = Slot(vals: seq<Val>)

  datatype Msg = Msg(desc: nat, slots: seq<Slot>, unknown: seq<Unknown>)

  function IsNumber(k: Kind): bool { k.KUInt32? || k.KUInt64? || k.KEnum? }

  function WireOf(k: Kind): nat { if IsNumber(k) then 0 else 2 }

  ghost predicate FieldOk(s: Schema, f: Field) {
    && f.id < MAX32 && (f.packed ==> f.rule.Repeated? && IsNumber(f.kind))
    && (f.kind.KMessage? ==> f.kind.sub < |s|)
  }

  ghost predicate IdsDiffer(fs: seq<Field>) { forall i, j :: 0 <= i < j < |fs| ==> fs[i].id != fs[j].id }

  ghost predicate DescOk(s: Schema, d: Desc) {
    && (forall i :: 0 <= i < |d.fields| ==> FieldOk(s, d.fields[i]))
    && IdsDiffer(d.fields)
  }

  ghost predicate SchemaOk(s: Schema) { forall i :: 0 <= i < |s| ==> DescOk(s, s[i]) }

  function FieldsOf(s: Schema, d: nat): seq<Field> { if d < |s| then s[d].fields else [] }

  // ---------- packing ----------

  function Prefixed(b: seq<byte>): seq<byte> { Varint(|b|) + b }

  function PackNums(vs: seq<Val>): seq<byte> {
    if vs == [] then [] else Varint(if vs[0].Num? then vs[0].n else 0) + PackNums(vs[1..])
  }

  function Body(s: Schema, v: Val): seq<byte>
    decreases v, 0
  {
    match v
    case Num(n) => Varint(n)
    case Blob(b) => Prefixed(b)
    case Sub(m) => Prefixed(Packed(s, m))
  }

  /** The values of field i from the j-th on, each with its tag. */
  function PackVals(s: Schema, m: Msg, i: nat, j: nat): seq<byte>
    requires i < |m.slots| && i < |FieldsOf(s, m.desc)|
    decreases m, 1, |m.slots[i].vals| - j
  {
    if j >= |m.slots[i].vals| then []
    else
      var f := FieldsOf(s, m.desc)[i];
      Tag(f.id, WireOf(f.kind)) + Body(s, m.slots[i].vals[j]) + PackVals(s, m, i, j + 1)
  }

  function PackField(s: Schema, m: Msg, i: nat): seq<byte>
    requires i < |m.slots| && i < |FieldsOf(s, m.desc)|
    decreases m, 2, 0
  {
    var f := FieldsOf(s, m.desc)[i];
    if !f.packed then PackVals(s, m, i, 0)
    else if m.slots[i].vals == [] then []
    else Tag(f.id, 2) + Prefixed(PackNums(m.slots[i].vals))
  }

  function PackFields(s: Schema, m: Msg, i: nat): seq<byte>
    decreases m, 3, |m.slots| - i
  {
    if i >= |m.slots| || i >= |FieldsOf(s, m.desc)| then [] else PackField(s, m, i) + PackFields(s, m, i + 1)
  }

  function PackUnknown(us: seq<Unknown>): seq<byte> {
    if us == [] then [] else Tag(us[0].tag, us[0].wire) + us[0].data + PackUnknown(us[1..])
  }

  function Packed(s: Schema, m: Msg): seq<byte>
    decreases m, 4
  {
    PackFields(s, m, 0) + PackUnknown(m.unknown)
  }

  // ---------- one item after a tag ----------

  datatype Item = Item(len: nat, pref: nat)

  /** The length that stands in front of b, in a varint of at most five bytes. */
  function LengthIn(b: seq<byte>): (r: nat)
    ensures r < MAX32
  {
    Value(b[..VarintLen(b, 5)]) % MAX32
  }

  /** scan_length_prefixed_data: the length with its prefix, a sum of 32 bits; 0 is an error. */
  function ScannedLength(b: seq<byte>): nat {
    var n := VarintLen(b, 5);
    if n == 0 then 0
    else
      var sum := (n + LengthIn(b)) % MAX32;
      if sum > |b| then 0 else sum
  }

  /** The sum is more than 32 bits hold, and is not 0 when they are cut off. */
  predicate Wraps(b: seq<byte>) { VarintLen(b, 5) > 0 && VarintLen(b, 5) + LengthIn(b) > MAX32 }

  /** The item of a length prefix, where the sum does not wrap. */
  function ReadPrefixed(b: seq<byte>): (r: Option<Item>)
    ensures r.Some? ==> r.value.pref <= r.value.len <= |b|
  {
    var n := VarintLen(b, 5);
    if n == 0 || n + LengthIn(b) >= MAX32 || n + LengthIn(b) > |b| then None else Some(Item(n + LengthIn(b), n))
  }

  /** How many bytes belong to the item in front of b, by wire type. */
  function ReadItem(wire: nat, b: seq<byte>): (r: Option<Item>)
    ensures r.Some? ==> r.value.pref <= r.value.len <= |b|
  {
    match wire
    case 0 => var n := VarintLen(b, 10); if n == 0 then None else Some(Item(n, 0))
    case 1 => if |b| < 8 then None else Some(Item(8, 0))
    case 2 => ReadPrefixed(b)
    case 5 => if |b| < 4 then None else Some(Item(4, 0))
    case _ => None
  }

  lemma {:induction false} VarintLenStable(b: seq<byte>, t: seq<byte>, max: nat)
    requires VarintLen(b, max) > 0
    ensures VarintLen(b + t, max) == VarintLen(b, max)
    decreases max
  {
    if More(b[0]) {
      assert (b + t)[1..] == b[1..] + t;
      VarintLenStable(b[1..], t, max - 1);
    }
  }

  /** What follows an item does not change how it is read. */
  lemma ItemStable(wire: nat, b: seq<byte>, t: seq<byte>)
    requires ReadItem(wire, b).Some?
    ensures ReadItem(wire, b + t) == ReadItem(wire, b)
  {
    if wire == 0 { VarintLenStable(b, t, 10); }
    if wire == 2 {
      VarintLenStable(b, t, 5);
      var n := VarintLen(b, 5);
      assert (b + t)[..n] == b[..n];
    }
  }

  /** The data is one whole item. */
  predicate WholeItem(wire: nat, pref: nat, data: seq<byte>) { ReadItem(wire, data) == Some(Item(|data|, pref)) }

  lemma NumberIsItem(n: nat)
    requires n < MAX64
    ensures WholeItem(0, 0, Varint(n))
  {
    assert UInt64Size(n) <= 10;
    VarintInFront(n, [], 10);
    assert Varint(n) + [] == Varint(n);
  }

  lemma PrefixedIsItem(b: seq<byte>)
    requires |Prefixed(b)| < MAX32
    ensures WholeItem(2, |Varint(|b|)|, Prefixed(b))
    ensures Prefixed(b)[|Varint(|b|)|..] == b
  {
    assert UInt32Size(|b|) <= 5;
    VarintInFront(|b|, b, 5);
    VarintReads(|b|);
    var n := |Varint(|b|)|;
    assert Prefixed(b)[..n] == Varint(|b|);
  }

  // ---------- scanning ----------

  /** A scanned member: tag, wire type, number of the field if the descriptor knows it, length of the
      prefix, and the bytes after the tag. */
  datatype Scanned = Scanned(tag: nat, wire: nat, field: Option<nat>, pref: nat, data: seq<byte>)

  /** The field with this id. */
  function Lookup(fs: seq<Field>, tag: nat): (r: Option<nat>)
    ensures r.Some? ==> r.value < |fs| && fs[r.value].id == tag
    ensures r.None? ==> forall i :: 0 <= i < |fs| ==> fs[i].id != tag
  {
    if fs == [] then None
    else
      var n := |fs| - 1;
      if fs[n].id == tag then Some(n) else Lookup(fs[..n], tag)
  }

  datatype ScanStep = ScanStep(member: Scanned, used: nat)

  function ScanOne(fs: seq<Field>, b: seq<byte>): (r: Option<ScanStep>)
    ensures r.Some? ==> |r.value.member.data| < r.value.used <= |b| && r.value.member.pref <= |r.value.member.data|
  {
    match ReadTag(b)
    case None => None
    case Some(t) =>
      match ReadItem(t.wire, b[t.used..])
      case None => None
      case Some(item) =>
        Some(ScanStep(Scanned(t.tag, t.wire, Lookup(fs, t.tag), item.pref, b[t.used..t.used + item.len]),
          t.used + item.len))
  }

  ghost predicate Fits(ms: seq<Scanned>, n: nat) {
    forall i :: 0 <= i < |ms| ==> |ms[i].data| < n && ms[i].pref <= |ms[i].data|
  }

  function Prepend(m: Scanned, o: Option<seq<Scanned>>): Option<seq<Scanned>> {
    match o case None => None case Some(ms) => Some([m] + ms)
  }

  /** The scan loop of protobuf_c_message_unpack. */
  function Scan(fs: seq<Field>, b: seq<byte>): (r: Option<seq<Scanned>>)
    ensures r.Some? ==> Fits(r.value, |b|)
    decreases |b|
  {
    if b == [] then Some([])
    else
      match ScanOne(fs, b)
      case None => None
      case Some(st) => Prepend(st.member, Scan(fs, b[st.used..]))
  }

  /** One tag and item in front. */
  lemma ScanItem(fs: seq<Field>, tag: nat, wire: nat, pref: nat, data: seq<byte>, t: seq<byte>)
    requires tag < MAX32 && wire < 8 && WholeItem(wire, pref, data)
    ensures Scan(fs, Tag(tag, wire) + data + t) == Prepend(Scanned(tag, wire, Lookup(fs, tag), pref, data), Scan(fs, t))
  {
    var b := Tag(tag, wire) + data + t;
    assert b == Tag(tag, wire) + (data + t);
    TagReads(tag, wire, data + t);
    TagLength(tag, wire);
    var k := TagSize(tag);
    assert b[k..] == data + t;
    ItemStable(wire, data, t);
    assert b[k..k + |data|] == data && b[k + |data|..] == t;
  }
}
