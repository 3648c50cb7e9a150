/** What unpacking means for any bytes, not only for packed ones: which members a scan finds, what a field
    holds in the end, and that whatever is unpacked is a message of its type. */
module PbMeaning {
  import opened Options
  import opened Bytes
  import opened PbVarint
  import opened PbMessage
  import opened PbUnpack
  import opened PbRoundTrip
  import opened PbReader

  // ---------- the members of a scan ----------

  lemma {:induction false} VarintLenOwn(b: seq<byte>, max: nat)
    ensures VarintLen(b[..VarintLen(b, max)], max) == VarintLen(b, max)
    decreases max
  {
    var n := VarintLen(b, max);
    if n > 1 {
      VarintLenOwn(b[1..], max - 1);
      assert b[..n][1..] == b[1..][..n - 1];
    }
  }

  /** An item is read from its own bytes. */
  lemma ItemOwn(wire: nat, b: seq<byte>, item: Item)
    requires ReadItem(wire, b) == Some(item)
    ensures WholeItem(wire, item.pref, b[..item.len])
  {
    var c := b[..item.len];
    if wire == 0 { VarintLenOwn(b, 10); }
    if wire == 2 {
      var n := VarintLen(b, 5);
      VarintLenOwn(b, 5);
      assert c[..n] == b[..n];
      VarintLenStable(b[..n], c[n..], 5);
      assert c == b[..n] + c[n..];
    }
  }

  /** A member has the number of its tag, and is one whole item. */
  ghost predicate MemberOk(fs: seq<Field>, m: Scanned) {
    m.tag < MAX32 && m.wire < 8 && m.field == Lookup(fs, m.tag) && WholeItem(m.wire, m.pref, m.data)
  }

  lemma {:induction false} ScannedOneOk(fs: seq<Field>, b: seq<byte>)
    requires ScanOne(fs, b).Some?
    ensures MemberOk(fs, ScanOne(fs, b).value.member)
  {
    TagIs32(b);
    var t := ReadTag(b).value;
    var rest := b[t.used..];
    var item := ReadItem(t.wire, rest).value;
    ItemOwn(t.wire, rest, item);
    assert rest[..item.len] == b[t.used..t.used + item.len];
    var m := ScanOne(fs, b).value.member;
    assert m.data == rest[..item.len] && m.pref == item.pref && m.wire == t.wire;
  }

  lemma {:induction false} ScannedOk(fs: seq<Field>, b: seq<byte>)
    requires Scan(fs, b).Some?
    ensures forall i :: 0 <= i < |Scan(fs, b).value| ==> MemberOk(fs, Scan(fs, b).value[i])
    decreases |b|
  {
    if b != [] {
      ScannedOneOk(fs, b);
      ScannedOk(fs, b[ScanOne(fs, b).value.used..]);
    }
  }

  /** A field unknown to the descriptor with eight bytes, with four, and with bytes missing. */
  lemma FixedItems(fs: seq<Field>, tag: nat, data: seq<byte>, t: seq<byte>)
    requires tag < MAX32 && Lookup(fs, tag).None?
    ensures |data| == 8 ==> Scan(fs, Tag(tag, 1) + data + t) == Prepend(Scanned(tag, 1, None, 0, data), Scan(fs, t))
    ensures |data| == 4 ==> Scan(fs, Tag(tag, 5) + data + t) == Prepend(Scanned(tag, 5, None, 0, data), Scan(fs, t))
    ensures |data| < 8 ==> Scan(fs, Tag(tag, 1) + data) == None
    ensures |data| < 4 ==> Scan(fs, Tag(tag, 5) + data) == None
  {
    if |data| == 8 { ScanItem(fs, tag, 1, 0, data, t); }
    if |data| == 4 { ScanItem(fs, tag, 5, 0, data, t); }
    TagFirst(tag, 1, data);
    TagFirst(tag, 5, data);
  }

  lemma TagFirst(tag: nat, wire: nat, t: seq<byte>)
    requires tag < MAX32 && wire < 8
    ensures Tag(tag, wire) + t != [] && ReadTag(Tag(tag, wire) + t) == Some(TagRead(TagSize(tag), tag, wire))
    ensures |Tag(tag, wire)| == TagSize(tag) && (Tag(tag, wire) + t)[TagSize(tag)..] == t
  {
    TagReads(tag, wire, t);
    TagLength(tag, wire);
  }

  /** The wire types 3, 4, 6 and 7 are errors. */
  lemma OtherWires(fs: seq<Field>, tag: nat, wire: nat, t: seq<byte>)
    requires tag < MAX32 && wire in {3, 4, 6, 7}
    ensures Scan(fs, Tag(tag, wire) + t) == None
  {
    TagFirst(tag, wire, t);
  }

  /** A tag is a number in at most five bytes that ends at the first byte without the high bit; its low
      three bits are the wire type. */
  lemma {:induction false} TagMeans(b: seq<byte>)
    ensures match ReadTag(b)
            case None => forall i :: 0 <= i < |b| && i < 5 ==> More(b[i])
            case Some(t) => 0 < t.used <= 5 && Terminated(b[..t.used]) && 8 * t.tag + t.wire == Value(b[..t.used])
                            && t.wire < 8
  {
    VarintLenMeans(b, 5);
  }

  lemma {:induction false} VarintLenMeans(b: seq<byte>, max: nat)
    ensures VarintLen(b, max) > 0 ==> Terminated(b[..VarintLen(b, max)])
    ensures VarintLen(b, max) == 0 ==> forall i :: 0 <= i < |b| && i < max ==> More(b[i])
    decreases max
  {
    if b != [] && max > 0 && More(b[0]) {
      VarintLenMeans(b[1..], max - 1);
      var n := VarintLen(b, max);
      if n > 0 {
        assert forall i :: 1 <= i < n ==> b[..n][i] == b[1..][..n - 1][i - 1];
      } else {
        assert forall i :: 1 <= i < |b| ==> b[i] == b[1..][i - 1];
      }
    }
  }

  // ---------- required fields ----------

  ghost predicate HasField(ms: seq<Scanned>, f: nat) { exists i :: 0 <= i < |ms| && ms[i].field == Some(f) }

  /** With at most 128 fields: a message without a member for some required field is rejected. */
  lemma MissingFails(s: Schema, d: nat, b: seq<byte>, f: nat)
    requires d < |s| && |s[d].fields| <= 128 && f < |s[d].fields| && s[d].fields[f].rule.Required?
    requires Scan(s[d].fields, b).Some? && !HasField(Scan(s[d].fields, b).value, f)
    ensures Unpack(s, d, b) == Fail
  {
    var fs := s[d].fields;
    var ms := Scan(fs, b).value;
    CleanScan(fs, b);
    if RequiredSeen(fs, ms) {
      assert SeenBit(fs, ms, f);
      SeenIsThere(fs, ms, f);
    }
  }

  lemma SeenIsThere(fs: seq<Field>, ms: seq<Scanned>, f: nat)
    requires |fs| <= 128 && f < |fs| && SeenBit(fs, ms, f)
    ensures HasField(ms, f)
  {
    var i :| 0 <= i < |ms| && ms[i].field.Some? && ms[i].field.value < |fs|
      && fs[ms[i].field.value].rule.Required? && ms[i].field.value % 128 == f % 128;
    assert ms[i].field == Some(f);
  }

  /** With more fields one required field stands for another whose number differs by a multiple of 128. */
  lemma OneForAnother(fs: seq<Field>, ms: seq<Scanned>, f: nat, g: nat)
    requires f < |fs| && fs[f].rule.Required? && HasField(ms, f) && f % 128 == g % 128
    ensures SeenBit(fs, ms, g)
  {
    var i :| 0 <= i < |ms| && ms[i].field == Some(f);
  }

  // ---------- what one member gives ----------

  /** The values that a member gives to its field, if it can be parsed. */
  function Gives(s: Schema, f: Field, m: Scanned): Option<seq<Val>>
    requires m.pref <= |m.data|
  {
    if f.rule.Repeated? && m.wire == 2 && IsNumber(f.kind) then ReadNums(f.kind, m.data[m.pref..])
    else match ReadVal(s, f.kind, m) case Ok(v) => Some([v]) case _ => None
  }

  lemma GivesOne(s: Schema, f: Field, m: Scanned)
    requires m.pref <= |m.data| && Gives(s, f, m).Some? && !f.rule.Repeated?
    ensures |Gives(s, f, m).value| == 1
  {
  }

  /** A member gives values only with the wire type of its field, or packed numbers of a repeated one. */
  lemma GivenWire(s: Schema, f: Field, m: Scanned)
    requires m.pref <= |m.data| && Gives(s, f, m).Some?
    ensures m.wire == (if IsNumber(f.kind) then 0 else 2) || (m.wire == 2 && f.rule.Repeated? && IsNumber(f.kind))
    ensures f.kind.KBytes? ==> Gives(s, f, m).value == [Blob(m.data[m.pref..])]
    ensures IsNumber(f.kind) && m.wire == 0 ==> Gives(s, f, m).value == [Num(LowBits(f.kind, Value(m.data)))]
  {
    if IsNumber(f.kind) && m.wire == 0 { FirstFive(m.data); }
  }

  /** As many bits of a number as its kind has. */
  function LowBits(k: Kind, n: nat): nat { n % if k.KUInt64? then MAX64 else MAX32 }

  /** From the sixth byte on nothing reaches the low 32 bits. */
  lemma {:induction false} FirstFive(b: seq<byte>)
    ensures ReadUInt32(b) == Value(b) % MAX32
  {
    if |b| > 5 {
      ValueSplit(b, 5);
      Powers();
      var x, y := Value(b[..5]), Value(b[5..]);
      assert Value(b) == x + 8 * y * MAX32;
      CutMultiple(x, 8 * y);
    }
  }

  lemma {:induction false} CutMultiple(x: nat, y: nat)
    ensures (x + y * MAX32) % MAX32 == x % MAX32
    decreases y
  {
    if y > 0 {
      CutMultiple(x, y - 1);
      assert x + y * MAX32 == (x + (y - 1) * MAX32) + MAX32;
    }
  }

  lemma {:induction false} ValueSplit(b: seq<byte>, n: nat)
    requires n <= |b|
    ensures Value(b) == Value(b[..n]) + Power128(n) * Value(b[n..])
  {
    if n == 0 {
      assert b[..0] == [] && b[0..] == b;
    } else {
      ValueSplit(b[1..], n - 1);
      assert b[..n][1..] == b[1..][..n - 1] && b[1..][n - 1..] == b[n..];
      MulOut(Power128(n - 1), Value(b[n..]));
    }
  }

  /** Parsing a member sets a singular field and adds to a repeated one; no other field changes. */
  lemma AppliedOne(s: Schema, fs: seq<Field>, st: Build, m: Scanned, i: nat)
    requires m.pref <= |m.data| && |st.slots| == |fs| && (m.field.Some? ==> m.field.value < |fs|) && i < |fs|
    requires ApplyOne(s, fs, st, m).Ok?
    ensures var st' := ApplyOne(s, fs, st, m).value;
            && (m.field != Some(i) ==> st'.slots[i] == st.slots[i])
            && (m.field == Some(i) ==>
                  Gives(s, fs[i], m).Some?
                  && (st'.slots[i].vals == if fs[i].rule.Repeated? then st.slots[i].vals + Gives(s, fs[i], m).value
                                           else Gives(s, fs[i], m).value))
            && (st'.unknown == if m.field.None? then st.unknown + [Unknown(m.tag, m.wire, m.data)] else st.unknown)
  {
  }

  /** What the members give to field i, the old values included: all of it for a repeated field, the last
      for a singular one. */
  function Gathered(s: Schema, f: Field, i: nat, vals: seq<Val>, ms: seq<Scanned>): Option<seq<Val>>
    requires forall j :: 0 <= j < |ms| ==> ms[j].pref <= |ms[j].data|
  {
    if ms == [] then Some(vals)
    else
      var n := |ms| - 1;
      var m := ms[n];
      match Gathered(s, f, i, vals, ms[..n])
      case None => None
      case Some(before) =>
        if m.field != Some(i) then Some(before)
        else
          match Gives(s, f, m)
          case None => None
          case Some(vs) => Some(if f.rule.Repeated? then before + vs else vs)
  }

  function UnknownOf(ms: seq<Scanned>): seq<Unknown> {
    if ms == [] then []
    else UnknownOf(ms[..|ms| - 1])
         + if ms[|ms| - 1].field.None? then [Unknown(ms[|ms| - 1].tag, ms[|ms| - 1].wire, ms[|ms| - 1].data)] else []
  }

  /** The members parsed so far made st of the empty message. */
  ghost predicate Made(s: Schema, fs: seq<Field>, done: seq<Scanned>, st: Build) {
    && |st.slots| == |fs| && st.unknown == UnknownOf(done)
    && (forall j :: 0 <= j < |done| ==> done[j].pref <= |done[j].data|)
    && forall i {:trigger st.slots[i]} :: 0 <= i < |fs| ==> Gathered(s, fs[i], i, [], done) == Some(st.slots[i].vals)
  }

  lemma {:induction false} MadeField(s: Schema, fs: seq<Field>, done: seq<Scanned>, st: Build, m: Scanned, st': Build,
                                     i: nat)
    requires Made(s, fs, done, st) && m.pref <= |m.data| && (m.field.Some? ==> m.field.value < |fs|)
    requires ApplyOne(s, fs, st, m) == Ok(st') && |st'.slots| == |fs| && i < |fs|
    requires forall j :: 0 <= j < |done + [m]| ==> (done + [m])[j].pref <= |(done + [m])[j].data|
    ensures Gathered(s, fs[i], i, [], done + [m]) == Some(st'.slots[i].vals)
  {
    var all := done + [m];
    assert all[..|all| - 1] == done && all[|all| - 1] == m;
    AppliedOne(s, fs, st, m, i);
    assert Gathered(s, fs[i], i, [], done) == Some(st.slots[i].vals);
  }

  lemma {:induction false} MadeUnknown(s: Schema, fs: seq<Field>, done: seq<Scanned>, st: Build, m: Scanned, st': Build)
    requires |st.slots| == |fs| && st.unknown == UnknownOf(done)
    requires m.pref <= |m.data| && (m.field.Some? ==> m.field.value < |fs|) && ApplyOne(s, fs, st, m) == Ok(st')
    ensures |st'.slots| == |fs| && st'.unknown == UnknownOf(done + [m])
  {
    var all := done + [m];
    assert all[..|all| - 1] == done && all[|all| - 1] == m;
  }

  lemma {:induction false} MadeFields(s: Schema, fs: seq<Field>, done: seq<Scanned>, st: Build, m: Scanned, st': Build,
                                      all: seq<Scanned>)
    requires Made(s, fs, done, st) && m.pref <= |m.data| && (m.field.Some? ==> m.field.value < |fs|)
    requires ApplyOne(s, fs, st, m) == Ok(st') && |st'.slots| == |fs| && all == done + [m]
    requires forall j :: 0 <= j < |all| ==> all[j].pref <= |all[j].data|
    ensures forall i {:trigger st'.slots[i]} :: 0 <= i < |fs| ==>
              Gathered(s, fs[i], i, [], all) == Some(st'.slots[i].vals)
  {
    forall i {:trigger st'.slots[i]} | 0 <= i < |fs| ensures Gathered(s, fs[i], i, [], all) == Some(st'.slots[i].vals) {
      MadeField(s, fs, done, st, m, st', i);
    }
  }

  lemma {:induction false} MadeMore(s: Schema, fs: seq<Field>, done: seq<Scanned>, st: Build, m: Scanned, st': Build)
    requires Made(s, fs, done, st) && m.pref <= |m.data| && (m.field.Some? ==> m.field.value < |fs|)
    requires ApplyOne(s, fs, st, m) == Ok(st')
    ensures Made(s, fs, done + [m], st')
  {
    MadeUnknown(s, fs, done, st, m, st');
    MadeFields(s, fs, done, st, m, st', done + [m]);
  }

  lemma {:induction false} MadeAll(s: Schema, fs: seq<Field>, done: seq<Scanned>, st: Build, ms: seq<Scanned>, n: nat,
                                   end: Build)
    requires Made(s, fs, done, st) && Fits(ms, n) && Known(fs, ms) && |st.slots| == |fs|
    requires ApplyAll(s, fs, st, ms, n) == Ok(end)
    ensures Made(s, fs, done + ms, end)
    decreases |ms|
  {
    if ms == [] {
      assert done + ms == done;
    } else {
      var st' := FirstApplied(s, fs, st, ms, n, end);
      MadeMore(s, fs, done, st, ms[0], st');
      MadeAll(s, fs, done + [ms[0]], st', ms[1..], n, end);
      assert done + [ms[0]] + ms[1..] == done + ms;
    }
  }

  lemma FirstApplied(s: Schema, fs: seq<Field>, st: Build, ms: seq<Scanned>, n: nat, end: Build) returns (st': Build)
    requires ms != [] && Fits(ms, n) && Known(fs, ms) && |st.slots| == |fs| && ApplyAll(s, fs, st, ms, n) == Ok(end)
    ensures ms[0].pref <= |ms[0].data| && (ms[0].field.Some? ==> ms[0].field.value < |fs|)
    ensures ApplyOne(s, fs, st, ms[0]) == Ok(st') && |st'.slots| == |fs| && Fits(ms[1..], n) && Known(fs, ms[1..])
    ensures ApplyAll(s, fs, st', ms[1..], n) == Ok(end)
  {
    st' := ApplyOne(s, fs, st, ms[0]).value;
  }

  /** Unpacking any bytes: the members of the scan, in order, give the fields their values, the last one
      to a singular field and all of them to a repeated one; the others are kept as unknown. */
  lemma UnpackedFields(s: Schema, d: nat, b: seq<byte>, m: Msg)
    requires d < |s| && Unpack(s, d, b) == Ok(m)
    ensures Scan(s[d].fields, b).Some? && m.desc == d
    ensures Made(s, s[d].fields, Scan(s[d].fields, b).value, Build(m.slots, m.unknown))
  {
    var fs := s[d].fields;
    var ms := Scan(fs, b).value;
    ScanKnows(fs, b);
    var st0 := Build(Empty(|fs|), []);
    assert Made(s, fs, [], st0);
    MadeAll(s, fs, [], st0, ms, |b|, Build(m.slots, m.unknown));
    assert [] + ms == ms;
  }

  /** A second value for a singular message is merged. */
  lemma SecondMerges(s: Schema, fs: seq<Field>, st: Build, m: Scanned, i: nat)
    requires m.pref <= |m.data| && |st.slots| == |fs| && m.field == Some(i) && i < |fs|
    requires fs[i].kind.KMessage? && !fs[i].rule.Repeated? && ReadVal(s, fs[i].kind, m).Ok?
    ensures ApplyOne(s, fs, st, m) == Merge <==> st.slots[i].vals != []
  {
  }

  // ---------- what is unpacked is a message of its type ----------

  ghost predicate ValTyped(s: Schema, k: Kind, v: Val)
    decreases v, 0
  {
    match k
    case KUInt64 => v.Num? && v.n < MAX64
    case KBytes => v.Blob?
    case KMessage(sub) => v.Sub? && v.msg.desc == sub && Typed(s, v.msg)
    case _ => v.Num? && v.n < MAX32
  }

  ghost predicate CountTyped(f: Field, vs: seq<Val>) {
    (f.rule.Required? ==> |vs| == 1) && (f.rule.Optional? ==> |vs| <= 1)
  }

  /** Every required field has one value, every optional one at most one, and all values are of their
      kinds, in submessages as well. */
  ghost predicate Typed(s: Schema, m: Msg)
    decreases m, 1
  {
    && m.desc < |s| && |m.slots| == |s[m.desc].fields|
    && (forall i, j :: 0 <= i < |m.slots| && 0 <= j < |m.slots[i].vals| ==>
        ValTyped(s, s[m.desc].fields[i].kind, m.slots[i].vals[j]))
    && (forall i :: 0 <= i < |m.slots| ==> CountTyped(s[m.desc].fields[i], m.slots[i].vals))
    && (forall u :: u in m.unknown ==> UnknownOk(s[m.desc].fields, u))
  }

  /** No message type has more fields than the bitmap of required fields has bits. */
  ghost predicate FewFields(s: Schema) { forall d :: 0 <= d < |s| ==> |s[d].fields| <= 128 }

  lemma {:induction false} NumsTyped(s: Schema, k: Kind, b: seq<byte>)
    requires IsNumber(k) && ReadNums(k, b).Some?
    ensures forall j :: 0 <= j < |ReadNums(k, b).value| ==> ValTyped(s, k, ReadNums(k, b).value[j])
    decreases |b|
  {
    if b != [] { NumsTyped(s, k, b[VarintLen(b, 10)..]); }
  }

  ghost predicate AllTyped(s: Schema, k: Kind, vs: seq<Val>) { forall j :: 0 <= j < |vs| ==> ValTyped(s, k, vs[j]) }

  lemma {:induction false} GivenTyped(s: Schema, f: Field, m: Scanned)
    requires SchemaOk(s) && FewFields(s) && FieldOk(s, f) && m.pref <= |m.data| && Gives(s, f, m).Some?
    ensures AllTyped(s, f.kind, Gives(s, f, m).value)
    decreases |m.data|, 3
  {
    if f.rule.Repeated? && m.wire == 2 && IsNumber(f.kind) {
      NumsTyped(s, f.kind, m.data[m.pref..]);
    } else if f.kind.KMessage? {
      var b := m.data[m.pref..];
      UnpackedTyped(s, f.kind.sub, b, Unpack(s, f.kind.sub, b).value);
    }
  }

  lemma {:induction false} GatheredTyped(s: Schema, f: Field, i: nat, ms: seq<Scanned>, n: nat)
    requires SchemaOk(s) && FewFields(s) && FieldOk(s, f) && Fits(ms, n) && Gathered(s, f, i, [], ms).Some?
    ensures AllTyped(s, f.kind, Gathered(s, f, i, [], ms).value)
    ensures !f.rule.Repeated? ==> |Gathered(s, f, i, [], ms).value| <= 1
    ensures !f.rule.Repeated? && HasField(ms, i) ==> |Gathered(s, f, i, [], ms).value| == 1
    decreases n, 0, |ms|
  {
    if ms != [] {
      var k := |ms| - 1;
      GatheredTyped(s, f, i, ms[..k], n);
      if ms[k].field == Some(i) {
        GivenTyped(s, f, ms[k]);
        if !f.rule.Repeated? { GivesOne(s, f, ms[k]); }
      } else if HasField(ms, i) {
        EarlierField(ms, i);
      }
    }
  }

  lemma EarlierField(ms: seq<Scanned>, i: nat)
    requires ms != [] && ms[|ms| - 1].field != Some(i) && HasField(ms, i)
    ensures HasField(ms[..|ms| - 1], i)
  {
    var j :| 0 <= j < |ms| && ms[j].field == Some(i);
    assert ms[..|ms| - 1][j] == ms[j];
  }

  lemma {:induction false} UnknownsOk(fs: seq<Field>, ms: seq<Scanned>)
    requires forall j :: 0 <= j < |ms| ==> MemberOk(fs, ms[j])
    ensures forall u :: u in UnknownOf(ms) ==> UnknownOk(fs, u)
  {
    if ms != [] { UnknownsOk(fs, ms[..|ms| - 1]); }
  }

  /** The converse of the round trip: whatever bytes unpack, unpack to a message of their type. */
  lemma {:induction false} UnpackedTyped(s: Schema, d: nat, b: seq<byte>, m: Msg)
    requires SchemaOk(s) && FewFields(s) && d < |s| && Unpack(s, d, b) == Ok(m)
    ensures m.desc == d && Typed(s, m)
    decreases |b|, 2
  {
    var fs := s[d].fields;
    var ms := Scan(fs, b).value;
    UnpackedFields(s, d, b, m);
    ScannedOk(fs, b);
    UnknownsOk(fs, ms);
    forall i | 0 <= i < |fs| ensures AllTyped(s, fs[i].kind, m.slots[i].vals) && CountTyped(fs[i], m.slots[i].vals) {
      assert DescOk(s, s[d]) && FieldOk(s, fs[i]);
      assert Build(m.slots, m.unknown).slots[i] == m.slots[i];
      if fs[i].rule.Required? {
        assert RequiredSeen(fs, ms) && SeenBit(fs, ms, i);
        SeenIsThere(fs, ms, i);
      }
      GatheredTyped(s, fs[i], i, ms, |b|);
    }
  }

  // ---------- packing again ----------

  /** Every length-prefixed part of the packed message is shorter than 2^32 bytes. */
  ghost predicate Sized(s: Schema, m: Msg)
    decreases m
  {
    forall i, j :: 0 <= i < |m.slots| && 0 <= j < |m.slots[i].vals| ==>
      var v := m.slots[i].vals[j];
      |Body(s, v)| < MAX32 && |Prefixed(PackNums(m.slots[i].vals))| < MAX32 && (v.Sub? ==> Sized(s, v.msg))
  }

  lemma {:induction false} TypedIsWellFormed(s: Schema, m: Msg)
    requires SchemaOk(s) && Typed(s, m) && Sized(s, m)
    ensures WellFormed(s, m)
    decreases m
  {
    var fs := s[m.desc].fields;
    forall i, j | 0 <= i < |m.slots| && 0 <= j < |m.slots[i].vals| ensures ValOk(s, fs[i].kind, m.slots[i].vals[j]) {
      var v := m.slots[i].vals[j];
      assert ValTyped(s, fs[i].kind, v);
      assert |Body(s, v)| < MAX32 && (v.Sub? ==> Sized(s, v.msg));
      if v.Sub? { TypedIsWellFormed(s, v.msg); }
    }
    forall i | 0 <= i < |m.slots| ensures CountOk(fs[i], m.slots[i].vals) {
      assert CountTyped(fs[i], m.slots[i].vals);
      if m.slots[i].vals == [] {
        NothingIsSmall();
      } else {
        var v := m.slots[i].vals[0];
        assert |Prefixed(PackNums(m.slots[i].vals))| < MAX32;
      }
    }
  }

  lemma NothingIsSmall()
    ensures |Prefixed(PackNums([]))| < MAX32
  {
    assert PackNums([]) == [] && Varint(0) == [0];
  }

  /** Unpacking gives a normal form: packed again it unpacks to the same message. */
  lemma NormalForm(s: Schema, d: nat, b: seq<byte>, m: Msg)
    requires SchemaOk(s) && FewFields(s) && d < |s| && Unpack(s, d, b) == Ok(m) && Sized(s, m) && Bounded(s, m)
    ensures Unpack(s, d, Packed(s, m)) == Ok(m)
  {
    UnpackedTyped(s, d, b, m);
    TypedIsWellFormed(s, m);
    RoundTrip(s, m);
  }
}
