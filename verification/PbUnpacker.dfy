/** protobuf_c_message_unpack: the loop that scans into slabs, and the loop that parses. */
module PbUnpacker {
  import opened Options
  import opened Bytes
  import opened PbVarint
  import opened PbRanges
  import opened PbMessage
  import opened PbLengths
  import opened PbUnpack
  import opened PbRoundTrip
  import opened PbReader
  import opened PbSlabs

  // ---------- finding a field ----------

  /** The table lists the ids of the fields, in their order. */
  ghost predicate RangesOk(d: Desc) {
    && |d.ranges| > 0 && TableOk(d.ranges, |d.ranges| - 1)
    && |Expanded(d.ranges, |d.ranges| - 1)| == |d.fields|
    && forall i :: 0 <= i < |d.fields| ==>
       d.fields[i].id < 0x8000_0000 && Expanded(d.ranges, |d.ranges| - 1)[i] == d.fields[i].id
  }

  ghost predicate TablesOk(s: Schema) { forall i :: 0 <= i < |s| ==> RangesOk(s[i]) }

  /** A tag of 32 bits as the signed argument of the lookup. */
  function AsInt(tag: nat): int { if tag < 0x8000_0000 then tag else tag - MAX32 }

  lemma LookupAgrees(d: Desc, tag: nat, r: int)
    requires RangesOk(d) && tag < MAX32 && FoundAt(Expanded(d.ranges, |d.ranges| - 1), AsInt(tag), r)
    requires IdsDiffer(d.fields)
    ensures Lookup(d.fields, tag) == if r < 0 then None else Some(r)
  {
    var t := Expanded(d.ranges, |d.ranges| - 1);
    if r >= 0 {
      assert d.fields[r].id == AsInt(tag);
      LookupFinds(d.fields, r);
    } else {
      forall i | 0 <= i < |d.fields| ensures d.fields[i].id != tag { assert t[i] in t; }
    }
  }

  /** The field of a tag: the last field again if the id fits, otherwise by the table. */
  method FindField(d: Desc, tag: nat, last: Option<nat>) returns (field: Option<nat>, last': Option<nat>)
    requires RangesOk(d) && tag < MAX32 && (last.Some? ==> last.value < |d.fields|)
    requires IdsDiffer(d.fields)
    ensures field == Lookup(d.fields, tag) && (last'.Some? ==> last'.value < |d.fields|)
  {
    if last.Some? && d.fields[last.value].id == tag {
      LookupFinds(d.fields, last.value);
      return last, last;
    }
    var r := IntRangeLookup(|d.ranges| - 1, d.ranges, AsInt(tag));
    LookupAgrees(d, tag, r);
    if r < 0 { return None, last; }
    return Some(r), Some(r);
  }

  // ---------- scanning ----------

  /** The switch over the wire type. */
  method ScanItem(wire: nat, b: seq<byte>) returns (r: Option<Item>)
    ensures r == CodeItem(wire, b)
  {
    match wire
    case 0 =>
      var n := ScanVarint(b, 10);
      r := if n == 0 then None else Some(Item(n, 0));
    case 1 => r := if |b| < 8 then None else Some(Item(8, 0));
    case 2 =>
      var len, pref := ScanPrefixed(b);
      r := if len == 0 then None else Some(Item(len, pref));
    case 5 => r := if |b| < 4 then None else Some(Item(4, 0));
    case _ => r := None;
  }

  /** One tag and item: None is an error. */
  method ScanMember(d: Desc, b: seq<byte>, last: Option<nat>) returns (r: Option<ScanStep>, last': Option<nat>)
    requires b != [] && RangesOk(d) && (last.Some? ==> last.value < |d.fields|)
    requires IdsDiffer(d.fields)
    ensures r == CodeScan(d.fields, b) && (last'.Some? ==> last'.value < |d.fields|)
  {
    var used, tag, wire := ParseTag(b);
    if used == 0 { return None, last; }
    TagIs32(b);
    var field;
    field, last' := FindField(d, tag, last);
    var item := ScanItem(wire, b[used..]);
    r := StepOf(d.fields, b, TagRead(used, tag, wire), field, item);
  }

  /** The scanned member, from its parts. */
  method StepOf(fs: seq<Field>, b: seq<byte>, t: TagRead, field: Option<nat>, item: Option<Item>)
      returns (r: Option<ScanStep>)
    requires ReadTag(b) == Some(t) && item == CodeItem(t.wire, b[t.used..]) && field == Lookup(fs, t.tag)
    ensures r == CodeScan(fs, b)
  {
    if item.None? { return None; }
    var len := item.value.len;
    r := Some(ScanStep(Scanned(t.tag, t.wire, field, item.value.pref, b[t.used..t.used + len]), t.used + len));
  }

  /** The bitmap of required fields, by field number modulo 128. */
  ghost predicate BitmapOk(bitmap: seq<bool>, fs: seq<Field>, ms: seq<Scanned>) {
    |bitmap| == 128 && forall f: nat {:trigger SeenBit(fs, ms, f)} :: bitmap[f % 128] <==> SeenBit(fs, ms, f)
  }

  /** The bit that this member sets, if any. */
  predicate SetsBit(fs: seq<Field>, m: Scanned, f: nat) {
    m.field.Some? && m.field.value < |fs| && fs[m.field.value].rule.Required? && m.field.value % 128 == f % 128
  }

  lemma SeenNext(fs: seq<Field>, ms: seq<Scanned>, m: Scanned, f: nat)
    ensures SeenBit(fs, ms + [m], f) <==> SeenBit(fs, ms, f) || SetsBit(fs, m, f)
  {
    var all := ms + [m];
    if SeenBit(fs, ms, f) {
      var i :| 0 <= i < |ms| && ms[i].field.Some? && ms[i].field.value < |fs|
        && fs[ms[i].field.value].rule.Required? && ms[i].field.value % 128 == f % 128;
      assert all[i] == ms[i];
    }
    if SetsBit(fs, m, f) { assert all[|ms|] == m; }
  }

  method SetBit(bitmap: seq<bool>, fs: seq<Field>, m: Scanned, ghost ms: seq<Scanned>) returns (bitmap': seq<bool>)
    requires |bitmap| == 128
    ensures |bitmap'| == 128 && (BitmapOk(bitmap, fs, ms) ==> BitmapOk(bitmap', fs, ms + [m]))
  {
    bitmap' := bitmap;
    if m.field.Some? && m.field.value < |fs| && fs[m.field.value].rule.Required? {
      bitmap' := bitmap[m.field.value % 128 := true];
    }
    if BitmapOk(bitmap, fs, ms) {
      forall f: nat {:trigger SeenBit(fs, ms + [m], f)} ensures bitmap'[f % 128] <==> SeenBit(fs, ms + [m], f) {
        SeenNext(fs, ms, m, f);
        assert bitmap[f % 128] <==> SeenBit(fs, ms, f);
      }
    }
  }

  /** The members scanned so far and the bytes to come make up the whole scan. */
  ghost predicate ScanGoal(fs: seq<Field>, b: seq<byte>, ms: seq<Scanned>, rest: seq<byte>) {
    Scan(fs, b) == PrependAll(ms, Scan(fs, rest))
  }

  lemma ScanGoalNext(fs: seq<Field>, b: seq<byte>, ms: seq<Scanned>, rest: seq<byte>, st: ScanStep)
    requires ScanGoal(fs, b, ms, rest) && rest != [] && ScanOne(fs, rest) == Some(st)
    ensures ScanGoal(fs, b, ms + [st.member], rest[st.used..])
  {
    var o := Scan(fs, rest[st.used..]);
    if o.Some? { assert ms + ([st.member] + o.value) == (ms + [st.member]) + o.value; }
  }

  /** One more member than the slabs hold. */
  lemma TooMany(fs: seq<Field>, b: seq<byte>, ms: seq<Scanned>, rest: seq<byte>)
    requires ScanGoal(fs, b, ms, rest) && |ms| > MAX_MEMBERS
    ensures Scan(fs, b).Some? ==> |Scan(fs, b).value| > MAX_MEMBERS
  {
  }

  /** Whether the scan overruns is decided by the bytes to come. */
  ghost predicate OverrunGoal(fs: seq<Field>, b: seq<byte>, n: nat, rest: seq<byte>) {
    n <= MAX_MEMBERS && (Overruns(fs, b, MAX_MEMBERS) <==> Overruns(fs, rest, MAX_MEMBERS - n))
  }

  /** A length wrapped: the scan fails, whatever it does next. */
  ghost predicate Doomed(fs: seq<Field>, b: seq<byte>, rest: seq<byte>) {
    && Scan(fs, b) == None && !Overruns(fs, b, MAX_MEMBERS)
    && rest != [] && ScanOne(fs, rest) == None && !WrapsHere(rest)
  }

  /** What the first pass keeps: all is well, or nothing is any more. */
  ghost predicate Scanning(fs: seq<Field>, b: seq<byte>, ms: seq<Scanned>, bitmap: seq<bool>, rest: seq<byte>) {
    && |bitmap| == 128 && |ms| <= MAX_MEMBERS
    && (Doomed(fs, b, rest) || (ScanGoal(fs, b, ms, rest) && BitmapOk(bitmap, fs, ms)
        && OverrunGoal(fs, b, |ms|, rest)))
  }

  /** How the first pass ends: with all members, with an error, or by counting beyond the data. */
  datatype ScanEnd = Clean | Failed | Beyond

  ghost predicate EndsAs(end: ScanEnd, fs: seq<Field>, b: seq<byte>) {
    match end
    case Clean => true
    case Failed => !Overruns(fs, b, MAX_MEMBERS) && (Scan(fs, b) == None || |Scan(fs, b).value| > MAX_MEMBERS)
    case Beyond => Overruns(fs, b, MAX_MEMBERS)
  }

  /** The first pass: members into the slabs, required fields into the bitmap. */
  method ScanAll(d: Desc, b: seq<byte>) returns (end: ScanEnd, bitmap: seq<bool>, slabs: Slabs)
    requires RangesOk(d) && IdsDiffer(d.fields)
    ensures slabs.Valid() && EndsAs(end, d.fields, b)
    ensures end.Clean? ==> Scan(d.fields, b) == Some(slabs.contents) && BitmapOk(bitmap, d.fields, slabs.contents)
    ensures end.Clean? ==> |slabs.contents| <= MAX_MEMBERS && !Overruns(d.fields, b, MAX_MEMBERS)
  {
    slabs := new Slabs();
    var at := 0;
    var last: Option<nat> := if |d.fields| > 0 then Some(0) else None;
    bitmap := seq(128, i => false);
    assert b[0..] == b;
    StartScan(d.fields, b);
    while at < |b|
      invariant at <= |b| && slabs.Valid() && Scanning(d.fields, b, slabs.contents, bitmap, b[at..])
      invariant fresh(slabs) && forall i :: 0 <= i < |slabs.slabs| ==> fresh(slabs.slabs[i])
      invariant last.Some? ==> last.value < |d.fields|
      decreases |b| - at
    {
      end, at, bitmap, last := ScanStepInto(d, b, at, slabs, bitmap, last);
      if !end.Clean? { return; }
    }
    EndScan(d.fields, b, slabs.contents, b[at..]);
    end := Clean;
  }

  lemma StartScan(fs: seq<Field>, b: seq<byte>)
    ensures Scanning(fs, b, [], seq(128, i => false), b)
  {
    if Scan(fs, b).Some? { assert [] + Scan(fs, b).value == Scan(fs, b).value; }
  }

  lemma EndScan(fs: seq<Field>, b: seq<byte>, ms: seq<Scanned>, rest: seq<byte>)
    requires Doomed(fs, b, rest) || ScanGoal(fs, b, ms, rest)
    requires rest == []
    ensures Scan(fs, b) == Some(ms) && !Overruns(fs, b, MAX_MEMBERS)
  {
    assert ms + [] == ms;
    CleanScan(fs, b);
  }

  /** The member is a repeated number field, and its prefix is longer than itself. */
  predicate CountsBeyond(fs: seq<Field>, m: Scanned) {
    m.wire == 2 && |m.data| < m.pref
    && match m.field case None => false case Some(i) => i < |fs| && fs[i].rule.Repeated? && IsNumber(fs[i].kind)
  }

  /** Nothing is scanned any more. */
  lemma ScanStops(fs: seq<Field>, b: seq<byte>, ms: seq<Scanned>, bitmap: seq<bool>, rest: seq<byte>)
    requires Scanning(fs, b, ms, bitmap, rest) && rest != [] && CodeScan(fs, rest) == None
    ensures EndsAs(Failed, fs, b)
  {
    if WrapsHere(rest) { WrappedScan(fs, rest); }
    CodeScanIs(fs, rest);
  }

  /** The slabs are full. */
  lemma ScanIsFull(fs: seq<Field>, b: seq<byte>, ms: seq<Scanned>, bitmap: seq<bool>, rest: seq<byte>, st: ScanStep)
    requires Scanning(fs, b, ms, bitmap, rest) && rest != [] && CodeScan(fs, rest) == Some(st) && |ms| == MAX_MEMBERS
    ensures EndsAs(Failed, fs, b)
  {
    if WrapsHere(rest) {
      WrappedScan(fs, rest);
    } else {
      CodeScanIs(fs, rest);
      ScanGoalNext(fs, b, ms, rest, st);
      TooMany(fs, b, ms + [st.member], rest[st.used..]);
    }
  }

  /** The numbers are counted beyond the data. */
  lemma ScanIsBeyond(fs: seq<Field>, b: seq<byte>, ms: seq<Scanned>, bitmap: seq<bool>, rest: seq<byte>, st: ScanStep)
    requires Scanning(fs, b, ms, bitmap, rest) && rest != [] && CodeScan(fs, rest) == Some(st) && |ms| < MAX_MEMBERS
    requires CountsBeyond(fs, st.member)
    ensures EndsAs(Beyond, fs, b)
  {
    if WrapsHere(rest) { WrappedScan(fs, rest); } else { CodeScanIs(fs, rest); }
  }

  /** One member more. */
  lemma ScanGoesOn(fs: seq<Field>, b: seq<byte>, ms: seq<Scanned>, bitmap: seq<bool>, rest: seq<byte>, st: ScanStep,
                   bitmap': seq<bool>)
    requires Scanning(fs, b, ms, bitmap, rest) && rest != [] && CodeScan(fs, rest) == Some(st) && |ms| < MAX_MEMBERS
    requires !CountsBeyond(fs, st.member) && |bitmap'| == 128
    requires BitmapOk(bitmap, fs, ms) ==> BitmapOk(bitmap', fs, ms + [st.member])
    ensures Scanning(fs, b, ms + [st.member], bitmap', rest[st.used..])
  {
    if WrapsHere(rest) {
      WrappedScan(fs, rest);
      assert Doomed(fs, b, rest[st.used..]);
    } else {
      CodeScanIs(fs, rest);
      ScanGoalNext(fs, b, ms, rest, st);
    }
  }

  lemma CodeScanMoves(fs: seq<Field>, b: seq<byte>)
    ensures CodeScan(fs, b).Some? ==> 0 < CodeScan(fs, b).value.used <= |b|
  {
  }

  /** One tag and item, into the slabs. */
  method ScanStepInto(d: Desc, b: seq<byte>, at: nat, slabs: Slabs, bitmap: seq<bool>, last: Option<nat>)
      returns (end: ScanEnd, at': nat, bitmap': seq<bool>, last': Option<nat>)
    requires RangesOk(d) && IdsDiffer(d.fields) && slabs.Valid() && at < |b|
    requires Scanning(d.fields, b, slabs.contents, bitmap, b[at..]) && (last.Some? ==> last.value < |d.fields|)
    modifies slabs, slabs.slabs
    ensures slabs.Valid() && (forall i :: 0 <= i < |slabs.slabs| ==>
            slabs.slabs[i] in old(slabs.slabs) || fresh(slabs.slabs[i]))
    ensures last'.Some? ==> last'.value < |d.fields|
    ensures EndsAs(end, d.fields, b)
    ensures end.Clean? ==> at < at' <= |b| && Scanning(d.fields, b, slabs.contents, bitmap', b[at'..])
  {
    var rest := b[at..];
    var r;
    r, last' := ScanMember(d, rest, last);
    at', bitmap' := at, bitmap;
    if r.None? {
      ScanStops(d.fields, b, slabs.contents, bitmap, rest);
      return Failed, at', bitmap', last';
    }
    CodeScanMoves(d.fields, rest);
    at' := at + r.value.used;
    assert rest[r.value.used..] == b[at'..];
    end, bitmap' := KeepMember(d.fields, b, rest, slabs, bitmap, r.value);
  }

  /** The member goes into the slabs, and its numbers are counted. */
  method KeepMember(fs: seq<Field>, ghost b: seq<byte>, ghost rest: seq<byte>, slabs: Slabs, bitmap: seq<bool>,
                    st: ScanStep)
      returns (end: ScanEnd, bitmap': seq<bool>)
    requires slabs.Valid() && rest != [] && CodeScan(fs, rest) == Some(st)
    requires Scanning(fs, b, slabs.contents, bitmap, rest)
    modifies slabs, slabs.slabs
    ensures slabs.Valid() && (forall i :: 0 <= i < |slabs.slabs| ==>
            slabs.slabs[i] in old(slabs.slabs) || fresh(slabs.slabs[i]))
    ensures EndsAs(end, fs, b)
    ensures end.Clean? ==> Scanning(fs, b, slabs.contents, bitmap', rest[st.used..])
  {
    ghost var ms := slabs.contents;
    bitmap' := bitmap;
    var more := slabs.Add(st.member);
    if !more {
      ScanIsFull(fs, b, ms, bitmap, rest, st);
      return Failed, bitmap';
    }
    if CountsBeyond(fs, st.member) {
      ScanIsBeyond(fs, b, ms, bitmap, rest, st);
      return Beyond, bitmap';
    }
    bitmap' := SetBit(bitmap, fs, st.member, ms);
    ScanGoesOn(fs, b, ms, bitmap, rest, st, bitmap');
    end := Clean;
  }

  /** The check of the required fields. */
  method CheckRequired(fs: seq<Field>, bitmap: seq<bool>, ghost ms: seq<Scanned>) returns (ok: bool)
    requires BitmapOk(bitmap, fs, ms)
    ensures ok <==> RequiredSeen(fs, ms)
  {
    for f := 0 to |fs|
      invariant forall g: nat :: g < f && fs[g].rule.Required? ==> SeenBit(fs, ms, g)
    {
      assert bitmap[f % 128] <==> SeenBit(fs, ms, f);
      if fs[f].rule.Required? && !bitmap[f % 128] { return false; }
    }
    ok := true;
  }

  // ---------- parsing ----------

  method ParseNum(k: Kind, data: seq<byte>) returns (n: nat)
    requires data != []
    ensures n == ReadNum(k, data)
  {
    if k.KUInt64? { n := ParseUInt64(data); } else { n := ParseUInt32(data); }
  }

  /** parse_packed_repeated_member: None is an error. */
  method ParseNums(k: Kind, b: seq<byte>) returns (r: Option<seq<Val>>)
    ensures r == ReadNums(k, b)
  {
    var vs: seq<Val> := [];
    var at := 0;
    assert b[0..] == b;
    NumsGoalStart(k, b);
    while at < |b|
      invariant at <= |b| && NumsGoal(k, b, vs, b[at..])
    {
      var n, x := ParseNumStep(k, b, at, vs);
      if n == 0 { return None; }
      vs := vs + [Num(x)];
      at := at + n;
    }
    NumsGoalEnd(k, b, vs, b[at..]);
    r := Some(vs);
  }

  /** One number at a position: its length and value; length 0 is an error. */
  method ParseNumStep(k: Kind, b: seq<byte>, at: nat, ghost vs: seq<Val>) returns (n: nat, x: nat)
    requires at < |b| && NumsGoal(k, b, vs, b[at..])
    ensures n == 0 ==> ReadNums(k, b) == None
    ensures n > 0 ==> at + n <= |b| && NumsGoal(k, b, vs + [Num(x)], b[at + n..])
  {
    var rest := b[at..];
    n := ScanVarint(rest, 10);
    x := 0;
    if n > 0 {
      x := ParseNum(k, rest[..n]);
      NumsGoalNext(k, b, vs, rest, n);
      assert rest[n..] == b[at + n..];
    }
  }

  lemma NumsGoalEnd(k: Kind, b: seq<byte>, vs: seq<Val>, rest: seq<byte>)
    requires NumsGoal(k, b, vs, rest) && rest == []
    ensures ReadNums(k, b) == Some(vs)
  {
    assert vs + [] == vs;
  }

  ghost predicate NumsGoal(k: Kind, b: seq<byte>, vs: seq<Val>, rest: seq<byte>) {
    ReadNums(k, b) == match ReadNums(k, rest) case None => None case Some(us) => Some(vs + us)
  }

  lemma NumsGoalStart(k: Kind, b: seq<byte>)
    ensures NumsGoal(k, b, [], b)
  {
    if ReadNums(k, b).Some? { assert [] + ReadNums(k, b).value == ReadNums(k, b).value; }
  }

  lemma NumsGoalNext(k: Kind, b: seq<byte>, vs: seq<Val>, rest: seq<byte>, n: nat)
    requires NumsGoal(k, b, vs, rest) && rest != [] && n == VarintLen(rest, 10) > 0
    ensures NumsGoal(k, b, vs + [Num(ReadNum(k, rest[..n]))], rest[n..])
  {
    var x := Num(ReadNum(k, rest[..n]));
    var o := ReadNums(k, rest[n..]);
    if o.Some? { assert vs + ([x] + o.value) == (vs + [x]) + o.value; }
  }

  /** max_b128_numbers: how many numbers the first pass makes room for. */
  function EndBytes(b: seq<byte>): nat {
    if b == [] then 0 else (if More(b[0]) then 0 else 1) + EndBytes(b[1..])
  }

  /** The second pass fills exactly the room that the first pass counted. */
  lemma {:induction false} RoomIsExact(k: Kind, b: seq<byte>)
    ensures ReadNums(k, b).Some? ==> |ReadNums(k, b).value| == EndBytes(b)
    decreases |b|
  {
    if b != [] && VarintLen(b, 10) > 0 {
      OneEnd(b, 10);
      RoomIsExact(k, b[VarintLen(b, 10)..]);
    }
  }

  lemma {:induction false} OneEnd(b: seq<byte>, max: nat)
    requires VarintLen(b, max) > 0
    ensures EndBytes(b) == 1 + EndBytes(b[VarintLen(b, max)..])
    decreases max
  {
    if More(b[0]) {
      OneEnd(b[1..], max - 1);
      assert b[VarintLen(b, max)..] == b[1..][VarintLen(b, max) - 1..];
    }
  }

  /** parse_required_member. */
  method ParseVal(s: Schema, k: Kind, m: Scanned) returns (r: Outcome<Val>)
    requires TablesOk(s) && SchemaOk(s) && m.pref <= |m.data| && m.data != [] && (k.KMessage? ==> k.sub < |s|)
    ensures r == ReadVal(s, k, m)
    decreases |m.data|, 3
  {
    match k
    case KBytes => r := if m.wire != 2 then Fail else Ok(Blob(m.data[m.pref..]));
    case KMessage(sub) =>
      if m.wire != 2 { return Fail; }
      var msg := MessageUnpack(s, sub, m.data[m.pref..]);
      r := match msg case Ok(x) => Ok(Sub(x)) case Fail => Fail case Merge => Merge case Overrun => Overrun;
    case _ =>
      if m.wire != 0 { return Fail; }
      var n := ParseNum(k, m.data);
      r := Ok(Num(n));
  }

  /** parse_member. */
  method ParseMember(s: Schema, d: nat, st: Build, m: Scanned) returns (r: Outcome<Build>)
    requires TablesOk(s) && SchemaOk(s) && d < |s| && |st.slots| == |s[d].fields|
    requires m.pref <= |m.data| && m.data != [] && (m.field.Some? ==> m.field.value < |s[d].fields|)
    ensures r == ApplyOne(s, s[d].fields, st, m)
    decreases |m.data|, 4
  {
    if m.field.None? { return Ok(st.(unknown := st.unknown + [Unknown(m.tag, m.wire, m.data)])); }
    var i := m.field.value;
    var f := s[d].fields[i];
    assert DescOk(s, s[d]) && FieldOk(s, f);
    if f.rule.Repeated? && m.wire == 2 && (f.packed || IsNumber(f.kind)) {
      var vs := ParseNums(f.kind, m.data[m.pref..]);
      r := match vs case None => Fail case Some(x) => Ok(Set(st, i, st.slots[i].vals + x));
    } else {
      var v := ParseVal(s, f.kind, m);
      r := match v
        case Fail => Fail
        case Merge => Merge
        case Overrun => Overrun
        case Ok(x) =>
          if f.rule.Repeated? then Ok(Set(st, i, st.slots[i].vals + [x]))
          else if f.kind.KMessage? && st.slots[i].vals != [] then Merge
          else Ok(Set(st, i, [x]));
    }
  }

  /** The members parsed so far and those to come. */
  ghost predicate ParseGoal(s: Schema, fs: seq<Field>, st0: Build, ms: seq<Scanned>, st: Build, rest: seq<Scanned>,
                            n: nat)
    requires Fits(ms, n) && Known(fs, ms) && |st0.slots| == |fs| && Fits(rest, n) && Known(fs, rest)
             && |st.slots| == |fs|
  {
    ApplyAll(s, fs, st0, ms, n) == ApplyAll(s, fs, st, rest, n)
  }

  lemma {:induction false} ScannedHaveData(fs: seq<Field>, b: seq<byte>)
    ensures Scan(fs, b).Some? ==> forall i :: 0 <= i < |Scan(fs, b).value| ==> Scan(fs, b).value[i].data != []
    decreases |b|
  {
    if b != [] && ScanOne(fs, b).Some? {
      ScannedHaveData(fs, b[ScanOne(fs, b).value.used..]);
    }
  }

  /** The second pass. */
  method ParseAll(s: Schema, d: nat, ms: seq<Scanned>, n: nat) returns (r: Outcome<Build>)
    requires TablesOk(s) && SchemaOk(s) && d < |s| && Fits(ms, n) && Known(s[d].fields, ms)
    requires forall i :: 0 <= i < |ms| ==> ms[i].data != []
    ensures r == ApplyAll(s, s[d].fields, Build(Empty(|s[d].fields|), []), ms, n)
    decreases n, 1
  {
    var fs := s[d].fields;
    var st := Build(Empty(|fs|), []);
    ghost var st0 := st;
    assert ms[0..] == ms;
    for i := 0 to |ms|
      invariant |st.slots| == |fs| && ParseGoal(s, fs, st0, ms, st, ms[i..], n)
    {
      assert ms[i..][0] == ms[i] && ms[i..][1..] == ms[i + 1..];
      var one := ParseMember(s, d, st, ms[i]);
      if !one.Ok? { return match one case Merge => Merge case Overrun => Overrun case _ => Fail; }
      st := one.value;
    }
    r := Ok(st);
  }

  /** protobuf_c_message_unpack. */
  method MessageUnpack(s: Schema, d: nat, b: seq<byte>) returns (r: Outcome<Msg>)
    requires TablesOk(s) && SchemaOk(s) && d < |s|
    ensures r == Unpack(s, d, b)
    decreases |b|, 2
  {
    assert DescOk(s, s[d]);
    var end, bitmap, slabs := ScanAll(s[d], b);
    if end.Failed? { return Fail; }
    if end.Beyond? { return Overrun; }
    ScanKnows(s[d].fields, b);
    ScannedHaveData(s[d].fields, b);
    var required := CheckRequired(s[d].fields, bitmap, slabs.contents);
    if !required { return Fail; }
    var ms := slabs.ReadAll();
    var st := ParseAll(s, d, ms, |b|);
    r := match st case Ok(x) => Ok(Msg(d, x.slots, x.unknown)) case Fail => Fail case Merge => Merge
      case Overrun => Overrun;
  }
}
