/** Unpacking what was packed gives the message back. */
module PbRoundTrip {
  import opened Options
  import opened Bytes
  import opened PbVarint
  import opened PbMessage
  import opened PbUnpack

  // ---------- scanning ----------

  function PrependAll(ms: seq<Scanned>, o: Option<seq<Scanned>>): Option<seq<Scanned>> {
    match o case None => None case Some(rest) => Some(ms + rest)
  }

  lemma PrependTwo(a: seq<Scanned>, b: seq<Scanned>, o: Option<seq<Scanned>>)
    ensures PrependAll(a, PrependAll(b, o)) == PrependAll(a + b, o)
  {
    if o.Some? { assert a + (b + o.value) == (a + b) + o.value; }
  }

  /** The bytes b in front are scanned as the members ms, whatever follows. */
  ghost predicate ScansAs(fs: seq<Field>, b: seq<byte>, ms: seq<Scanned>) {
    forall t {:trigger Scan(fs, b + t)} :: Scan(fs, b + t) == PrependAll(ms, Scan(fs, t))
  }

  lemma ScansNothing(fs: seq<Field>)
    ensures ScansAs(fs, [], [])
  {
    forall t {:trigger Scan(fs, [] + t)} ensures Scan(fs, [] + t) == PrependAll([], Scan(fs, t)) {
      assert [] + t == t;
      if Scan(fs, t).Some? { assert [] + Scan(fs, t).value == Scan(fs, t).value; }
    }
  }

  lemma ScansOne(fs: seq<Field>, tag: nat, wire: nat, pref: nat, data: seq<byte>)
    requires tag < MAX32 && wire < 8 && WholeItem(wire, pref, data)
    ensures ScansAs(fs, Tag(tag, wire) + data, [Scanned(tag, wire, Lookup(fs, tag), pref, data)])
  {
    var m := Scanned(tag, wire, Lookup(fs, tag), pref, data);
    var b := Tag(tag, wire) + data;
    forall t {:trigger Scan(fs, b + t)} ensures Scan(fs, b + t) == PrependAll([m], Scan(fs, t)) {
      ScanItem(fs, tag, wire, pref, data, t);
    }
  }

  lemma ScansJoin(fs: seq<Field>, a: seq<byte>, ms: seq<Scanned>, b: seq<byte>, ns: seq<Scanned>)
    requires ScansAs(fs, a, ms) && ScansAs(fs, b, ns)
    ensures ScansAs(fs, a + b, ms + ns)
  {
    forall t {:trigger Scan(fs, (a + b) + t)} ensures Scan(fs, (a + b) + t) == PrependAll(ms + ns, Scan(fs, t)) {
      assert (a + b) + t == a + (b + t);
      PrependTwo(ms, ns, Scan(fs, t));
    }
  }

  lemma ScansAll(fs: seq<Field>, b: seq<byte>, ms: seq<Scanned>)
    requires ScansAs(fs, b, ms)
    ensures Scan(fs, b) == Some(ms)
  {
    assert b + [] == b && ms + [] == ms;
    assert Scan(fs, b + []) == PrependAll(ms, Scan(fs, []));
  }

  /** Every value of a well-formed message is one item. */
  lemma BodyIsItem(s: Schema, k: Kind, v: Val)
    requires ValOk(s, k, v)
    ensures WholeItem(WireOf(k), PrefOf(s, v), Body(s, v))
  {
    match v
    case Num(n) => NumberIsItem(n);
    case Blob(b) => PrefixedIsItem(b);
    case Sub(m) => PrefixedIsItem(Packed(s, m));
  }

  lemma {:induction false} LookupFinds(fs: seq<Field>, i: nat)
    requires i < |fs| && forall a, b :: 0 <= a < b < |fs| ==> fs[a].id != fs[b].id
    ensures Lookup(fs, fs[i].id) == Some(i)
  {
    if i < |fs| - 1 { LookupFinds(fs[..|fs| - 1], i); }
  }

  /** What is known of field i of a well-formed message. */
  ghost predicate FieldGood(s: Schema, m: Msg, i: nat) {
    && m.desc < |s| && i < |m.slots| == |s[m.desc].fields|
    && FieldOk(s, s[m.desc].fields[i]) && CountOk(s[m.desc].fields[i], m.slots[i].vals)
    && Lookup(s[m.desc].fields, s[m.desc].fields[i].id) == Some(i)
    && forall j :: 0 <= j < |m.slots[i].vals| ==> ValOk(s, s[m.desc].fields[i].kind, m.slots[i].vals[j])
  }

  lemma WellFormedField(s: Schema, m: Msg, i: nat)
    requires SchemaOk(s) && WellFormed(s, m) && i < |m.slots|
    ensures FieldGood(s, m, i)
  {
    assert DescOk(s, s[m.desc]);
    LookupFinds(s[m.desc].fields, i);
  }

  lemma {:induction false} ScansVals(s: Schema, m: Msg, i: nat, j: nat)
    requires FieldGood(s, m, i)
    ensures ScansAs(s[m.desc].fields, PackVals(s, m, i, j), ValMembers(s, m, i, j))
    decreases |m.slots[i].vals| - j
  {
    var fs := s[m.desc].fields;
    if j >= |m.slots[i].vals| {
      ScansNothing(fs);
    } else {
      var f, v := fs[i], m.slots[i].vals[j];
      BodyIsItem(s, f.kind, v);
      ScansOne(fs, f.id, WireOf(f.kind), PrefOf(s, v), Body(s, v));
      ScansVals(s, m, i, j + 1);
      ScansJoin(fs, Tag(f.id, WireOf(f.kind)) + Body(s, v),
        [Scanned(f.id, WireOf(f.kind), Some(i), PrefOf(s, v), Body(s, v))],
                PackVals(s, m, i, j + 1), ValMembers(s, m, i, j + 1));
    }
  }

  lemma ScansField(s: Schema, m: Msg, i: nat)
    requires FieldGood(s, m, i)
    ensures ScansAs(s[m.desc].fields, PackField(s, m, i), FieldMembers(s, m, i))
  {
    var fs := s[m.desc].fields;
    if !fs[i].packed {
      ScansVals(s, m, i, 0);
    } else if m.slots[i].vals == [] {
      ScansNothing(fs);
    } else {
      PrefixedIsItem(PackNums(m.slots[i].vals));
      ScansOne(fs, fs[i].id, 2, |Varint(|PackNums(m.slots[i].vals)|)|, Prefixed(PackNums(m.slots[i].vals)));
    }
  }

  lemma {:induction false} ScansFields(s: Schema, m: Msg, i: nat)
    requires SchemaOk(s) && WellFormed(s, m)
    ensures ScansAs(s[m.desc].fields, PackFields(s, m, i), FieldsMembers(s, m, i))
    decreases |m.slots| - i
  {
    var fs := s[m.desc].fields;
    if i >= |m.slots| {
      ScansNothing(fs);
    } else {
      WellFormedField(s, m, i);
      ScansField(s, m, i);
      ScansFields(s, m, i + 1);
      ScansJoin(fs, PackField(s, m, i), FieldMembers(s, m, i), PackFields(s, m, i + 1), FieldsMembers(s, m, i + 1));
    }
  }

  lemma {:induction false} ScansUnknown(fs: seq<Field>, us: seq<Unknown>)
    requires forall u :: u in us ==> UnknownOk(fs, u)
    ensures ScansAs(fs, PackUnknown(us), UnknownMembers(us))
  {
    if us == [] {
      ScansNothing(fs);
    } else {
      var u := us[0];
      assert u in us;
      var pref :| WholeItem(u.wire, pref, u.data);
      assert ItemPref(u) == pref;
      ScansOne(fs, u.tag, u.wire, pref, u.data);
      ScansUnknown(fs, us[1..]);
      ScansJoin(fs, Tag(u.tag, u.wire) + u.data, [Scanned(u.tag, u.wire, None, pref, u.data)], PackUnknown(us[1..]),
        UnknownMembers(us[1..]));
    }
  }

  /** The scan finds exactly the members that were packed. */
  lemma ScansPacked(s: Schema, m: Msg)
    requires SchemaOk(s) && WellFormed(s, m)
    ensures Scan(s[m.desc].fields, Packed(s, m)) == Some(Members(s, m))
  {
    var fs := s[m.desc].fields;
    ScansFields(s, m, 0);
    ScansUnknown(fs, m.unknown);
    ScansJoin(fs, PackFields(s, m, 0), FieldsMembers(s, m, 0), PackUnknown(m.unknown), UnknownMembers(m.unknown));
    ScansAll(fs, Packed(s, m), Members(s, m));
  }

  // ---------- the required fields ----------

  lemma OneMember(s: Schema, m: Msg, i: nat)
    requires FieldGood(s, m, i) && s[m.desc].fields[i].rule.Required?
    ensures |FieldMembers(s, m, i)| > 0 && FieldMembers(s, m, i)[0].field == Some(i)
  {
  }

  lemma {:induction false} LaterMember(s: Schema, m: Msg, k: nat, y: nat)
    requires k < |m.slots| && k < |FieldsOf(s, m.desc)| && y < |FieldsMembers(s, m, k + 1)|
    ensures var x := |FieldMembers(s, m, k)| + y;
            x < |FieldsMembers(s, m, k)| && FieldsMembers(s, m, k)[x] == FieldsMembers(s, m, k + 1)[y]
  {
    assert FieldsMembers(s, m, k) == FieldMembers(s, m, k) + FieldsMembers(s, m, k + 1);
  }

  lemma {:induction false} FieldIsMember(s: Schema, m: Msg, i: nat, k: nat) returns (x: nat)
    requires SchemaOk(s) && WellFormed(s, m) && k <= i < |m.slots| && s[m.desc].fields[i].rule.Required?
    ensures x < |FieldsMembers(s, m, k)| && FieldsMembers(s, m, k)[x].field == Some(i)
    decreases i - k
  {
    if k == i {
      WellFormedField(s, m, i);
      OneMember(s, m, i);
      x := 0;
    } else {
      var y := FieldIsMember(s, m, i, k + 1);
      LaterMember(s, m, k, y);
      x := |FieldMembers(s, m, k)| + y;
    }
  }

  lemma RequiredAreSeen(s: Schema, m: Msg)
    requires SchemaOk(s) && WellFormed(s, m)
    ensures RequiredSeen(s[m.desc].fields, Members(s, m))
  {
    var fs, ms := s[m.desc].fields, Members(s, m);
    forall f | 0 <= f < |fs| && fs[f].rule.Required? ensures SeenBit(fs, ms, f) {
      var x := FieldIsMember(s, m, f, 0);
      assert ms[x] == FieldsMembers(s, m, 0)[x];
    }
  }

  // ---------- parsing ----------

  /** Parsing these members takes the message from st to st'. */
  ghost predicate Builds(s: Schema, fs: seq<Field>, st: Build, ms: seq<Scanned>, st': Build) {
    && |st.slots| == |fs| == |st'.slots| && Known(fs, ms)
    && forall n {:trigger Fits(ms, n)} :: Fits(ms, n) ==> ApplyAll(s, fs, st, ms, n) == Ok(st')
  }

  lemma {:induction false} ApplyJoin(s: Schema, fs: seq<Field>, st: Build, ms: seq<Scanned>, ns: seq<Scanned>, n: nat)
    requires |st.slots| == |fs| && Fits(ms, n) && Fits(ns, n) && Known(fs, ms) && Known(fs, ns)
             && ApplyAll(s, fs, st, ms, n).Ok?
    ensures Fits(ms + ns, n) && Known(fs, ms + ns) && |ApplyAll(s, fs, st, ms, n).value.slots| == |fs|
    ensures ApplyAll(s, fs, st, ms + ns, n) == ApplyAll(s, fs, ApplyAll(s, fs, st, ms, n).value, ns, n)
    decreases |ms|
  {
    if ms == [] {
      assert ms + ns == ns;
    } else {
      var one := ApplyOne(s, fs, st, ms[0]);
      ApplyJoin(s, fs, one.value, ms[1..], ns, n);
      assert (ms + ns)[1..] == ms[1..] + ns;
    }
  }

  lemma BuildsJoin(s: Schema, fs: seq<Field>, a: Build, ms: seq<Scanned>, b: Build, ns: seq<Scanned>, c: Build)
    requires Builds(s, fs, a, ms, b) && Builds(s, fs, b, ns, c)
    ensures Builds(s, fs, a, ms + ns, c)
  {
    assert Known(fs, ms + ns);
    forall n {:trigger Fits(ms + ns, n)} | Fits(ms + ns, n) ensures ApplyAll(s, fs, a, ms + ns, n) == Ok(c) {
      assert Fits(ms, n) by { assert forall i :: 0 <= i < |ms| ==> (ms + ns)[i] == ms[i]; }
      assert Fits(ns, n) by { assert forall i :: 0 <= i < |ns| ==> (ms + ns)[|ms| + i] == ns[i]; }
      ApplyJoin(s, fs, a, ms, ns, n);
    }
  }

  lemma BuildsNothing(s: Schema, fs: seq<Field>, st: Build)
    requires |st.slots| == |fs|
    ensures Builds(s, fs, st, [], st)
  {
  }

  lemma BuildsOne(s: Schema, fs: seq<Field>, st: Build, m: Scanned, st': Build)
    requires |st.slots| == |fs| == |st'.slots| && (m.field.Some? ==> m.field.value < |fs|)
    requires m.pref <= |m.data| && ApplyOne(s, fs, st, m) == Ok(st')
    ensures Builds(s, fs, st, [m], st')
  {
    forall n {:trigger Fits([m], n)} | Fits([m], n) ensures ApplyAll(s, fs, st, [m], n) == Ok(st') {
      assert [m][0] == m;
      assert [m][1..] == [];
    }
  }

  /** The values of a message's submessages unpack to themselves. */
  ghost predicate SubsReadBack(s: Schema, m: Msg) {
    forall i, j :: 0 <= i < |m.slots| && 0 <= j < |m.slots[i].vals| ==> SubReadsBack(s, m.slots[i].vals[j])
  }

  ghost predicate SubReadsBack(s: Schema, v: Val) {
    v.Sub? ==> Unpack(s, v.msg.desc, Packed(s, v.msg)) == Ok(v.msg)
  }

  lemma ReadsVal(s: Schema, k: Kind, v: Val, m: Scanned)
    requires ValOk(s, k, v) && SubReadsBack(s, v)
    requires m.wire == WireOf(k) && m.pref == PrefOf(s, v) && m.data == Body(s, v) && m.pref <= |m.data|
    ensures ReadVal(s, k, m) == Ok(v)
  {
    match v
    case Num(n) => if k.KUInt64? { UInt64Reads(n); } else { UInt32Reads(n); }
    case Blob(b) => PrefixedIsItem(b);
    case Sub(sub) => PrefixedIsItem(Packed(s, sub));
  }

  lemma {:induction false} NumsRead(s: Schema, k: Kind, vs: seq<Val>)
    requires IsNumber(k) && forall j :: 0 <= j < |vs| ==> ValOk(s, k, vs[j])
    ensures ReadNums(k, PackNums(vs)) == Some(vs)
  {
    if vs != [] {
      var n := vs[0].n;
      var b, t := Varint(n), PackNums(vs[1..]);
      assert UInt64Size(n) <= 10;
      VarintInFront(n, t, 10);
      assert (b + t)[..|b|] == b && (b + t)[|b|..] == t;
      if k.KUInt64? { UInt64Reads(n); } else { UInt32Reads(n); }
      NumsRead(s, k, vs[1..]);
      assert vs == [Num(n)] + vs[1..];
    }
  }

  /** The state before field i: the fields before it done, the others empty. */
  function Before(m: Msg, i: nat): Build
    requires i <= |m.slots|
  {
    Build(m.slots[..i] + Empty(|m.slots| - i), [])
  }

  lemma BeforeNext(m: Msg, i: nat)
    requires i < |m.slots|
    ensures Set(Before(m, i), i, m.slots[i].vals) == Before(m, i + 1)
    ensures Set(Before(m, i), i, []) == Before(m, i)
  {
    var a, b := Set(Before(m, i), i, m.slots[i].vals).slots, Before(m, i + 1).slots;
    forall k | 0 <= k < |m.slots| ensures a[k] == b[k] {}
    assert a == b;
    assert Set(Before(m, i), i, []).slots == Before(m, i).slots;
  }

  lemma BuildsVal(s: Schema, m: Msg, i: nat, j: nat, st: Build)
    requires FieldGood(s, m, i) && j < |m.slots[i].vals| && SubReadsBack(s, m.slots[i].vals[j])
             && !s[m.desc].fields[i].packed
    requires |st.slots| == |s[m.desc].fields| && st.slots[i].vals == m.slots[i].vals[..j]
    ensures var fs, v := s[m.desc].fields, m.slots[i].vals[j];
            Builds(s, fs, st, [Scanned(fs[i].id, WireOf(fs[i].kind), Some(i), PrefOf(s, v), Body(s, v))],
                   Set(st, i, m.slots[i].vals[..j + 1]))
  {
    var fs, vs := s[m.desc].fields, m.slots[i].vals;
    var f, v := fs[i], vs[j];
    var x := Scanned(f.id, WireOf(f.kind), Some(i), PrefOf(s, v), Body(s, v));
    assert vs[..j + 1] == vs[..j] + [v];
    BodyIsItem(s, f.kind, v);
    ReadsVal(s, f.kind, v, x);
    if !f.rule.Repeated? { assert j == 0 && vs[..0] == [] && [] + [v] == [v]; }
    BuildsOne(s, fs, st, x, Set(st, i, vs[..j + 1]));
  }

  lemma {:induction false} BuildsVals(s: Schema, m: Msg, i: nat, j: nat, st: Build)
    requires FieldGood(s, m, i) && SubsReadBack(s, m) && j <= |m.slots[i].vals| && !s[m.desc].fields[i].packed
    requires |st.slots| == |s[m.desc].fields| && st.slots[i].vals == m.slots[i].vals[..j]
    ensures Builds(s, s[m.desc].fields, st, ValMembers(s, m, i, j), Set(st, i, m.slots[i].vals))
    decreases |m.slots[i].vals| - j
  {
    var fs, vs := s[m.desc].fields, m.slots[i].vals;
    if j == |vs| {
      assert vs[..j] == vs;
      assert Set(st, i, vs) == st;
      BuildsNothing(s, fs, st);
    } else {
      BuildsVal(s, m, i, j, st);
      var st' := Set(st, i, vs[..j + 1]);
      BuildsVals(s, m, i, j + 1, st');
      assert Set(st', i, vs) == Set(st, i, vs);
      BuildsJoin(s, fs, st, [Scanned(fs[i].id, WireOf(fs[i].kind), Some(i), PrefOf(s, vs[j]), Body(s, vs[j]))], st',
                 ValMembers(s, m, i, j + 1), Set(st, i, vs));
    }
  }

  lemma BuildsPacked(s: Schema, m: Msg, i: nat, st: Build)
    requires FieldGood(s, m, i) && s[m.desc].fields[i].packed && m.slots[i].vals != []
    requires |st.slots| == |s[m.desc].fields| && st.slots[i].vals == []
    ensures Builds(s, s[m.desc].fields, st, FieldMembers(s, m, i), Set(st, i, m.slots[i].vals))
  {
    var fs, vs := s[m.desc].fields, m.slots[i].vals;
    var b := PackNums(vs);
    PrefixedIsItem(b);
    NumsRead(s, fs[i].kind, vs);
    assert [] + vs == vs;
    BuildsOne(s, fs, st, Scanned(fs[i].id, 2, Some(i), |Varint(|b|)|, Prefixed(b)), Set(st, i, vs));
  }

  lemma BuildsField(s: Schema, m: Msg, i: nat)
    requires FieldGood(s, m, i) && SubsReadBack(s, m)
    ensures Builds(s, s[m.desc].fields, Before(m, i), FieldMembers(s, m, i), Before(m, i + 1))
  {
    var st := Before(m, i);
    BeforeNext(m, i);
    assert st.slots[i].vals == [] == m.slots[i].vals[..0];
    if !s[m.desc].fields[i].packed {
      BuildsVals(s, m, i, 0, st);
    } else if m.slots[i].vals == [] {
      BuildsNothing(s, s[m.desc].fields, st);
    } else {
      BuildsPacked(s, m, i, st);
    }
  }

  lemma {:induction false} BuildsFields(s: Schema, m: Msg, i: nat)
    requires SchemaOk(s) && WellFormed(s, m) && SubsReadBack(s, m) && i <= |m.slots|
    ensures Builds(s, s[m.desc].fields, Before(m, i), FieldsMembers(s, m, i), Before(m, |m.slots|))
    decreases |m.slots| - i
  {
    var fs := s[m.desc].fields;
    if i == |m.slots| {
      BuildsNothing(s, fs, Before(m, i));
    } else {
      WellFormedField(s, m, i);
      BuildsField(s, m, i);
      BuildsFields(s, m, i + 1);
      BuildsJoin(s, fs, Before(m, i), FieldMembers(s, m, i), Before(m, i + 1), FieldsMembers(s, m, i + 1),
        Before(m, |m.slots|));
    }
  }

  lemma {:induction false} BuildsUnknown(s: Schema, fs: seq<Field>, st: Build, us: seq<Unknown>)
    requires |st.slots| == |fs| && forall u :: u in us ==> UnknownOk(fs, u)
    ensures Builds(s, fs, st, UnknownMembers(us), st.(unknown := st.unknown + us))
    decreases |us|
  {
    if us == [] {
      assert st.unknown + us == st.unknown;
      BuildsNothing(s, fs, st);
    } else {
      var u := us[0];
      assert UnknownOk(fs, u);
      var st' := st.(unknown := st.unknown + [u]);
      var x := Scanned(u.tag, u.wire, None, ItemPref(u), u.data);
      BuildsOne(s, fs, st, x, st');
      BuildsUnknown(s, fs, st', us[1..]);
      assert st'.unknown + us[1..] == st.unknown + us;
      BuildsJoin(s, fs, st, [x], st', UnknownMembers(us[1..]), st.(unknown := st.unknown + us));
    }
  }

  /** Parsing the members builds the message. */
  lemma BuildsMessage(s: Schema, m: Msg)
    requires SchemaOk(s) && WellFormed(s, m) && SubsReadBack(s, m)
    ensures Builds(s, s[m.desc].fields, Build(Empty(|m.slots|), []), Members(s, m), Build(m.slots, m.unknown))
  {
    var fs := s[m.desc].fields;
    var end := Before(m, |m.slots|);
    assert Before(m, 0) == Build(Empty(|m.slots|), []);
    assert end == Build(m.slots, []);
    BuildsFields(s, m, 0);
    BuildsUnknown(s, fs, end, m.unknown);
    assert [] + m.unknown == m.unknown;
    BuildsJoin(s, fs, Before(m, 0), FieldsMembers(s, m, 0), end, UnknownMembers(m.unknown), Build(m.slots, m.unknown));
  }

  /** Unpacking a packed message gives it back, with its submessages, repeated and packed fields and
      the fields its type does not know. */
  lemma {:induction false} RoundTrip(s: Schema, m: Msg)
    requires SchemaOk(s) && WellFormed(s, m) && Bounded(s, m)
    ensures Unpack(s, m.desc, Packed(s, m)) == Ok(m)
    decreases m
  {
    forall i, j | 0 <= i < |m.slots| && 0 <= j < |m.slots[i].vals| ensures SubReadsBack(s, m.slots[i].vals[j]) {
      var v := m.slots[i].vals[j];
      assert ValOk(s, s[m.desc].fields[i].kind, v);
      if v.Sub? { RoundTrip(s, v.msg); }
    }
    ScansPacked(s, m);
    CleanScan(FieldsOf(s, m.desc), Packed(s, m));
    RequiredAreSeen(s, m);
    BuildsMessage(s, m);
    assert Fits(Members(s, m), |Packed(s, m)|);
  }
}
