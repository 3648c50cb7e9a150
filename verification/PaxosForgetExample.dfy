/** A run of three nodes in which one forgets the first slot and two values are chosen in it: node 0
    decides slots 1 to 11 with node 2 and forgets slot 1, and node 1 then runs slot 1 with node 0. */
module PaxosForgetExample {
  import opened Options
  import opened PaxosTypes
  import opened PaxosSystem
  import opened PaxosForget

  const C: Config := Config({0, 1, 2}, Intended)
  const G: Gid := 7
  const FIRST: Instance := Instance(7, 1)

  /** A run that ends in this memory. */
  ghost predicate EndsIn(run: seq<Memory>, m: Memory) { IsForgetfulRun(C, run) && run[|run| - 1] == m }

  lemma OneStep(run: seq<Memory>, m: Memory, m': Memory) returns (run': seq<Memory>)
    requires EndsIn(run, m) && StepOrForget(C, m, m')
    ensures EndsIn(run', m') && run <= run'
  {
    run' := run + [m'];
    forall i | 0 <= i < |run'| - 1 ensures StepOrForget(C, run'[i], run'[i + 1]) {
      if i < |run| - 1 { assert StepOrForget(C, run[i], run[i + 1]); }
    }
  }

  lemma Step(run: seq<Memory>, m: Memory, s': State) returns (run': seq<Memory>)
    requires EndsIn(run, m) && Next(C, m.s, s')
    ensures EndsIn(run', Memory(s', m.gone)) && run <= run'
  {
    run' := OneStep(run, m, Memory(s', m.gone));
  }

  // ---------- two nodes accept a proposal ----------

  /** Node n accepts message i and answers. */
  function AfterAccept(s: State, n: Nid, i: nat): State
    requires i < |s.log| && s.log[i].Accept?
  {
    var m := s.log[i];
    s.(acc := s.acc[n := AccOf(s, n)[m.prop.rid.Inst() := AcceptInfo(InfoAt(s, n, m.prop.rid.Inst()), m.prop)]],
       log := s.log + [Accepted(m.tid, n,
         Response(m.prop.rid, AcceptAck(InfoAt(s, n, m.prop.rid.Inst()), m.prop.rid.bid), []))])
  }

  lemma AcceptStep(s: State, n: Nid, i: nat)
    requires n in C.nodes && n !in s.halted && i < |s.log| && s.log[i].Accept?
    ensures Next(C, s, AfterAccept(s, n, i))
    ensures forall m, j {:trigger InfoAt(AfterAccept(s, n, i), m, j)} ::
              InfoAt(AfterAccept(s, n, i), m, j)
              == if m == n && j == s.log[i].prop.rid.Inst() then AcceptInfo(InfoAt(s, m, j), s.log[i].prop)
                else InfoAt(s, m, j)
  {
    assert RecvAccept(C, s, AfterAccept(s, n, i), n, i);
  }

  /** x is the last message, an accept that two nodes take. */
  ghost predicate Sent(s: State, a: Nid, b: Nid, x: Proposal, tid: Tid) {
    && s.halted == {} && a in C.nodes && b in C.nodes && a != b
    && |s.log| > 0 && s.log[|s.log| - 1] == Accept(tid, x)
    && InfoAt(s, a, x.rid.Inst()).bidMax <= x.rid.bid && InfoAt(s, b, x.rid.Inst()).bidMax <= x.rid.bid
  }

  function TwoAccepts(s: State, a: Nid, b: Nid): State
    requires |s.log| > 0 && s.log[|s.log| - 1].Accept?
  {
    var i: nat := |s.log| - 1;
    var s' := AfterAccept(s, a, i);
    assert s'.log[i] == s.log[i];
    AfterAccept(s', b, i)
  }

  lemma TwoAcceptsRun(run: seq<Memory>, m: Memory, a: Nid, b: Nid, x: Proposal, tid: Tid) returns (run': seq<Memory>)
    requires EndsIn(run, m) && Sent(m.s, a, b, x, tid)
    ensures EndsIn(run', Memory(TwoAccepts(m.s, a, b), m.gone)) && run <= run'
  {
    var i: nat := |m.s.log| - 1;
    var s' := AfterAccept(m.s, a, i);
    AcceptStep(m.s, a, i);
    AcceptStep(s', b, i);
    run' := Step(run, m, s');
    run' := Step(run', Memory(s', m.gone), TwoAccepts(m.s, a, b));
  }

  lemma TwoAcceptsEnd(s: State, a: Nid, b: Nid, x: Proposal, tid: Tid)
    requires Sent(s, a, b, x, tid)
    ensures var s' := TwoAccepts(s, a, b);
            && Chosen(C, s', x)
            && s' == s.(acc := s'.acc, log := s'.log) && s'.log == s.log + s'.log[|s.log|..] && |s'.log| == |s.log| + 2
            && s'.log[|s.log|] == Accepted(tid, a, Response(x.rid, Success, []))
            && s'.log[|s.log| + 1] == Accepted(tid, b, Response(x.rid, Success, []))
    ensures forall m, j {:trigger InfoAt(TwoAccepts(s, a, b), m, j)} ::
              InfoAt(TwoAccepts(s, a, b), m, j)
              == if m in {a, b} && j == x.rid.Inst() then AcceptInfo(InfoAt(s, m, j), x) else InfoAt(s, m, j)
  {
    var i: nat := |s.log| - 1;
    var s1, s' := AfterAccept(s, a, i), TwoAccepts(s, a, b);
    AcceptStep(s, a, i);
    AcceptStep(s1, b, i);
    forall n | n in {a, b} ensures HasAccepted(s', n, x) {
      var p := InfoAt(s, n, x.rid.Inst()).props;
      assert InfoAt(s', n, x.rid.Inst()).props == p + [x];
      assert (p + [x])[|p|] == x;
    }
    assert MajorityHas(C, s', {a, b}, x);
  }

  // ---------- the answers decide ----------

  /** A transaction of node a in phase 2 that proposed its own value, and nobody has answered. */
  ghost predicate Waits(s: State, tid: Tid, a: Nid, x: Proposal) {
    && tid in s.txns && s.txns[tid].phase == 2 && s.txns[tid].node == a && s.txns[tid].group.maxProp.None?
    && s.txns[tid].Own() == x && s.txns[tid].group.accd == map[]
    && s.txns[tid].group.accdYes == 0 && s.txns[tid].group.accdNo == 0
  }

  function OneYes(t: Txn, n: Nid): Txn { t.(group := CountAccepted(t.group, n, Response(t.Rid(), Success, []))) }

  function Decision(t: Txn, a: Nid, b: Nid): Txn { OneYes(OneYes(t, a), b).(phase := 3) }

  function AfterYes(s: State, tid: Tid, a: Nid, b: Nid): State
    requires tid in s.txns
  {
    var t := s.txns[tid];
    s.(txns := s.txns[tid := Decision(t, a, b)],
       next := s.next[a := Decided(NextOf(s, a), t.Own(), a)],
       busy := s.busy - {(a, t.Rid().gid)})
  }

  lemma TwoYes(run: seq<Memory>, m: Memory, tid: Tid, a: Nid, b: Nid, x: Proposal, i: nat) returns (run': seq<Memory>)
    requires EndsIn(run, m) && Waits(m.s, tid, a, x) && a != b
    requires i + 1 < |m.s.log| && m.s.log[i] == Accepted(tid, a, Response(x.rid, Success, []))
    requires m.s.log[i + 1] == Accepted(tid, b, Response(x.rid, Success, []))
    ensures EndsIn(run', Memory(AfterYes(m.s, tid, a, b), m.gone)) && run <= run'
  {
    var t := m.s.txns[tid];
    var s1 := m.s.(txns := m.s.txns[tid := OneYes(t, a)]);
    assert LargestOf(None, []) == None;
    assert C.nodes == {0, 1, 2} && |C.nodes| == 3;
    assert RecvAccepted(C, m.s, s1, i);
    SecondYes(m.s, s1, tid, a, b, x, i + 1);
    run' := Step(run, m, s1);
    run' := Step(run', Memory(s1, m.gone), AfterYes(m.s, tid, a, b));
  }

  lemma SecondYes(s: State, s1: State, tid: Tid, a: Nid, b: Nid, x: Proposal, i: nat)
    requires Waits(s, tid, a, x) && a != b && s1 == s.(txns := s.txns[tid := OneYes(s.txns[tid], a)])
    requires i < |s.log| && s.log[i] == Accepted(tid, b, Response(x.rid, Success, []))
    ensures Next(C, s1, AfterYes(s, tid, a, b))
  {
    var t := s.txns[tid];
    var t1 := OneYes(t, a);
    assert LargestOf(None, []) == None;
    assert C.nodes == {0, 1, 2} && |C.nodes| == 3;
    assert t1.group.accd == map[a := Success] && t1.group.accdYes == 1;
    assert s1.txns[tid := Decision(t, a, b)] == s.txns[tid := Decision(t, a, b)];
    assert Choice(C, Decision(t, a, b)) == x;
    assert RecvAccepted(C, s1, AfterYes(s, tid, a, b), i);
  }

  // ---------- the first slot, with a prepare ----------

  /** Node a has not begun in the group, and nobody knows of its first slot. */
  ghost predicate Fresh(s: State, a: Nid, b: Nid, tid: Tid) {
    && s.halted == {} && a in C.nodes && b in C.nodes && a != b && tid !in s.txns
    && G !in NextOf(s, a) && (a, G) !in s.busy
    && InfoAt(s, a, FIRST) == AccInfo(0, []) && InfoAt(s, b, FIRST) == AccInfo(0, [])
  }

  const R: Round := Round(7, 1, BID_NORMAL)

  function Began(s: State, a: Nid, tid: Tid, v: Value): State {
    s.(txns := s.txns[tid := Txn(a, v, false, 1, NewGroup(R))], busy := s.busy + {(a, G)},
       next := s.next[a := NextOf(s, a)[G := NextSid(1, false)]], log := s.log + [Prepare(tid, R)])
  }

  function Granting(s: State, n: Nid, tid: Tid): State {
    s.(acc := s.acc[n := AccOf(s, n)[FIRST := AccInfo(BID_NORMAL, [])]],
       log := s.log + [Promise(tid, n, Response(R, Success, []))])
  }

  lemma BeginStep(s: State, a: Nid, b: Nid, tid: Tid, v: Value)
    requires Fresh(s, a, b, tid)
    ensures Next(C, s, Began(s, a, tid, v))
  {
    assert Newest(NextOf(s, a), G) == NextSid(1, false);
    assert Start(C, s, Began(s, a, tid, v), a, G, tid, v, 0);
  }

  lemma GrantStep(s: State, n: Nid, tid: Tid, i: nat)
    requires n in C.nodes && s.halted == {} && i < |s.log| && s.log[i] == Prepare(tid, R)
             && InfoAt(s, n, FIRST) == AccInfo(0, [])
    ensures Next(C, s, Granting(s, n, tid))
    ensures forall m, j {:trigger InfoAt(Granting(s, n, tid), m, j)} ::
              InfoAt(Granting(s, n, tid), m, j) == if m == n && j == FIRST then AccInfo(BID_NORMAL, [])
                else InfoAt(s, m, j)
  {
    assert R.Inst() == FIRST;
    assert RecvPrepare(C, s, Granting(s, n, tid), n, i);
  }

  function Promised1(t: Txn, n: Nid): Txn { t.(group := CountPromise(t.group, n, Response(R, Success, []))) }

  function Promised2(t: Txn, a: Nid, b: Nid): Txn { Promised1(Promised1(t, a), b).(phase := 2) }

  /** Both promises are counted, and the own value is sent. */
  function Proposing(s: State, tid: Tid, a: Nid, b: Nid): State
    requires tid in s.txns
  {
    var t := s.txns[tid];
    s.(txns := s.txns[tid := Promised2(t, a, b)], log := s.log + [Accept(tid, t.Own())])
  }

  lemma FirstPromise(s: State, tid: Tid, a: Nid, v: Value, i: nat)
    requires tid in s.txns && s.txns[tid] == Txn(a, v, false, 1, NewGroup(R))
    requires i < |s.log| && s.log[i] == Promise(tid, a, Response(R, Success, []))
    ensures Next(C, s, s.(txns := s.txns[tid := Promised1(s.txns[tid], a)]))
  {
    assert LargestOf(None, []) == None;
    assert C.nodes == {0, 1, 2} && |C.nodes| == 3;
    assert RecvPromise(C, s, s.(txns := s.txns[tid := Promised1(s.txns[tid], a)]), i);
  }

  lemma SecondPromise(s: State, tid: Tid, a: Nid, b: Nid, v: Value, i: nat)
    requires tid in s.txns && s.txns[tid] == Txn(a, v, false, 1, NewGroup(R)) && a != b
    requires i < |s.log| && s.log[i] == Promise(tid, b, Response(R, Success, []))
    ensures Next(C, s.(txns := s.txns[tid := Promised1(s.txns[tid], a)]), Proposing(s, tid, a, b))
  {
    var t := s.txns[tid];
    var s1 := s.(txns := s.txns[tid := Promised1(t, a)]);
    assert LargestOf(None, []) == None;
    assert C.nodes == {0, 1, 2} && |C.nodes| == 3;
    assert s1.txns[tid := Promised2(t, a, b)] == s.txns[tid := Promised2(t, a, b)];
    assert Choice(C, Promised2(t, a, b)) == t.Own();
    assert RecvPromise(C, s1, Proposing(s, tid, a, b), i);
  }

  /** The state in which a has asked and both have granted. */
  function BothGrant(s: State, a: Nid, b: Nid, tid: Tid, v: Value): State {
    Granting(Granting(Began(s, a, tid, v), a, tid), b, tid)
  }

  lemma PrepareRun(run: seq<Memory>, m: Memory, a: Nid, b: Nid, tid: Tid, v: Value) returns (run': seq<Memory>)
    requires EndsIn(run, m) && Fresh(m.s, a, b, tid)
    ensures EndsIn(run', Memory(BothGrant(m.s, a, b, tid, v), m.gone)) && run <= run'
  {
    var i := |m.s.log|;
    var s1 := Began(m.s, a, tid, v);
    BeginStep(m.s, a, b, tid, v);
    run' := Step(run, m, s1);
    assert InfoAt(s1, a, FIRST) == InfoAt(m.s, a, FIRST) && InfoAt(s1, b, FIRST) == InfoAt(m.s, b, FIRST);
    GrantStep(s1, a, tid, i);
    run' := Step(run', Memory(s1, m.gone), Granting(s1, a, tid));
    GrantStep(Granting(s1, a, tid), b, tid, i);
    run' := Step(run', Memory(Granting(s1, a, tid), m.gone), BothGrant(m.s, a, b, tid, v));
  }

  lemma GrantInfos(s: State, a: Nid, b: Nid, tid: Tid, v: Value)
    requires Fresh(s, a, b, tid)
    ensures forall m, j {:trigger InfoAt(BothGrant(s, a, b, tid, v), m, j)} ::
              InfoAt(BothGrant(s, a, b, tid, v), m, j)
              == if m in {a, b} && j == FIRST then AccInfo(BID_NORMAL, []) else InfoAt(s, m, j)
  {
    var s1 := Began(s, a, tid, v);
    forall m, j ensures InfoAt(s1, m, j) == InfoAt(s, m, j) {}
    GrantStep(s1, a, tid, |s.log|);
    GrantStep(Granting(s1, a, tid), b, tid, |s.log|);
  }

  /** After both promises: the own value is sent in the first slot. */
  function FirstSent(s: State, a: Nid, b: Nid, tid: Tid, v: Value): State {
    Proposing(BothGrant(s, a, b, tid, v), tid, a, b)
  }

  lemma PromiseRun(run: seq<Memory>, m: Memory, a: Nid, b: Nid, tid: Tid, v: Value) returns (run': seq<Memory>)
    requires EndsIn(run, m) && Fresh(m.s, a, b, tid)
    ensures EndsIn(run', Memory(FirstSent(m.s, a, b, tid, v), m.gone)) && run <= run'
  {
    var s1 := BothGrant(m.s, a, b, tid, v);
    run' := PrepareRun(run, m, a, b, tid, v);
    FirstPromise(s1, tid, a, v, |m.s.log| + 1);
    SecondPromise(s1, tid, a, b, v, |m.s.log| + 2);
    var s2 := s1.(txns := s1.txns[tid := Promised1(s1.txns[tid], a)]);
    run' := Step(run', Memory(s1, m.gone), s2);
    run' := Step(run', Memory(s2, m.gone), FirstSent(m.s, a, b, tid, v));
  }

  lemma FirstSentEnd(s: State, a: Nid, b: Nid, tid: Tid, v: Value)
    requires Fresh(s, a, b, tid)
    ensures var s', x := FirstSent(s, a, b, tid, v), Proposal(R, a, v);
            && Sent(s', a, b, x, tid) && Waits(s', tid, a, x)
            && s'.txns.Keys == s.txns.Keys + {tid}
            && NextOf(s', a) == NextOf(s, a)[G := NextSid(1, false)]
               && (forall n :: n != a ==> NextOf(s', n) == NextOf(s, n))
            && s'.busy == s.busy + {(a, G)} && s'.halted == {}
    ensures forall m, j {:trigger InfoAt(FirstSent(s, a, b, tid, v), m, j)} ::
              InfoAt(FirstSent(s, a, b, tid, v), m, j) == if m in {a, b} && j == FIRST then AccInfo(BID_NORMAL, [])
                else InfoAt(s, m, j)
  {
    var s1, s' := BothGrant(s, a, b, tid, v), FirstSent(s, a, b, tid, v);
    GrantInfos(s, a, b, tid, v);
    forall m, j ensures InfoAt(s', m, j) == InfoAt(s1, m, j) {}
    assert R.Inst() == FIRST;
  }

  // ---------- slot after slot ----------

  /** Node 0 has decided slots 1 to k, with the help of node 2; its transactions are 1 to k. */
  ghost predicate Ready(s: State, k: nat) {
    && k > 0 && s.halted == {} && G in NextOf(s, 0) && NextOf(s, 0)[G] == NextSid(k + 1, true)
    && (0, G) !in s.busy && (1, G) !in s.busy && G !in NextOf(s, 1)
    && (forall t :: t in s.txns ==> t <= k) && k in s.txns
    && s.txns[k].phase == 3 && s.txns[k].node == 0 && Choice(C, s.txns[k]).rid.Inst() == Instance(G, k)
    && InfoAt(s, 1, FIRST) == AccInfo(0, [])
    && forall j: Sid, n: Nid {:trigger InfoAt(s, n, Instance(G, j))} :: j > k && n in {0, 2} ==>
       InfoAt(s, n, Instance(G, j)) == AccInfo(0, [])
  }

  const P: Proposal := Proposal(R, 0, [5])

  /** What a decision does to the rest. */
  lemma DecisionEnd(s: State, tid: Tid, x: Proposal)
    requires Waits(s, tid, 0, x) && x.rid.gid == G && tid == x.rid.sid > 0 && s.halted == {}
    requires G in NextOf(s, 0) && NextOf(s, 0)[G].sid == x.rid.sid && s.busy <= {(0, G)} && G !in NextOf(s, 1)
    requires (forall t :: t in s.txns ==> t <= tid) && InfoAt(s, 1, FIRST) == AccInfo(0, [])
    requires forall j: Sid, n: Nid {:trigger InfoAt(s, n, Instance(G, j))} :: j > tid && n in {0, 2} ==>
             InfoAt(s, n, Instance(G, j)) == AccInfo(0, [])
    ensures Ready(AfterYes(s, tid, 0, 2), tid) && AfterYes(s, tid, 0, 2).busy == {}
  {
    var s' := AfterYes(s, tid, 0, 2);
    forall n, j ensures InfoAt(s', n, j) == InfoAt(s, n, j) {}
    assert LargestOf(None, []) == None;
    assert Choice(C, s'.txns[tid]) == x;
    assert NextOf(s', 0) == Decided(NextOf(s, 0), x, 0) && NextOf(s', 1) == NextOf(s, 1);
  }

  /** The own value of a is sent in the first slot, and both accept it. */
  function FirstChosen(s: State, a: Nid, b: Nid, tid: Tid, v: Value): State {
    TwoAccepts(FirstSent(s, a, b, tid, v), a, b)
  }

  lemma ChooseFirst(run: seq<Memory>, m: Memory, a: Nid, b: Nid, tid: Tid, v: Value) returns (run': seq<Memory>)
    requires EndsIn(run, m) && Fresh(m.s, a, b, tid)
    ensures EndsIn(run', Memory(FirstChosen(m.s, a, b, tid, v), m.gone)) && run <= run'
    ensures Chosen(C, FirstChosen(m.s, a, b, tid, v), Proposal(R, a, v))
  {
    var x, s' := Proposal(R, a, v), FirstSent(m.s, a, b, tid, v);
    run' := PromiseRun(run, m, a, b, tid, v);
    FirstSentEnd(m.s, a, b, tid, v);
    run' := TwoAcceptsRun(run', Memory(s', m.gone), a, b, x, tid);
    TwoAcceptsEnd(s', a, b, x, tid);
  }

  lemma FirstChosenEnd(s0: State, s1: State, s2: State)
    requires Init(C, s0) && s1 == FirstSent(s0, 0, 2, 1, [5]) && |s1.log| > 0 && s1.log[|s1.log| - 1].Accept?
    requires s2 == TwoAccepts(s1, 0, 2)
    ensures Waits(s2, 1, 0, P) && Ready(AfterYes(s2, 1, 0, 2), 1) && AfterYes(s2, 1, 0, 2).busy == {}
    ensures |s2.log| > 1 && s2.log[|s2.log| - 2] == Accepted(1, 0, Response(R, Success, []))
    ensures s2.log[|s2.log| - 1] == Accepted(1, 2, Response(R, Success, []))
  {
    FirstSentEnd(s0, 0, 2, 1, [5]);
    TwoAcceptsEnd(s1, 0, 2, P, 1);
    DecisionEnd(s2, 1, P);
  }

  /** The first slot. */
  lemma DecideFirst(s0: State) returns (run: seq<Memory>, m: Memory, i: nat)
    requires Init(C, s0)
    ensures EndsIn(run, m) && Ready(m.s, 1) && m.s.busy == {} && i < |run| && Chosen(C, run[i].s, P)
  {
    var m0, s2 := Memory(s0, {}), FirstChosen(s0, 0, 2, 1, [5]);
    FirstChosenEnd(s0, FirstSent(s0, 0, 2, 1, [5]), s2);
    assert EndsIn([m0], m0);
    run := ChooseFirst([m0], m0, 0, 2, 1, [5]);
    i := |run| - 1;
    m := Memory(AfterYes(s2, 1, 0, 2), {});
    var longer := TwoYes(run, Memory(s2, {}), 1, 0, 2, P, |s2.log| - 2);
    assert longer[i] == run[i];
    run := longer;
  }

  /** The start of a slot without a prepare. */
  function FastStart(s: State, k: nat): State {
    var rid := Round(G, k, BID_PRIOR);
    s.(txns := s.txns[k := Txn(0, [9], true, 2, NewGroup(rid))], busy := s.busy + {(0, G)},
       next := s.next[0 := NextOf(s, 0)[G := NextSid(k, true)]], log := s.log + [Accept(k, Proposal(rid, 0, [9]))])
  }

  lemma FastStep(s: State, k: nat)
    requires Ready(s, k)
    ensures Next(C, s, FastStart(s, k + 1))
    ensures forall m, j {:trigger InfoAt(FastStart(s, k + 1), m, j)} ::
            InfoAt(FastStart(s, k + 1), m, j) == InfoAt(s, m, j)
  {
    assert Newest(NextOf(s, 0), G) == NextSid(k + 1, true);
    assert Start(C, s, FastStart(s, k + 1), 0, G, k + 1, [9], 0);
  }

  lemma FastSent(s: State, k: nat)
    requires Ready(s, k) && s.busy == {}
    ensures var s', x := FastStart(s, k + 1), Proposal(Round(G, k + 1, BID_PRIOR), 0, [9]);
            Sent(s', 0, 2, x, k + 1) && Waits(s', k + 1, 0, x)
  {
    FastStep(s, k);
  }

  /** The same proposal in slot k. */
  function FastProposal(k: nat): Proposal { Proposal(Round(G, k, BID_PRIOR), 0, [9]) }

  lemma FastEnd(s: State, k: nat)
    requires Ready(s, k) && s.busy == {}
    ensures var s1, s2, x := FastStart(s, k + 1), TwoAccepts(FastStart(s, k + 1), 0, 2), FastProposal(k + 1);
            && Waits(s2, k + 1, 0, x) && Ready(AfterYes(s2, k + 1, 0, 2), k + 1) && AfterYes(s2, k + 1, 0, 2).busy == {}
            && |s2.log| > 1 && s2.log[|s2.log| - 2] == Accepted(k + 1, 0, Response(x.rid, Success, []))
            && s2.log[|s2.log| - 1] == Accepted(k + 1, 2, Response(x.rid, Success, []))
  {
    FastStep(s, k);
    FastSent(s, k);
    TwoAcceptsEnd(FastStart(s, k + 1), 0, 2, FastProposal(k + 1), k + 1);
    DecisionEnd(TwoAccepts(FastStart(s, k + 1), 0, 2), k + 1, FastProposal(k + 1));
  }

  /** One more slot. */
  lemma DecideNext(run: seq<Memory>, m: Memory, k: nat) returns (run': seq<Memory>, m': Memory)
    requires EndsIn(run, m) && Ready(m.s, k) && m.s.busy == {}
    ensures EndsIn(run', m') && run <= run' && Ready(m'.s, k + 1) && m'.s.busy == {}
  {
    var x, s1 := FastProposal(k + 1), FastStart(m.s, k + 1);
    var s2 := TwoAccepts(s1, 0, 2);
    FastStep(m.s, k);
    FastSent(m.s, k);
    FastEnd(m.s, k);
    run' := Step(run, m, s1);
    run' := TwoAcceptsRun(run', Memory(s1, m.gone), 0, 2, x, k + 1);
    run' := TwoYes(run', Memory(s2, m.gone), k + 1, 0, 2, x, |s2.log| - 2);
    m' := Memory(AfterYes(s2, k + 1, 0, 2), m.gone);
  }

  lemma {:induction false} DecideUpTo(k: nat) returns (run: seq<Memory>, m: Memory, i: nat)
    requires k > 0
    ensures EndsIn(run, m) && Ready(m.s, k) && m.s.busy == {} && i < |run| && Chosen(C, run[i].s, P)
  {
    if k == 1 {
      run, m, i := DecideFirst(State(map[], {}, [], map[], map[], {}));
    } else {
      var run0, m0;
      run0, m0, i := DecideUpTo(k - 1);
      run, m := DecideNext(run0, m0, k - 1);
      assert run[i] == run0[i];
    }
  }

  // ---------- node 0 forgets ----------

  function Forgotten(m: Memory): Memory {
    Memory(m.s.(acc := m.s.acc[0 := AccOf(m.s, 0) - {FIRST}]), m.gone + {FIRST})
  }

  lemma ForgetStep(m: Memory)
    requires Ready(m.s, 11) && m.s.busy == {}
    ensures StepOrForget(C, m, Forgotten(m)) && Fresh(Forgotten(m).s, 1, 0, 12)
  {
    var s' := Forgotten(m).s;
    assert Forget(C, m, Forgotten(m), 11);
    assert InfoAt(s', 0, FIRST) == AccInfo(0, []) && InfoAt(s', 1, FIRST) == InfoAt(m.s, 1, FIRST);
    assert NextOf(s', 1) == NextOf(m.s, 1);
  }

  const Q: Proposal := Proposal(R, 1, [6])

  lemma ForgetAndChoose(run: seq<Memory>, m: Memory) returns (longer: seq<Memory>, m': Memory)
    requires EndsIn(run, m) && Ready(m.s, 11) && m.s.busy == {}
    ensures EndsIn(longer, m') && run <= longer && Chosen(C, m'.s, Q)
  {
    var f := Forgotten(m);
    ForgetStep(m);
    longer := OneStep(run, m, f);
    longer := ChooseFirst(longer, f, 1, 0, 12, [6]);
    m' := Memory(FirstChosen(f.s, 1, 0, 12, [6]), f.gone);
  }

  /** In one run both values are chosen in the first slot. */
  lemma ForgettingBreaksAgreement() returns (run: seq<Memory>, i: nat, j: nat)
    ensures IsForgetfulRun(C, run) && i < |run| && j < |run|
    ensures Chosen(C, run[i].s, P) && Chosen(C, run[j].s, Q) && P.rid.Inst() == Q.rid.Inst() && P.value != Q.value
  {
    var start, m, m';
    start, m, i := DecideUpTo(11);
    run, m' := ForgetAndChoose(start, m);
    assert run[i] == start[i];
    j := |run| - 1;
  }
}
