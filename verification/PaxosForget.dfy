/** Nodes that forget old slots. After a decision in slot s above 10 the deciding node drops its
    acceptor record of slot s - 10. Agreement on a slot holds as long as nobody has forgotten it or a
    slot of its group before it: as far as those slots are concerned, such a run is one without
    forgetting. */
module PaxosForget {
  import opened Options
  import opened PaxosTypes
  import opened PaxosSystem
  import opened PaxosAgreement
  import opened PaxosRuns

  /** A state, and the slots that some node has forgotten. */
  datatype Memory = Memory(s: State, gone: set<Instance>)

  /** acceptor_forget, at the node of a decided transaction. */
  ghost predicate Forget(c: Config, m: Memory, m': Memory, tid: Tid) {
    && tid in m.s.txns && m.s.txns[tid].phase == 3
    && var n, r := m.s.txns[tid].node, Choice(c, m.s.txns[tid]).rid;
       r.sid > 10
       && var i := Instance(r.gid, r.sid - 10);
          m' == Memory(m.s.(acc := m.s.acc[n := AccOf(m.s, n) - {i}]), m.gone + {i})
  }

  ghost predicate StepOrForget(c: Config, m: Memory, m': Memory) {
    || (Next(c, m.s, m'.s) && m'.gone == m.gone)
    || exists tid: Tid :: Forget(c, m, m', tid)
  }

  ghost predicate IsForgetfulRun(c: Config, run: seq<Memory>) {
    && |run| > 0 && Init(c, run[0].s) && run[0].gone == {}
    && forall i :: 0 <= i < |run| - 1 ==> StepOrForget(c, run[i], run[i + 1])
  }

  /** i is slot w or a slot of the same group before it. */
  predicate Within(w: Instance, i: Instance) { i.gid == w.gid && i.sid <= w.sid }

  /** Nobody has forgotten such a slot. */
  ghost predicate Clear(m: Memory, w: Instance) { forall i :: i in m.gone ==> !Within(w, i) }

  // ---------- what stays in its slot ----------

  ghost predicate AllAt(props: seq<Proposal>, i: Instance) { forall p :: p in props ==> p.rid.Inst() == i }

  ghost predicate InfoIn(s: State, n: Nid, i: Instance) { AllAt(InfoAt(s, n, i).props, i) }

  ghost predicate MsgIn(s: State, k: nat) {
    k < |s.log| && (s.log[k].Promise? || s.log[k].Accepted?) ==> AllAt(s.log[k].res.props, s.log[k].res.rid.Inst())
  }

  /** What a transaction heard of is in its slot, and its node's next slot is not before it. */
  ghost predicate TxnIn(s: State, tid: Tid) {
    tid in s.txns ==>
      var t := s.txns[tid];
      (t.group.maxProp.Some? ==> t.group.maxProp.value.rid.Inst() == t.Rid().Inst())
      && Newest(NextOf(s, t.node), t.Rid().gid).sid >= t.Rid().sid
  }

  ghost predicate InPlace(s: State) {
    && (forall n, i {:trigger InfoIn(s, n, i)} :: InfoIn(s, n, i))
    && (forall k: nat {:trigger MsgIn(s, k)} :: MsgIn(s, k))
    && (forall tid {:trigger TxnIn(s, tid)} :: TxnIn(s, tid))
  }

  lemma {:induction false} LargestAt(prev: Option<Proposal>, props: seq<Proposal>, i: Instance)
    requires AllAt(props, i) && (prev.Some? ==> prev.value.rid.Inst() == i)
    ensures LargestOf(prev, props).Some? ==> LargestOf(prev, props).value.rid.Inst() == i
  {
    LargestCovers(prev, props);
  }

  lemma ChoiceAt(c: Config, t: Txn)
    requires t.group.maxProp.Some? ==> t.group.maxProp.value.rid.Inst() == t.Rid().Inst()
    ensures Choice(c, t).rid.Inst() == t.Rid().Inst()
  {
  }

  /** One record of an acceptor is written. */
  lemma WrittenIn(s: State, s': State, n: Nid, i: Instance, a: AccInfo)
    requires InPlace(s) && s'.acc == s.acc[n := AccOf(s, n)[i := a]] && AllAt(a.props, i)
    ensures forall m, j {:trigger InfoIn(s', m, j)} :: InfoIn(s', m, j)
  {
    forall m, j {:trigger InfoIn(s', m, j)} ensures InfoIn(s', m, j) {
      assert InfoIn(s, m, j);
      assert InfoAt(s', m, j) == if m == n && j == i then a else InfoAt(s, m, j);
    }
  }

  lemma SentIn(s: State, s': State, m: Msg)
    requires InPlace(s) && s'.log == s.log + [m]
    requires m.Promise? || m.Accepted? ==> AllAt(m.res.props, m.res.rid.Inst())
    ensures forall k: nat {:trigger MsgIn(s', k)} :: MsgIn(s', k)
  {
    forall k: nat {:trigger MsgIn(s', k)} ensures MsgIn(s', k) { assert MsgIn(s, k); }
  }

  lemma SameMsgsIn(s: State, s': State)
    requires InPlace(s) && s'.log == s.log
    ensures forall k: nat {:trigger MsgIn(s', k)} :: MsgIn(s', k)
  {
    forall k: nat {:trigger MsgIn(s', k)} ensures MsgIn(s', k) { assert MsgIn(s, k); }
  }

  lemma SameInfosIn(s: State, s': State)
    requires InPlace(s) && s'.acc == s.acc
    ensures forall n, i {:trigger InfoIn(s', n, i)} :: InfoIn(s', n, i)
  {
    forall n, i {:trigger InfoIn(s', n, i)} ensures InfoIn(s', n, i) { assert InfoIn(s, n, i); }
  }

  lemma SameTxnsIn(s: State, s': State)
    requires InPlace(s) && s'.txns == s.txns && s'.next == s.next
    ensures forall tid {:trigger TxnIn(s', tid)} :: TxnIn(s', tid)
  {
    forall tid {:trigger TxnIn(s', tid)} ensures TxnIn(s', tid) { assert TxnIn(s, tid); }
  }

  lemma StartIn(c: Config, s: State, s': State, n: Nid, gid: Gid, t: Tid, v: Value, retry: nat)
    requires InPlace(s) && Start(c, s, s', n, gid, t, v, retry)
    ensures InPlace(s')
  {
    SameInfosIn(s, s');
    SentIn(s, s', s'.log[|s.log|]);
    forall tid {:trigger TxnIn(s', tid)} ensures TxnIn(s', tid) { assert TxnIn(s, tid); }
  }

  lemma PrepareIn(c: Config, s: State, s': State, n: Nid, i: nat)
    requires InPlace(s) && RecvPrepare(c, s, s', n, i)
    ensures InPlace(s')
  {
    var m := s.log[i];
    var a := InfoAt(s, n, m.rid.Inst());
    assert InfoIn(s, n, m.rid.Inst());
    SameTxnsIn(s, s');
    match PrepareInfo(a, m.rid.bid)
    case None =>
      SameInfosIn(s, s');
      SameMsgsIn(s, s');
    case Some(a') =>
      WrittenIn(s, s', n, m.rid.Inst(), a');
      SentIn(s, s', s'.log[|s.log|]);
  }

  lemma AcceptIn(c: Config, s: State, s': State, n: Nid, i: nat)
    requires InPlace(s) && RecvAccept(c, s, s', n, i)
    ensures InPlace(s')
  {
    var p := s.log[i].prop;
    assert InfoIn(s, n, p.rid.Inst());
    SameTxnsIn(s, s');
    WrittenIn(s, s', n, p.rid.Inst(), AcceptInfo(InfoAt(s, n, p.rid.Inst()), p));
    SentIn(s, s', s'.log[|s.log|]);
  }

  lemma PromiseIn(c: Config, s: State, s': State, i: nat)
    requires InPlace(s) && RecvPromise(c, s, s', i)
    ensures InPlace(s')
  {
    var m := s.log[i];
    assert MsgIn(s, i) && TxnIn(s, m.tid);
    LargestAt(s.txns[m.tid].group.maxProp, m.res.props, m.res.rid.Inst());
    SameInfosIn(s, s');
    if s'.log == s.log { SameMsgsIn(s, s'); } else { SentIn(s, s', s'.log[|s.log|]); }
    forall tid {:trigger TxnIn(s', tid)} ensures TxnIn(s', tid) { assert TxnIn(s, tid); }
  }

  /** A decision takes no next slot back. */
  lemma NextNotBefore(c: Config, s: State, s': State, i: nat)
    requires RecvAccepted(c, s, s', i)
    ensures forall n, g :: Newest(NextOf(s', n), g).sid >= Newest(NextOf(s, n), g).sid
  {
  }

  lemma AcceptedIn(c: Config, s: State, s': State, i: nat)
    requires InPlace(s) && RecvAccepted(c, s, s', i)
    ensures InPlace(s')
  {
    var m := s.log[i];
    assert MsgIn(s, i) && TxnIn(s, m.tid);
    LargestAt(s.txns[m.tid].group.maxProp, m.res.props, m.res.rid.Inst());
    ChoiceAt(c, s'.txns[m.tid]);
    SameInfosIn(s, s');
    SameMsgsIn(s, s');
    NextNotBefore(c, s, s', i);
    forall tid {:trigger TxnIn(s', tid)} ensures TxnIn(s', tid) { assert TxnIn(s, tid); }
  }

  lemma ForgetIn(c: Config, m: Memory, m': Memory, tid: Tid)
    requires InPlace(m.s) && Forget(c, m, m', tid)
    ensures InPlace(m'.s)
  {
    SameMsgsIn(m.s, m'.s);
    SameTxnsIn(m.s, m'.s);
    forall n, i {:trigger InfoIn(m'.s, n, i)} ensures InfoIn(m'.s, n, i) { assert InfoIn(m.s, n, i); }
  }

  lemma StepIn(c: Config, m: Memory, m': Memory)
    requires InPlace(m.s) && StepOrForget(c, m, m')
    ensures InPlace(m'.s)
  {
    if tid: Tid :| Forget(c, m, m', tid) {
      ForgetIn(c, m, m', tid);
    } else {
      NextIn(c, m.s, m'.s);
    }
  }

  lemma NextIn(c: Config, s: State, s': State)
    requires InPlace(s) && Next(c, s, s')
    ensures InPlace(s')
  {
    if n: Nid, gid: Gid, tid: Tid, v: Value, retry: nat :| Start(c, s, s', n, gid, tid, v, retry) {
      StartIn(c, s, s', n, gid, tid, v, retry);
    } else if n: Nid, i: nat :| RecvPrepare(c, s, s', n, i) {
      PrepareIn(c, s, s', n, i);
    } else if n: Nid, i: nat :| RecvAccept(c, s, s', n, i) {
      AcceptIn(c, s, s', n, i);
    } else if i: nat :| RecvPromise(c, s, s', i) {
      PromiseIn(c, s, s', i);
    } else {
      var i: nat :| RecvAccepted(c, s, s', i);
      AcceptedIn(c, s, s', i);
    }
  }

  // ---------- the slots up to w, in a run without forgetting ----------

  function MsgInst(m: Msg): Instance {
    match m
    case Prepare(_, rid) => rid.Inst()
    case Promise(_, _, res) => res.rid.Inst()
    case Accept(_, prop) => prop.rid.Inst()
    case Accepted(_, _, res) => res.rid.Inst()
  }

  /** The messages about these slots. */
  function Cut(w: Instance, log: seq<Msg>): seq<Msg> {
    if log == [] then []
    else Cut(w, log[..|log| - 1]) + if Within(w, MsgInst(log[|log| - 1])) then [log[|log| - 1]] else []
  }

  lemma CutAppend(w: Instance, log: seq<Msg>, m: Msg)
    ensures Cut(w, log + [m]) == Cut(w, log) + if Within(w, MsgInst(m)) then [m] else []
  {
    assert (log + [m])[..|log|] == log;
  }

  lemma {:induction false} CutHas(w: Instance, log: seq<Msg>, i: nat) returns (k: nat)
    requires i < |log| && Within(w, MsgInst(log[i]))
    ensures k < |Cut(w, log)| && Cut(w, log)[k] == log[i]
    decreases |log|
  {
    var n := |log| - 1;
    if i == n { k := |Cut(w, log[..n])|; } else { k := CutHas(w, log[..n], i); }
  }

  ghost predicate SameTxn(w: Instance, s: State, p: State, tid: Tid) {
    && (tid in p.txns <==> tid in s.txns && Within(w, s.txns[tid].Rid().Inst()))
    && (tid in p.txns ==> p.txns[tid] == s.txns[tid])
  }

  ghost predicate SameInfo(w: Instance, s: State, p: State, n: Nid, i: Instance) {
    Within(w, i) ==> InfoAt(p, n, i) == InfoAt(s, n, i)
  }

  /** Up to slot w two recorders agree. */
  ghost predicate SameTable(w: Instance, a: NextTable, b: NextTable) {
    if Newest(a, w.gid).sid > w.sid then Newest(b, w.gid).sid > w.sid
    else Newest(b, w.gid) == Newest(a, w.gid) && (w.gid in b <==> w.gid in a)
  }

  /** Up to slot w the recorders agree, and a node that is free in s is free in p. */
  ghost predicate SameNext(w: Instance, s: State, p: State, n: Nid) {
    && SameTable(w, NextOf(s, n), NextOf(p, n))
    && (Newest(NextOf(s, n), w.gid).sid <= w.sid && (n, w.gid) in p.busy ==> (n, w.gid) in s.busy)
  }

  /** In the slots up to w, p is as s. */
  ghost predicate Mirrors(w: Instance, s: State, p: State) {
    && p.log == Cut(w, s.log) && p.halted <= s.halted
    && (forall tid {:trigger SameTxn(w, s, p, tid)} :: SameTxn(w, s, p, tid))
    && (forall n, i {:trigger SameInfo(w, s, p, n, i)} :: SameInfo(w, s, p, n, i))
    && (forall n {:trigger SameNext(w, s, p, n)} :: SameNext(w, s, p, n))
  }

  ghost predicate SameOrNext(c: Config, p: State, p': State) { p' == p || Next(c, p, p') }

  /** One transaction is written, in p if it is one of these slots. */
  lemma TxnsPart(w: Instance, s: State, s': State, p: State, p': State, tid: Tid, t: Txn)
    requires Mirrors(w, s, p) && s'.txns == s.txns[tid := t] && (tid in s.txns ==> s.txns[tid].Rid() == t.Rid())
    requires p'.txns == if Within(w, t.Rid().Inst()) then p.txns[tid := t] else p.txns
    ensures forall x {:trigger SameTxn(w, s', p', x)} :: SameTxn(w, s', p', x)
  {
    forall x {:trigger SameTxn(w, s', p', x)} ensures SameTxn(w, s', p', x) { assert SameTxn(w, s, p, x); }
  }

  ghost predicate OnlyAt(s: State, s': State, n: Nid, g: Gid) {
    (s'.next == s.next || s'.next == s.next[n := NextOf(s', n)]) && s'.busy - {(n, g)} == s.busy - {(n, g)}
  }

  /** The next slots of one node are written. */
  lemma NextsPart(w: Instance, s: State, s': State, p: State, p': State, n: Nid, g: Gid)
    requires Mirrors(w, s, p) && SameNext(w, s', p', n) && OnlyAt(s, s', n, g) && OnlyAt(p, p', n, g)
    ensures forall m {:trigger SameNext(w, s', p', m)} :: SameNext(w, s', p', m)
  {
    forall m {:trigger SameNext(w, s', p', m)} ensures SameNext(w, s', p', m) {
      assert SameNext(w, s, p, m);
      if m != n {
        assert (m, w.gid) in s.busy <==> (m, w.gid) in s.busy - {(n, g)};
        assert (m, w.gid) in p.busy <==> (m, w.gid) in p.busy - {(n, g)};
        assert (m, w.gid) in s'.busy <==> (m, w.gid) in s'.busy - {(n, g)};
        assert (m, w.gid) in p'.busy <==> (m, w.gid) in p'.busy - {(n, g)};
      }
    }
  }

  /** What a start does to p, if it is one of these slots. */
  function Started(w: Instance, s: State, s': State, p: State, n: Nid, gid: Gid, tid: Tid): State
    requires tid in s'.txns && |s'.log| > |s.log|
  {
    var next := Newest(NextOf(s, n), gid);
    if !Within(w, Instance(gid, next.sid)) then p
    else p.(txns := p.txns[tid := s'.txns[tid]], busy := p.busy + {(n, gid)},
            next := p.next[n := NextOf(p, n)[gid := next]], log := p.log + [s'.log[|s.log|]])
  }

  lemma StartSteps(c: Config, w: Instance, s: State, s': State, p: State, n: Nid, gid: Gid, tid: Tid, v: Value,
                   retry: nat)
    requires Mirrors(w, s, p) && Start(c, s, s', n, gid, tid, v, retry)
    ensures SameOrNext(c, p, Started(w, s, s', p, n, gid, tid))
  {
    assert SameTxn(w, s, p, tid) && SameNext(w, s, p, n);
    if Within(w, Instance(gid, Newest(NextOf(s, n), gid).sid)) {
      assert Start(c, p, Started(w, s, s', p, n, gid, tid), n, gid, tid, v, retry);
    }
  }

  lemma StartNext(c: Config, w: Instance, s: State, s': State, p: State, n: Nid, gid: Gid, tid: Tid, v: Value,
                  retry: nat)
    requires Mirrors(w, s, p) && Start(c, s, s', n, gid, tid, v, retry)
    ensures var p' := Started(w, s, s', p, n, gid, tid);
            SameNext(w, s', p', n) && OnlyAt(s, s', n, gid) && OnlyAt(p, p', n, gid)
  {
    assert SameNext(w, s, p, n);
  }

  /** What a start writes in s', and in p' if the slot is one of these. */
  ghost predicate OneStarted(w: Instance, s: State, s': State, p: State, p': State, tid: Tid, t: Txn, m: Msg) {
    && s'.txns == s.txns[tid := t] && s'.log == s.log + [m] && s'.acc == s.acc && s'.halted == s.halted
    && tid !in s.txns && MsgInst(m) == t.Rid().Inst()
    && p'.acc == p.acc && p'.halted == p.halted
    && p'.txns == (if Within(w, t.Rid().Inst()) then p.txns[tid := t] else p.txns)
    && p'.log == p.log + (if Within(w, t.Rid().Inst()) then [m] else [])
  }

  lemma StartIsOne(c: Config, w: Instance, s: State, s': State, p: State, n: Nid, gid: Gid, tid: Tid, v: Value,
                   retry: nat)
    requires Start(c, s, s', n, gid, tid, v, retry)
    ensures OneStarted(w, s, s', p, Started(w, s, s', p, n, gid, tid), tid, s'.txns[tid], s'.log[|s.log|])
  {
  }

  lemma OneStartedMirrors(w: Instance, s: State, s': State, p: State, p': State, tid: Tid, t: Txn, m: Msg)
    requires Mirrors(w, s, p) && OneStarted(w, s, s', p, p', tid, t, m)
    requires forall n {:trigger SameNext(w, s', p', n)} :: SameNext(w, s', p', n)
    ensures Mirrors(w, s', p')
  {
    CutAppend(w, s.log, m);
    TxnsPart(w, s, s', p, p', tid, t);
    KeptInfos(w, s, p, s', p');
  }

  lemma StartMirrors(c: Config, w: Instance, s: State, s': State, p: State, n: Nid, gid: Gid, tid: Tid, v: Value,
                     retry: nat)
    requires Mirrors(w, s, p) && Start(c, s, s', n, gid, tid, v, retry)
    ensures Mirrors(w, s', Started(w, s, s', p, n, gid, tid))
  {
    var p' := Started(w, s, s', p, n, gid, tid);
    StartNext(c, w, s, s', p, n, gid, tid, v, retry);
    NextsPart(w, s, s', p, p', n, gid);
    StartIsOne(c, w, s, s', p, n, gid, tid, v, retry);
    OneStartedMirrors(w, s, s', p, p', tid, s'.txns[tid], s'.log[|s.log|]);
  }

  lemma KeptTxns(w: Instance, s: State, p: State, s': State, p': State)
    requires Mirrors(w, s, p) && s'.txns == s.txns && s'.next == s.next && s'.busy == s.busy
    requires p'.txns == p.txns && p'.next == p.next && p'.busy == p.busy
    ensures forall x {:trigger SameTxn(w, s', p', x)} :: SameTxn(w, s', p', x)
    ensures forall m {:trigger SameNext(w, s', p', m)} :: SameNext(w, s', p', m)
  {
    forall x {:trigger SameTxn(w, s', p', x)} ensures SameTxn(w, s', p', x) { assert SameTxn(w, s, p, x); }
    forall m {:trigger SameNext(w, s', p', m)} ensures SameNext(w, s', p', m) { assert SameNext(w, s, p, m); }
  }

  lemma KeptNexts(w: Instance, s: State, p: State, s': State, p': State)
    requires Mirrors(w, s, p) && s'.next == s.next && s'.busy == s.busy && p'.next == p.next && p'.busy == p.busy
    ensures forall m {:trigger SameNext(w, s', p', m)} :: SameNext(w, s', p', m)
  {
    forall m {:trigger SameNext(w, s', p', m)} ensures SameNext(w, s', p', m) { assert SameNext(w, s, p, m); }
  }

  lemma KeptInfos(w: Instance, s: State, p: State, s': State, p': State)
    requires Mirrors(w, s, p) && s'.acc == s.acc && p'.acc == p.acc
    ensures forall n, i {:trigger SameInfo(w, s', p', n, i)} :: SameInfo(w, s', p', n, i)
  {
    forall n, i {:trigger SameInfo(w, s', p', n, i)}
      ensures SameInfo(w, s', p', n, i) { assert SameInfo(w, s, p, n, i); }
  }

  /** The same record is written in both, if it is one of a slot up to w; otherwise only in s. */
  lemma WrittenInfos(w: Instance, s: State, p: State, s': State, p': State, n: Nid, i: Instance, a: AccInfo)
    requires Mirrors(w, s, p) && s'.acc == s.acc[n := AccOf(s, n)[i := a]]
    requires p'.acc == if Within(w, i) then p.acc[n := AccOf(p, n)[i := a]] else p.acc
    ensures forall m, j {:trigger SameInfo(w, s', p', m, j)} :: SameInfo(w, s', p', m, j)
  {
    forall m, j {:trigger SameInfo(w, s', p', m, j)} ensures SameInfo(w, s', p', m, j) {
      assert SameInfo(w, s, p, m, j);
      assert InfoAt(s', m, j) == if m == n && j == i then a else InfoAt(s, m, j);
      if Within(w, i) { assert InfoAt(p', m, j) == if m == n && j == i then a else InfoAt(p, m, j); }
    }
  }

  lemma PrepareMirrors(c: Config, w: Instance, s: State, s': State, p: State, n: Nid, i: nat) returns (p': State)
    requires Mirrors(w, s, p) && RecvPrepare(c, s, s', n, i)
    ensures Mirrors(w, s', p') && SameOrNext(c, p, p')
  {
    var rid := s.log[i].rid;
    if PrepareInfo(InfoAt(s, n, rid.Inst()), rid.bid).None? {
      p' := HaltMirrors(c, w, s, s', p, n, i);
    } else {
      p' := AnswerMirrors(c, w, s, s', p, n, i);
    }
  }

  lemma HaltMirrors(c: Config, w: Instance, s: State, s': State, p: State, n: Nid, i: nat) returns (p': State)
    requires Mirrors(w, s, p) && RecvPrepare(c, s, s', n, i)
    requires PrepareInfo(InfoAt(s, n, s.log[i].rid.Inst()), s.log[i].rid.bid).None?
    ensures Mirrors(w, s', p') && SameOrNext(c, p, p')
  {
    var inst := s.log[i].rid.Inst();
    p' := p;
    if Within(w, inst) {
      var k := CutHas(w, s.log, i);
      assert SameInfo(w, s, p, n, inst);
      p' := p.(halted := p.halted + {n});
      assert RecvPrepare(c, p, p', n, k);
    }
    KeptInfos(w, s, p, s', p');
    KeptTxns(w, s, p, s', p');
  }

  lemma AnswerMirrors(c: Config, w: Instance, s: State, s': State, p: State, n: Nid, i: nat) returns (p': State)
    requires Mirrors(w, s, p) && RecvPrepare(c, s, s', n, i)
    requires PrepareInfo(InfoAt(s, n, s.log[i].rid.Inst()), s.log[i].rid.bid).Some?
    ensures Mirrors(w, s', p') && SameOrNext(c, p, p')
  {
    var inst := s.log[i].rid.Inst();
    var a' := PrepareInfo(InfoAt(s, n, inst), s.log[i].rid.bid).value;
    CutAppend(w, s.log, s'.log[|s.log|]);
    p' := p;
    if Within(w, inst) {
      var k := CutHas(w, s.log, i);
      assert SameInfo(w, s, p, n, inst);
      p' := p.(acc := p.acc[n := AccOf(p, n)[inst := a']], log := p.log + [s'.log[|s.log|]]);
      assert RecvPrepare(c, p, p', n, k);
    }
    WrittenInfos(w, s, p, s', p', n, inst, a');
    KeptTxns(w, s, p, s', p');
  }

  lemma AcceptMirrors(c: Config, w: Instance, s: State, s': State, p: State, n: Nid, i: nat) returns (p': State)
    requires Mirrors(w, s, p) && RecvAccept(c, s, s', n, i)
    ensures Mirrors(w, s', p') && SameOrNext(c, p, p')
  {
    var x := s.log[i].prop;
    var a := AcceptInfo(InfoAt(s, n, x.rid.Inst()), x);
    assert SameInfo(w, s, p, n, x.rid.Inst());
    CutAppend(w, s.log, s'.log[|s.log|]);
    p' := p;
    if Within(w, x.rid.Inst()) {
      var k := CutHas(w, s.log, i);
      p' := p.(acc := p.acc[n := AccOf(p, n)[x.rid.Inst() := a]], log := p.log + [s'.log[|s.log|]]);
      assert RecvAccept(c, p, p', n, k);
    }
    WrittenInfos(w, s, p, s', p', n, x.rid.Inst(), a);
    KeptTxns(w, s, p, s', p');
  }

  /** What a counted promise does to p. */
  function Promised(w: Instance, s: State, s': State, p: State, tid: Tid): State
    requires tid in s'.txns && |s'.log| >= |s.log|
  {
    var t := s'.txns[tid];
    if Within(w, t.Rid().Inst()) then p.(txns := p.txns[tid := t], log := p.log + s'.log[|s.log|..]) else p
  }

  lemma PromiseSteps(c: Config, w: Instance, s: State, s': State, p: State, i: nat)
    requires Mirrors(w, s, p) && RecvPromise(c, s, s', i)
    ensures SameOrNext(c, p, Promised(w, s, s', p, s.log[i].tid))
  {
    assert SameTxn(w, s, p, s.log[i].tid);
    if Within(w, s.log[i].res.rid.Inst()) {
      var k := CutHas(w, s.log, i);
      assert RecvPromise(c, p, Promised(w, s, s', p, s.log[i].tid), k);
    }
  }

  lemma PromiseMirrors(c: Config, w: Instance, s: State, s': State, p: State, i: nat)
    requires Mirrors(w, s, p) && InPlace(s') && RecvPromise(c, s, s', i)
    ensures Mirrors(w, s', Promised(w, s, s', p, s.log[i].tid))
  {
    var tid := s.log[i].tid;
    var t', p' := s'.txns[tid], Promised(w, s, s', p, tid);
    assert TxnIn(s', tid);
    ChoiceAt(c, t');
    if |s'.log| > |s.log| { CutAppend(w, s.log, s'.log[|s.log|]); }
    KeptInfos(w, s, p, s', p');
    TxnsPart(w, s, s', p, p', tid, t');
    KeptNexts(w, s, p, s', p');
  }

  /** What a counted acceptance does to p. */
  function AcceptCounted(c: Config, w: Instance, s': State, p: State, tid: Tid): State
    requires tid in s'.txns
  {
    var t := s'.txns[tid];
    if !Within(w, t.Rid().Inst()) then p
    else
      var q := p.(txns := p.txns[tid := t]);
      if t.phase == 3 then AfterDecision(c, q, t) else q
  }

  function AfterDecision(c: Config, p: State, t: Txn): State {
    p.(next := p.next[t.node := Decided(NextOf(p, t.node), Choice(c, t), t.node)],
      busy := p.busy - {(t.node, t.Rid().gid)})
  }

  lemma AcceptedSteps(c: Config, w: Instance, s: State, s': State, p: State, i: nat)
    requires Mirrors(w, s, p) && RecvAccepted(c, s, s', i)
    ensures SameOrNext(c, p, AcceptCounted(c, w, s', p, s.log[i].tid))
  {
    assert SameTxn(w, s, p, s.log[i].tid);
    if Within(w, s.log[i].res.rid.Inst()) {
      var k := CutHas(w, s.log, i);
      assert RecvAccepted(c, p, AcceptCounted(c, w, s', p, s.log[i].tid), k);
    }
  }

  lemma AcceptedMirrors(c: Config, w: Instance, s: State, s': State, p: State, i: nat)
    requires Mirrors(w, s, p) && InPlace(s) && InPlace(s') && RecvAccepted(c, s, s', i)
    ensures Mirrors(w, s', AcceptCounted(c, w, s', p, s.log[i].tid))
  {
    var tid := s.log[i].tid;
    var t', p' := s'.txns[tid], AcceptCounted(c, w, s', p, tid);
    assert TxnIn(s', tid);
    ChoiceAt(c, t');
    AcceptedNext(c, w, s, s', p, i);
    AcceptedOnly(c, w, s, s', p, i);
    KeptInfos(w, s, p, s', p');
    TxnsPart(w, s, s', p, p', tid, t');
    NextsPart(w, s, s', p, p', t'.node, t'.Rid().gid);
  }

  /** A decision in a slot that is not behind the next one. */
  lemma SameDecided(w: Instance, a: NextTable, b: NextTable, x: Proposal, me: Nid)
    requires SameTable(w, a, b) && Newest(a, x.rid.gid).sid >= x.rid.sid
    ensures SameTable(w, Decided(a, x, me), if Within(w, x.rid.Inst()) then Decided(b, x, me) else b)
    ensures Newest(Decided(a, x, me), x.rid.gid).sid > x.rid.sid
    ensures x.rid.gid == w.gid && !Within(w, x.rid.Inst()) ==> Newest(a, w.gid).sid > w.sid
  {
  }

  lemma AcceptedOnly(c: Config, w: Instance, s: State, s': State, p: State, i: nat)
    requires RecvAccepted(c, s, s', i)
    ensures var t, p' := s'.txns[s.log[i].tid], AcceptCounted(c, w, s', p, s.log[i].tid);
            OnlyAt(s, s', t.node, t.Rid().gid) && OnlyAt(p, p', t.node, t.Rid().gid)
  {
  }

  /** s' is s after a decision for x at node n, or has the same next slots. */
  ghost predicate Records(s: State, s': State, decides: bool, x: Proposal, n: Nid) {
    && NextOf(s', n) == (if decides then Decided(NextOf(s, n), x, n) else NextOf(s, n))
    && s'.busy == (if decides then s.busy - {(n, x.rid.gid)} else s.busy)
  }

  lemma AcceptedRecords(c: Config, w: Instance, s: State, s': State, p: State, i: nat)
    requires RecvAccepted(c, s, s', i)
    requires var t := s'.txns[s.log[i].tid]; Choice(c, t).rid.Inst() == t.Rid().Inst()
    ensures var t, p' := s'.txns[s.log[i].tid], AcceptCounted(c, w, s', p, s.log[i].tid);
            && Records(s, s', t.phase == 3, Choice(c, t), t.node)
            && Records(p, p', t.phase == 3 && Within(w, t.Rid().Inst()), Choice(c, t), t.node)
  {
  }

  lemma RecordedNext(w: Instance, s: State, s': State, p: State, p': State, decides: bool, x: Proposal, n: Nid)
    requires SameNext(w, s, p, n) && Newest(NextOf(s, n), x.rid.gid).sid >= x.rid.sid
    requires Records(s, s', decides, x, n) && Records(p, p', decides && Within(w, x.rid.Inst()), x, n)
    ensures SameNext(w, s', p', n)
  {
    SameDecided(w, NextOf(s, n), NextOf(p, n), x, n);
  }

  lemma AcceptedNext(c: Config, w: Instance, s: State, s': State, p: State, i: nat)
    requires Mirrors(w, s, p) && InPlace(s) && RecvAccepted(c, s, s', i)
    requires var t := s'.txns[s.log[i].tid]; Choice(c, t).rid.Inst() == t.Rid().Inst()
    ensures SameNext(w, s', AcceptCounted(c, w, s', p, s.log[i].tid), s'.txns[s.log[i].tid].node)
  {
    var t := s'.txns[s.log[i].tid];
    assert TxnIn(s, s.log[i].tid) && SameNext(w, s, p, t.node);
    AcceptedRecords(c, w, s, s', p, i);
    RecordedNext(w, s, s', p, AcceptCounted(c, w, s', p, s.log[i].tid), t.phase == 3, Choice(c, t), t.node);
  }

  lemma ForgetMirrors(c: Config, w: Instance, m: Memory, m': Memory, p: State, tid: Tid)
    requires Mirrors(w, m.s, p) && Forget(c, m, m', tid) && Clear(m', w)
    ensures Mirrors(w, m'.s, p)
  {
    KeptTxns(w, m.s, p, m'.s, p);
    forall n, i {:trigger SameInfo(w, m'.s, p, n, i)}
      ensures SameInfo(w, m'.s, p, n, i) { assert SameInfo(w, m.s, p, n, i); }
  }

  lemma StepMirrors(c: Config, w: Instance, m: Memory, m': Memory, p: State) returns (p': State)
    requires Mirrors(w, m.s, p) && InPlace(m.s) && StepOrForget(c, m, m') && Clear(m', w)
    ensures Mirrors(w, m'.s, p') && SameOrNext(c, p, p')
  {
    if tid: Tid :| Forget(c, m, m', tid) {
      ForgetMirrors(c, w, m, m', p, tid);
      p' := p;
    } else {
      p' := NextMirrors(c, w, m.s, m'.s, p);
    }
  }

  lemma NextMirrors(c: Config, w: Instance, s: State, s': State, p: State) returns (p': State)
    requires Mirrors(w, s, p) && InPlace(s) && Next(c, s, s')
    ensures Mirrors(w, s', p') && SameOrNext(c, p, p')
  {
    NextIn(c, s, s');
    if n: Nid, gid: Gid, tid: Tid, v: Value, retry: nat :| Start(c, s, s', n, gid, tid, v, retry) {
      StartSteps(c, w, s, s', p, n, gid, tid, v, retry);
      StartMirrors(c, w, s, s', p, n, gid, tid, v, retry);
      p' := Started(w, s, s', p, n, gid, tid);
    } else if n: Nid, i: nat :| RecvPrepare(c, s, s', n, i) {
      p' := PrepareMirrors(c, w, s, s', p, n, i);
    } else if n: Nid, i: nat :| RecvAccept(c, s, s', n, i) {
      p' := AcceptMirrors(c, w, s, s', p, n, i);
    } else if i: nat :| RecvPromise(c, s, s', i) {
      PromiseSteps(c, w, s, s', p, i);
      PromiseMirrors(c, w, s, s', p, i);
      p' := Promised(w, s, s', p, s.log[i].tid);
    } else {
      var i: nat :| RecvAccepted(c, s, s', i);
      AcceptedSteps(c, w, s, s', p, i);
      AcceptedMirrors(c, w, s, s', p, i);
      p' := AcceptCounted(c, w, s', p, s.log[i].tid);
    }
  }

  // ---------- whole runs ----------

  ghost predicate MirroredAt(w: Instance, run: seq<Memory>, q: seq<State>, pos: seq<nat>, j: nat) {
    j < |run| && j < |pos| ==> pos[j] < |q| && Mirrors(w, run[j].s, q[pos[j]])
  }

  /** q is a run without forgetting, and its state number pos[j] is as state j of the run up to w. */
  ghost predicate MirroredBy(c: Config, w: Instance, run: seq<Memory>, q: seq<State>, pos: seq<nat>) {
    && IsRun(c, q) && |pos| == |run| && (forall j {:trigger pos[j]} :: 0 <= j < |pos| ==> pos[j] <= |q| - 1)
    && |run| > 0 && pos[|run| - 1] == |q| - 1
    && forall j: nat {:trigger MirroredAt(w, run, q, pos, j)} :: MirroredAt(w, run, q, pos, j)
  }

  lemma LongerRun(c: Config, q: seq<State>, s: State)
    requires IsRun(c, q) && Next(c, q[|q| - 1], s)
    ensures IsRun(c, q + [s])
  {
    var r := q + [s];
    forall i | 0 <= i < |r| - 1 ensures Next(c, r[i], r[i + 1]) {
      if i < |q| - 1 { assert Next(c, q[i], q[i + 1]); }
    }
  }

  lemma InitMirrors(c: Config, w: Instance, s: State)
    requires Init(c, s)
    ensures Mirrors(w, s, s) && InPlace(s)
  {
  }

  /** What has been forgotten stays forgotten. */
  lemma {:induction false} GoneGrows(c: Config, run: seq<Memory>, i: nat, j: nat)
    requires IsForgetfulRun(c, run) && i <= j < |run|
    ensures run[i].gone <= run[j].gone
    decreases j
  {
    if i < j {
      GoneGrows(c, run, i, j - 1);
      assert StepOrForget(c, run[j - 1], run[j]);
    }
  }

  lemma {:induction false} RunInPlace(c: Config, run: seq<Memory>, i: nat)
    requires IsForgetfulRun(c, run) && i < |run|
    ensures InPlace(run[i].s)
  {
    if i == 0 {
      InitMirrors(c, Instance(0, 0), run[0].s);
    } else {
      RunInPlace(c, run, i - 1);
      StepIn(c, run[i - 1], run[i]);
    }
  }

  /** As long as nobody has forgotten a slot up to w, there is a run without forgetting that does the
      same in these slots. */
  lemma {:induction false} MirrorRun(c: Config, w: Instance, run: seq<Memory>) returns (q: seq<State>, pos: seq<nat>)
    requires IsForgetfulRun(c, run) && Clear(run[|run| - 1], w)
    ensures MirroredBy(c, w, run, q, pos)
    decreases |run|
  {
    if |run| == 1 {
      InitMirrors(c, w, run[0].s);
      q, pos := [run[0].s], [0];
    } else {
      var n := |run| - 1;
      GoneGrows(c, run, n - 1, n);
      RunInPlace(c, run, n - 1);
      assert StepOrForget(c, run[n - 1], run[n]);
      var q0, pos0 := MirrorRun(c, w, run[..n]);
      assert MirroredAt(w, run[..n], q0, pos0, n - 1);
      var p := StepMirrors(c, w, run[n - 1], run[n], q0[|q0| - 1]);
      q, pos := MirrorMore(c, w, run, q0, pos0, p);
    }
  }

  lemma MirrorMore(c: Config, w: Instance, run: seq<Memory>, q0: seq<State>, pos0: seq<nat>, p: State)
      returns (q: seq<State>, pos: seq<nat>)
    requires |run| > 1 && MirroredBy(c, w, run[..|run| - 1], q0, pos0)
    requires Mirrors(w, run[|run| - 1].s, p) && SameOrNext(c, q0[|q0| - 1], p)
    ensures MirroredBy(c, w, run, q, pos)
  {
    if p == q0[|q0| - 1] {
      q := q0;
    } else {
      LongerRun(c, q0, p);
      q := q0 + [p];
    }
    pos := pos0 + [|q| - 1];
    forall j: nat {:trigger MirroredAt(w, run, q, pos, j)} ensures MirroredAt(w, run, q, pos, j) {
      assert MirroredAt(w, run[..|run| - 1], q0, pos0, j);
    }
  }

  lemma ChosenMirrored(c: Config, w: Instance, s: State, p: State, x: Proposal)
    requires Mirrors(w, s, p) && Within(w, x.rid.Inst()) && Chosen(c, s, x)
    ensures Chosen(c, p, x)
  {
    var q: set<Nid> :| MajorityHas(c, s, q, x);
    forall n {:trigger n in q} | n in q ensures HasAccepted(p, n, x) {
      assert HasAccepted(s, n, x) && SameInfo(w, s, p, n, x.rid.Inst());
    }
    assert MajorityHas(c, p, q, x);
  }

  /** Agreement on a slot, at whatever two times, as long as nobody has forgotten it or a slot of its
      group before it. */
  lemma ForgetfulAgreement(c: Config, run: seq<Memory>, i: nat, x: Proposal, j: nat, y: Proposal)
    requires IsForgetfulRun(c, run) && i < |run| && j < |run| && x.rid.Inst() == y.rid.Inst()
    requires Clear(run[if i <= j then j else i], x.rid.Inst())
    requires Chosen(c, run[i].s, x) && Chosen(c, run[j].s, y)
    ensures x.value == y.value && x.nid == y.nid
  {
    var w, n := x.rid.Inst(), if i <= j then j else i;
    var q, pos := MirrorRun(c, w, run[..n + 1]);
    assert MirroredAt(w, run[..n + 1], q, pos, i) && MirroredAt(w, run[..n + 1], q, pos, j);
    ChosenMirrored(c, w, run[i].s, q[pos[i]], x);
    ChosenMirrored(c, w, run[j].s, q[pos[j]], y);
    RunAgreement(c, q, pos[i], x, pos[j], y);
  }

  /** The same for decisions; as coded they are one transaction's. */
  lemma ForgetfulDecisions(c: Config, run: seq<Memory>, i: nat, a: Tid, b: Tid)
    requires IsForgetfulRun(c, run) && i < |run| && a in run[i].s.txns && b in run[i].s.txns
    requires run[i].s.txns[a].phase == 3 && run[i].s.txns[b].phase == 3
    requires run[i].s.txns[a].Rid().Inst() == run[i].s.txns[b].Rid().Inst()
    requires Clear(run[i], run[i].s.txns[a].Rid().Inst())
    ensures SameValue(Choice(c, run[i].s.txns[a]), Choice(c, run[i].s.txns[b]))
    ensures c.variant.AsCoded? ==> a == b
  {
    var w := run[i].s.txns[a].Rid().Inst();
    var q, pos := MirrorRun(c, w, run[..i + 1]);
    assert MirroredAt(w, run[..i + 1], q, pos, i);
    assert SameTxn(w, run[i].s, q[pos[i]], a) && SameTxn(w, run[i].s, q[pos[i]], b);
    RunDecisions(c, q, pos[i], a, b);
  }
}
