/** The main results, for whole runs of the system. */
module PaxosRuns {
  import opened PaxosTypes
  import opened PaxosSystem
  import opened PaxosInvariant
  import opened PaxosAgreement
  import opened PaxosPreserve

  lemma WriteGrows(s: State, s': State, n: Nid, i: Instance, a: AccInfo)
    requires s'.acc == s.acc[n := AccOf(s, n)[i := a]] && s.log <= s'.log && InfoGrows(InfoAt(s, n, i), a)
    ensures Grows(s, s')
  {
    WriteInfo(s, s', n, i, a);
    forall m, j {:trigger InfoAt(s', m, j)} ensures InfoGrows(InfoAt(s, m, j), InfoAt(s', m, j)) {}
  }

  lemma PrepareGrows(c: Config, s: State, s': State, n: Nid, i: nat)
    requires RecvPrepare(c, s, s', n, i)
    ensures Grows(s, s')
  {
    var m := s.log[i];
    var o := PrepareInfo(InfoAt(s, n, m.rid.Inst()), m.rid.bid);
    if o.Some? { WriteGrows(s, s', n, m.rid.Inst(), o.value); } else { SameAccGrows(s, s'); }
  }

  lemma AcceptGrows(c: Config, s: State, s': State, n: Nid, i: nat)
    requires RecvAccept(c, s, s', n, i)
    ensures Grows(s, s')
  {
    var p := s.log[i].prop;
    WriteGrows(s, s', n, p.rid.Inst(), AcceptInfo(InfoAt(s, n, p.rid.Inst()), p));
  }

  /** No step forgets: messages stay, acceptors only add proposals. */
  lemma NextGrows(c: Config, s: State, s': State)
    requires Next(c, s, s')
    ensures Grows(s, s')
  {
    if n: Nid, i: nat :| RecvPrepare(c, s, s', n, i) {
      PrepareGrows(c, s, s', n, i);
    } else if n: Nid, i: nat :| RecvAccept(c, s, s', n, i) {
      AcceptGrows(c, s, s', n, i);
    } else {
      SameAccGrows(s, s');
    }
  }

  lemma {:induction false} ChosenStays(c: Config, run: seq<State>, i: nat, j: nat, p: Proposal)
    requires IsRun(c, run) && i <= j < |run| && Chosen(c, run[i], p)
    ensures Chosen(c, run[j], p)
    decreases j
  {
    if i < j {
      ChosenStays(c, run, i, j - 1, p);
      NextGrows(c, run[j - 1], run[j]);
      KeepChosen(c, run[j - 1], run[j], p);
    }
  }

  /** Agreement: whatever two proposals are ever accepted by majorities in one slot, at whatever
      two times of a run, carry the same value of the same node. */
  lemma RunAgreement(c: Config, run: seq<State>, i: nat, p: Proposal, j: nat, q: Proposal)
    requires IsRun(c, run) && i < |run| && j < |run| && p.rid.Inst() == q.rid.Inst()
    requires Chosen(c, run[i], p) && Chosen(c, run[j], q)
    ensures p.value == q.value && p.nid == q.nid
  {
    var k := if i <= j then j else i;
    ChosenStays(c, run, i, k, p);
    ChosenStays(c, run, j, k, q);
    RunInv(c, run, k);
    Agreement(c, run[k], p, q);
  }

  /** Skipping the prepare is safe: at most one transaction of the whole system ever proposes a
      slot at the prior ballot. */
  lemma RunFastUnique(c: Config, run: seq<State>, i: nat, a: Tid, b: Tid)
    requires IsRun(c, run) && i < |run| && a in run[i].txns && b in run[i].txns
    requires run[i].txns[a].fast && run[i].txns[b].fast
    requires run[i].txns[a].Rid().Inst() == run[i].txns[b].Rid().Inst()
    ensures a == b
  {
    RunInv(c, run, i);
    var r := run[i].txns[a].Rid();
    FastIsUnique(c, run[i], r.gid, r.sid);
    assert FastAt(run[i], a, r.Inst()) && FastAt(run[i], b, r.Inst());
  }

  /** Two nodes that decide a slot record the same value; as coded they are one transaction. */
  lemma RunDecisions(c: Config, run: seq<State>, i: nat, a: Tid, b: Tid)
    requires IsRun(c, run) && i < |run| && a in run[i].txns && b in run[i].txns
    requires run[i].txns[a].phase == 3 && run[i].txns[b].phase == 3
    requires run[i].txns[a].Rid().Inst() == run[i].txns[b].Rid().Inst()
    ensures Chosen(c, run[i], Choice(c, run[i].txns[a])) && Chosen(c, run[i], Choice(c, run[i].txns[b]))
    ensures SameValue(Choice(c, run[i].txns[a]), Choice(c, run[i].txns[b]))
    ensures c.variant.AsCoded? ==> a == b
  {
    RunInv(c, run, i);
    var j := DecidedIsChosen(c, run[i], a);
    var k := DecidedIsChosen(c, run[i], b);
    DecisionsAgree(c, run[i], a, b);
    if c.variant.AsCoded? { AsCodedDecidesOnce(c, run[i], a, b); }
  }

  // ---------- one transaction along a run ----------

  /** Phase 1 leads to 2 or -1, phase 2 to 3 or -1; 3 and -1 are final. */
  predicate Forward(a: int, b: int) { a == b || (a == 1 && b in {2, 3, -1}) || (a == 2 && b in {3, -1}) }

  /** What one step does to a transaction; a new one begins in phase 1 or 2. */
  ghost predicate Moves(s: State, s': State, tid: Tid) {
    && (tid in s.txns ==>
          tid in s'.txns && Forward(s.txns[tid].phase, s'.txns[tid].phase)
          && (s'.txns[tid].phase == 3 ==> s.txns[tid].phase in {2, 3}))
    && (tid !in s.txns && tid in s'.txns ==> s'.txns[tid].phase in {1, 2})
  }

  lemma StartMoves(c: Config, s: State, s': State, n: Nid, gid: Gid, t: Tid, v: Value, retry: nat, tid: Tid)
    requires Start(c, s, s', n, gid, t, v, retry)
    ensures Moves(s, s', tid)
  {
  }

  lemma PromiseMoves(c: Config, s: State, s': State, i: nat, tid: Tid)
    requires RecvPromise(c, s, s', i)
    ensures Moves(s, s', tid)
  {
  }

  lemma AcceptedMoves(c: Config, s: State, s': State, i: nat, tid: Tid)
    requires RecvAccepted(c, s, s', i)
    ensures Moves(s, s', tid)
  {
  }

  lemma StepMoves(c: Config, s: State, s': State, tid: Tid)
    requires Next(c, s, s')
    ensures Moves(s, s', tid)
  {
    if n: Nid, gid: Gid, t: Tid, v: Value, retry: nat :| Start(c, s, s', n, gid, t, v, retry) {
      StartMoves(c, s, s', n, gid, t, v, retry, tid);
    } else if i: nat :| RecvPromise(c, s, s', i) {
      PromiseMoves(c, s, s', i, tid);
    } else if i: nat :| RecvAccepted(c, s, s', i) {
      AcceptedMoves(c, s, s', i, tid);
    }
  }

  ghost predicate MovesAt(run: seq<State>, tid: Tid, i: nat) { i + 1 < |run| ==> Moves(run[i], run[i + 1], tid) }

  ghost predicate AlwaysMoves(run: seq<State>, tid: Tid) {
    forall i: nat {:trigger MovesAt(run, tid, i)} :: MovesAt(run, tid, i)
  }

  lemma RunMoves(c: Config, run: seq<State>, tid: Tid)
    requires IsRun(c, run)
    ensures AlwaysMoves(run, tid) && tid !in run[0].txns
  {
    forall i: nat {:trigger MovesAt(run, tid, i)} ensures MovesAt(run, tid, i) {
      if i + 1 < |run| { StepMoves(c, run[i], run[i + 1], tid); }
    }
  }

  lemma {:induction false} MovesForward(run: seq<State>, i: nat, j: nat, tid: Tid)
    requires AlwaysMoves(run, tid) && i <= j < |run| && tid in run[i].txns
    ensures tid in run[j].txns && Forward(run[i].txns[tid].phase, run[j].txns[tid].phase)
    decreases j
  {
    if i < j {
      MovesForward(run, i, j - 1, tid);
      assert MovesAt(run, tid, j - 1);
    }
  }

  /** A transaction stays, and its phase only moves forward. */
  lemma PhaseForward(c: Config, run: seq<State>, i: nat, j: nat, tid: Tid)
    requires IsRun(c, run) && i <= j < |run| && tid in run[i].txns
    ensures tid in run[j].txns && Forward(run[i].txns[tid].phase, run[j].txns[tid].phase)
  {
    RunMoves(c, run, tid);
    MovesForward(run, i, j, tid);
  }

  /** Step k of the run takes the transaction to phase 3. */
  ghost predicate DecidesAt(run: seq<State>, k: nat, tid: Tid) {
    && k + 1 < |run| && tid in run[k + 1].txns && run[k + 1].txns[tid].phase == 3
    && (tid !in run[k].txns || run[k].txns[tid].phase != 3)
  }

  lemma OneDecision(run: seq<State>, m: nat, k: nat, tid: Tid)
    requires AlwaysMoves(run, tid) && DecidesAt(run, m, tid) && DecidesAt(run, k, tid)
    ensures m == k
  {
    if m < k { MovesForward(run, m + 1, k, tid); }
    if k < m { MovesForward(run, k + 1, m, tid); }
  }

  lemma {:induction false} DecidedAtSome(run: seq<State>, j: nat, tid: Tid) returns (k: nat)
    requires AlwaysMoves(run, tid) && j < |run| && tid !in run[0].txns
    requires tid in run[j].txns && run[j].txns[tid].phase == 3
    ensures k < j && DecidesAt(run, k, tid) && tid in run[k].txns && run[k].txns[tid].phase == 2
    decreases j
  {
    k := j - 1;
    assert MovesAt(run, tid, k);
    if run[k].txns[tid].phase == 3 { k := DecidedAtSome(run, k, tid); }
  }

  /** A decided transaction was decided by exactly one step, from phase 2. */
  lemma DecidesOnce(c: Config, run: seq<State>, j: nat, tid: Tid) returns (k: nat)
    requires IsRun(c, run) && j < |run| && tid in run[j].txns && run[j].txns[tid].phase == 3
    ensures k < j && DecidesAt(run, k, tid) && tid in run[k].txns && run[k].txns[tid].phase == 2
    ensures forall m: nat :: DecidesAt(run, m, tid) ==> m == k
  {
    RunMoves(c, run, tid);
    k := DecidedAtSome(run, j, tid);
    forall m: nat | DecidesAt(run, m, tid) ensures m == k { OneDecision(run, m, k, tid); }
  }
}
