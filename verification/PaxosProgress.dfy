/** Rounds do not block: while more than half of the nodes answer and none of them knows a larger
    ballot, every round can still decide. Also where the ballots of the acceptors come from. */
module PaxosProgress {
  import opened Options
  import opened PaxosTypes
  import opened PaxosSystem
  import opened PaxosInvariant
  import opened PaxosPreserve
  import opened PaxosRuns

  // ---------- where ballots come from ----------

  /** n granted this round. */
  ghost predicate HasGranted(s: State, n: Nid, rid: Round) {
    exists k :: 0 <= k < |s.log| && Granted(s.log[k]) && s.log[k].nid == n && s.log[k].res.rid == rid
  }

  /** An acceptor's ballot is 0, or that of a promise it granted: accepting does not raise it. */
  ghost predicate BallotOk(s: State, n: Nid, i: Instance) {
    var b := InfoAt(s, n, i).bidMax;
    b == 0 || HasGranted(s, n, Round(i.gid, i.sid, b))
  }

  /** Who refused a round has a larger ballot. */
  ghost predicate RefusalOk(s: State, k: nat) {
    k < |s.log| && (s.log[k].Promise? || s.log[k].Accepted?) && s.log[k].res.ack.ErrBid? ==>
      InfoAt(s, s.log[k].nid, s.log[k].res.rid.Inst()).bidMax > s.log[k].res.rid.bid
  }

  ghost predicate RefusersAbove(s: State, m: map<Nid, Ack>, rid: Round) {
    forall n :: n in Voters(m, ErrBid) ==> InfoAt(s, n, rid.Inst()).bidMax > rid.bid
  }

  /** A round that runs has sent what it waits for the answers to, and has no majority yet. */
  ghost predicate RoundOk(c: Config, s: State, tid: Tid) {
    tid in s.txns ==>
      var t := s.txns[tid];
      var g := t.group;
      && RefusersAbove(s, g.prom, t.Rid()) && RefusersAbove(s, g.accd, t.Rid())
      && (t.phase == 1 ==> g.accd == map[] && g.promYes < Quorum(|c.nodes|) && g.promNo < Quorum(|c.nodes|)
                           && Prepare(tid, t.Rid()) in s.log)
      && (t.phase == 2 ==> g.accdYes < Quorum(|c.nodes|) && g.accdNo < Quorum(|c.nodes|)
                           && Accept(tid, Choice(c, t)) in s.log)
  }

  ghost predicate Live(c: Config, s: State) {
    && (forall n, i {:trigger BallotOk(s, n, i)} :: BallotOk(s, n, i))
    && (forall k: nat {:trigger RefusalOk(s, k)} :: RefusalOk(s, k))
    && (forall tid {:trigger RoundOk(c, s, tid)} :: RoundOk(c, s, tid))
  }

  lemma KeepRefusers(s: State, s': State, m: map<Nid, Ack>, rid: Round)
    requires Grows(s, s') && RefusersAbove(s, m, rid)
    ensures RefusersAbove(s', m, rid)
  {
    forall n | n in Voters(m, ErrBid) ensures InfoAt(s', n, rid.Inst()).bidMax > rid.bid {
      assert InfoGrows(InfoAt(s, n, rid.Inst()), InfoAt(s', n, rid.Inst()));
    }
  }

  lemma KeepSent(s: State, s': State, m: Msg)
    requires s.log <= s'.log && m in s.log
    ensures m in s'.log
  {
    var k :| 0 <= k < |s.log| && s.log[k] == m;
    assert s'.log[k] == m;
  }

  lemma KeepRound(c: Config, s: State, s': State, tid: Tid)
    requires Grows(s, s') && RoundOk(c, s, tid) && (tid in s'.txns ==> tid in s.txns && s'.txns[tid] == s.txns[tid])
    ensures RoundOk(c, s', tid)
  {
    if tid in s'.txns {
      var t := s.txns[tid];
      KeepRefusers(s, s', t.group.prom, t.Rid());
      KeepRefusers(s, s', t.group.accd, t.Rid());
      if t.phase == 1 { KeepSent(s, s', Prepare(tid, t.Rid())); }
      if t.phase == 2 { KeepSent(s, s', Accept(tid, Choice(c, t))); }
    }
  }

  /** All rounds but one. */
  lemma KeepRounds(c: Config, s: State, s': State, tid: Tid)
    requires Live(c, s) && Grows(s, s') && RoundOk(c, s', tid)
    requires forall a :: a in s'.txns && a != tid ==> a in s.txns && s'.txns[a] == s.txns[a]
    ensures forall a {:trigger RoundOk(c, s', a)} :: RoundOk(c, s', a)
  {
    forall a {:trigger RoundOk(c, s', a)} ensures RoundOk(c, s', a) {
      assert RoundOk(c, s, a);
      if a != tid { KeepRound(c, s, s', a); }
    }
  }

  /** The messages so far, and one more. */
  lemma KeepRefusals(s: State, s': State)
    requires (forall k: nat {:trigger RefusalOk(s, k)} :: RefusalOk(s, k)) && Grows(s, s') && |s'.log| <= |s.log| + 1
    requires |s'.log| > |s.log| ==> RefusalOk(s', |s.log|)
    ensures forall k: nat {:trigger RefusalOk(s', k)} :: RefusalOk(s', k)
  {
    forall k: nat {:trigger RefusalOk(s', k)} ensures RefusalOk(s', k) {
      assert RefusalOk(s, k);
      if k < |s.log| {
        assert s'.log[k] == s.log[k];
        var m := s.log[k];
        if m.Promise? || m.Accepted? {
          assert InfoGrows(InfoAt(s, m.nid, m.res.rid.Inst()), InfoAt(s', m.nid, m.res.rid.Inst()));
        }
      }
    }
  }

  lemma KeepBallot(s: State, s': State, n: Nid, i: Instance)
    requires BallotOk(s, n, i) && s.log <= s'.log && InfoAt(s', n, i).bidMax == InfoAt(s, n, i).bidMax
    ensures BallotOk(s', n, i)
  {
    var b := InfoAt(s, n, i).bidMax;
    if b != 0 {
      var k :| 0 <= k < |s.log| && Granted(s.log[k]) && s.log[k].nid == n && s.log[k].res.rid == Round(i.gid, i.sid, b);
      assert s'.log[k] == s.log[k];
    }
  }

  lemma SameBallots(c: Config, s: State, s': State)
    requires Live(c, s) && s.log <= s'.log && s'.acc == s.acc
    ensures forall n, i {:trigger BallotOk(s', n, i)} :: BallotOk(s', n, i)
  {
    forall n, i {:trigger BallotOk(s', n, i)} ensures BallotOk(s', n, i) {
      assert BallotOk(s, n, i);
      KeepBallot(s, s', n, i);
    }
  }

  lemma SameRounds(c: Config, s: State, s': State)
    requires Live(c, s) && Grows(s, s') && s'.txns == s.txns
    ensures forall tid {:trigger RoundOk(c, s', tid)} :: RoundOk(c, s', tid)
  {
    forall tid {:trigger RoundOk(c, s', tid)} ensures RoundOk(c, s', tid) {
      assert RoundOk(c, s, tid);
      KeepRound(c, s, s', tid);
    }
  }

  // ---------- every step keeps it ----------

  lemma StartLive(c: Config, s: State, s': State, n: Nid, gid: Gid, tid: Tid, v: Value, retry: nat)
    requires Live(c, s) && Grows(s, s') && Start(c, s, s', n, gid, tid, v, retry)
    ensures Live(c, s')
  {
    SameBallots(c, s, s');
    KeepRefusals(s, s');
    assert s'.log[|s.log|] in s'.log;
    KeepRounds(c, s, s', tid);
  }

  lemma PrepareLive(c: Config, s: State, s': State, n: Nid, i: nat)
    requires Live(c, s) && Grows(s, s') && RecvPrepare(c, s, s', n, i)
    ensures Live(c, s')
  {
    var m := s.log[i];
    var inst := m.rid.Inst();
    var a := InfoAt(s, n, inst);
    SameRounds(c, s, s');
    if PrepareInfo(a, m.rid.bid).None? {
      SameBallots(c, s, s');
      KeepRefusals(s, s');
    } else {
      var a' := PrepareInfo(a, m.rid.bid).value;
      WriteInfo(s, s', n, inst, a');
      KeepRefusals(s, s');
      forall l, j {:trigger BallotOk(s', l, j)} ensures BallotOk(s', l, j) {
        assert BallotOk(s, l, j);
        if l == n && j == inst && a'.bidMax != a.bidMax {
          assert Granted(s'.log[|s.log|]);
        } else {
          KeepBallot(s, s', l, j);
        }
      }
    }
  }

  lemma AcceptLive(c: Config, s: State, s': State, n: Nid, i: nat)
    requires Live(c, s) && Grows(s, s') && RecvAccept(c, s, s', n, i)
    ensures Live(c, s')
  {
    var p := s.log[i].prop;
    SameRounds(c, s, s');
    WriteInfo(s, s', n, p.rid.Inst(), AcceptInfo(InfoAt(s, n, p.rid.Inst()), p));
    KeepRefusals(s, s');
    forall l, j {:trigger BallotOk(s', l, j)} ensures BallotOk(s', l, j) {
      assert BallotOk(s, l, j);
      KeepBallot(s, s', l, j);
    }
  }

  lemma PromiseLive(c: Config, s: State, s': State, i: nat)
    requires Inv(c, s) && Live(c, s) && Grows(s, s') && RecvPromise(c, s, s', i)
    ensures Live(c, s')
  {
    var m := s.log[i];
    SameBallots(c, s, s');
    KeepRefusals(s, s');
    PromiseRound(c, s, s', i);
    KeepRounds(c, s, s', m.tid);
  }

  lemma PromiseRound(c: Config, s: State, s': State, i: nat)
    requires Inv(c, s) && Live(c, s) && Grows(s, s') && RecvPromise(c, s, s', i)
    ensures RoundOk(c, s', s.log[i].tid)
  {
    var m := s.log[i];
    var t, t' := s.txns[m.tid], s'.txns[m.tid];
    assert RefusalOk(s, i) && RoundOk(c, s, m.tid) && TxnOk(c, s, m.tid);
    KeepRefusers(s, s', t.group.prom, t.Rid());
    KeepRefusers(s, s', t.group.accd, t.Rid());
    assert InfoGrows(InfoAt(s, m.nid, t.Rid().Inst()), InfoAt(s', m.nid, t.Rid().Inst()));
    assert Voters(t.group.accd, Success) == {} && Voters(t.group.accd, ErrBid) == {};
    if t'.phase == 1 { KeepSent(s, s', Prepare(m.tid, t.Rid())); }
    if t'.phase == 2 { assert s'.log[|s.log|] == Accept(m.tid, Choice(c, t')); }
  }

  lemma AcceptedLive(c: Config, s: State, s': State, i: nat)
    requires Inv(c, s) && Live(c, s) && Grows(s, s') && RecvAccepted(c, s, s', i)
    ensures Live(c, s')
  {
    var m := s.log[i];
    SameBallots(c, s, s');
    KeepRefusals(s, s');
    AcceptedRound(c, s, s', i);
    KeepRounds(c, s, s', m.tid);
  }

  lemma AcceptedRound(c: Config, s: State, s': State, i: nat)
    requires Inv(c, s) && Live(c, s) && Grows(s, s') && RecvAccepted(c, s, s', i)
    ensures RoundOk(c, s', s.log[i].tid)
  {
    var m := s.log[i];
    var t, t' := s.txns[m.tid], s'.txns[m.tid];
    AcceptedGroup(c, s, s', i);
    assert RefusalOk(s, i) && RoundOk(c, s, m.tid);
    KeepRefusers(s, s', t.group.prom, t.Rid());
    KeepRefusers(s, s', t.group.accd, t.Rid());
    assert InfoGrows(InfoAt(s, m.nid, t.Rid().Inst()), InfoAt(s', m.nid, t.Rid().Inst()));
    assert Choice(c, t') == Choice(c, t);
    if t'.phase == 2 { KeepSent(s, s', Accept(m.tid, Choice(c, t))); }
  }

  /** What holds of every state of every run. */
  ghost predicate Good(c: Config, s: State) { Inv(c, s) && Live(c, s) }

  lemma NextGood(c: Config, s: State, s': State)
    requires Good(c, s) && Next(c, s, s')
    ensures Good(c, s') && Grows(s, s')
  {
    NextKeeps(c, s, s');
    NextGrows(c, s, s');
    NextLive(c, s, s');
  }

  lemma NextLive(c: Config, s: State, s': State)
    requires Inv(c, s) && Live(c, s) && Grows(s, s') && Next(c, s, s')
    ensures Live(c, s')
  {
    if n: Nid, gid: Gid, tid: Tid, v: Value, retry: nat :| Start(c, s, s', n, gid, tid, v, retry) {
      StartLive(c, s, s', n, gid, tid, v, retry);
    } else if n: Nid, i: nat :| RecvPrepare(c, s, s', n, i) {
      PrepareLive(c, s, s', n, i);
    } else if n: Nid, i: nat :| RecvAccept(c, s, s', n, i) {
      AcceptLive(c, s, s', n, i);
    } else if i: nat :| RecvPromise(c, s, s', i) {
      PromiseLive(c, s, s', i);
    } else {
      var i: nat :| RecvAccepted(c, s, s', i);
      AcceptedLive(c, s, s', i);
    }
  }

  lemma {:induction false} RunGood(c: Config, run: seq<State>, i: nat)
    requires IsRun(c, run) && i < |run|
    ensures Good(c, run[i])
  {
    if i == 0 {
      InitInv(c, run[0]);
    } else {
      RunGood(c, run, i - 1);
      NextGood(c, run[i - 1], run[i]);
    }
  }

  /** In every run the ballot of an acceptor is 0 or that of a promise it granted and sent. */
  lemma RunBallots(c: Config, run: seq<State>, j: nat, n: Nid, i: Instance)
    requires IsRun(c, run) && j < |run| && InfoAt(run[j], n, i).bidMax != 0
    ensures HasGranted(run[j], n, Round(i.gid, i.sid, InfoAt(run[j], n, i).bidMax))
  {
    RunGood(c, run, j);
    assert BallotOk(run[j], n, i);
  }
}
