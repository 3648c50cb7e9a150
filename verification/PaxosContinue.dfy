/** From every state in which more than half of the nodes answer, and none of them knows a larger ballot
    than a round, some continuation lets that round decide. */
module PaxosContinue {
  import opened Collections
  import opened PaxosTypes
  import opened PaxosSystem
  import opened PaxosInvariant
  import opened PaxosPreserve
  import opened PaxosProgress

  /** A run that begins in s and ends in s'. */
  ghost predicate IsPath(c: Config, path: seq<State>, s: State, s': State) {
    && |path| > 0 && path[0] == s && path[|path| - 1] == s'
    && forall i :: 0 <= i < |path| - 1 ==> Next(c, path[i], path[i + 1])
  }

  ghost predicate CanReach(c: Config, s: State, s': State) { exists path :: IsPath(c, path, s, s') }

  lemma ReachSelf(c: Config, s: State)
    ensures CanReach(c, s, s)
  {
    assert IsPath(c, [s], s, s);
  }

  lemma ReachBefore(c: Config, s: State, t: State, u: State)
    requires Next(c, s, t) && CanReach(c, t, u)
    ensures CanReach(c, s, u)
  {
    var path :| IsPath(c, path, t, u);
    var longer := [s] + path;
    forall i | 0 <= i < |longer| - 1 ensures Next(c, longer[i], longer[i + 1]) {
      if i > 0 { assert Next(c, path[i - 1], path[i]); }
    }
    assert IsPath(c, longer, s, u);
  }

  lemma ReachThen(c: Config, s: State, t: State, u: State)
    requires CanReach(c, s, t) && CanReach(c, t, u)
    ensures CanReach(c, s, u)
  {
    var p :| IsPath(c, p, s, t);
    var q :| IsPath(c, q, t, u);
    var path := p + q[1..];
    forall i | 0 <= i < |path| - 1 ensures Next(c, path[i], path[i + 1]) {
      if i < |p| - 1 {
        assert Next(c, p[i], p[i + 1]) && path[i] == p[i] && path[i + 1] == p[i + 1];
      } else {
        var k := i - |p| + 1;
        assert Next(c, q[k], q[k + 1]) && path[i] == q[k] && path[i + 1] == q[k + 1];
      }
    }
    assert IsPath(c, path, s, u);
  }

  // ---------- the nodes grant ----------

  /** These nodes run, and know no ballot as large as this one. */
  ghost predicate Below(c: Config, s: State, q: set<Nid>, rid: Round) {
    q <= c.nodes && forall n :: n in q ==> n !in s.halted && InfoAt(s, n, rid.Inst()).bidMax < rid.bid
  }

  /** n has answered yes to this round of the transaction. */
  ghost predicate SaidYes(s: State, tid: Tid, n: Nid, rid: Round, ph: int) {
    exists k :: 0 <= k < |s.log| && (if ph == 1 then s.log[k].Promise? else s.log[k].Accepted?)
      && s.log[k].tid == tid && s.log[k].nid == n && s.log[k].res.rid == rid && s.log[k].res.ack.Success?
  }

  lemma KeepYes(s: State, s': State, tid: Tid, n: Nid, rid: Round, ph: int)
    requires s.log <= s'.log && SaidYes(s, tid, n, rid, ph)
    ensures SaidYes(s', tid, n, rid, ph)
  {
    var k :| 0 <= k < |s.log| && (if ph == 1 then s.log[k].Promise? else s.log[k].Accepted?)
      && s.log[k].tid == tid && s.log[k].nid == n && s.log[k].res.rid == rid && s.log[k].res.ack.Success?;
    assert s'.log[k] == s.log[k];
  }

  /** From s to s' exactly these nodes granted the round. */
  ghost predicate GrantedBy(s: State, s': State, tid: Tid, rid: Round, q: set<Nid>) {
    && s.log <= s'.log && s'.txns == s.txns && s'.halted == s.halted
    && (forall n :: n in q ==> SaidYes(s', tid, n, rid, 1))
    && (forall n {:trigger InfoAt(s', n, rid.Inst())} ::
          if n in q then InfoAt(s', n, rid.Inst()).bidMax == rid.bid
            else InfoAt(s', n, rid.Inst()) == InfoAt(s, n, rid.Inst()))
  }

  lemma GrantsJoin(s: State, t: State, s': State, tid: Tid, rid: Round, n: Nid, q: set<Nid>)
    requires n in q && GrantedBy(s, t, tid, rid, {n}) && GrantedBy(t, s', tid, rid, q - {n})
    ensures GrantedBy(s, s', tid, rid, q)
  {
    assert n in {n};
    KeepYes(t, s', tid, n, rid, 1);
    forall m {:trigger InfoAt(s', m, rid.Inst())}
      ensures if m in q then InfoAt(s', m, rid.Inst()).bidMax == rid.bid
              else InfoAt(s', m, rid.Inst()) == InfoAt(s, m, rid.Inst())
    {
      assert m in q - {n} || InfoAt(s', m, rid.Inst()) == InfoAt(t, m, rid.Inst());
    }
  }

  /** What one node does with a prepare above its ballot. */
  lemma GrantOne(c: Config, s: State, tid: Tid, rid: Round, n: Nid) returns (s': State)
    requires Prepare(tid, rid) in s.log && Below(c, s, {n}, rid)
    ensures Next(c, s, s') && GrantedBy(s, s', tid, rid, {n})
  {
    var i :| 0 <= i < |s.log| && s.log[i] == Prepare(tid, rid);
    assert n in {n};
    var a := InfoAt(s, n, rid.Inst());
    var a' := PrepareInfo(a, rid.bid).value;
    s' := s.(acc := s.acc[n := AccOf(s, n)[rid.Inst() := a']],
             log := s.log + [Promise(tid, n, Response(rid, PrepareAck(a, rid.bid), a'.props))]);
    assert RecvPrepare(c, s, s', n, i);
    WriteInfo(s, s', n, rid.Inst(), a');
    assert s'.log[|s.log|].res.ack.Success?;
  }

  lemma StillBelow(c: Config, s: State, t: State, tid: Tid, rid: Round, n: Nid, q: set<Nid>)
    requires Below(c, s, q, rid) && GrantedBy(s, t, tid, rid, {n})
    ensures Below(c, t, q - {n}, rid)
  {
  }

  lemma {:induction false} GrantAll(c: Config, s: State, tid: Tid, rid: Round, q: set<Nid>) returns (s': State)
    requires Good(c, s) && Prepare(tid, rid) in s.log && Below(c, s, q, rid)
    ensures CanReach(c, s, s') && Good(c, s') && GrantedBy(s, s', tid, rid, q)
    decreases |q|
  {
    if q == {} {
      ReachSelf(c, s);
      s' := s;
    } else {
      var n :| n in q;
      var t := GrantOne(c, s, tid, rid, n);
      NextGood(c, s, t);
      KeepSent(s, t, Prepare(tid, rid));
      StillBelow(c, s, t, tid, rid, n, q);
      s' := GrantAll(c, t, tid, rid, q - {n});
      GrantsJoin(s, t, s', tid, rid, n, q);
      ReachBefore(c, s, t, s');
    }
  }

  // ---------- their promises are counted ----------

  /** A round that runs has not heard yes from more than half of the nodes. */
  lemma StillOpen(c: Config, s: State, tid: Tid)
    requires Good(c, s) && tid in s.txns
    ensures s.txns[tid].phase == 1 ==> 2 * s.txns[tid].group.promYes <= |c.nodes|
    ensures s.txns[tid].phase == 2 ==> 2 * s.txns[tid].group.accdYes <= |c.nodes|
  {
    assert RoundOk(c, s, tid);
    QuorumIsMajority(s.txns[tid].group.promYes, |c.nodes|);
    QuorumIsMajority(s.txns[tid].group.accdYes, |c.nodes|);
  }

  /** A round in phase 1 and these nodes, which said yes and are not counted yet, make more than half. */
  ghost predicate AlmostPrepared(c: Config, s: State, tid: Tid, q: set<Nid>) {
    && tid in s.txns && s.txns[tid].phase == 1 && q <= c.nodes
    && 2 * (s.txns[tid].group.promYes + |q|) > |c.nodes|
    && forall n :: n in q ==> n !in s.txns[tid].group.prom && SaidYes(s, tid, n, s.txns[tid].Rid(), 1)
  }

  lemma CountPromiseOne(c: Config, s: State, tid: Tid, q: set<Nid>, n: Nid) returns (s': State)
    requires Good(c, s) && AlmostPrepared(c, s, tid, q) && n in q
    ensures Next(c, s, s') && s.log <= s'.log && s'.acc == s.acc && s'.halted == s.halted && tid in s'.txns
    ensures s'.txns[tid].Rid() == s.txns[tid].Rid() && s'.txns[tid].phase in {1, 2}
    ensures s'.txns[tid].phase == 1 ==> AlmostPrepared(c, s', tid, q - {n})
  {
    var t := s.txns[tid];
    var i :| 0 <= i < |s.log| && s.log[i].Promise? && s.log[i].tid == tid && s.log[i].nid == n
      && s.log[i].res.rid == t.Rid() && s.log[i].res.ack.Success?;
    assert RoundOk(c, s, tid);
    var g := CountPromise(t.group, n, s.log[i].res);
    var v := PromiseVerdict(g, |c.nodes|);
    assert !v.No?;
    var t' := t.(group := g, phase := if v.Yes? then 2 else 1);
    s' := s.(txns := s.txns[tid := t'], log := if v.Yes? then s.log + [Accept(tid, Choice(c, t'))] else s.log);
    assert RecvPromise(c, s, s', i);
    forall m | m in q - {n} ensures SaidYes(s', tid, m, t.Rid(), 1) { KeepYes(s, s', tid, m, t.Rid(), 1); }
  }

  lemma {:induction false} CountPromises(c: Config, s: State, tid: Tid, q: set<Nid>) returns (s': State)
    requires Good(c, s) && AlmostPrepared(c, s, tid, q)
    ensures CanReach(c, s, s') && Good(c, s') && s'.acc == s.acc && s'.halted == s.halted
    ensures tid in s'.txns && s'.txns[tid].phase == 2 && s'.txns[tid].Rid() == s.txns[tid].Rid()
    decreases |q|
  {
    StillOpen(c, s, tid);
    var n :| n in q;
    var t := CountPromiseOne(c, s, tid, q, n);
    NextGood(c, s, t);
    if t.txns[tid].phase == 2 {
      ReachSelf(c, t);
      s' := t;
    } else {
      s' := CountPromises(c, t, tid, q - {n});
    }
    ReachBefore(c, s, t, s');
  }

  // ---------- the nodes accept ----------

  /** These nodes run, and know no larger ballot than this one. */
  ghost predicate NotAbove(c: Config, s: State, q: set<Nid>, rid: Round) {
    q <= c.nodes && forall n :: n in q ==> n !in s.halted && InfoAt(s, n, rid.Inst()).bidMax <= rid.bid
  }

  lemma AcceptOne(c: Config, s: State, tid: Tid, p: Proposal, n: Nid) returns (s': State)
    requires Accept(tid, p) in s.log && NotAbove(c, s, {n}, p.rid)
    ensures Next(c, s, s') && s.log <= s'.log && s'.txns == s.txns && s'.halted == s.halted
    ensures SaidYes(s', tid, n, p.rid, 2)
    ensures forall m :: InfoAt(s', m, p.rid.Inst()).bidMax == InfoAt(s, m, p.rid.Inst()).bidMax
  {
    var i :| 0 <= i < |s.log| && s.log[i] == Accept(tid, p);
    assert n in {n};
    var a := InfoAt(s, n, p.rid.Inst());
    s' := s.(acc := s.acc[n := AccOf(s, n)[p.rid.Inst() := AcceptInfo(a, p)]],
             log := s.log + [Accepted(tid, n, Response(p.rid, AcceptAck(a, p.rid.bid), []))]);
    assert RecvAccept(c, s, s', n, i);
    WriteInfo(s, s', n, p.rid.Inst(), AcceptInfo(a, p));
    assert s'.log[|s.log|].res.ack.Success?;
  }

  lemma {:induction false} AcceptAll(c: Config, s: State, tid: Tid, p: Proposal, q: set<Nid>) returns (s': State)
    requires Good(c, s) && Accept(tid, p) in s.log && NotAbove(c, s, q, p.rid)
    ensures CanReach(c, s, s') && Good(c, s') && s.log <= s'.log && s'.txns == s.txns
    ensures forall n :: n in q ==> SaidYes(s', tid, n, p.rid, 2)
    decreases |q|
  {
    if q == {} {
      ReachSelf(c, s);
      s' := s;
    } else {
      var n :| n in q;
      assert NotAbove(c, s, {n}, p.rid);
      var t := AcceptOne(c, s, tid, p, n);
      NextGood(c, s, t);
      KeepSent(s, t, Accept(tid, p));
      s' := AcceptAll(c, t, tid, p, q - {n});
      KeepYes(t, s', tid, n, p.rid, 2);
      ReachBefore(c, s, t, s');
    }
  }

  // ---------- their answers are counted ----------

  ghost predicate AlmostDecided(c: Config, s: State, tid: Tid, q: set<Nid>) {
    && tid in s.txns && s.txns[tid].phase == 2 && q <= c.nodes
    && 2 * (s.txns[tid].group.accdYes + |q|) > |c.nodes|
    && forall n :: n in q ==> n !in s.txns[tid].group.accd && SaidYes(s, tid, n, s.txns[tid].Rid(), 2)
  }

  lemma CountAcceptedOne(c: Config, s: State, tid: Tid, q: set<Nid>, n: Nid) returns (s': State)
    requires Good(c, s) && AlmostDecided(c, s, tid, q) && n in q
    ensures Next(c, s, s') && tid in s'.txns && s'.txns[tid].phase in {2, 3}
    ensures s'.txns[tid].phase == 2 ==> AlmostDecided(c, s', tid, q - {n})
  {
    var t := s.txns[tid];
    var i :| 0 <= i < |s.log| && s.log[i].Accepted? && s.log[i].tid == tid && s.log[i].nid == n
      && s.log[i].res.rid == t.Rid() && s.log[i].res.ack.Success?;
    assert RoundOk(c, s, tid);
    var g := CountAccepted(t.group, n, s.log[i].res);
    var v := AcceptedVerdict(g, |c.nodes|);
    assert !v.No?;
    var t' := t.(group := g, phase := if v.Yes? then 3 else 2);
    s' := if v.Yes?
      then s.(txns := s.txns[tid := t'], next := s.next[t.node := Decided(NextOf(s, t.node), Choice(c, t'), t.node)],
              busy := s.busy - {(t.node, t.Rid().gid)})
      else s.(txns := s.txns[tid := t']);
    assert RecvAccepted(c, s, s', i);
    forall m | m in q - {n} ensures SaidYes(s', tid, m, t.Rid(), 2) { KeepYes(s, s', tid, m, t.Rid(), 2); }
  }

  lemma {:induction false} CountAccepteds(c: Config, s: State, tid: Tid, q: set<Nid>) returns (s': State)
    requires Good(c, s) && AlmostDecided(c, s, tid, q)
    ensures CanReach(c, s, s') && tid in s'.txns && s'.txns[tid].phase == 3
    decreases |q|
  {
    StillOpen(c, s, tid);
    var n :| n in q;
    var t := CountAcceptedOne(c, s, tid, q, n);
    NextGood(c, s, t);
    if t.txns[tid].phase == 3 {
      ReachSelf(c, t);
      s' := t;
    } else {
      s' := CountAccepteds(c, t, tid, q - {n});
    }
    ReachBefore(c, s, t, s');
  }

  // ---------- a round decides ----------

  /** Whose answer to a round's prepare is counted does not stand below its ballot. */
  lemma CountedNotBelow(c: Config, s: State, tid: Tid, n: Nid)
    requires Good(c, s) && tid in s.txns && n in s.txns[tid].group.prom
    ensures InfoAt(s, n, s.txns[tid].Rid().Inst()).bidMax >= s.txns[tid].Rid().bid
  {
    var t := s.txns[tid];
    assert TxnOk(c, s, tid) && RoundOk(c, s, tid);
    assert HeardBefore(s, tid, n, t.group, |s.log|);
    var j :| 0 <= j < |s.log| && s.log[j].Promise? && s.log[j].tid == tid && s.log[j].nid == n
      && s.log[j].res.rid == t.group.rid && s.log[j].res.ack == t.group.prom[n]
      && Covers(t.group.maxProp, s.log[j].res.props);
    assert MsgOk(c, s, j) && RefusalOk(s, j);
  }

  /** Whose refusal of a round's accept is counted stands above its ballot. */
  lemma RefusedIsAbove(c: Config, s: State, tid: Tid, n: Nid)
    requires Good(c, s) && tid in s.txns && n in s.txns[tid].group.accd && !s.txns[tid].group.accd[n].Success?
    ensures InfoAt(s, n, s.txns[tid].Rid().Inst()).bidMax > s.txns[tid].Rid().bid
  {
    assert RoundOk(c, s, tid);
    assert n in Voters(s.txns[tid].group.accd, ErrBid);
  }

  /** A round in phase 2 that sent a proposal under its own ballot decides while more than half of the
      nodes know no larger one. */
  lemma AcceptedDecides(c: Config, s: State, tid: Tid, q: set<Nid>) returns (s': State)
    requires Good(c, s) && tid in s.txns && s.txns[tid].phase == 2
    requires Choice(c, s.txns[tid]).rid == s.txns[tid].Rid() && NotAbove(c, s, q, s.txns[tid].Rid())
             && 2 * |q| > |c.nodes|
    ensures CanReach(c, s, s') && tid in s'.txns && s'.txns[tid].phase == 3
  {
    var t := s.txns[tid];
    var p := Choice(c, t);
    var yes := Voters(t.group.accd, Success);
    var rest := q - yes;
    forall n | n in rest ensures n !in t.group.accd {
      if n in t.group.accd { RefusedIsAbove(c, s, tid, n); }
    }
    assert RoundOk(c, s, tid) && TxnOk(c, s, tid);
    var s1 := AcceptAll(c, s, tid, p, q);
    MajorityRest(q, yes, rest, |c.nodes|);
    s' := CountAccepteds(c, s1, tid, rest);
    ReachThen(c, s, s1, s');
  }

  lemma MajorityRest(q: set<Nid>, yes: set<Nid>, rest: set<Nid>, size: nat)
    requires q <= yes + rest && 2 * |q| > size
    ensures 2 * (|yes| + |rest|) > size
  {
    SubsetSize(q, yes + rest);
    assert |yes + rest| + |yes * rest| == |yes| + |rest|;
  }

  /** A round that is below no larger ballot decides, whatever more than half of the nodes have accepted
      before. */
  lemma PreparingDecides(c: Config, s: State, tid: Tid, q: set<Nid>) returns (s': State)
    requires Good(c, s) && c.variant.Intended? && tid in s.txns && s.txns[tid].phase == 1
    requires Below(c, s, q, s.txns[tid].Rid()) && 2 * |q| > |c.nodes|
    ensures CanReach(c, s, s') && tid in s'.txns && s'.txns[tid].phase == 3
  {
    var rid := s.txns[tid].Rid();
    forall n | n in q ensures n !in s.txns[tid].group.prom {
      if n in s.txns[tid].group.prom { CountedNotBelow(c, s, tid, n); }
    }
    assert RoundOk(c, s, tid);
    var s1 := GrantAll(c, s, tid, rid, q);
    var s2 := CountPromises(c, s1, tid, q);
    forall n | n in q ensures InfoAt(s2, n, rid.Inst()).bidMax <= rid.bid {
      assert InfoAt(s2, n, rid.Inst()) == InfoAt(s1, n, rid.Inst());
    }
    s' := AcceptedDecides(c, s2, tid, q);
    ReachThen(c, s, s1, s2);
    ReachThen(c, s, s2, s');
  }

  /** Non-blocking: in every state of every run, a round that still runs can decide, if more than half of
      the nodes run and know no ballot that stands against it. */
  lemma NothingBlocks(c: Config, run: seq<State>, i: nat, tid: Tid, q: set<Nid>) returns (s': State)
    requires IsRun(c, run) && i < |run| && c.variant.Intended? && tid in run[i].txns && 2 * |q| > |c.nodes|
    requires (run[i].txns[tid].phase == 1 && Below(c, run[i], q, run[i].txns[tid].Rid()))
             || (run[i].txns[tid].phase == 2 && NotAbove(c, run[i], q, run[i].txns[tid].Rid()))
    ensures CanReach(c, run[i], s') && tid in s'.txns && s'.txns[tid].phase == 3
  {
    RunGood(c, run, i);
    if run[i].txns[tid].phase == 1 {
      s' := PreparingDecides(c, run[i], tid, q);
    } else {
      s' := AcceptedDecides(c, run[i], tid, q);
    }
  }
}
