/** The inductive invariant of the system: what every message, transaction and recorder entry
    of a reachable state says about the past. */
module PaxosInvariant {
  import opened Options
  import opened PaxosTypes
  import opened PaxosSystem

  // ---------- facts about the past, which later steps keep ----------

  ghost predicate AcceptBefore(s: State, p: Proposal, k: nat) {
    exists j :: 0 <= j < k && j < |s.log| && s.log[j].Accept? && s.log[j].prop == p
  }

  ghost predicate Covers(m: Option<Proposal>, props: seq<Proposal>) {
    forall p :: p in props ==> m.Some? && m.value.rid.bid >= p.rid.bid
  }

  /** Before message k node n answered the prepare of this round, and all it reported is covered. */
  ghost predicate HeardBefore(s: State, tid: Tid, n: Nid, g: GroupInfo, k: nat)
    requires n in g.prom
  {
    exists j :: 0 <= j < k && j < |s.log| && s.log[j].Promise? && s.log[j].tid == tid && s.log[j].nid == n
      && s.log[j].res.rid == g.rid && s.log[j].res.ack == g.prom[n] && Covers(g.maxProp, s.log[j].res.props)
  }

  /** Some accept of this transaction, under its own round id, was accepted by n. */
  ghost predicate OwnAccepted(s: State, tid: Tid, n: Nid, rid: Round) {
    exists j :: 0 <= j < |s.log| && s.log[j].Accept? && s.log[j].tid == tid && s.log[j].prop.rid == rid
      && HasAccepted(s, n, s.log[j].prop)
  }

  /** Node n's own value was chosen in the slot before (gid, sid). */
  ghost predicate WonBefore(c: Config, s: State, n: Nid, gid: Gid, sid: Sid) {
    exists p: Proposal :: p.rid.gid == gid && p.rid.sid + 1 == sid && p.nid == n && Chosen(c, s, p)
  }

  // ---------- messages ----------

  ghost predicate PromiseOk(c: Config, s: State, m: Msg)
    requires m.Promise?
  {
    var a := InfoAt(s, m.nid, m.res.rid.Inst());
    && m.nid in c.nodes && m.res.props <= a.props
    && (m.res.ack.Success? ==>
          a.bidMax >= m.res.rid.bid
          && forall j :: |m.res.props| <= j < |a.props| ==> a.props[j].rid.bid >= m.res.rid.bid)
  }

  ghost predicate AcceptOk(c: Config, s: State, k: nat)
    requires k < |s.log| && s.log[k].Accept? && s.log[k].tid in s.txns
  {
    var t := s.txns[s.log[k].tid];
    && t.phase != 1 && s.log[k].prop == Choice(c, t)
    && (!t.fast ==> t.group.promYes >= Quorum(|c.nodes|))
    && (forall n :: n in t.group.prom ==> HeardBefore(s, s.log[k].tid, n, t.group, k))
    && (t.group.maxProp.Some? ==> AcceptBefore(s, t.group.maxProp.value, k))
  }

  ghost predicate AcceptedOk(c: Config, s: State, m: Msg)
    requires m.Accepted?
  {
    && m.nid in c.nodes && m.res.props == []
    && (m.res.ack.Success? ==> OwnAccepted(s, m.tid, m.nid, m.res.rid))
  }

  ghost predicate MsgOk(c: Config, s: State, k: nat) {
    k < |s.log| ==>
    var m := s.log[k];
    && m.tid in s.txns
    && (m.Promise? ==> PromiseOk(c, s, m))
    && (m.Accept? ==> AcceptOk(c, s, k))
    && (m.Accepted? ==> AcceptedOk(c, s, m))
  }

  predicate Granted(m: Msg) { m.Promise? && m.res.ack.Success? }

  /** Granted promises of one acceptor have growing ballots; a transaction sends one accept. */
  ghost predicate PairOk(s: State, j: nat, k: nat) {
    j < k < |s.log| ==>
    var a, b := s.log[j], s.log[k];
    && (Granted(a) && Granted(b) && a.nid == b.nid && a.res.rid.Inst() == b.res.rid.Inst() ==>
          a.res.rid.bid < b.res.rid.bid)
    && (a.Accept? && b.Accept? ==> a.tid != b.tid)
  }

  // ---------- transactions ----------

  ghost predicate TxnCore(c: Config, s: State, tid: Tid)
    requires tid in s.txns
  {
    var t := s.txns[tid];
    var g := t.group;
    && Counted(g) && g.prom.Keys <= c.nodes && g.accd.Keys <= c.nodes
    && t.node in c.nodes && t.phase in {1, 2, 3, -1}
    && g.rid.sid >= 1 && g.rid.bid >= 1
    && (t.fast ==> g.rid.bid == BID_PRIOR && t.phase != 1 && g.maxProp.None? && g.prom == map[]
                   && WonBefore(c, s, t.node, g.rid.gid, g.rid.sid))
    && (!t.fast ==> g.rid.bid >= BID_NORMAL)
    && (forall n :: n in g.prom ==> HeardBefore(s, tid, n, g, |s.log|))
    && (g.maxProp.Some? ==> AcceptBefore(s, g.maxProp.value, |s.log|) && g.maxProp.value.rid.Inst() == g.rid.Inst())
    && (forall n :: n in Voters(g.accd, Success) ==> OwnAccepted(s, tid, n, g.rid))
    && (t.phase == 3 ==> g.accdYes >= Quorum(|c.nodes|))
  }

  /** A decided transaction is behind its node's next slot; any other one runs that slot. */
  ghost predicate TxnPlace(s: State, t: Txn) {
    && t.Rid().gid in NextOf(s, t.node)
    && var nx := NextOf(s, t.node)[t.Rid().gid];
       if t.phase == 3 then t.Rid().sid < nx.sid else t.Rid().sid == nx.sid && (t.node, t.Rid().gid) in s.busy
  }

  ghost predicate TxnOk(c: Config, s: State, tid: Tid) {
    tid in s.txns ==> TxnCore(c, s, tid) && TxnPlace(s, s.txns[tid])
  }

  /** A node runs each slot of a group at most once, and one transaction of a group at a time. */
  ghost predicate TxnPairOk(s: State, a: Tid, b: Tid) {
    a in s.txns && b in s.txns && a != b ==>
      var t, u := s.txns[a], s.txns[b];
      t.node == u.node && t.Rid().gid == u.Rid().gid ==>
      t.Rid().sid != u.Rid().sid && (t.phase == 3 || u.phase == 3)
  }

  ghost predicate NextOk(c: Config, s: State, n: Nid, gid: Gid) {
    gid in NextOf(s, n) ==>
      var nx := NextOf(s, n)[gid];
      nx.sid >= 1 && (nx.isMe ==> WonBefore(c, s, n, gid, nx.sid))
  }

  ghost predicate AccOk(s: State, n: Nid, i: Instance) {
    forall p :: p in InfoAt(s, n, i).props ==> p.rid.Inst() == i && AcceptBefore(s, p, |s.log|)
  }

  ghost predicate Inv(c: Config, s: State) {
    && (forall n, i {:trigger AccOk(s, n, i)} :: AccOk(s, n, i))
    && (forall k: nat {:trigger MsgOk(c, s, k)} :: MsgOk(c, s, k))
    && (forall j: nat, k: nat {:trigger PairOk(s, j, k)} :: PairOk(s, j, k))
    && (forall tid {:trigger TxnOk(c, s, tid)} :: TxnOk(c, s, tid))
    && (forall a, b {:trigger TxnPairOk(s, a, b)} :: TxnPairOk(s, a, b))
    && (forall n, gid {:trigger NextOk(c, s, n, gid)} :: NextOk(c, s, n, gid))
  }

  // ---------- growth ----------

  /** An acceptor's record only grows, and what it accepts later is not below its ballot now. */
  ghost predicate InfoGrows(a: AccInfo, b: AccInfo) {
    && a.props <= b.props && a.bidMax <= b.bidMax
    && forall j :: |a.props| <= j < |b.props| ==> b.props[j].rid.bid >= a.bidMax
  }

  /** What every step keeps of the past. */
  ghost predicate Grows(s: State, s': State) {
    && s.log <= s'.log
    && forall n, i {:trigger InfoAt(s', n, i)} :: InfoGrows(InfoAt(s, n, i), InfoAt(s', n, i))
  }

  lemma KeepAcceptBefore(s: State, s': State, p: Proposal, k: nat, k': nat)
    requires Grows(s, s') && AcceptBefore(s, p, k) && k <= k'
    ensures AcceptBefore(s', p, k')
  {
    var j :| 0 <= j < k && j < |s.log| && s.log[j].Accept? && s.log[j].prop == p;
    assert s'.log[j] == s.log[j];
  }

  lemma KeepHeard(s: State, s': State, tid: Tid, n: Nid, g: GroupInfo, g': GroupInfo, k: nat, k': nat)
    requires Grows(s, s') && n in g.prom && HeardBefore(s, tid, n, g, k) && k <= k'
    requires n in g'.prom && g'.prom[n] == g.prom[n] && g'.rid == g.rid
    requires g'.maxProp == g.maxProp || forall props :: Covers(g.maxProp, props) ==> Covers(g'.maxProp, props)
    ensures HeardBefore(s', tid, n, g', k')
  {
    var j :| 0 <= j < k && j < |s.log| && s.log[j].Promise? && s.log[j].tid == tid && s.log[j].nid == n
      && s.log[j].res.rid == g.rid && s.log[j].res.ack == g.prom[n] && Covers(g.maxProp, s.log[j].res.props);
    assert s'.log[j] == s.log[j];
  }

  lemma KeepHas(s: State, s': State, n: Nid, p: Proposal)
    requires Grows(s, s') && HasAccepted(s, n, p)
    ensures HasAccepted(s', n, p)
  {
    assert InfoGrows(InfoAt(s, n, p.rid.Inst()), InfoAt(s', n, p.rid.Inst()));
    var a, a' := InfoAt(s, n, p.rid.Inst()).props, InfoAt(s', n, p.rid.Inst()).props;
    var j :| 0 <= j < |a| && a[j] == p;
    assert a'[j] == p;
  }

  lemma KeepOwn(s: State, s': State, tid: Tid, n: Nid, rid: Round)
    requires Grows(s, s') && OwnAccepted(s, tid, n, rid)
    ensures OwnAccepted(s', tid, n, rid)
  {
    var j :| 0 <= j < |s.log| && s.log[j].Accept? && s.log[j].tid == tid && s.log[j].prop.rid == rid
      && HasAccepted(s, n, s.log[j].prop);
    assert s'.log[j] == s.log[j];
    KeepHas(s, s', n, s.log[j].prop);
  }

  lemma KeepChosen(c: Config, s: State, s': State, p: Proposal)
    requires Grows(s, s') && Chosen(c, s, p)
    ensures Chosen(c, s', p)
  {
    var q: set<Nid> :| MajorityHas(c, s, q, p);
    forall n {:trigger n in q} | n in q ensures HasAccepted(s', n, p) { KeepHas(s, s', n, p); }
    assert MajorityHas(c, s', q, p);
  }

  lemma KeepWon(c: Config, s: State, s': State, n: Nid, gid: Gid, sid: Sid)
    requires Grows(s, s') && WonBefore(c, s, n, gid, sid)
    ensures WonBefore(c, s', n, gid, sid)
  {
    var p: Proposal :| p.rid.gid == gid && p.rid.sid + 1 == sid && p.nid == n && Chosen(c, s, p);
    KeepChosen(c, s, s', p);
  }

  // ---------- the start ----------

  lemma InitInv(c: Config, s: State)
    requires Init(c, s)
    ensures Inv(c, s)
  {
  }
}
