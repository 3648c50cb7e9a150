/** Agreement, and safety of skipping the prepare, in every state that satisfies the invariant.

    An acceptor does not raise its ballot when it accepts, and a round may hear of a proposal with
    a larger ballot than its own. The argument is therefore by induction on the order in which
    accepts were sent, not on ballots. */
module PaxosAgreement {
  import opened PaxosTypes
  import opened PaxosSystem
  import opened PaxosInvariant

  ghost predicate IsAccept(s: State, k: nat) { k < |s.log| && s.log[k].Accept? }

  function TxnOf(s: State, k: nat): Txn
    requires k < |s.log| && s.log[k].tid in s.txns
  {
    s.txns[s.log[k].tid]
  }

  ghost predicate FastAt(s: State, tid: Tid, i: Instance) {
    tid in s.txns && s.txns[tid].fast && s.txns[tid].Rid().Inst() == i
  }

  /** At most one transaction of the whole system skips the prepare of this slot. */
  ghost predicate FastUnique(s: State, i: Instance) {
    forall a, b {:trigger FastAt(s, a, i), FastAt(s, b, i)} :: FastAt(s, a, i) && FastAt(s, b, i) ==> a == b
  }

  lemma Message(c: Config, s: State, k: nat)
    requires Inv(c, s) && k < |s.log|
    ensures MsgOk(c, s, k) && s.log[k].tid in s.txns && TxnOk(c, s, s.log[k].tid)
  {
    assert MsgOk(c, s, k) && TxnOk(c, s, s.log[k].tid);
  }

  /** A majority granted the ballot of a prepared round before its accept was sent. */
  lemma GrantedBy(c: Config, s: State, k: nat, n: Nid) returns (j: nat)
    requires Inv(c, s) && IsAccept(s, k) && s.log[k].tid in s.txns
    requires n in Voters(TxnOf(s, k).group.prom, Success)
    ensures j < k && Granted(s.log[j]) && s.log[j].tid == s.log[k].tid && s.log[j].nid == n
    ensures s.log[j].res.rid == TxnOf(s, k).Rid() && Covers(TxnOf(s, k).group.maxProp, s.log[j].res.props)
    ensures PromiseOk(c, s, s.log[j])
  {
    Message(c, s, k);
    var t := TxnOf(s, k);
    assert n in t.group.prom;
    assert HeardBefore(s, s.log[k].tid, n, t.group, k);
    j :| 0 <= j < k && j < |s.log| && s.log[j].Promise? && s.log[j].tid == s.log[k].tid && s.log[j].nid == n
      && s.log[j].res.rid == t.group.rid && s.log[j].res.ack == t.group.prom[n]
      && Covers(t.group.maxProp, s.log[j].res.props);
    Message(c, s, j);
  }

  lemma GrantMajority(c: Config, s: State, k: nat)
    requires Inv(c, s) && IsAccept(s, k) && s.log[k].tid in s.txns && !TxnOf(s, k).fast
    ensures Voters(TxnOf(s, k).group.prom, Success) <= c.nodes
    ensures |Voters(TxnOf(s, k).group.prom, Success)| >= Quorum(|c.nodes|)
  {
    Message(c, s, k);
  }

  lemma OneGrant(c: Config, s: State, a: nat, b: nat)
    requires Inv(c, s) && a < |s.log| && b < |s.log| && Granted(s.log[a]) && Granted(s.log[b])
    requires s.log[a].nid == s.log[b].nid && s.log[a].res.rid == s.log[b].res.rid
    ensures a == b
  {
    assert a < b ==> PairOk(s, a, b);
    assert b < a ==> PairOk(s, b, a);
  }

  lemma AcceptOnce(c: Config, s: State, j: nat, k: nat)
    requires Inv(c, s) && IsAccept(s, j) && IsAccept(s, k) && s.log[j].tid == s.log[k].tid
    ensures j == k
  {
    assert j < k ==> PairOk(s, j, k);
    assert k < j ==> PairOk(s, k, j);
  }

  /** Two prepared rounds never hold majorities for the same round id. */
  lemma SameRound(c: Config, s: State, j: nat, k: nat)
    requires Inv(c, s) && IsAccept(s, j) && IsAccept(s, k) && s.log[j].tid in s.txns && s.log[k].tid in s.txns
    requires !TxnOf(s, j).fast && !TxnOf(s, k).fast && TxnOf(s, j).Rid() == TxnOf(s, k).Rid()
    ensures s.log[j].tid == s.log[k].tid
  {
    GrantMajority(c, s, j);
    GrantMajority(c, s, k);
    var n := QuorumsMeet(Voters(TxnOf(s, j).group.prom, Success), Voters(TxnOf(s, k).group.prom, Success), c.nodes);
    var a := GrantedBy(c, s, j, n);
    var b := GrantedBy(c, s, k, n);
    OneGrant(c, s, a, b);
  }

  /** One accept for each round id. */
  lemma OneAccept(c: Config, s: State, j: nat, k: nat)
    requires Inv(c, s) && IsAccept(s, j) && IsAccept(s, k) && s.log[j].tid in s.txns && s.log[k].tid in s.txns
    requires TxnOf(s, j).Rid() == TxnOf(s, k).Rid() && FastUnique(s, TxnOf(s, j).Rid().Inst())
    ensures j == k
  {
    Message(c, s, j);
    Message(c, s, k);
    if !TxnOf(s, j).fast && !TxnOf(s, k).fast { SameRound(c, s, j, k); }
    assert FastAt(s, s.log[j].tid, TxnOf(s, j).Rid().Inst()) ==> FastAt(s, s.log[k].tid, TxnOf(s, j).Rid().Inst());
    AcceptOnce(c, s, j, k);
  }

  /** The accept that first carried a proposal: its round id is that of the round sending it. */
  lemma {:induction false} Source(c: Config, s: State, k: nat) returns (j: nat)
    requires Inv(c, s) && IsAccept(s, k)
    ensures j <= k && IsAccept(s, j) && s.log[j].tid in s.txns
    ensures s.log[j].prop == s.log[k].prop && s.log[k].prop.rid == TxnOf(s, j).Rid()
    decreases k
  {
    Message(c, s, k);
    var t := TxnOf(s, k);
    if s.log[k].prop.rid == t.Rid() {
      j := k;
    } else {
      assert AcceptBefore(s, s.log[k].prop, k);
      var i :| 0 <= i < k && i < |s.log| && s.log[i].Accept? && s.log[i].prop == s.log[k].prop;
      j := Source(c, s, i);
    }
  }

  /** A round id carries one proposal. */
  lemma OneProposal(c: Config, s: State, j: nat, k: nat)
    requires Inv(c, s) && IsAccept(s, j) && IsAccept(s, k) && s.log[j].prop.rid == s.log[k].prop.rid
    requires FastUnique(s, s.log[j].prop.rid.Inst())
    ensures s.log[j].prop == s.log[k].prop
  {
    var a := Source(c, s, j);
    var b := Source(c, s, k);
    OneAccept(c, s, a, b);
  }

  /** A chosen proposal was sent; some node of every majority has accepted it. */
  lemma ChosenSent(c: Config, s: State, p: Proposal) returns (k: nat)
    requires Inv(c, s) && Chosen(c, s, p)
    ensures IsAccept(s, k) && s.log[k].prop == p && p.rid.bid >= 1
  {
    var q: set<Nid> :| MajorityHas(c, s, q, p);
    var n :| n in q;
    assert AccOk(s, n, p.rid.Inst());
    assert AcceptBefore(s, p, |s.log|);
    k :| 0 <= k < |s.log| && s.log[k].Accept? && s.log[k].prop == p;
    var j := Source(c, s, k);
    Message(c, s, j);
  }

  /** A prepared round above a chosen ballot has heard of it. */
  lemma Heard(c: Config, s: State, p: Proposal, k: nat)
    requires Inv(c, s) && Chosen(c, s, p) && IsAccept(s, k) && s.log[k].tid in s.txns && !TxnOf(s, k).fast
    requires TxnOf(s, k).Rid().Inst() == p.rid.Inst() && TxnOf(s, k).Rid().bid > p.rid.bid
    ensures TxnOf(s, k).group.maxProp.Some? && TxnOf(s, k).group.maxProp.value.rid.bid >= p.rid.bid
  {
    var q: set<Nid> :| MajorityHas(c, s, q, p);
    GrantMajority(c, s, k);
    QuorumIsMajority(|q|, |c.nodes|);
    var n := QuorumsMeet(q, Voters(TxnOf(s, k).group.prom, Success), c.nodes);
    var j := GrantedBy(c, s, k, n);
    assert HasAccepted(s, n, p);
    var a, props := InfoAt(s, n, p.rid.Inst()).props, s.log[j].res.props;
    var x :| 0 <= x < |a| && a[x] == p;
    assert x < |props| && props[x] == p;
  }

  /** An accept above a chosen ballot took its value from an earlier accept not below it. */
  lemma Carrier(c: Config, s: State, p: Proposal, k: nat) returns (j: nat)
    requires Inv(c, s) && Chosen(c, s, p) && IsAccept(s, k)
    requires s.log[k].prop.rid.Inst() == p.rid.Inst() && s.log[k].prop.rid.bid > p.rid.bid >= 1
    ensures j < k && IsAccept(s, j) && s.log[j].prop.rid.Inst() == p.rid.Inst()
    ensures s.log[j].prop.rid.bid >= p.rid.bid && SameValue(s.log[j].prop, s.log[k].prop)
  {
    Message(c, s, k);
    var t := TxnOf(s, k);
    if s.log[k].prop.rid == t.Rid() { Heard(c, s, p, k); }
    var m := t.group.maxProp.value;
    assert AcceptBefore(s, m, k);
    j :| 0 <= j < k && j < |s.log| && s.log[j].Accept? && s.log[j].prop == m;
  }

  /** Every accept with at least the ballot of a chosen proposal carries the chosen value. */
  lemma {:induction false} LaterAccepts(c: Config, s: State, p: Proposal, k: nat)
    requires Inv(c, s) && Chosen(c, s, p) && FastUnique(s, p.rid.Inst())
    requires IsAccept(s, k) && s.log[k].prop.rid.Inst() == p.rid.Inst() && s.log[k].prop.rid.bid >= p.rid.bid
    ensures SameValue(s.log[k].prop, p)
    decreases k
  {
    var k0 := ChosenSent(c, s, p);
    if s.log[k].prop.rid.bid == p.rid.bid {
      OneProposal(c, s, k0, k);
    } else {
      var j := Carrier(c, s, p, k);
      LaterAccepts(c, s, p, j);
    }
  }

  lemma AgreeIfFastUnique(c: Config, s: State, p: Proposal, q: Proposal)
    requires Inv(c, s) && Chosen(c, s, p) && Chosen(c, s, q) && p.rid.Inst() == q.rid.Inst()
    requires FastUnique(s, p.rid.Inst())
    ensures SameValue(p, q)
  {
    var i := ChosenSent(c, s, p);
    var j := ChosenSent(c, s, q);
    if p.rid.bid <= q.rid.bid { LaterAccepts(c, s, p, j); } else { LaterAccepts(c, s, q, i); }
  }

  /** By induction over the slots: the prepare of a slot is skipped by at most one transaction,
      because agreement on the slot before leaves one winner. */
  lemma {:induction false} FastIsUnique(c: Config, s: State, gid: Gid, sid: Sid)
    requires Inv(c, s)
    ensures FastUnique(s, Instance(gid, sid))
    decreases sid
  {
    var i := Instance(gid, sid);
    forall a, b {:trigger FastAt(s, a, i), FastAt(s, b, i)} | FastAt(s, a, i) && FastAt(s, b, i)
      ensures a == b
    {
      var t, u := s.txns[a], s.txns[b];
      assert TxnOk(c, s, a) && TxnOk(c, s, b) && TxnPairOk(s, a, b);
      var p: Proposal :| p.rid.gid == gid && p.rid.sid + 1 == sid && p.nid == t.node && Chosen(c, s, p);
      var q: Proposal :| q.rid.gid == gid && q.rid.sid + 1 == sid && q.nid == u.node && Chosen(c, s, q);
      FastIsUnique(c, s, gid, sid - 1);
      AgreeIfFastUnique(c, s, p, q);
    }
  }

  /** No two different values are chosen in one slot. */
  lemma Agreement(c: Config, s: State, p: Proposal, q: Proposal)
    requires Inv(c, s) && Chosen(c, s, p) && Chosen(c, s, q) && p.rid.Inst() == q.rid.Inst()
    ensures SameValue(p, q)
  {
    FastIsUnique(c, s, p.rid.gid, p.rid.sid);
    AgreeIfFastUnique(c, s, p, q);
  }

  // ---------- decisions ----------

  /** What a decided transaction proposed was chosen. */
  lemma DecidedIsChosen(c: Config, s: State, tid: Tid) returns (k: nat)
    requires Inv(c, s) && tid in s.txns && s.txns[tid].phase == 3
    ensures IsAccept(s, k) && s.log[k].tid == tid && s.log[k].prop == Choice(c, s.txns[tid])
    ensures s.log[k].prop.rid == s.txns[tid].Rid() && Chosen(c, s, s.log[k].prop)
  {
    var t := s.txns[tid];
    assert TxnOk(c, s, tid);
    var q := Voters(t.group.accd, Success);
    QuorumIsMajority(|q|, |c.nodes|);
    assert 2 * |q| > |c.nodes|;
    var n0 :| n0 in q;
    assert OwnAccepted(s, tid, n0, t.Rid());
    k :| 0 <= k < |s.log| && s.log[k].Accept? && s.log[k].tid == tid && s.log[k].prop.rid == t.Rid()
      && HasAccepted(s, n0, s.log[k].prop);
    Message(c, s, k);
    forall n {:trigger n in q} | n in q ensures HasAccepted(s, n, s.log[k].prop) {
      assert OwnAccepted(s, tid, n, t.Rid());
      var j :| 0 <= j < |s.log| && s.log[j].Accept? && s.log[j].tid == tid && s.log[j].prop.rid == t.Rid()
        && HasAccepted(s, n, s.log[j].prop);
      AcceptOnce(c, s, j, k);
    }
    assert MajorityHas(c, s, q, s.log[k].prop);
  }

  /** All transactions that decide a slot decide the same value. */
  lemma DecisionsAgree(c: Config, s: State, a: Tid, b: Tid)
    requires Inv(c, s) && a in s.txns && b in s.txns && s.txns[a].phase == 3 && s.txns[b].phase == 3
    requires s.txns[a].Rid().Inst() == s.txns[b].Rid().Inst()
    ensures SameValue(Choice(c, s.txns[a]), Choice(c, s.txns[b]))
  {
    var j := DecidedIsChosen(c, s, a);
    var k := DecidedIsChosen(c, s, b);
    Agreement(c, s, s.log[j].prop, s.log[k].prop);
  }

  /** As coded, only a transaction that proposed its own value can decide. */
  lemma AsCodedDecidesOwn(c: Config, s: State, tid: Tid)
    requires Inv(c, s) && c.variant.AsCoded? && tid in s.txns && s.txns[tid].phase == 3
    ensures Choice(c, s.txns[tid]) == s.txns[tid].Own()
  {
    var t := s.txns[tid];
    var k := DecidedIsChosen(c, s, tid);
    Message(c, s, k);
    if t.group.maxProp.Some? {
      assert AcceptBefore(s, t.group.maxProp.value, k);
      var i :| 0 <= i < k && i < |s.log| && s.log[i].Accept? && s.log[i].prop == t.group.maxProp.value;
      var j := Source(c, s, i);
      FastIsUnique(c, s, t.Rid().gid, t.Rid().sid);
      OneAccept(c, s, j, k);
    }
  }

  /** As coded, at most one transaction of the whole system decides a slot. */
  lemma AsCodedDecidesOnce(c: Config, s: State, a: Tid, b: Tid)
    requires Inv(c, s) && c.variant.AsCoded?
    requires a in s.txns && b in s.txns && s.txns[a].phase == 3 && s.txns[b].phase == 3
    requires s.txns[a].Rid().Inst() == s.txns[b].Rid().Inst()
    ensures a == b
  {
    AsCodedDecidesOwn(c, s, a);
    AsCodedDecidesOwn(c, s, b);
    DecisionsAgree(c, s, a, b);
    assert TxnPairOk(s, a, b);
  }
}
