/** Every step of the system keeps the invariant. */
module PaxosPreserve {
  import opened Options
  import opened PaxosTypes
  import opened PaxosSystem
  import opened PaxosInvariant

  /** Past the prepare phase, what justified the accept of a transaction no longer changes. */
  ghost predicate Settled(t: Txn, u: Txn) {
    && u.node == t.node && u.value == t.value && u.fast == t.fast && u.phase != 1
    && u.group.rid == t.group.rid && u.group.prom == t.group.prom && u.group.promYes == t.group.promYes
    && u.group.maxProp == t.group.maxProp
  }

  ghost predicate TxnEvolves(s: State, s': State, tid: Tid) {
    tid in s.txns ==> tid in s'.txns && (s.txns[tid].phase != 1 ==> Settled(s.txns[tid], s'.txns[tid]))
  }

  ghost predicate Evolves(s: State, s': State) {
    Grows(s, s') && forall tid {:trigger TxnEvolves(s, s', tid)} :: TxnEvolves(s, s', tid)
  }

  // ---------- parts kept by any such step ----------

  lemma KeepPromise(c: Config, s: State, s': State, m: Msg)
    requires Grows(s, s') && m.Promise? && PromiseOk(c, s, m)
    ensures PromiseOk(c, s', m)
  {
    assert InfoGrows(InfoAt(s, m.nid, m.res.rid.Inst()), InfoAt(s', m.nid, m.res.rid.Inst()));
  }

  lemma KeepAccept(c: Config, s: State, s': State, k: nat)
    requires Evolves(s, s') && k < |s.log| && s.log[k].Accept? && s.log[k].tid in s.txns && AcceptOk(c, s, k)
    ensures k < |s'.log| && s'.log[k] == s.log[k] && s.log[k].tid in s'.txns && AcceptOk(c, s', k)
  {
    var tid := s.log[k].tid;
    assert TxnEvolves(s, s', tid);
    var t, u := s.txns[tid], s'.txns[tid];
    forall n | n in u.group.prom ensures HeardBefore(s', tid, n, u.group, k) {
      KeepHeard(s, s', tid, n, t.group, u.group, k, k);
    }
    if t.group.maxProp.Some? { KeepAcceptBefore(s, s', t.group.maxProp.value, k, k); }
  }

  lemma KeepMsg(c: Config, s: State, s': State, k: nat)
    requires Evolves(s, s') && k < |s.log| && MsgOk(c, s, k)
    ensures k < |s'.log| && s'.log[k] == s.log[k] && MsgOk(c, s', k)
  {
    var m := s.log[k];
    assert s'.log[k] == m;
    assert TxnEvolves(s, s', m.tid);
    if m.Promise? { KeepPromise(c, s, s', m); }
    if m.Accept? { KeepAccept(c, s, s', k); }
    if m.Accepted? && m.res.ack.Success? { KeepOwn(s, s', m.tid, m.nid, m.res.rid); }
  }

  lemma KeepAcc(s: State, s': State, n: Nid, i: Instance)
    requires Grows(s, s') && AccOk(s, n, i) && InfoAt(s', n, i).props == InfoAt(s, n, i).props
    ensures AccOk(s', n, i)
  {
    forall p | p in InfoAt(s', n, i).props ensures AcceptBefore(s', p, |s'.log|) {
      KeepAcceptBefore(s, s', p, |s.log|, |s'.log|);
    }
  }

  /** A transaction that the step does not touch. */
  lemma KeepTxn(c: Config, s: State, s': State, tid: Tid)
    requires Grows(s, s') && tid in s.txns && TxnCore(c, s, tid) && tid in s'.txns && s'.txns[tid] == s.txns[tid]
    ensures TxnCore(c, s', tid)
  {
    var t := s.txns[tid];
    var g := t.group;
    if t.fast { KeepWon(c, s, s', t.node, g.rid.gid, g.rid.sid); }
    forall n | n in g.prom ensures HeardBefore(s', tid, n, g, |s'.log|) {
      KeepHeard(s, s', tid, n, g, g, |s.log|, |s'.log|);
    }
    if g.maxProp.Some? { KeepAcceptBefore(s, s', g.maxProp.value, |s.log|, |s'.log|); }
    forall n | n in Voters(g.accd, Success) ensures OwnAccepted(s', tid, n, g.rid) { KeepOwn(s, s', tid, n, g.rid); }
  }

  lemma KeepNext(c: Config, s: State, s': State, n: Nid, gid: Gid)
    requires Grows(s, s') && NextOk(c, s, n, gid) && gid in NextOf(s, n) && gid in NextOf(s', n)
    requires NextOf(s', n)[gid] == NextOf(s, n)[gid]
    ensures NextOk(c, s', n, gid)
  {
    if NextOf(s, n)[gid].isMe { KeepWon(c, s, s', n, gid, NextOf(s, n)[gid].sid); }
  }

  /** The old messages, and the pairs among them. */
  lemma KeepMessages(c: Config, s: State, s': State)
    requires Inv(c, s) && Evolves(s, s')
    ensures forall k: nat {:trigger MsgOk(c, s', k)} :: k < |s.log| ==> MsgOk(c, s', k)
    ensures forall j: nat, k: nat {:trigger PairOk(s', j, k)} :: k < |s.log| ==> PairOk(s', j, k)
  {
    forall k: nat {:trigger MsgOk(c, s', k)} | k < |s.log| ensures MsgOk(c, s', k) {
      assert MsgOk(c, s, k);
      KeepMsg(c, s, s', k);
    }
    forall j: nat, k: nat {:trigger PairOk(s', j, k)} | k < |s.log| ensures PairOk(s', j, k) {
      assert j < k ==> s'.log[j] == s.log[j] && s'.log[k] == s.log[k];
      assert PairOk(s, j, k);
    }
  }

  /** No message is added. */
  lemma SameLog(c: Config, s: State, s': State)
    requires Inv(c, s) && Evolves(s, s') && s'.log == s.log
    ensures forall k: nat {:trigger MsgOk(c, s', k)} :: MsgOk(c, s', k)
    ensures forall j: nat, k: nat {:trigger PairOk(s', j, k)} :: PairOk(s', j, k)
  {
    KeepMessages(c, s, s');
  }

  /** One message is added. */
  lemma OneMore(c: Config, s: State, s': State, m: Msg)
    requires Inv(c, s) && Evolves(s, s') && s'.log == s.log + [m] && MsgOk(c, s', |s.log|)
    requires forall j: nat {:trigger PairOk(s', j, |s.log|)} :: j < |s.log| ==> PairOk(s', j, |s.log|)
    ensures forall k: nat {:trigger MsgOk(c, s', k)} :: MsgOk(c, s', k)
    ensures forall j: nat, k: nat {:trigger PairOk(s', j, k)} :: PairOk(s', j, k)
  {
    KeepMessages(c, s, s');
  }

  lemma SameNexts(c: Config, s: State, s': State)
    requires Inv(c, s) && Grows(s, s') && s'.next == s.next
    ensures forall n, gid {:trigger NextOk(c, s', n, gid)} :: NextOk(c, s', n, gid)
  {
    forall n, gid {:trigger NextOk(c, s', n, gid)} ensures NextOk(c, s', n, gid) {
      assert NextOk(c, s, n, gid);
      if gid in NextOf(s, n) { KeepNext(c, s, s', n, gid); }
    }
  }

  lemma SameAccs(c: Config, s: State, s': State)
    requires Inv(c, s) && Grows(s, s') && s'.acc == s.acc
    ensures forall n, i {:trigger AccOk(s', n, i)} :: AccOk(s', n, i)
  {
    forall n, i {:trigger AccOk(s', n, i)} ensures AccOk(s', n, i) {
      assert AccOk(s, n, i);
      KeepAcc(s, s', n, i);
    }
  }

  lemma SameTxns(c: Config, s: State, s': State)
    requires Inv(c, s) && Grows(s, s') && s'.txns == s.txns && s'.next == s.next && s'.busy == s.busy
    ensures forall tid {:trigger TxnOk(c, s', tid)} :: TxnOk(c, s', tid)
    ensures forall a, b {:trigger TxnPairOk(s', a, b)} :: TxnPairOk(s', a, b)
  {
    forall tid {:trigger TxnOk(c, s', tid)} ensures TxnOk(c, s', tid) {
      assert TxnOk(c, s, tid);
      if tid in s.txns { KeepTxn(c, s, s', tid); }
    }
    forall a, b {:trigger TxnPairOk(s', a, b)} ensures TxnPairOk(s', a, b) {
      assert TxnPairOk(s, a, b);
    }
  }

  // ---------- acceptor steps ----------

  /** The effect of writing one acceptor record. */
  lemma WriteInfo(s: State, s': State, n: Nid, i: Instance, a: AccInfo)
    requires s'.acc == s.acc[n := AccOf(s, n)[i := a]]
    ensures forall m, j {:trigger InfoAt(s', m, j)} :: InfoAt(s', m, j) == if m == n && j == i then a
            else InfoAt(s, m, j)
  {
  }

  lemma HaltKeeps(c: Config, s: State, s': State, n: Nid)
    requires Inv(c, s) && s' == s.(halted := s.halted + {n})
    ensures Inv(c, s')
  {
    assert forall m, i {:trigger InfoAt(s', m, i)} :: InfoAt(s', m, i) == InfoAt(s, m, i);
    SameLog(c, s, s');
    SameNexts(c, s, s');
    SameAccs(c, s, s');
    SameTxns(c, s, s');
  }

  lemma PrepareKeeps(c: Config, s: State, s': State, n: Nid, i: nat)
    requires Inv(c, s) && RecvPrepare(c, s, s', n, i)
    ensures Inv(c, s')
  {
    var m := s.log[i];
    var inst := m.rid.Inst();
    var a := InfoAt(s, n, inst);
    var o := PrepareInfo(a, m.rid.bid);
    if o.None? {
      HaltKeeps(c, s, s', n);
    } else {
      var a' := o.value;
      var k := |s.log|;
      assert MsgOk(c, s, i);
      WriteInfo(s, s', n, inst, a');
      forall j: nat {:trigger PairOk(s', j, k)} | j < k ensures PairOk(s', j, k) {
        assert s'.log[j] == s.log[j];
        assert MsgOk(c, s, j);
      }
      OneMore(c, s, s', s'.log[k]);
      SameNexts(c, s, s');
      SameTxns(c, s, s');
      forall l, q {:trigger AccOk(s', l, q)} ensures AccOk(s', l, q) {
        assert AccOk(s, l, q);
        KeepAcc(s, s', l, q);
      }
    }
  }

  lemma AcceptKeeps(c: Config, s: State, s': State, n: Nid, i: nat)
    requires Inv(c, s) && RecvAccept(c, s, s', n, i)
    ensures Inv(c, s')
  {
    var m := s.log[i];
    var inst := m.prop.rid.Inst();
    var a := InfoAt(s, n, inst);
    var k := |s.log|;
    assert MsgOk(c, s, i);
    WriteInfo(s, s', n, inst, AcceptInfo(a, m.prop));
    assert s'.log[i] == m;
    if m.prop.rid.bid >= a.bidMax {
      assert HasAccepted(s', n, m.prop) by { assert InfoAt(s', n, inst).props[|a.props|] == m.prop; }
      assert OwnAccepted(s', m.tid, n, m.prop.rid);
    }
    OneMore(c, s, s', s'.log[k]);
    SameNexts(c, s, s');
    SameTxns(c, s, s');
    forall l, q {:trigger AccOk(s', l, q)} ensures AccOk(s', l, q) {
      assert AccOk(s, l, q);
      if l == n && q == inst {
        AccAfterAccept(s, s', n, i);
      } else {
        KeepAcc(s, s', l, q);
      }
    }
  }

  lemma AccAfterAccept(s: State, s': State, n: Nid, i: nat)
    requires Grows(s, s') && i < |s.log| && s.log[i].Accept? && AccOk(s, n, s.log[i].prop.rid.Inst())
    requires InfoAt(s', n, s.log[i].prop.rid.Inst())
             == AcceptInfo(InfoAt(s, n, s.log[i].prop.rid.Inst()), s.log[i].prop)
    ensures AccOk(s', n, s.log[i].prop.rid.Inst())
  {
    var inst := s.log[i].prop.rid.Inst();
    forall p | p in InfoAt(s', n, inst).props ensures p.rid.Inst() == inst && AcceptBefore(s', p, |s'.log|) {
      if p in InfoAt(s, n, inst).props {
        KeepAcceptBefore(s, s', p, |s.log|, |s'.log|);
      } else {
        assert p == s.log[i].prop && s'.log[i] == s.log[i];
      }
    }
  }

  // ---------- proposer steps ----------

  lemma SameAccGrows(s: State, s': State)
    requires s'.acc == s.acc && s.log <= s'.log
    ensures Grows(s, s')
  {
    forall n, i {:trigger InfoAt(s', n, i)} ensures InfoGrows(InfoAt(s, n, i), InfoAt(s', n, i)) {
      assert InfoAt(s', n, i) == InfoAt(s, n, i);
    }
  }

  /** The transactions other than one that the step rewrites. */
  lemma OtherTxns(c: Config, s: State, s': State, tid: Tid)
    requires Inv(c, s) && Grows(s, s') && tid in s'.txns
    requires forall a :: a in s'.txns && a != tid ==> a in s.txns && s'.txns[a] == s.txns[a] && TxnPlace(s', s.txns[a])
    ensures forall a {:trigger TxnOk(c, s', a)} :: a != tid ==> TxnOk(c, s', a)
    ensures forall a, b {:trigger TxnPairOk(s', a, b)} :: a != tid && b != tid ==> TxnPairOk(s', a, b)
  {
    forall a {:trigger TxnOk(c, s', a)} | a != tid ensures TxnOk(c, s', a) {
      assert TxnOk(c, s, a);
      if a in s'.txns { KeepTxn(c, s, s', a); }
    }
    forall a, b {:trigger TxnPairOk(s', a, b)} | a != tid && b != tid ensures TxnPairOk(s', a, b) {
      assert TxnPairOk(s, a, b);
    }
  }

  /** A new transaction starts at its node's next slot, behind no other of the node and group. */
  lemma StartTxns(c: Config, s: State, s': State, n: Nid, gid: Gid, tid: Tid, v: Value, retry: nat)
    requires Inv(c, s) && Start(c, s, s', n, gid, tid, v, retry) && Grows(s, s')
    ensures forall a {:trigger TxnOk(c, s', a)} :: TxnOk(c, s', a)
    ensures forall a, b {:trigger TxnPairOk(s', a, b)} :: TxnPairOk(s', a, b)
  {
    var t := s'.txns[tid];
    assert NextOf(s', n)[gid] == Newest(NextOf(s, n), gid);
    assert NextOk(c, s, n, gid);
    forall a | a in s'.txns && a != tid
      ensures a in s.txns && s'.txns[a] == s.txns[a] && TxnPlace(s', s.txns[a])
    {
      assert TxnOk(c, s, a);
    }
    OtherTxns(c, s, s', tid);
    if t.fast { KeepWon(c, s, s', n, gid, t.Rid().sid); }
    assert TxnCore(c, s', tid);
    forall a, b {:trigger TxnPairOk(s', a, b)} ensures TxnPairOk(s', a, b) {
      assert TxnOk(c, s, a) && TxnOk(c, s, b);
      if a != tid && b != tid { assert TxnPairOk(s', a, b); }
    }
  }

  lemma StartNexts(c: Config, s: State, s': State, n: Nid, gid: Gid, tid: Tid, v: Value, retry: nat)
    requires Inv(c, s) && Start(c, s, s', n, gid, tid, v, retry) && Grows(s, s')
    ensures forall m, h {:trigger NextOk(c, s', m, h)} :: NextOk(c, s', m, h)
  {
    forall m, h {:trigger NextOk(c, s', m, h)} ensures NextOk(c, s', m, h) {
      assert NextOk(c, s, m, h);
      if h in NextOf(s, m) { KeepNext(c, s, s', m, h); }
    }
  }

  lemma StartKeeps(c: Config, s: State, s': State, n: Nid, gid: Gid, tid: Tid, v: Value, retry: nat)
    requires Inv(c, s) && Start(c, s, s', n, gid, tid, v, retry)
    ensures Inv(c, s')
  {
    var k := |s.log|;
    SameAccGrows(s, s');
    forall j: nat {:trigger PairOk(s', j, k)} | j < k ensures PairOk(s', j, k) {
      assert s'.log[j] == s.log[j];
      assert MsgOk(c, s, j);
    }
    assert Evolves(s, s') by {
      forall a {:trigger TxnEvolves(s, s', a)} ensures TxnEvolves(s, s', a) {}
    }
    OneMore(c, s, s', s'.log[k]);
    SameAccs(c, s, s');
    StartTxns(c, s, s', n, gid, tid, v, retry);
    StartNexts(c, s, s', n, gid, tid, v, retry);
  }

  // ---------- a counted promise ----------

  lemma WiderCover(m: Option<Proposal>, props: seq<Proposal>)
    ensures Covers(LargestOf(m, props), props)
    ensures forall q: seq<Proposal> :: Covers(m, q) ==> Covers(LargestOf(m, props), q)
  {
    LargestCovers(m, props);
  }

  lemma PromiseTxn(c: Config, s: State, s': State, i: nat)
    requires Inv(c, s) && RecvPromise(c, s, s', i) && Grows(s, s')
    ensures TxnOk(c, s', s.log[i].tid)
  {
    var m := s.log[i];
    var t, t' := s.txns[m.tid], s'.txns[m.tid];
    var g, g' := t.group, t'.group;
    assert MsgOk(c, s, i) && TxnOk(c, s, m.tid);
    assert s'.log[i] == m;
    CountsKept(g, m.nid, m.res);
    WiderCover(g.maxProp, m.res.props);
    forall n | n in g'.prom ensures HeardBefore(s', m.tid, n, g', |s'.log|) {
      if n != m.nid { KeepHeard(s, s', m.tid, n, g, g', |s.log|, |s'.log|); }
    }
    LargestCovers(g.maxProp, m.res.props);
    if g'.maxProp.Some? {
      if g'.maxProp == g.maxProp {
        KeepAcceptBefore(s, s', g.maxProp.value, |s.log|, |s'.log|);
      } else {
        ReportedWasSent(c, s, i, g'.maxProp.value);
        KeepAcceptBefore(s, s', g'.maxProp.value, |s.log|, |s'.log|);
      }
    }
    forall n | n in Voters(g'.accd, Success) ensures OwnAccepted(s', m.tid, n, g'.rid) {
      KeepOwn(s, s', m.tid, n, g.rid);
    }
  }

  /** Everything an acceptor reports was sent before. */
  lemma ReportedWasSent(c: Config, s: State, i: nat, p: Proposal)
    requires Inv(c, s) && i < |s.log| && s.log[i].Promise? && p in s.log[i].res.props
    ensures AcceptBefore(s, p, |s.log|) && p.rid.Inst() == s.log[i].res.rid.Inst()
  {
    var m := s.log[i];
    assert MsgOk(c, s, i);
    assert AccOk(s, m.nid, m.res.rid.Inst());
    var a := InfoAt(s, m.nid, m.res.rid.Inst());
    var x :| 0 <= x < |m.res.props| && m.res.props[x] == p;
    assert a.props[x] == p;
  }

  /** What a promise adds to what the round has heard, before the accept it leads to. */
  lemma PromiseHeard(c: Config, s: State, s': State, i: nat)
    requires Inv(c, s) && RecvPromise(c, s, s', i) && Grows(s, s')
    ensures var t := s'.txns[s.log[i].tid];
            && (forall n :: n in t.group.prom ==> HeardBefore(s', s.log[i].tid, n, t.group, |s.log|))
            && (t.group.maxProp.Some? ==> AcceptBefore(s', t.group.maxProp.value, |s.log|))
  {
    var k := |s.log|;
    var m := s.log[i];
    var g, g' := s.txns[m.tid].group, s'.txns[m.tid].group;
    assert MsgOk(c, s, i) && TxnOk(c, s, m.tid);
    WiderCover(g.maxProp, m.res.props);
    assert s'.log[i] == m;
    forall n | n in g'.prom ensures HeardBefore(s', m.tid, n, g', k) {
      if n != m.nid { KeepHeard(s, s', m.tid, n, g, g', k, k); }
    }
    LargestCovers(g.maxProp, m.res.props);
    if g'.maxProp.Some? {
      if g'.maxProp != g.maxProp { ReportedWasSent(c, s, i, g'.maxProp.value); }
      KeepAcceptBefore(s, s', g'.maxProp.value, k, k);
    }
  }

  /** The accept that a prepared round sends is justified by what the round has heard, and is the
      first of its transaction. */
  lemma PromiseAccept(c: Config, s: State, s': State, i: nat)
    requires Inv(c, s) && RecvPromise(c, s, s', i) && Grows(s, s') && s'.txns[s.log[i].tid].phase == 2
    requires TxnOk(c, s', s.log[i].tid)
    ensures MsgOk(c, s', |s.log|)
    ensures forall j: nat {:trigger PairOk(s', j, |s.log|)} :: j < |s.log| ==> PairOk(s', j, |s.log|)
  {
    assert TxnOk(c, s, s.log[i].tid);
    PromiseHeard(c, s, s', i);
    assert AcceptOk(c, s', |s.log|);
    forall j: nat {:trigger PairOk(s', j, |s.log|)} | j < |s.log| ensures PairOk(s', j, |s.log|) {
      assert s'.log[j] == s.log[j];
      assert MsgOk(c, s, j);
    }
  }

  lemma PromiseKeeps(c: Config, s: State, s': State, i: nat)
    requires Inv(c, s) && RecvPromise(c, s, s', i)
    ensures Inv(c, s')
  {
    var tid := s.log[i].tid;
    SameAccGrows(s, s');
    assert Evolves(s, s') by {
      forall a {:trigger TxnEvolves(s, s', a)} ensures TxnEvolves(s, s', a) {}
    }
    PromiseTxn(c, s, s', i);
    if s'.txns[tid].phase == 2 {
      PromiseAccept(c, s, s', i);
      OneMore(c, s, s', s'.log[|s.log|]);
    } else {
      SameLog(c, s, s');
    }
    SameAccs(c, s, s');
    SameNexts(c, s, s');
    forall a | a in s'.txns && a != tid
      ensures a in s.txns && s'.txns[a] == s.txns[a] && TxnPlace(s', s.txns[a])
    {
      assert TxnOk(c, s, a);
    }
    OtherTxns(c, s, s', tid);
    PairsAfter(c, s, s', tid);
  }

  /** Rewriting one transaction in place keeps the order of slots, unless it stops being decided. */
  lemma PairsAfter(c: Config, s: State, s': State, tid: Tid)
    requires Inv(c, s) && tid in s.txns && s'.txns.Keys == s.txns.Keys
    requires forall a :: a in s.txns && a != tid ==> s'.txns[a] == s.txns[a]
    requires s'.txns[tid].node == s.txns[tid].node && s'.txns[tid].Rid() == s.txns[tid].Rid()
    requires s.txns[tid].phase != 3
    ensures forall a, b {:trigger TxnPairOk(s', a, b)} :: TxnPairOk(s', a, b)
  {
    forall a, b {:trigger TxnPairOk(s', a, b)} ensures TxnPairOk(s', a, b) {
      assert TxnPairOk(s, a, b);
    }
  }

  // ---------- a counted acceptance ----------

  lemma AcceptedTxn(c: Config, s: State, s': State, i: nat)
    requires Inv(c, s) && RecvAccepted(c, s, s', i) && Grows(s, s')
    ensures TxnCore(c, s', s.log[i].tid)
  {
    var m := s.log[i];
    var t, t' := s.txns[m.tid], s'.txns[m.tid];
    var g, g' := t.group, t'.group;
    AcceptedGroup(c, s, s', i);
    if t.fast { KeepWon(c, s, s', t.node, g.rid.gid, g.rid.sid); }
    AcceptedVotes(c, s, s', m, g, g');
    AcceptedHeard(s, s', m.tid, g, g');
    if g'.maxProp.Some? { KeepAcceptBefore(s, s', g.maxProp.value, |s.log|, |s'.log|); }
  }

  /** What the answer changes in the record of the group. */
  lemma AcceptedGroup(c: Config, s: State, s': State, i: nat)
    requires Inv(c, s) && RecvAccepted(c, s, s', i)
    ensures s.log[i].tid in s'.txns
    ensures var m := s.log[i];
            var g, g' := s.txns[m.tid].group, s'.txns[m.tid].group;
            && AcceptedOk(c, s, m) && TxnCore(c, s, m.tid) && Counted(g')
            && g' == g.(accd := g.accd[m.nid := m.res.ack], accdYes := g'.accdYes, accdNo := g'.accdNo)
  {
    var m := s.log[i];
    var g := s.txns[m.tid].group;
    assert MsgOk(c, s, i) && TxnOk(c, s, m.tid);
    CountsKept(g, m.nid, m.res);
    assert LargestOf(g.maxProp, m.res.props) == g.maxProp;
  }

  lemma AcceptedHeard(s: State, s': State, tid: Tid, g: GroupInfo, g': GroupInfo)
    requires Grows(s, s') && g'.prom == g.prom && g'.rid == g.rid && g'.maxProp == g.maxProp
    requires forall n :: n in g.prom ==> HeardBefore(s, tid, n, g, |s.log|)
    ensures forall n :: n in g'.prom ==> HeardBefore(s', tid, n, g', |s'.log|)
  {
    forall n | n in g'.prom ensures HeardBefore(s', tid, n, g', |s'.log|) {
      KeepHeard(s, s', tid, n, g, g', |s.log|, |s'.log|);
    }
  }

  lemma AcceptedVotes(c: Config, s: State, s': State, m: Msg, g: GroupInfo, g': GroupInfo)
    requires Grows(s, s') && m.Accepted? && AcceptedOk(c, s, m) && m.res.rid == g.rid
    requires forall n :: n in Voters(g.accd, Success) ==> OwnAccepted(s, m.tid, n, g.rid)
    requires g'.accd == g.accd[m.nid := m.res.ack] && g'.rid == g.rid
    ensures forall n :: n in Voters(g'.accd, Success) ==> OwnAccepted(s', m.tid, n, g'.rid)
  {
    forall n | n in Voters(g'.accd, Success) ensures OwnAccepted(s', m.tid, n, g'.rid) {
      KeepOwn(s, s', m.tid, n, g.rid);
    }
  }

  /** The recorder entry after a decision: the decided proposal was chosen. */
  lemma DecideWins(c: Config, s: State, s': State, i: nat)
    requires Inv(c, s) && RecvAccepted(c, s, s', i) && Grows(s, s') && s'.txns[s.log[i].tid].phase == 3
    requires TxnCore(c, s', s.log[i].tid)
    requires forall k: nat {:trigger MsgOk(c, s', k)} :: MsgOk(c, s', k)
    requires forall j: nat, k: nat {:trigger PairOk(s', j, k)} :: PairOk(s', j, k)
    ensures Chosen(c, s', Choice(c, s'.txns[s.log[i].tid]))
    ensures Choice(c, s'.txns[s.log[i].tid]).rid.Inst() == s'.txns[s.log[i].tid].Rid().Inst()
  {
    var tid := s.log[i].tid;
    var t := s'.txns[tid];
    var q := Voters(t.group.accd, Success);
    var p := Choice(c, t);
    QuorumIsMajority(|q|, |c.nodes|);
    assert |q| > 0;
    forall n {:trigger n in q} | n in q ensures HasAccepted(s', n, p) {
      assert OwnAccepted(s', tid, n, t.Rid());
      var j :| 0 <= j < |s'.log| && s'.log[j].Accept? && s'.log[j].tid == tid && s'.log[j].prop.rid == t.Rid()
        && HasAccepted(s', n, s'.log[j].prop);
      assert MsgOk(c, s', j);
    }
    assert MajorityHas(c, s', q, p);
  }

  lemma DecideTxns(c: Config, s: State, s': State, i: nat)
    requires Inv(c, s) && RecvAccepted(c, s, s', i) && Grows(s, s')
    requires s'.txns[s.log[i].tid].phase == 3 && TxnCore(c, s', s.log[i].tid)
    requires Choice(c, s'.txns[s.log[i].tid]).rid.Inst() == s'.txns[s.log[i].tid].Rid().Inst()
    ensures forall a {:trigger TxnOk(c, s', a)} :: TxnOk(c, s', a)
  {
    var tid := s.log[i].tid;
    var t := s'.txns[tid];
    assert TxnOk(c, s, tid);
    assert NextOf(s', t.node)[t.Rid().gid].sid == t.Rid().sid + 1;
    forall a | a in s'.txns && a != tid
      ensures a in s.txns && s'.txns[a] == s.txns[a] && TxnPlace(s', s.txns[a])
    {
      assert TxnOk(c, s, a) && TxnPairOk(s, a, tid);
    }
    OtherTxns(c, s, s', tid);
  }

  lemma DecideNexts(c: Config, s: State, s': State, i: nat)
    requires Inv(c, s) && RecvAccepted(c, s, s', i) && Grows(s, s')
    requires s'.txns[s.log[i].tid].phase == 3 && Chosen(c, s', Choice(c, s'.txns[s.log[i].tid]))
    requires Choice(c, s'.txns[s.log[i].tid]).rid.Inst() == s'.txns[s.log[i].tid].Rid().Inst()
    ensures forall n, gid {:trigger NextOk(c, s', n, gid)} :: NextOk(c, s', n, gid)
  {
    var t := s'.txns[s.log[i].tid];
    var p := Choice(c, t);
    assert TxnOk(c, s, s.log[i].tid);
    forall n, gid {:trigger NextOk(c, s', n, gid)} ensures NextOk(c, s', n, gid) {
      assert NextOk(c, s, n, gid);
      if n == t.node && gid == t.Rid().gid {
        assert NextOf(s', n)[gid] == NextSid(t.Rid().sid + 1, p.nid == n);
        assert p.nid == n ==> WonBefore(c, s', n, gid, t.Rid().sid + 1);
      } else if gid in NextOf(s, n) {
        KeepNext(c, s, s', n, gid);
      }
    }
  }

  lemma UndecidedTxns(c: Config, s: State, s': State, i: nat)
    requires Inv(c, s) && RecvAccepted(c, s, s', i) && Grows(s, s')
    requires s'.txns[s.log[i].tid].phase != 3 && TxnCore(c, s', s.log[i].tid)
    ensures forall a {:trigger TxnOk(c, s', a)} :: TxnOk(c, s', a)
  {
    var tid := s.log[i].tid;
    assert TxnOk(c, s, tid);
    forall a | a in s'.txns && a != tid
      ensures a in s.txns && s'.txns[a] == s.txns[a] && TxnPlace(s', s.txns[a])
    {
      assert TxnOk(c, s, a);
    }
    OtherTxns(c, s, s', tid);
  }

  /** What is sent and what the acceptors hold stays as it is. */
  lemma AcceptedRest(c: Config, s: State, s': State, i: nat)
    requires Inv(c, s) && RecvAccepted(c, s, s', i)
    ensures Grows(s, s')
    ensures forall n, j {:trigger AccOk(s', n, j)} :: AccOk(s', n, j)
    ensures forall k: nat {:trigger MsgOk(c, s', k)} :: MsgOk(c, s', k)
    ensures forall j: nat, k: nat {:trigger PairOk(s', j, k)} :: PairOk(s', j, k)
    ensures forall a, b {:trigger TxnPairOk(s', a, b)} :: TxnPairOk(s', a, b)
  {
    AcceptedEvolves(c, s, s', i);
    SameLog(c, s, s');
    SameAccs(c, s, s');
    PairsAfter(c, s, s', s.log[i].tid);
  }

  lemma AcceptedEvolves(c: Config, s: State, s': State, i: nat)
    requires Inv(c, s) && RecvAccepted(c, s, s', i)
    ensures Evolves(s, s')
  {
    assert MsgOk(c, s, i) && TxnOk(c, s, s.log[i].tid);
    SameAccGrows(s, s');
    forall a {:trigger TxnEvolves(s, s', a)} ensures TxnEvolves(s, s', a) {}
  }

  lemma AcceptedKeeps(c: Config, s: State, s': State, i: nat)
    requires Inv(c, s) && RecvAccepted(c, s, s', i)
    ensures Inv(c, s')
  {
    AcceptedRest(c, s, s', i);
    AcceptedTxn(c, s, s', i);
    if s'.txns[s.log[i].tid].phase == 3 {
      DecideWins(c, s, s', i);
      DecideTxns(c, s, s', i);
      DecideNexts(c, s, s', i);
    } else {
      UndecidedTxns(c, s, s', i);
      SameNexts(c, s, s');
    }
  }

  // ---------- all steps, all runs ----------

  lemma NextKeeps(c: Config, s: State, s': State)
    requires Inv(c, s) && Next(c, s, s')
    ensures Inv(c, s')
  {
    if n: Nid, gid: Gid, tid: Tid, v: Value, retry: nat :| Start(c, s, s', n, gid, tid, v, retry) {
      StartKeeps(c, s, s', n, gid, tid, v, retry);
    } else if n: Nid, i: nat :| RecvPrepare(c, s, s', n, i) {
      PrepareKeeps(c, s, s', n, i);
    } else if n: Nid, i: nat :| RecvAccept(c, s, s', n, i) {
      AcceptKeeps(c, s, s', n, i);
    } else if i: nat :| RecvPromise(c, s, s', i) {
      PromiseKeeps(c, s, s', i);
    } else {
      var i: nat :| RecvAccepted(c, s, s', i);
      AcceptedKeeps(c, s, s', i);
    }
  }

  /** Every state of every run satisfies the invariant. */
  lemma {:induction false} RunInv(c: Config, run: seq<State>, i: nat)
    requires IsRun(c, run) && i < |run|
    ensures Inv(c, run[i])
  {
    if i == 0 {
      InitInv(c, run[0]);
    } else {
      RunInv(c, run, i - 1);
      NextKeeps(c, run[i - 1], run[i]);
    }
  }
}
