/** Many nodes running rounds for many groups, one group per round, over a network that keeps
    every message ever sent. A handler run under its lock is one step. */
module PaxosSystem {
  import opened PaxosTypes

  /** What a round sends when it has heard of an accepted proposal: Intended puts that value under
      the round's own ballot; AsCoded sends the old proposal with its old round id. */
  datatype Variant = Intended | AsCoded

  datatype Config = Config(nodes: set<Nid>, variant: Variant)

  datatype Msg =
    | Prepare(tid: Tid, rid: Round)
    | Promise(tid: Tid, nid: Nid, res: Response)
    | Accept(tid: Tid, prop: Proposal)
    | Accepted(tid: Tid, nid: Nid, res: Response)

  /** One transaction: phase 1 prepare, 2 accept, 3 decided, -1 given up. */
  datatype Txn = Txn(node: Nid, value: Value, fast: bool, phase: int, group: GroupInfo) {
    function Rid(): Round { group.rid }

    function Own(): Proposal { Proposal(group.rid, node, value) }
  }

  datatype State = State(
    acc: map<Nid, AccTable>,
    halted: set<Nid>,
    log: seq<Msg>,
    txns: map<Tid, Txn>,
    next: map<Nid, NextTable>,
    busy: set<(Nid, Gid)>)

  function AccOf(s: State, n: Nid): AccTable { if n in s.acc then s.acc[n] else map[] }

  function InfoAt(s: State, n: Nid, i: Instance): AccInfo { Info(AccOf(s, n), i) }

  function NextOf(s: State, n: Nid): NextTable { if n in s.next then s.next[n] else map[] }

  ghost predicate Init(c: Config, s: State) { s == State(map[], {}, [], map[], map[], {}) }

  /** The proposal a round sends when it enters phase 2. */
  function Choice(c: Config, t: Txn): Proposal {
    if t.group.maxProp.None? then t.Own()
    else if c.variant.AsCoded? then t.group.maxProp.value
    else t.group.maxProp.value.(rid := t.Rid())
  }

  // ---------- steps ----------

  /** mpaxos_start_request: one request per group at a time. Skipping the prepare is allowed for
      the node whose own proposal decided the previous slot; a prepared round may retry with a
      larger ballot. */
  ghost predicate Start(c: Config, s: State, s': State, n: Nid, gid: Gid, tid: Tid, v: Value, retry: nat) {
    var next := Newest(NextOf(s, n), gid);
    var rid := Round(gid, next.sid, if next.isMe then BID_PRIOR else BID_NORMAL + retry);
    var t := Txn(n, v, next.isMe, if next.isMe then 2 else 1, NewGroup(rid));
    && n in c.nodes && (n, gid) !in s.busy && tid !in s.txns
    && s' == s.(txns := s.txns[tid := t], busy := s.busy + {(n, gid)},
                next := s.next[n := NextOf(s, n)[gid := next]],
                log := s.log + [if next.isMe then Accept(tid, Choice(c, t)) else Prepare(tid, rid)])
  }

  /** handle_msg_prepare at node n. */
  ghost predicate RecvPrepare(c: Config, s: State, s': State, n: Nid, i: nat) {
    && n in c.nodes && n !in s.halted && i < |s.log| && s.log[i].Prepare?
    && var m := s.log[i];
       var a := InfoAt(s, n, m.rid.Inst());
       match PrepareInfo(a, m.rid.bid)
       case None => s' == s.(halted := s.halted + {n})
       case Some(a') =>
         s' == s.(acc := s.acc[n := AccOf(s, n)[m.rid.Inst() := a']],
                  log := s.log + [Promise(m.tid, n, Response(m.rid, PrepareAck(a, m.rid.bid), a'.props))])
  }

  /** handle_msg_accept at node n. */
  ghost predicate RecvAccept(c: Config, s: State, s': State, n: Nid, i: nat) {
    && n in c.nodes && n !in s.halted && i < |s.log| && s.log[i].Accept?
    && var m := s.log[i];
       var a := InfoAt(s, n, m.prop.rid.Inst());
       s' == s.(acc := s.acc[n := AccOf(s, n)[m.prop.rid.Inst() := AcceptInfo(a, m.prop)]],
                log := s.log + [Accepted(m.tid, n, Response(m.prop.rid, AcceptAck(a, m.prop.rid.bid), []))])
  }

  /** handle_msg_promise, and mpaxos_accept when the majority is reached. */
  ghost predicate RecvPromise(c: Config, s: State, s': State, i: nat) {
    && i < |s.log| && s.log[i].Promise? && s.log[i].tid in s.txns
    && var m := s.log[i];
       var t := s.txns[m.tid];
       && t.phase == 1 && m.res.rid == t.Rid() && m.nid !in t.group.prom
       && var g := CountPromise(t.group, m.nid, m.res);
          var v := PromiseVerdict(g, |c.nodes|);
          var t' := t.(group := g, phase := if v.Yes? then 2 else if v.No? then -1 else 1);
          s' == s.(txns := s.txns[m.tid := t'],
                   log := if v.Yes? then s.log + [Accept(m.tid, Choice(c, t'))] else s.log)
  }

  /** handle_msg_accepted, and phase_2_async_after when the majority is reached: the decided
      proposal is recorded and the next request of the group may run. */
  ghost predicate RecvAccepted(c: Config, s: State, s': State, i: nat) {
    && i < |s.log| && s.log[i].Accepted? && s.log[i].tid in s.txns
    && var m := s.log[i];
       var t := s.txns[m.tid];
       && t.phase == 2 && m.res.rid == t.Rid() && m.nid !in t.group.accd
       && var g := CountAccepted(t.group, m.nid, m.res);
          var v := AcceptedVerdict(g, |c.nodes|);
          var t' := t.(group := g, phase := if v.Yes? then 3 else if v.No? then -1 else 2);
          s' == if v.Yes?
            then s.(txns := s.txns[m.tid := t'],
                    next := s.next[t.node := Decided(NextOf(s, t.node), Choice(c, t'), t.node)],
                    busy := s.busy - {(t.node, t.Rid().gid)})
            else s.(txns := s.txns[m.tid := t'])
  }

  ghost predicate Next(c: Config, s: State, s': State) {
    || (exists n: Nid, gid: Gid, tid: Tid, v: Value, retry: nat :: Start(c, s, s', n, gid, tid, v, retry))
    || (exists n: Nid, i: nat :: RecvPrepare(c, s, s', n, i))
    || (exists n: Nid, i: nat :: RecvAccept(c, s, s', n, i))
    || (exists i: nat :: RecvPromise(c, s, s', i))
    || (exists i: nat :: RecvAccepted(c, s, s', i))
  }

  /** A finite run of the system. */
  ghost predicate IsRun(c: Config, run: seq<State>) {
    |run| > 0 && Init(c, run[0]) && forall i :: 0 <= i < |run| - 1 ==> Next(c, run[i], run[i + 1])
  }

  // ---------- what the protocol is for ----------

  ghost predicate HasAccepted(s: State, n: Nid, p: Proposal) { p in InfoAt(s, n, p.rid.Inst()).props }

  ghost predicate MajorityHas(c: Config, s: State, q: set<Nid>, p: Proposal) {
    q <= c.nodes && 2 * |q| > |c.nodes| && forall n {:trigger n in q} :: n in q ==> HasAccepted(s, n, p)
  }

  /** More than half of the nodes have accepted p. */
  ghost predicate Chosen(c: Config, s: State, p: Proposal) {
    exists q: set<Nid> :: MajorityHas(c, s, q, p)
  }

  /** The same value of the same node, whatever the ballot. */
  ghost predicate SameValue(p: Proposal, q: Proposal) { p.nid == q.nid && p.value == q.value }
}
