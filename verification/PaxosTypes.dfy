/** Messages, records and the effect of each handler of one Paxos round, on values.
    The classes in PaxosNode carry these effects out in place; PaxosSystem lets many nodes
    exchange messages. */
module PaxosTypes {
  import opened Collections
  import opened Options

  type Nid = nat
  type Gid = nat
  type Sid = nat
  type Bid = nat
  type Tid = nat
  type Value = seq<nat>

  const BID_PRIOR: Bid := 1
  const BID_NORMAL: Bid := 2

  datatype Ack = Success | ErrBid

  datatype Instance = Instance(gid: Gid, sid: Sid)

  datatype Round = Round(gid: Gid, sid: Sid, bid: Bid) {
    function Inst(): Instance { Instance(gid, sid) }
  }

  /** A proposal for one round; nid is the node whose value it carries. */
  datatype Proposal = Proposal(rid: Round, nid: Nid, value: Value)

  // ---------- acceptor ----------

  /** bidMax is raised by prepares only; props keeps every accepted proposal, in order. */
  datatype AccInfo = AccInfo(bidMax: Bid, props: seq<Proposal>)

  type AccTable = map<Instance, AccInfo>

  function Info(t: AccTable, i: Instance): AccInfo { if i in t then t[i] else AccInfo(0, []) }

  datatype Response = Response(rid: Round, ack: Ack, props: seq<Proposal>)

  /** A prepare is refused below bidMax, granted above it; at bidMax the acceptor stops. */
  function PrepareInfo(a: AccInfo, bid: Bid): Option<AccInfo> {
    if bid > a.bidMax then Some(a.(bidMax := bid)) else if bid < a.bidMax then Some(a) else None
  }

  function PrepareAck(a: AccInfo, bid: Bid): Ack { if bid > a.bidMax then Success else ErrBid }

  /** An accept is refused below bidMax; otherwise the proposal is appended. */
  function AcceptInfo(a: AccInfo, p: Proposal): AccInfo {
    if p.rid.bid >= a.bidMax then a.(props := a.props + [p]) else a
  }

  function AcceptAck(a: AccInfo, bid: Bid): Ack { if bid >= a.bidMax then Success else ErrBid }

  // ---------- proposer ----------

  datatype GroupInfo = GroupInfo(
    rid: Round,
    prom: map<Nid, Ack>, accd: map<Nid, Ack>,
    promYes: nat, promNo: nat, accdYes: nat, accdNo: nat,
    maxProp: Option<Proposal>)

  function NewGroup(rid: Round): GroupInfo { GroupInfo(rid, map[], map[], 0, 0, 0, 0, None) }

  /** The larger ballot wins; the earlier proposal wins a tie. */
  function Larger(prev: Option<Proposal>, p: Proposal): Option<Proposal> {
    if prev.None? || prev.value.rid.bid < p.rid.bid then Some(p) else prev
  }

  function LargestOf(prev: Option<Proposal>, props: seq<Proposal>): Option<Proposal>
  {
    if |props| == 0 then prev else Larger(LargestOf(prev, props[..|props| - 1]), props[|props| - 1])
  }

  /** A promise for this round from a node not heard before. */
  function CountPromise(g: GroupInfo, nid: Nid, r: Response): GroupInfo {
    g.(prom := g.prom[nid := r.ack],
       promYes := if r.ack.Success? then g.promYes + 1 else g.promYes,
       promNo := if r.ack.ErrBid? then g.promNo + 1 else g.promNo,
       maxProp := LargestOf(g.maxProp, r.props))
  }

  function CountAccepted(g: GroupInfo, nid: Nid, r: Response): GroupInfo {
    g.(accd := g.accd[nid := r.ack],
       accdYes := if r.ack.Success? then g.accdYes + 1 else g.accdYes,
       accdNo := if r.ack.ErrBid? then g.accdNo + 1 else g.accdNo,
       maxProp := LargestOf(g.maxProp, r.props))
  }

  /** props[i] has a larger ballot than all before it, prev included, and none after it has a larger one. */
  ghost predicate FirstLargest(prev: Option<Proposal>, props: seq<Proposal>, i: nat) {
    && i < |props| && (prev.Some? ==> prev.value.rid.bid < props[i].rid.bid)
    && (forall j :: 0 <= j < i ==> props[j].rid.bid < props[i].rid.bid)
    && (forall j :: i < j < |props| ==> props[j].rid.bid <= props[i].rid.bid)
  }

  /** The choice is the first of the largest ballots; what was known before comes before all reports. */
  lemma {:induction false} LargestIsFirst(prev: Option<Proposal>, props: seq<Proposal>) returns (i: nat)
    ensures i < |props| ==> FirstLargest(prev, props, i) && LargestOf(prev, props) == Some(props[i])
    ensures i >= |props| ==> LargestOf(prev, props) == prev && (prev.None? ==> props == [])
    ensures i >= |props| && prev.Some? ==> forall j :: 0 <= j < |props| ==> props[j].rid.bid <= prev.value.rid.bid
  {
    i := 0;
    if |props| > 0 {
      var n := |props| - 1;
      i := LargestIsFirst(prev, props[..n]);
      if i >= n { i := if prev.None? || prev.value.rid.bid < props[n].rid.bid then n else |props|; }
      else if props[i].rid.bid < props[n].rid.bid { i := n; }
    }
  }

  datatype Majority = Uncertain | Yes | No

  function Quorum(size: nat): nat { size / 2 + 1 }

  /** A quorum is more than half. */
  lemma QuorumIsMajority(n: nat, size: nat)
    ensures n >= Quorum(size) <==> 2 * n > size
  {
  }

  function PromiseVerdict(g: GroupInfo, size: nat): Majority {
    if g.promNo >= Quorum(size) then No else if g.promYes < Quorum(size) then Uncertain else Yes
  }

  function AcceptedVerdict(g: GroupInfo, size: nat): Majority {
    if g.accdNo >= Quorum(size) then No else if g.accdYes < Quorum(size) then Uncertain else Yes
  }

  // ---------- recorder ----------

  datatype NextSid = NextSid(sid: Sid, isMe: bool)

  type NextTable = map<Gid, NextSid>

  /** The next slot of a group, and whether its prepare may be skipped. */
  function Newest(t: NextTable, gid: Gid): NextSid { if gid in t then t[gid] else NextSid(1, false) }

  function Decided(t: NextTable, p: Proposal, me: Nid): NextTable {
    var cur := if p.rid.gid in t then t[p.rid.gid] else NextSid(0, false);
    t[p.rid.gid := if cur.sid <= p.rid.sid then NextSid(p.rid.sid + 1, p.nid == me) else cur]
  }

  // ---------- counting ----------

  /** The nodes recorded with a given answer. */
  function Voters(m: map<Nid, Ack>, a: Ack): set<Nid> { set n | n in m && m[n] == a }

  /** Every counter is the number of nodes recorded with that answer. */
  ghost predicate Counted(g: GroupInfo) {
    && g.promYes == |Voters(g.prom, Success)| && g.promNo == |Voters(g.prom, ErrBid)|
    && g.accdYes == |Voters(g.accd, Success)| && g.accdNo == |Voters(g.accd, ErrBid)|
  }

  lemma VoteAdds(m: map<Nid, Ack>, n: Nid, a: Ack, b: Ack)
    requires n !in m
    ensures |Voters(m[n := a], b)| == |Voters(m, b)| + if a == b then 1 else 0
  {
    assert Voters(m[n := a], b) == Voters(m, b) + if a == b then {n} else {};
  }

  lemma CountsKept(g: GroupInfo, nid: Nid, r: Response)
    requires Counted(g)
    ensures nid !in g.prom ==> Counted(CountPromise(g, nid, r))
    ensures nid !in g.accd ==> Counted(CountAccepted(g, nid, r))
  {
    if nid !in g.prom { VoteAdds(g.prom, nid, r.ack, Success); VoteAdds(g.prom, nid, r.ack, ErrBid); }
    if nid !in g.accd { VoteAdds(g.accd, nid, r.ack, Success); VoteAdds(g.accd, nid, r.ack, ErrBid); }
  }

  /** Two majorities of one group share a node. */
  lemma QuorumsMeet(a: set<Nid>, b: set<Nid>, nodes: set<Nid>) returns (n: Nid)
    requires a <= nodes && b <= nodes && |a| >= Quorum(|nodes|) && |b| >= Quorum(|nodes|)
    ensures n in a && n in b
  {
    SubsetSize(a + b, nodes);
    assert |a + b| + |a * b| == |a| + |b|;
    assert a * b != {};
    n :| n in a * b;
  }

  /** Answers of a group's own nodes never give both a majority of yes and a majority of no. */
  lemma NoSplitMajority(m: map<Nid, Ack>, nodes: set<Nid>)
    requires m.Keys <= nodes
    ensures !(|Voters(m, Success)| >= Quorum(|nodes|) && |Voters(m, ErrBid)| >= Quorum(|nodes|))
  {
    if |Voters(m, Success)| >= Quorum(|nodes|) && |Voters(m, ErrBid)| >= Quorum(|nodes|) {
      var n := QuorumsMeet(Voters(m, Success), Voters(m, ErrBid), nodes);
    }
  }

  // ---------- the largest reported proposal ----------

  /** The choice covers every reported ballot, and comes from the reports or was there before. */
  lemma {:induction false} LargestCovers(prev: Option<Proposal>, props: seq<Proposal>)
    ensures var m := LargestOf(prev, props);
            && (forall p :: p in props ==> m.Some? && m.value.rid.bid >= p.rid.bid)
            && (prev.Some? ==> m.Some? && m.value.rid.bid >= prev.value.rid.bid)
            && (m.Some? ==> m == prev || m.value in props)
  {
    if |props| > 0 {
      var front := props[..|props| - 1];
      LargestCovers(prev, front);
      assert props == front + [props[|props| - 1]];
    }
  }
}
