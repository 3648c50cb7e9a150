/** One node: the acceptor's table, the record of a running transaction, and the recorder of
    decided slots, updated in place by the message handlers. Their effects are the functions of
    PaxosTypes, which the system of many nodes uses for its steps. */
module PaxosNode {
  import opened Options
  import opened PaxosTypes

  // ---------- acceptor ----------

  /** The table and the answers after the first n round ids of a prepare; None once the acceptor
      has stopped on a ballot equal to its own. */
  function PrepareRids(t: AccTable, rids: seq<Round>, n: nat): Option<(AccTable, seq<Response>)>
    requires n <= |rids|
  {
    if n == 0 then Some((t, []))
    else
      match PrepareRids(t, rids, n - 1)
      case None => None
      case Some(u) =>
        var rid := rids[n - 1];
        var a := Info(u.0, rid.Inst());
        match PrepareInfo(a, rid.bid)
        case None => None
        case Some(b) => Some((u.0[rid.Inst() := b], u.1 + [Response(rid, PrepareAck(a, rid.bid), b.props)]))
  }

  lemma {:induction false} PrepareStops(t: AccTable, rids: seq<Round>, m: nat, n: nat)
    requires m <= n <= |rids| && PrepareRids(t, rids, m).None?
    ensures PrepareRids(t, rids, n).None?
    decreases n
  {
    if m < n { PrepareStops(t, rids, m, n - 1); }
  }

  /** The table and the answers after the first n round ids of an accept; the record of each slot gets
      the proposal under the round id of that slot. */
  function AcceptRids(t: AccTable, rids: seq<Round>, nid: Nid, value: Value, n: nat): (AccTable, seq<Response>)
    requires n <= |rids|
  {
    if n == 0 then (t, [])
    else
      var u := AcceptRids(t, rids, nid, value, n - 1);
      var p := Proposal(rids[n - 1], nid, value);
      var a := Info(u.0, p.rid.Inst());
      (u.0[p.rid.Inst() := AcceptInfo(a, p)], u.1 + [Response(p.rid, AcceptAck(a, p.rid.bid), [])])
  }

  ghost predicate SlotsDiffer(rids: seq<Round>) {
    forall i, j :: 0 <= i < j < |rids| ==> rids[i].Inst() != rids[j].Inst()
  }

  /** A prepare for different slots stops the process exactly if some ballot is the acceptor's own. */
  lemma {:induction false} PrepareStopsIff(t: AccTable, rids: seq<Round>, n: nat)
    requires n <= |rids| && SlotsDiffer(rids)
    ensures PrepareRids(t, rids, n).None? <==> exists i :: 0 <= i < n && rids[i].bid == Info(t, rids[i].Inst()).bidMax
  {
    if n > 0 {
      PrepareStopsIff(t, rids, n - 1);
      if PrepareRids(t, rids, n - 1).Some? { PreparedBefore(t, rids, n - 1, rids[n - 1].Inst()); }
    }
  }

  /** Otherwise every slot is answered as if it were the only one, and no other changes: a ballot is
      granted exactly if it is larger, the larger of the two stays, and what was accepted stays and is
      reported. */
  lemma {:induction false} PreparedEach(t: AccTable, rids: seq<Round>, n: nat, i: nat, other: Instance)
    requires i < n <= |rids| && SlotsDiffer(rids) && PrepareRids(t, rids, n).Some?
    requires forall j :: 0 <= j < n ==> rids[j].Inst() != other
    ensures var u := PrepareRids(t, rids, n).value;
            && |u.1| == n && PreparedAt(Info(t, rids[i].Inst()), Info(u.0, rids[i].Inst()), rids[i], u.1[i])
            && Info(u.0, other) == Info(t, other)
  {
    if i < n - 1 {
      PreparedEach(t, rids, n - 1, i, other);
    } else {
      PreparedBefore(t, rids, n - 1, rids[i].Inst());
      PreparedBefore(t, rids, n - 1, other);
    }
  }

  lemma {:induction false} PreparedBefore(t: AccTable, rids: seq<Round>, n: nat, other: Instance)
    requires n <= |rids| && PrepareRids(t, rids, n).Some? && forall j :: 0 <= j < n ==> rids[j].Inst() != other
    ensures |PrepareRids(t, rids, n).value.1| == n && Info(PrepareRids(t, rids, n).value.0, other) == Info(t, other)
  {
    if n > 0 { PreparedBefore(t, rids, n - 1, other); }
  }

  /** From a to b a prepare was answered. */
  ghost predicate PreparedAt(a: AccInfo, b: AccInfo, rid: Round, r: Response) {
    && r.rid == rid && rid.bid != a.bidMax && (r.ack.Success? <==> rid.bid > a.bidMax)
    && b.bidMax == (if rid.bid > a.bidMax then rid.bid else a.bidMax) && b.props == a.props && r.props == a.props
  }

  /** From a to b an accept was answered: the ballot stays as it is. */
  ghost predicate AcceptedAt(a: AccInfo, b: AccInfo, p: Proposal, r: Response) {
    && r.rid == p.rid && r.props == [] && (r.ack.Success? <==> p.rid.bid >= a.bidMax) && b.bidMax == a.bidMax
    && b.props == if r.ack.Success? then a.props + [p] else a.props
  }

  /** For different slots every slot is answered as if it were the only one, and no other changes. */
  lemma {:induction false} AcceptedEach(t: AccTable, rids: seq<Round>, nid: Nid, value: Value, n: nat, i: nat,
                                        other: Instance)
    requires i < n <= |rids| && SlotsDiffer(rids) && forall j :: 0 <= j < n ==> rids[j].Inst() != other
    ensures var u, a := AcceptRids(t, rids, nid, value, n), Info(t, rids[i].Inst());
            && |u.1| == n
            && AcceptedAt(a, Info(u.0, rids[i].Inst()), Proposal(rids[i], nid, value), u.1[i])
            && Info(u.0, other) == Info(t, other)
  {
    if i < n - 1 {
      AcceptedEach(t, rids, nid, value, n - 1, i, other);
    } else {
      AcceptedBefore(t, rids, nid, value, n - 1, rids[i].Inst());
      AcceptedBefore(t, rids, nid, value, n - 1, other);
    }
  }

  lemma {:induction false} AcceptedBefore(t: AccTable, rids: seq<Round>, nid: Nid, value: Value, n: nat,
                                          other: Instance)
    requires n <= |rids| && forall j :: 0 <= j < n ==> rids[j].Inst() != other
    ensures |AcceptRids(t, rids, nid, value, n).1| == n
            && Info(AcceptRids(t, rids, nid, value, n).0, other) == Info(t, other)
  {
    if n > 0 { AcceptedBefore(t, rids, nid, value, n - 1, other); }
  }

  class Acceptor {
    var table: AccTable

    /** get_accp_info: creates the record of an instance not seen before. */
    method GetInfo(i: Instance) returns (a: AccInfo)
      modifies this
      ensures a == Info(old(table), i) && table == old(table)[i := a]
      ensures i !in old(table) ==> a.bidMax == 0 && a.props == []
    {
      if i !in table {
        table := table[i := AccInfo(0, [])];
      }
      a := table[i];
    }

    /** acceptor_forget: the next message about the instance finds it as if it had never been seen. */
    method ForgetInfo(i: Instance)
      modifies this
      ensures table == old(table) - {i} && Info(table, i) == AccInfo(0, [])
      ensures forall j :: j != i ==> Info(table, j) == Info(old(table), j)
    {
      if i in table {
        table := table - {i};
      }
    }

    /** The body of the loop over the round ids of a prepare. */
    method AnswerPrepare(rid: Round) returns (r: Option<Response>)
      modifies this
      ensures var a := Info(old(table), rid.Inst());
              match PrepareInfo(a, rid.bid)
              case None => r.None?
              case Some(b) =>
                table == old(table)[rid.Inst() := b]
                && r == Some(Response(rid, PrepareAck(a, rid.bid), b.props))
      ensures r.None? <==> rid.bid == Info(old(table), rid.Inst()).bidMax
      ensures r.None? ==> forall j :: Info(table, j) == Info(old(table), j)
      ensures r.Some? ==> PreparedAt(Info(old(table), rid.Inst()), Info(table, rid.Inst()), rid, r.value)
      ensures forall j :: j != rid.Inst() ==> Info(table, j) == Info(old(table), j)
    {
      ghost var t := table;
      var a := GetInfo(rid.Inst());
      var ack := ErrBid;
      if rid.bid > a.bidMax {
        ack := Success;
        a := a.(bidMax := rid.bid);
        table := table[rid.Inst() := a];
        assert table == t[rid.Inst() := a];
      } else if rid.bid == a.bidMax {
        return None;
      }
      var props := [];
      for j := 0 to |a.props|
        invariant props == a.props[..j]
      {
        props := props + [a.props[j]];
      }
      assert props == a.props;
      r := Some(Response(rid, ack, props));
    }

    /** handle_msg_prepare. None: the process stops. */
    method HandlePrepare(rids: seq<Round>) returns (r: Option<seq<Response>>)
      modifies this
      ensures match PrepareRids(old(table), rids, |rids|)
              case None => r.None?
              case Some(u) => table == u.0 && r == Some(u.1)
    {
      var ress := [];
      for i := 0 to |rids|
        invariant PrepareRids(old(table), rids, i) == Some((table, ress))
      {
        var one := AnswerPrepare(rids[i]);
        if one.None? {
          assert PrepareRids(old(table), rids, i + 1).None?;
          PrepareStops(old(table), rids, i + 1, |rids|);
          return None;
        }
        ress := ress + [one.value];
      }
      r := Some(ress);
    }

    /** The body of the loop over the round ids of an accept. */
    method AnswerAccept(p: Proposal) returns (r: Response)
      modifies this
      ensures var a := Info(old(table), p.rid.Inst());
              table == old(table)[p.rid.Inst() := AcceptInfo(a, p)]
              && r == Response(p.rid, AcceptAck(a, p.rid.bid), [])
      ensures AcceptedAt(Info(old(table), p.rid.Inst()), Info(table, p.rid.Inst()), p, r)
      ensures forall j :: j != p.rid.Inst() ==> Info(table, j) == Info(old(table), j)
    {
      var a := GetInfo(p.rid.Inst());
      var ack := ErrBid;
      if p.rid.bid >= a.bidMax {
        ack := Success;
        table := table[p.rid.Inst() := a.(props := a.props + [p])];
      }
      r := Response(p.rid, ack, []);
    }

    /** handle_msg_accept, for a proposal with these round ids. */
    method HandleAccept(rids: seq<Round>, nid: Nid, value: Value) returns (ress: seq<Response>)
      modifies this
      ensures table == AcceptRids(old(table), rids, nid, value, |rids|).0
      ensures ress == AcceptRids(old(table), rids, nid, value, |rids|).1
      ensures forall i :: Info(table, i).bidMax == Info(old(table), i).bidMax
    {
      ress := [];
      for i := 0 to |rids|
        invariant AcceptRids(old(table), rids, nid, value, i) == (table, ress)
        invariant forall j :: Info(table, j).bidMax == Info(old(table), j).bidMax
      {
        var r := AnswerAccept(Proposal(rids[i], nid, value));
        ress := ress + [r];
      }
    }
  }

  // ---------- the reported proposals ----------

  /** The group's and the transaction's largest proposal after n reports, kept side by side. */
  function Report(gm: Option<Proposal>, tm: Option<Proposal>, props: seq<Proposal>, n: nat)
    : (Option<Proposal>, Option<Proposal>)
    requires n <= |props|
  {
    if n == 0 then (gm, tm)
    else
      var (g, t) := Report(gm, tm, props, n - 1);
      var p := props[n - 1];
      if g.None? || g.value.rid.bid < p.rid.bid then (Some(p), Larger(t, p)) else (g, t)
  }

  lemma {:induction false} ReportIsLargest(gm: Option<Proposal>, tm: Option<Proposal>, props: seq<Proposal>, n: nat)
    requires n <= |props|
    ensures Report(gm, tm, props, n).0 == LargestOf(gm, props[..n])
    ensures gm == tm ==> Report(gm, tm, props, n).1 == LargestOf(gm, props[..n])
  {
    if n > 0 {
      ReportIsLargest(gm, tm, props, n - 1);
      assert props[..n][..n - 1] == props[..n - 1];
    }
  }

  // ---------- a running transaction ----------

  type Groups = map<Gid, GroupInfo>

  datatype Progress = Progress(groups: Groups, propMax: Option<Proposal>)

  /** One response of a promise; one for an older round is skipped. */
  function PromiseOne(x: Progress, nid: Nid, r: Response): Progress {
    if r.rid.gid !in x.groups || x.groups[r.rid.gid].rid != r.rid then x
    else
      var g := x.groups[r.rid.gid];
      Progress(x.groups[r.rid.gid := CountPromise(g, nid, r)], Report(g.maxProp, x.propMax, r.props, |r.props|).1)
  }

  function AcceptedOne(x: Progress, nid: Nid, r: Response): Progress {
    if r.rid.gid !in x.groups || x.groups[r.rid.gid].rid != r.rid then x
    else
      var g := x.groups[r.rid.gid];
      Progress(x.groups[r.rid.gid := CountAccepted(g, nid, r)], Report(g.maxProp, x.propMax, r.props, |r.props|).1)
  }

  function PromiseAll(x: Progress, nid: Nid, ress: seq<Response>, n: nat): Progress
    requires n <= |ress|
  {
    if n == 0 then x else PromiseOne(PromiseAll(x, nid, ress, n - 1), nid, ress[n - 1])
  }

  function AcceptedAll(x: Progress, nid: Nid, ress: seq<Response>, n: nat): Progress
    requires n <= |ress|
  {
    if n == 0 then x else AcceptedOne(AcceptedAll(x, nid, ress, n - 1), nid, ress[n - 1])
  }

  function Verdict(g: GroupInfo, phase: int, size: nat): Majority {
    if phase == 1 then PromiseVerdict(g, size) else AcceptedVerdict(g, size)
  }

  /** The first group from i on, in this order, that is not a yes. */
  function FirstOther(groups: Groups, order: seq<Gid>, phase: int, size: nat, i: nat): (k: nat)
    requires i <= |order| && forall g :: g in order ==> g in groups
    ensures i <= k <= |order|
    ensures forall j :: i <= j < k ==> Verdict(groups[order[j]], phase, size).Yes?
    ensures k < |order| ==> !Verdict(groups[order[k]], phase, size).Yes?
    decreases |order| - i
  {
    if i < |order| && Verdict(groups[order[i]], phase, size).Yes? then FirstOther(groups, order, phase, size, i + 1)
      else i
  }

  /** What check_majority returns when the hash table yields the groups in this order: no and
      uncertain come from the first group that is not a yes, so they depend on the order. */
  function MajorityOf(groups: Groups, order: seq<Gid>, phase: int, size: nat): Majority
    requires forall g :: g in order ==> g in groups
  {
    var k := FirstOther(groups, order, phase, size, 0);
    if k == |order| then Yes else Verdict(groups[order[k]], phase, size)
  }

  /** A yes needs a majority of yes in every group, whatever the order of the groups. */
  lemma YesMeansAll(groups: Groups, order: seq<Gid>, phase: int, size: nat)
    requires Enumerates(order, groups.Keys)
    ensures MajorityOf(groups, order, phase, size).Yes? <==>
            forall g :: g in groups ==> Verdict(groups[g], phase, size).Yes?
  {
    var k := FirstOther(groups, order, phase, size, 0);
    if k < |order| { assert order[k] in groups; }
    if k == |order| {
      forall g | g in groups ensures Verdict(groups[g], phase, size).Yes? {
        var j :| 0 <= j < |order| && order[j] == g;
      }
    }
  }

  /** The records of a transaction count what was heard, from nodes of the group only. */
  ghost predicate GroupsOk(groups: Groups, nodes: set<Nid>) {
    forall g :: g in groups ==>
      groups[g].rid.gid == g && Counted(groups[g]) && groups[g].prom.Keys <= nodes && groups[g].accd.Keys <= nodes
  }

  /** The transaction's largest proposal is that of some group, and not below any group's. */
  ghost predicate LargestOk(x: Progress) {
    && (forall g :: g in x.groups && x.groups[g].maxProp.Some? ==>
          x.propMax.Some? && x.propMax.value.rid.bid >= x.groups[g].maxProp.value.rid.bid)
    && (x.propMax.Some? ==> exists g :: g in x.groups && x.groups[g].maxProp == x.propMax)
  }

  /** The node answers a round of this transaction for the first time. */
  ghost predicate FirstPromise(x: Progress, nid: Nid, r: Response) {
    r.rid.gid in x.groups && (x.groups[r.rid.gid].rid == r.rid ==> nid !in x.groups[r.rid.gid].prom)
  }

  ghost predicate FirstAccepted(x: Progress, nid: Nid, r: Response) {
    r.rid.gid in x.groups && (x.groups[r.rid.gid].rid == r.rid ==> nid !in x.groups[r.rid.gid].accd)
  }

  /** No node answers the same round twice within a message. */
  ghost predicate AllFirstPromise(x: Progress, nid: Nid, ress: seq<Response>) {
    forall i :: 0 <= i < |ress| ==> FirstPromise(PromiseAll(x, nid, ress, i), nid, ress[i])
  }

  ghost predicate AllFirstAccepted(x: Progress, nid: Nid, ress: seq<Response>) {
    forall i :: 0 <= i < |ress| ==> FirstAccepted(AcceptedAll(x, nid, ress, i), nid, ress[i])
  }

  /** The order in which the hash table yields the groups. */
  ghost predicate Enumerates(order: seq<Gid>, gids: set<Gid>) {
    forall g :: g in order <==> g in gids
  }

  /** In one group, both copies of the largest proposal agree. */
  lemma OneGroupLargest(x: Progress, g: Gid)
    requires LargestOk(x) && x.groups.Keys == {g}
    ensures x.propMax == x.groups[g].maxProp
  {
    assert g in x.groups;
  }

  lemma {:induction false} ReportBounds(gm: Option<Proposal>, tm: Option<Proposal>, props: seq<Proposal>, n: nat)
    requires n <= |props| && (gm.Some? ==> tm.Some? && tm.value.rid.bid >= gm.value.rid.bid)
    ensures var (g, t) := Report(gm, tm, props, n);
            && (g.Some? ==> t.Some? && t.value.rid.bid >= g.value.rid.bid)
            && (tm.Some? ==> t.Some? && t.value.rid.bid >= tm.value.rid.bid)
            && (gm.Some? ==> g.Some?)
            && (t == tm || t == g)
            && (t == tm || tm.None? || t.value.rid.bid > tm.value.rid.bid)
  {
    if n > 0 { ReportBounds(gm, tm, props, n - 1); }
  }

  /** One response keeps the counters exact and the largest proposal right. */
  lemma PromiseOneOk(x: Progress, nid: Nid, r: Response, nodes: set<Nid>)
    requires GroupsOk(x.groups, nodes) && LargestOk(x) && nid in nodes && FirstPromise(x, nid, r)
    ensures var y := PromiseOne(x, nid, r); GroupsOk(y.groups, nodes) && LargestOk(y) && y.groups.Keys == x.groups.Keys
  {
    if x.groups[r.rid.gid].rid == r.rid {
      var g := x.groups[r.rid.gid];
      CountsKept(g, nid, r);
      ReportKeeps(x, r.rid.gid, CountPromise(g, nid, r), r.props);
    }
  }

  lemma AcceptedOneOk(x: Progress, nid: Nid, r: Response, nodes: set<Nid>)
    requires GroupsOk(x.groups, nodes) && LargestOk(x) && nid in nodes && FirstAccepted(x, nid, r)
    ensures var y := AcceptedOne(x, nid, r); GroupsOk(y.groups, nodes) && LargestOk(y) && y.groups.Keys == x.groups.Keys
  {
    if x.groups[r.rid.gid].rid == r.rid {
      var g := x.groups[r.rid.gid];
      CountsKept(g, nid, r);
      ReportKeeps(x, r.rid.gid, CountAccepted(g, nid, r), r.props);
    }
  }

  lemma {:induction false} ReportKeeps(x: Progress, gid: Gid, g': GroupInfo, props: seq<Proposal>)
    requires LargestOk(x) && gid in x.groups && g'.maxProp == LargestOf(x.groups[gid].maxProp, props)
    ensures LargestOk(Progress(x.groups[gid := g'], Report(x.groups[gid].maxProp, x.propMax, props, |props|).1))
  {
    var gm := x.groups[gid].maxProp;
    var y := Progress(x.groups[gid := g'], Report(gm, x.propMax, props, |props|).1);
    ReportIsLargest(gm, x.propMax, props, |props|);
    assert props[..|props|] == props;
    ReportBounds(gm, x.propMax, props, |props|);
    if y.propMax.Some? {
      if y.propMax == g'.maxProp {
        assert y.groups[gid].maxProp == y.propMax;
      } else {
        var h :| h in x.groups && x.groups[h].maxProp == x.propMax;
        ReportSame(gm, props, |props|);
        assert h != gid;
        assert y.groups[h].maxProp == y.propMax;
      }
    }
  }

  /** If both copies agree before the reports they agree after. */
  lemma ReportSame(gm: Option<Proposal>, props: seq<Proposal>, n: nat)
    requires n <= |props|
    ensures Report(gm, gm, props, n).0 == Report(gm, gm, props, n).1
  {
    ReportIsLargest(gm, gm, props, n);
  }

  function NewGroups(rids: seq<Round>, n: nat): Groups
    requires n <= |rids|
  {
    if n == 0 then map[] else NewGroups(rids, n - 1)[rids[n - 1].gid := NewGroup(rids[n - 1])]
  }

  lemma {:induction false} NewGroupsOk(rids: seq<Round>, n: nat, nodes: set<Nid>)
    requires n <= |rids|
    ensures var gs := NewGroups(rids, n); GroupsOk(gs, nodes) && forall g :: g in gs ==> gs[g].maxProp.None?
  {
    if n > 0 { NewGroupsOk(rids, n - 1, nodes); }
  }

  /** In one group, the answer to a promise is the group's own count and verdict, and both copies
      of the largest proposal stay equal. */
  lemma OneGroupPromise(x: Progress, nid: Nid, r: Response, size: nat)
    requires LargestOk(x) && x.groups.Keys == {r.rid.gid} && x.groups[r.rid.gid].rid == r.rid
    ensures var g := CountPromise(x.groups[r.rid.gid], nid, r);
            && PromiseOne(x, nid, r) == Progress(map[r.rid.gid := g], g.maxProp)
            && MajorityOf(PromiseOne(x, nid, r).groups, [r.rid.gid], 1, size) == PromiseVerdict(g, size)
  {
    var gid := r.rid.gid;
    var g := CountPromise(x.groups[gid], nid, r);
    OneGroupLargest(x, gid);
    ReportIsLargest(x.propMax, x.propMax, r.props, |r.props|);
    assert r.props[..|r.props|] == r.props;
    assert PromiseOne(x, nid, r).groups == map[gid := g];
  }

  class TxnRecord {
    const nodes: set<Nid>
    const own: Proposal
    var phase: int
    var groups: Groups
    var propMax: Option<Proposal>

    /** attach_txn_info and the choice of the first phase in mpaxos_start_request. */
    constructor (nodes: set<Nid>, own: Proposal, rids: seq<Round>, skip: bool)
      ensures Valid() && this.nodes == nodes && this.own == own
      ensures Now() == Progress(NewGroups(rids, |rids|), None) && phase == if skip then 2 else 1
    {
      this.nodes, this.own, this.propMax, this.groups := nodes, own, None, map[];
      this.phase := if skip then 2 else 1;
      new;
      for i := 0 to |rids|
        invariant groups == NewGroups(rids, i) && propMax == None && phase == if skip then 2 else 1
      {
        groups := groups[rids[i].gid := NewGroup(rids[i])];
      }
      NewGroupsOk(rids, |rids|, nodes);
    }

    function Now(): Progress
      reads this
    {
      Progress(groups, propMax)
    }

    /** Exact counters, a right largest proposal, and a phase that is 1, 2, 3 or -1. */
    ghost predicate Valid()
      reads this
    {
      GroupsOk(groups, nodes) && LargestOk(Now()) && phase in {1, 2, 3, -1}
    }

    /** No group can have more than half of its nodes say yes and more than half say no. */
    lemma NoSplit(g: Gid)
      requires Valid() && g in groups
      ensures !(2 * groups[g].promYes > |nodes| && 2 * groups[g].promNo > |nodes|)
      ensures !(2 * groups[g].accdYes > |nodes| && 2 * groups[g].accdNo > |nodes|)
    {
      QuorumIsMajority(groups[g].promYes, |nodes|);
      QuorumIsMajority(groups[g].promNo, |nodes|);
      QuorumIsMajority(groups[g].accdYes, |nodes|);
      QuorumIsMajority(groups[g].accdNo, |nodes|);
      NoSplitMajority(groups[g].prom, nodes);
      NoSplitMajority(groups[g].accd, nodes);
    }

    /** More than half of the nodes have said so to this group. */
    predicate MostSay(g: Gid, ph: int, ack: Ack)
      requires g in groups
      reads this
    {
      2 * (if ph == 1 then (if ack.Success? then groups[g].promYes else groups[g].promNo)
           else (if ack.Success? then groups[g].accdYes else groups[g].accdNo)) > |nodes|
    }

    lemma VerdictMeans(g: Gid, ph: int)
      requires Valid() && g in groups && (ph == 1 || ph == 2)
      ensures Verdict(groups[g], ph, |nodes|).Yes? <==> MostSay(g, ph, Success)
      ensures Verdict(groups[g], ph, |nodes|).No? <==> MostSay(g, ph, ErrBid)
    {
      QuorumIsMajority(groups[g].promYes, |nodes|);
      QuorumIsMajority(groups[g].promNo, |nodes|);
      QuorumIsMajority(groups[g].accdYes, |nodes|);
      QuorumIsMajority(groups[g].accdNo, |nodes|);
      NoSplit(g);
    }

    /** check_majority, over the groups in the order the hash table yields them: yes exactly if more than
        half of the nodes say yes to every group; a no comes with a group to which more than half say no,
        an uncertain result with a group to which neither do. */
    method CheckMajority(ph: int, order: seq<Gid>) returns (ret: Majority)
      requires Valid() && (ph == 1 || ph == 2) && forall g :: g in order ==> g in groups
      ensures ret == MajorityOf(groups, order, ph, |nodes|)
      ensures ret.Yes? <==> forall g :: g in order ==> MostSay(g, ph, Success)
      ensures ret.No? ==> exists g :: g in order && MostSay(g, ph, ErrBid)
      ensures ret.Uncertain? ==> exists g :: g in order && !MostSay(g, ph, Success) && !MostSay(g, ph, ErrBid)
    {
      forall g | g in order
        ensures Verdict(groups[g], ph, |nodes|).Yes? <==> MostSay(g, ph, Success)
        ensures Verdict(groups[g], ph, |nodes|).No? <==> MostSay(g, ph, ErrBid)
      {
        VerdictMeans(g, ph);
      }
      ret := Yes;
      var i := 0;
      var q := Quorum(|nodes|);
      while i < |order|
        invariant 0 <= i <= |order| && ret.Yes?
        invariant FirstOther(groups, order, ph, |nodes|, 0) == FirstOther(groups, order, ph, |nodes|, i)
      {
        var g := groups[order[i]];
        if ph == 1 {
          if g.promNo >= q { ret := No; break; }
          else if g.promYes < q { ret := Uncertain; break; }
        } else {
          if g.accdNo >= q { ret := No; break; }
          else if g.accdYes < q { ret := Uncertain; break; }
        }
        i := i + 1;
      }
    }

    /** The inner loop over reported proposals. */
    method NoteProposals(gm0: Option<Proposal>, props: seq<Proposal>) returns (gm: Option<Proposal>)
      modifies this`propMax
      ensures (gm, propMax) == Report(gm0, old(propMax), props, |props|) && gm == LargestOf(gm0, props)
    {
      gm := gm0;
      for j := 0 to |props|
        invariant (gm, propMax) == Report(gm0, old(propMax), props, j)
      {
        if gm.None? || gm.value.rid.bid < props[j].rid.bid {
          gm := Some(props[j]);
          if propMax.None? || gm.value.rid.bid > propMax.value.rid.bid {
            propMax := gm;
          }
        }
      }
      ReportIsLargest(gm0, old(propMax), props, |props|);
      assert props[..|props|] == props;
    }

    /** The proposal that mpaxos_accept broadcasts and phase_2_async_after records. */
    method Proposed() returns (p: Proposal)
      requires Valid()
      ensures match propMax
              case None => p == own && forall g :: g in groups ==> groups[g].maxProp.None?
              case Some(q) => p == q && forall g :: g in groups && groups[g].maxProp.Some? ==>
                groups[g].maxProp.value.rid.bid <= q.rid.bid
    {
      p := if propMax.Some? then propMax.value else own;
    }

    /** The body of the loop over the responses of a promise message. */
    method TakePromise(nid: Nid, r: Response)
      requires Valid() && nid in nodes && FirstPromise(Now(), nid, r)
      modifies this`groups, this`propMax
      ensures Valid() && Now() == PromiseOne(old(Now()), nid, r) && groups.Keys == old(groups.Keys)
      ensures forall g :: g in groups && (g != r.rid.gid || old(groups)[g].rid != r.rid) ==> groups[g] == old(groups)[g]
      ensures var g, h := old(groups)[r.rid.gid], groups[r.rid.gid];
              g.rid == r.rid ==> h.rid == g.rid && h.prom == g.prom[nid := r.ack] && h.accd == g.accd
                                 && h.maxProp == LargestOf(g.maxProp, r.props)
    {
      var g := groups[r.rid.gid];
      PromiseOneOk(Now(), nid, r, nodes);
      if r.rid == g.rid {
        if r.ack.Success? { g := g.(promYes := g.promYes + 1); } else { g := g.(promNo := g.promNo + 1); }
        g := g.(prom := g.prom[nid := r.ack]);
        var gm := NoteProposals(g.maxProp, r.props);
        groups := groups[r.rid.gid := g.(maxProp := gm)];
      }
    }

    method TakePromises(nid: Nid, ress: seq<Response>)
      requires Valid() && nid in nodes && AllFirstPromise(Now(), nid, ress)
      modifies this`groups, this`propMax
      ensures Valid() && Now() == PromiseAll(old(Now()), nid, ress, |ress|) && groups.Keys == old(groups.Keys)
    {
      ghost var x := Now();
      for i := 0 to |ress|
        invariant Valid() && groups.Keys == old(groups.Keys) && Now() == PromiseAll(x, nid, ress, i)
      {
        TakePromise(nid, ress[i]);
      }
    }

    /** handle_msg_promise. accept says that the majority was reached and phase 2 starts. */
    method HandlePromise(nid: Nid, ress: seq<Response>, order: seq<Gid>) returns (accept: bool)
      requires Valid() && nid in nodes && Enumerates(order, groups.Keys)
      requires phase == 1 ==> AllFirstPromise(Now(), nid, ress)
      modifies this
      ensures Valid()
      ensures old(phase) != 1 ==> !accept && phase == old(phase) && Now() == old(Now())
      ensures old(phase) == 1 ==>
                && Now() == PromiseAll(old(Now()), nid, ress, |ress|)
                && groups.Keys == old(groups.Keys)
                && phase == (match MajorityOf(groups, order, 1, |nodes|) case Yes => 2 case No => -1
                   case Uncertain => 1)
                && accept == MajorityOf(groups, order, 1, |nodes|).Yes?
      ensures old(phase) == 1 ==> (accept <==> phase == 2) && (phase == 2 <==> forall g :: g in groups ==>
              MostSay(g, 1, Success))
      ensures old(phase) == 1 && phase == -1 ==> exists g :: g in groups && MostSay(g, 1, ErrBid)
    {
      if phase != 1 { return false; }
      TakePromises(nid, ress);
      var v := CheckMajority(1, order);
      phase := if v.Yes? then 2 else if v.No? then -1 else 1;
      accept := v.Yes?;
    }

    /** The body of the loop over the responses of an accepted message. */
    method TakeAccepted(nid: Nid, r: Response)
      requires Valid() && nid in nodes && FirstAccepted(Now(), nid, r)
      modifies this`groups, this`propMax
      ensures Valid() && Now() == AcceptedOne(old(Now()), nid, r) && groups.Keys == old(groups.Keys)
      ensures forall g :: g in groups && (g != r.rid.gid || old(groups)[g].rid != r.rid) ==> groups[g] == old(groups)[g]
      ensures var g, h := old(groups)[r.rid.gid], groups[r.rid.gid];
              g.rid == r.rid ==> h.rid == g.rid && h.accd == g.accd[nid := r.ack] && h.prom == g.prom
                                 && h.maxProp == LargestOf(g.maxProp, r.props)
    {
      var g := groups[r.rid.gid];
      AcceptedOneOk(Now(), nid, r, nodes);
      if r.rid == g.rid {
        if r.ack.Success? { g := g.(accdYes := g.accdYes + 1); } else { g := g.(accdNo := g.accdNo + 1); }
        g := g.(accd := g.accd[nid := r.ack]);
        var gm := NoteProposals(g.maxProp, r.props);
        groups := groups[r.rid.gid := g.(maxProp := gm)];
      }
    }

    method TakeAccepteds(nid: Nid, ress: seq<Response>)
      requires Valid() && nid in nodes && AllFirstAccepted(Now(), nid, ress)
      modifies this`groups, this`propMax
      ensures Valid() && Now() == AcceptedAll(old(Now()), nid, ress, |ress|) && groups.Keys == old(groups.Keys)
    {
      ghost var x := Now();
      for i := 0 to |ress|
        invariant Valid() && groups.Keys == old(groups.Keys) && Now() == AcceptedAll(x, nid, ress, i)
      {
        TakeAccepted(nid, ress[i]);
      }
    }

    /** handle_msg_accepted. decide says that the majority was reached: the decision is recorded
        and the callback made, which can therefore happen once. */
    method HandleAccepted(nid: Nid, ress: seq<Response>, order: seq<Gid>) returns (decide: bool)
      requires Valid() && nid in nodes && Enumerates(order, groups.Keys)
      requires phase == 2 ==> AllFirstAccepted(Now(), nid, ress)
      modifies this
      ensures Valid()
      ensures old(phase) != 2 ==> !decide && phase == old(phase) && Now() == old(Now())
      ensures old(phase) == 2 ==>
                && Now() == AcceptedAll(old(Now()), nid, ress, |ress|)
                && groups.Keys == old(groups.Keys)
                && phase == (match MajorityOf(groups, order, 2, |nodes|) case Yes => 3 case No => -1
                   case Uncertain => 2)
                && decide == MajorityOf(groups, order, 2, |nodes|).Yes?
      ensures old(phase) == 2 ==> (decide <==> phase == 3) && (phase == 3 <==> forall g :: g in groups ==>
              MostSay(g, 2, Success))
      ensures old(phase) == 2 && phase == -1 ==> exists g :: g in groups && MostSay(g, 2, ErrBid)
    {
      if phase != 2 { return false; }
      TakeAccepteds(nid, ress);
      var v := CheckMajority(2, order);
      phase := if v.Yes? then 3 else if v.No? then -1 else 2;
      decide := v.Yes?;
    }
  }

  // ---------- recorder and start of a request ----------

  /** The next slots after the first n round ids of a decided proposal. */
  function DecidedRids(t: NextTable, rids: seq<Round>, nid: Nid, value: Value, me: Nid, n: nat): NextTable
    requires n <= |rids|
  {
    if n == 0 then t else Decided(DecidedRids(t, rids, nid, value, me, n - 1), Proposal(rids[n - 1], nid, value), me)
  }

  /** A next slot ends behind all slots decided in its group; if it moved, then to the one after a
      decided slot, and it tells whether the value is this node's. */
  lemma {:induction false} DecidedEach(t: NextTable, rids: seq<Round>, nid: Nid, value: Value, me: Nid, n: nat, g: Gid)
    requires n <= |rids|
    ensures var a, b := Newest(t, g), Newest(DecidedRids(t, rids, nid, value, me, n), g);
            && (forall j :: 0 <= j < n && rids[j].gid == g ==> b.sid > rids[j].sid)
            && (b != a ==> b.isMe == (nid == me))
            && (b != a ==> exists j :: 0 <= j < n && rids[j].gid == g && b.sid == rids[j].sid + 1)
            && (g in t ==> b.sid >= a.sid)
  {
    if n > 0 { DecidedEach(t, rids, nid, value, me, n - 1, g); }
  }

  class Recorder {
    const me: Nid
    var newest: NextTable

    /** get_newest_sid: creates the entry of a group not seen before. */
    method GetNewestSid(gid: Gid) returns (n: NextSid)
      modifies this
      ensures n == Newest(old(newest), gid) && newest == old(newest)[gid := n]
      ensures gid !in old(newest) ==> n.sid == 1 && !n.isMe
    {
      if gid !in newest {
        newest := newest[gid := NextSid(1, false)];
      }
      n := newest[gid];
    }

    /** The body of the loop over the round ids of a decided proposal. */
    method RecordOne(p: Proposal)
      modifies this
      ensures newest == Decided(old(newest), p, me)
      ensures p.rid.gid in newest && forall g :: g != p.rid.gid ==> (g in newest <==> g in old(newest))
      ensures forall g :: g in old(newest) && g != p.rid.gid ==> newest[g] == old(newest)[g]
      ensures var n := newest[p.rid.gid];
              if p.rid.gid in old(newest) && old(newest)[p.rid.gid].sid > p.rid.sid then n == old(newest)[p.rid.gid]
              else n.sid == p.rid.sid + 1 && (n.isMe <==> p.nid == me)
    {
      if p.rid.gid !in newest {
        newest := newest[p.rid.gid := NextSid(0, false)];
      }
      var n := newest[p.rid.gid];
      if n.sid <= p.rid.sid {
        n := NextSid(p.rid.sid + 1, if p.nid == me then true else false);
        newest := newest[p.rid.gid := n];
      }
    }

    /** record_decided, for a proposal with these round ids. */
    method RecordDecided(rids: seq<Round>, nid: Nid, value: Value)
      modifies this
      ensures newest == DecidedRids(old(newest), rids, nid, value, me, |rids|)
    {
      for i := 0 to |rids|
        invariant newest == DecidedRids(old(newest), rids, nid, value, me, i)
      {
        RecordOne(Proposal(rids[i], nid, value));
      }
    }

    /** The round ids of a request: the next slot of each group, and the prior ballot only if the
        prepare of every group may be skipped. The code passes no retries. */
    method StartRequest(gids: seq<Gid>) returns (rids: seq<Round>, skip: bool)
      modifies this
      ensures |rids| == |gids|
      ensures skip <==> forall i :: 0 <= i < |gids| ==> Newest(old(newest), gids[i]).isMe
      ensures forall i :: 0 <= i < |gids| ==>
                rids[i] == Round(gids[i], Newest(old(newest), gids[i]).sid, if skip then 1 else 2)
      ensures forall g :: Newest(newest, g) == Newest(old(newest), g)
    {
      rids, skip := [], true;
      for i := 0 to |gids|
        invariant |rids| == i
        invariant skip <==> forall j :: 0 <= j < i ==> Newest(old(newest), gids[j]).isMe
        invariant forall j :: 0 <= j < i ==> rids[j].gid == gids[j] && rids[j].sid == Newest(old(newest), gids[j]).sid
        invariant forall g :: Newest(newest, g) == Newest(old(newest), g)
      {
        var n := GetNewestSid(gids[i]);
        rids := rids + [Round(gids[i], n.sid, 0)];
        if !n.isMe { skip := false; }
      }
      var base := if skip then BID_PRIOR else BID_NORMAL;
      for i := 0 to |gids|
        invariant |rids| == |gids|
        invariant forall j :: 0 <= j < |gids| ==>
                  rids[j].gid == gids[j] && rids[j].sid == Newest(old(newest), gids[j]).sid
        invariant forall j :: 0 <= j < i ==> rids[j].bid == base
      {
        rids := rids[i := rids[i].(bid := base)];
      }
    }
  }
}
