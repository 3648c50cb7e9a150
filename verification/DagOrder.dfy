/** Requests waiting for their groups: what being first in all of them means, and what taking one
    away changes. */
module DagOrder {
  import opened Collections

  type Qid = nat
  type Data = nat

  datatype Color = Gray | White | Black

  class Node {
    const qids: seq<Qid>
    const data: Data
    var color: Color

    constructor (qids: seq<Qid>, data: Data)
      ensures this.qids == qids && this.data == data && color == Black
    {
      this.qids, this.data, this.color := qids, data, Black;
    }
  }

  function If<T>(c: bool, x: T): (r: seq<T>)
    ensures c ==> r == [x]
    ensures !c ==> r == []
  {
    if c then [x] else []
  }

  /** How often q stands among the groups from number i on. */
  function Left(qids: seq<Qid>, i: nat, q: Qid): (r: nat)
    requires i <= |qids|
    ensures r > 0 <==> q in qids[i..]
    decreases |qids| - i
  {
    if i == |qids| then 0 else (if qids[i] == q then 1 else 0) + Left(qids, i + 1, q)
  }

  /** n waits for a group as often as it names it. */
  function Count(n: Node, q: Qid): (r: nat)
    ensures r > 0 <==> q in n.qids
  {
    assert n.qids[0..] == n.qids;
    Left(n.qids, 0, q)
  }

  function Times(k: nat, n: Node): (r: seq<Node>)
    ensures |r| == k && forall i :: 0 <= i < k ==> r[i] == n
  {
    seq(k, i => n)
  }

  /** The pending requests of one group, in the order of pending. */
  function Waiting(p: seq<Node>, q: Qid): seq<Node> {
    if |p| == 0 then [] else Waiting(p[..|p| - 1], q) + Times(Count(p[|p| - 1], q), p[|p| - 1])
  }

  /** What every group's queue holds. */
  type View = Qid -> seq<Node>

  function ViewOf(p: seq<Node>): View { q => Waiting(p, q) }

  ghost predicate Leads(w: View, n: Node, q: Qid) { |w(q)| > 0 && w(q)[0] == n }

  /** n is first in every group it asks for. */
  ghost predicate Runs(w: View, n: Node) {
    forall q {:trigger Leads(w, n, q)} :: q in n.qids ==> Leads(w, n, q)
  }

  ghost predicate Runnable(p: seq<Node>, n: Node) { n in p && Runs(ViewOf(p), n) }

  lemma {:induction false} WaitingAppend(a: seq<Node>, b: seq<Node>, q: Qid)
    ensures Waiting(a + b, q) == Waiting(a, q) + Waiting(b, q)
  {
    if |b| == 0 {
      assert a + b == a;
    } else {
      assert (a + b)[..|a + b| - 1] == a + b[..|b| - 1];
      WaitingAppend(a, b[..|b| - 1], q);
    }
  }

  lemma {:induction false} WaitingMember(p: seq<Node>, q: Qid, n: Node)
    ensures n in Waiting(p, q) <==> n in p && q in n.qids
  {
    if |p| > 0 {
      var last := p[|p| - 1];
      WaitingMember(p[..|p| - 1], q, n);
      assert p == p[..|p| - 1] + [last];
      if Count(last, q) > 0 { assert Times(Count(last, q), last)[0] == last; }
    }
  }

  lemma WaitingOne(p: seq<Node>, n: Node, q: Qid)
    ensures Waiting(p + [n], q) == Waiting(p, q) + Times(Count(n, q), n)
  {
    assert (p + [n])[..|p|] == p;
  }

  /** Two requests that are both first in their groups have no group in common. */
  lemma Exclusion(p: seq<Node>, m: Node, n: Node, q: Qid)
    requires Runnable(p, m) && Runnable(p, n) && q in m.qids && q in n.qids
    ensures m == n
  {
    assert Leads(ViewOf(p), m, q) && Leads(ViewOf(p), n, q);
  }

  /** The oldest pending request is first in all its groups. */
  lemma {:induction false} OldestRuns(p: seq<Node>)
    requires |p| > 0
    ensures Runnable(p, p[0])
  {
    forall q {:trigger Leads(ViewOf(p), p[0], q)} | q in p[0].qids ensures Leads(ViewOf(p), p[0], q) {
      assert p == [p[0]] + p[1..];
      WaitingAppend([p[0]], p[1..], q);
      assert [p[0]][..0] == [];
    }
  }

  // ---------- taking one away ----------

  function Index(p: seq<Node>, n: Node): (i: nat)
    requires n in p
    ensures i < |p| && p[i] == n
  {
    if p[|p| - 1] == n then |p| - 1 else
      assert n in p[..|p| - 1] by { assert p == p[..|p| - 1] + [p[|p| - 1]]; }
      Index(p[..|p| - 1], n)
  }

  function Without(p: seq<Node>, n: Node): seq<Node>
    requires n in p
  {
    p[..Index(p, n)] + p[Index(p, n) + 1..]
  }

  /** What stands before n and what stands after it. */
  lemma Around(p: seq<Node>, n: Node) returns (a: seq<Node>, b: seq<Node>)
    requires n in p && Distinct(p)
    ensures p == (a + [n]) + b && Without(p, n) == a + b && n !in a && n !in b
  {
    var i := Index(p, n);
    a, b := p[..i], p[i + 1..];
    assert forall j :: 0 <= j < |a| ==> a[j] == p[j];
    assert forall j :: 0 <= j < |b| ==> b[j] == p[i + 1 + j];
  }

  lemma WithoutMember(p: seq<Node>, n: Node, m: Node)
    requires n in p && Distinct(p)
    ensures m in Without(p, n) <==> m in p && m != n
  {
    var a, b := Around(p, n);
  }

  lemma WithoutDistinct(p: seq<Node>, n: Node)
    requires n in p && Distinct(p)
    ensures Distinct(Without(p, n))
  {
    var i := Index(p, n);
    assert forall j :: 0 <= j < |p| - 1 ==> Without(p, n)[j] == p[if j < i then j else j + 1];
  }

  /** Nobody before a request that leads a group waits for it. */
  lemma NobodyBefore(a: seq<Node>, n: Node, b: seq<Node>, q: Qid)
    requires n !in a && q in n.qids && Leads(ViewOf(a + b), n, q)
    ensures Waiting(a, q) == []
  {
    WaitingAppend(a, b, q);
    if |Waiting(a, q)| > 0 { WaitingMember(a, q, Waiting(a, q)[0]); }
  }

  lemma MiddleWaiting(a: seq<Node>, n: Node, b: seq<Node>, q: Qid)
    requires q in n.qids ==> Waiting(a, q) == []
    ensures Waiting((a + [n]) + b, q) == Times(Count(n, q), n) + Waiting(a + b, q)
  {
    WaitingAppend(a + [n], b, q);
    WaitingOne(a, n, q);
    WaitingAppend(a, b, q);
  }

  /** Taking away a request that runs takes it from the front of each of its groups, and nothing
      else. */
  lemma WithoutWaiting(p: seq<Node>, n: Node, q: Qid)
    requires Distinct(p) && Runnable(p, n)
    ensures Waiting(p, q) == Times(Count(n, q), n) + Waiting(Without(p, n), q)
  {
    var a, b := Around(p, n);
    if q in n.qids {
      assert Leads(ViewOf(p), n, q) && p == a + ([n] + b);
      NobodyBefore(a, n, [n] + b, q);
    }
    MiddleWaiting(a, n, b, q);
  }

  /** From w to w' exactly n is gone, from the front of each of its groups. */
  ghost predicate Gone(w: View, n: Node, w': View) {
    forall q {:trigger w'(q)} :: w(q) == Times(Count(n, q), n) + w'(q)
  }

  lemma WithoutGone(p: seq<Node>, n: Node)
    requires Distinct(p) && Runnable(p, n)
    ensures Gone(ViewOf(p), n, ViewOf(Without(p, n)))
  {
    forall q { WithoutWaiting(p, n, q); }
  }

  /** A request without a group in common with n runs in w exactly if it does in w'. */
  lemma ApartFromGone(w: View, n: Node, w': View, m: Node)
    requires Gone(w, n, w') && forall q :: q in m.qids ==> q !in n.qids
    ensures Runs(w, m) <==> Runs(w', m)
  {
    forall q | q in m.qids ensures Leads(w, m, q) <==> Leads(w', m, q) { assert w(q) == w'(q); }
  }

  // ---------- adding one ----------

  lemma AddedRuns(p: seq<Node>, n: Node, m: Node)
    requires n !in p && m in p
    ensures Runs(ViewOf(p + [n]), m) <==> Runs(ViewOf(p), m)
  {
    forall q | q in m.qids ensures Leads(ViewOf(p + [n]), m, q) <==> Leads(ViewOf(p), m, q) {
      WaitingMember(p, q, m);
      WaitingOne(p, n, q);
    }
  }
}
