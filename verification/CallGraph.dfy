/** Calls between functions, and which functions reach each other. */
module CallGraph {
  type Fid = nat

  /** The callees of every function. */
  type Graph = map<Fid, set<Fid>>

  ghost predicate IsCall(g: Graph, f: Fid, h: Fid) { f in g && h in g[f] }

  /** A path of calls. */
  ghost predicate IsPath(g: Graph, p: seq<Fid>) {
    |p| > 0 && forall i :: 0 <= i < |p| - 1 ==> IsCall(g, p[i], p[i + 1])
  }

  ghost predicate Reach(g: Graph, f: Fid, h: Fid) {
    exists p :: IsPath(g, p) && p[0] == f && p[|p| - 1] == h
  }

  /** Each reaches the other. */
  ghost predicate Mutual(g: Graph, f: Fid, h: Fid) { Reach(g, f, h) && Reach(g, h, f) }

  ghost predicate IsComponent(g: Graph, s: set<Fid>, f: Fid) {
    forall h :: h in s <==> Mutual(g, f, h)
  }

  /** No call leaves the set. */
  ghost predicate Sealed(g: Graph, s: set<Fid>) {
    forall f, h :: f in s && IsCall(g, f, h) ==> h in s
  }

  lemma ReachSelf(g: Graph, f: Fid)
    ensures Reach(g, f, f)
  {
    assert IsPath(g, [f]);
  }

  lemma ReachCall(g: Graph, f: Fid, h: Fid)
    requires IsCall(g, f, h)
    ensures Reach(g, f, h)
  {
    var p := [f, h];
    assert IsPath(g, p) && p[0] == f && p[|p| - 1] == h;
  }

  lemma ReachTrans(g: Graph, f: Fid, h: Fid, k: Fid)
    requires Reach(g, f, h) && Reach(g, h, k)
    ensures Reach(g, f, k)
  {
    var p :| IsPath(g, p) && p[0] == f && p[|p| - 1] == h;
    var q :| IsPath(g, q) && q[0] == h && q[|q| - 1] == k;
    var r := p + q[1..];
    assert r[|r| - 1] == k;
    forall i | 0 <= i < |r| - 1 ensures IsCall(g, r[i], r[i + 1]) {
      if i >= |p| - 1 { assert r[i] == q[i - |p| + 1]; }
    }
    assert IsPath(g, r);
  }

  /** Whatever a sealed set reaches is in it. */
  lemma SealedReach(g: Graph, s: set<Fid>, f: Fid, h: Fid)
    requires Sealed(g, s) && f in s && Reach(g, f, h)
    ensures h in s
  {
    var p :| IsPath(g, p) && p[0] == f && p[|p| - 1] == h;
    SealedPath(g, s, p, |p| - 1);
  }

  lemma {:induction false} SealedPath(g: Graph, s: set<Fid>, p: seq<Fid>, i: nat)
    requires Sealed(g, s) && IsPath(g, p) && p[0] in s && i < |p|
    ensures p[i] in s
  {
    if i > 0 {
      SealedPath(g, s, p, i - 1);
      assert IsCall(g, p[i - 1], p[i]);
    }
  }

  lemma MutualTrans(g: Graph, f: Fid, h: Fid, k: Fid)
    requires Mutual(g, f, h) && Mutual(g, h, k)
    ensures Mutual(g, f, k)
  {
    ReachTrans(g, f, h, k);
    ReachTrans(g, k, h, f);
  }

  /** A component is the component of each of its members. */
  lemma SameComponent(g: Graph, s: set<Fid>, f: Fid, h: Fid)
    requires IsComponent(g, s, f) && h in s
    ensures IsComponent(g, s, h)
  {
    forall k ensures k in s <==> Mutual(g, h, k) {
      if Mutual(g, h, k) { MutualTrans(g, f, h, k); }
      if k in s { MutualTrans(g, h, f, k); }
    }
  }

  /** Components that share a member are equal. */
  lemma OneComponent(g: Graph, s: set<Fid>, f: Fid, t: set<Fid>, h: Fid, k: Fid)
    requires IsComponent(g, s, f) && IsComponent(g, t, h) && k in s && k in t
    ensures s == t
  {
    SameComponent(g, s, f, k);
    SameComponent(g, t, h, k);
    forall x ensures x in s <==> x in t {
      assert x in s <==> Mutual(g, k, x);
    }
  }
}
