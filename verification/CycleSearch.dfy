/** What the depth-first search for cycles keeps: the functions on the stack, the visiting orders,
    and the functions whose call is still running (called open below), for one root. */
module CycleSearch {
  import opened CallGraph

  type Orders = map<Fid, nat>

  /** y reaches an open function that was not visited after it. */
  ghost predicate Anchored(g: Graph, orders: Orders, open: set<Fid>, y: Fid) {
    exists x :: x in open && x in orders && y in orders && orders[x] <= orders[y] && Reach(g, y, x)
  }

  ghost predicate AllAnchored(g: Graph, on: set<Fid>, orders: Orders, open: set<Fid>) {
    forall y {:trigger Anchored(g, orders, open, y)} :: y in on ==> Anchored(g, orders, open, y)
  }

  ghost predicate Numbered(on: set<Fid>, orders: Orders, next: nat) {
    && on <= orders.Keys
    && (forall f :: f in orders ==> orders[f] < next)
    && (forall x, y :: x in on && y in on && orders[x] == orders[y] ==> x == y)
  }

  /** On the stack the earlier reach the later. */
  ghost predicate Chained(g: Graph, on: set<Fid>, orders: Orders)
    requires on <= orders.Keys
  {
    forall x, y :: x in on && y in on && orders[x] <= orders[y] ==> Reach(g, x, y)
  }

  /** Every callee of a finished function was visited. */
  ghost predicate Finished(g: Graph, seen: set<Fid>, open: set<Fid>) {
    forall f, h :: f in seen && f !in open && IsCall(g, f, h) ==> h in seen
  }

  ghost predicate Shape(g: Graph, on: set<Fid>, orders: Orders, next: nat, open: set<Fid>) {
    && open <= on
    && Numbered(on, orders, next)
    && Chained(g, on, orders)
    && Finished(g, orders.Keys, open)
    && Sealed(g, orders.Keys - on)
    && AllAnchored(g, on, orders, open)
  }

  /** Low bounds from below every call from f into the given part of the stack. */
  ghost predicate CallsAbove(g: Graph, bottom: set<Fid>, orders: Orders, low: nat, f: Fid) {
    forall h :: h in bottom && IsCall(g, f, h) && h in orders ==> low <= orders[h]
  }

  /** Low is the order of a function on the stack that f reaches. */
  ghost predicate Attained(g: Graph, on: set<Fid>, orders: Orders, low: nat, f: Fid) {
    exists y :: y in on && y in orders && orders[y] == low && Reach(g, f, y)
  }

  // ---------- entering a function ----------

  lemma EnterAnchored(g: Graph, on: set<Fid>, orders: Orders, open: set<Fid>, f: Fid, next: nat)
    requires f !in orders && on <= orders.Keys && AllAnchored(g, on, orders, open)
    ensures AllAnchored(g, on + {f}, orders[f := next], open + {f})
  {
    ReachSelf(g, f);
    forall y | y in on ensures Anchored(g, orders[f := next], open + {f}, y) {
      assert Anchored(g, orders, open, y);
      var x :| x in open && x in orders && y in orders && orders[x] <= orders[y] && Reach(g, y, x);
    }
  }

  lemma EnterChained(g: Graph, on: set<Fid>, orders: Orders, open: set<Fid>, f: Fid, next: nat)
    requires f !in orders && on <= orders.Keys && AllAnchored(g, on, orders, open) && Chained(g, on, orders)
    requires forall x :: x in on ==> orders[x] < next
    requires forall x :: x in open ==> Reach(g, x, f)
    ensures Chained(g, on + {f}, orders[f := next])
  {
    ReachSelf(g, f);
    forall y | y in on ensures Reach(g, y, f) {
      assert Anchored(g, orders, open, y);
      var x :| x in open && x in orders && y in orders && orders[x] <= orders[y] && Reach(g, y, x);
      ReachTrans(g, y, x, f);
    }
  }

  lemma Enter(g: Graph, on: set<Fid>, orders: Orders, next: nat, open: set<Fid>, f: Fid)
    requires Shape(g, on, orders, next, open) && f !in orders
    requires forall x :: x in open ==> Reach(g, x, f)
    ensures Shape(g, on + {f}, orders[f := next], next + 1, open + {f})
    ensures Attained(g, on + {f}, orders[f := next], next, f)
  {
    EnterAnchored(g, on, orders, open, f, next);
    EnterChained(g, on, orders, open, f, next);
    ReachSelf(g, f);
    assert orders[f := next].Keys - (on + {f}) == orders.Keys - on;
    assert orders[f := next].Keys == orders.Keys + {f};
  }

  // ---------- leaving a function ----------

  /** The functions on the stack below f. */
  ghost function Below(on: set<Fid>, orders: Orders, f: Fid): set<Fid>
    requires f in orders && on <= orders.Keys
  {
    set x | x in on && orders[x] < orders[f]
  }

  /** All calls of f were visited, and every function from f on up calls the stack below f only at
      or above low. */
  ghost predicate Explored(g: Graph, on: set<Fid>, orders: Orders, low: nat, f: Fid) {
    && f in on && on <= orders.Keys
    && low <= orders[f]
    && Attained(g, on, orders, low, f)
    && (forall h :: IsCall(g, f, h) ==> h in orders)
    && (forall x :: x in on && orders[f] <= orders[x] ==> CallsAbove(g, Below(on, orders, f), orders, low, x))
  }

  /** With low at f's own order no call leaves what is above the bottom of the stack and what
      has already left it. */
  lemma TopSealed(g: Graph, on: set<Fid>, orders: Orders, open: set<Fid>, f: Fid)
    requires f in on && on <= orders.Keys && open <= Below(on, orders, f)
    requires Finished(g, orders.Keys, open + {f}) && Sealed(g, orders.Keys - on)
    requires Explored(g, on, orders, orders[f], f)
    ensures Sealed(g, orders.Keys - Below(on, orders, f))
  {
    var bottom := Below(on, orders, f);
    forall a, h | a in orders.Keys - bottom && IsCall(g, a, h) ensures h in orders.Keys - bottom {
      if a in on {
        assert CallsAbove(g, bottom, orders, orders[f], a);
      }
    }
  }

  /** With low at f's own order the functions from f on up are exactly f's component. */
  lemma TopIsComponent(g: Graph, on: set<Fid>, orders: Orders, next: nat, open: set<Fid>, f: Fid)
    requires f in on && on <= orders.Keys && open <= Below(on, orders, f)
    requires Shape(g, on, orders, next, open + {f})
    requires Explored(g, on, orders, orders[f], f)
    ensures IsComponent(g, on - Below(on, orders, f), f)
  {
    TopSealed(g, on, orders, open, f);
    var top := on - Below(on, orders, f);
    forall h | h in top ensures Mutual(g, f, h) {
      TopReaches(g, on, orders, open, f, h);
    }
    forall h | Mutual(g, f, h) ensures h in top {
      SealedReach(g, orders.Keys - Below(on, orders, f), f, h);
      if h !in on { SealedReach(g, orders.Keys - on, h, f); }
    }
  }

  lemma TopReaches(g: Graph, on: set<Fid>, orders: Orders, open: set<Fid>, f: Fid, h: Fid)
    requires f in on && on <= orders.Keys && open <= Below(on, orders, f)
    requires h in on && orders[f] <= orders[h]
    requires Sealed(g, orders.Keys - Below(on, orders, f)) && AllAnchored(g, on, orders, open + {f})
    ensures Reach(g, h, f)
  {
    assert Anchored(g, orders, open + {f}, h);
    var x :| x in open + {f} && x in orders && orders[x] <= orders[h] && Reach(g, h, x);
    SealedReach(g, orders.Keys - Below(on, orders, f), h, x);
  }

  lemma LeaveAnchored(g: Graph, on: set<Fid>, orders: Orders, open: set<Fid>, f: Fid)
    requires f in on && on <= orders.Keys && AllAnchored(g, on, orders, open + {f})
    ensures AllAnchored(g, Below(on, orders, f), orders, open)
  {
    forall y {:trigger Anchored(g, orders, open, y)} | y in Below(on, orders, f) ensures Anchored(g, orders, open, y) {
      assert y in on;
      assert Anchored(g, orders, open + {f}, y);
      var x :| x in open + {f} && x in orders && orders[x] <= orders[y] && Reach(g, y, x);
      assert x in open;
    }
  }

  lemma Leave(g: Graph, on: set<Fid>, orders: Orders, next: nat, open: set<Fid>, f: Fid)
    requires f in on && on <= orders.Keys && open <= Below(on, orders, f)
    requires Shape(g, on, orders, next, open + {f})
    requires Explored(g, on, orders, orders[f], f)
    ensures Shape(g, Below(on, orders, f), orders, next, open)
  {
    TopSealed(g, on, orders, open, f);
    LeaveAnchored(g, on, orders, open, f);
  }

  /** With low below f's order f stays on the stack, anchored further down. */
  lemma StayAnchored(g: Graph, on: set<Fid>, orders: Orders, open: set<Fid>, f: Fid, low: nat)
    requires f in on && on <= orders.Keys && AllAnchored(g, on, orders, open + {f})
    requires low < orders[f] && Attained(g, on, orders, low, f)
    ensures AllAnchored(g, on, orders, open)
  {
    var z :| z in on && z in orders && orders[z] == low && Reach(g, f, z);
    assert Anchored(g, orders, open + {f}, z);
    var v :| v in open + {f} && v in orders && orders[v] <= orders[z] && Reach(g, z, v);
    ReachTrans(g, f, z, v);
    forall y {:trigger Anchored(g, orders, open, y)} | y in on ensures Anchored(g, orders, open, y) {
      assert Anchored(g, orders, open + {f}, y);
      var x :| x in open + {f} && x in orders && orders[x] <= orders[y] && Reach(g, y, x);
      if x == f { ReachTrans(g, y, f, v); }
    }
  }

  lemma Stay(g: Graph, on: set<Fid>, orders: Orders, next: nat, open: set<Fid>, f: Fid, low: nat)
    requires f in on && on <= orders.Keys && open <= on
    requires Shape(g, on, orders, next, open + {f})
    requires Explored(g, on, orders, low, f) && low < orders[f]
    ensures Shape(g, on, orders, next, open)
  {
    StayAnchored(g, on, orders, open, f, low);
  }
}
