/** Profile.find_cycles: Tarjan's search, started afresh from every function not visited yet. A
    component that a later root reaches is found again and gets a new cycle. */
module CycleProfile {
  import opened CallGraph
  import opened CycleSearch

  ghost function GraphOf(calls: map<Fid, seq<Fid>>): Graph {
    map f | f in calls :: Elements(calls[f])
  }

  /** The fields of a search. cycle gives the number of the cycle a function is in, if any; made
      holds the functions of every cycle created. */
  datatype Search = Search(
    stack: seq<Fid>, orders: Orders, lowlinks: Orders, visited: set<Fid>,
    cycle: map<Fid, nat>, made: seq<set<Fid>>)

  function Elements(s: seq<Fid>): set<Fid> { set f | f in s }

  ghost function On(s: Search): set<Fid> { Elements(s.stack) }

  ghost predicate Sorted(stack: seq<Fid>, orders: Orders) {
    && (forall i :: 0 <= i < |stack| ==> stack[i] in orders)
    && (forall i, j :: 0 <= i < j < |stack| ==> orders[stack[i]] < orders[stack[j]])
  }

  /** A function with a cycle shares it with exactly its component, which is not itself alone. */
  ghost predicate InCycle(g: Graph, cycle: map<Fid, nat>, made: seq<set<Fid>>, f: Fid)
    requires f in cycle
  {
    && cycle[f] < |made| && IsComponent(g, made[cycle[f]], f) && made[cycle[f]] != {f}
    && forall h :: h in made[cycle[f]] ==> h in cycle && cycle[h] == cycle[f]
  }

  ghost predicate Proper(g: Graph, cycle: map<Fid, nat>, made: seq<set<Fid>>) {
    forall f {:trigger InCycle(g, cycle, made, f)} :: f in cycle ==> InCycle(g, cycle, made, f)
  }

  ghost predicate Done(g: Graph, cycle: map<Fid, nat>, f: Fid) { f in cycle || IsComponent(g, {f}, f) }

  ghost predicate AllDone(g: Graph, cycle: map<Fid, nat>, s: set<Fid>) {
    forall f {:trigger Done(g, cycle, f)} :: f in s ==> Done(g, cycle, f)
  }

  ghost predicate Ok(g: Graph, s: Search, next: nat, open: set<Fid>) {
    && Shape(g, On(s), s.orders, next, open) && Sorted(s.stack, s.orders)
    && s.lowlinks.Keys == s.orders.Keys && s.orders.Keys <= g.Keys && s.orders.Keys <= s.visited
    && Proper(g, s.cycle, s.made) && AllDone(g, s.cycle, s.orders.Keys - On(s))
  }

  /** What a call of the search leaves alone. */
  ghost predicate Grown(a: Search, b: Search) {
    && a.stack <= b.stack
    && (forall f :: f in a.orders ==> f in b.orders && b.orders[f] == a.orders[f])
    && (forall f :: f in a.orders && f in a.lowlinks ==> f in b.lowlinks && b.lowlinks[f] == a.lowlinks[f])
    && a.visited <= b.visited <= a.visited + b.orders.Keys && a.cycle.Keys <= b.cycle.Keys
  }

  /** No function of s calls into b below low. */
  ghost predicate NoneBelow(g: Graph, s: set<Fid>, b: set<Fid>, orders: Orders, low: nat) {
    forall x {:trigger CallsAbove(g, b, orders, low, x)} :: x in s ==> CallsAbove(g, b, orders, low, x)
  }

  /** The result of a call of the search for f, begun in state a. */
  ghost predicate Returned(g: Graph, a: Search, b: Search, f: Fid) {
    && f in b.orders && f in b.lowlinks && b.lowlinks[f] <= b.orders[f]
    && (if f in b.stack then Attained(g, On(b), b.orders, b.lowlinks[f], f) else b.lowlinks[f] == b.orders[f])
    && NoneBelow(g, On(b) - On(a), On(a), b.orders, b.lowlinks[f])
  }

  /** The state after i of f's calls were handled; a is the state before f was entered. */
  ghost predicate Midway(g: Graph, a: Search, b: Search, f: Fid, callees: seq<Fid>, i: nat) {
    && a.stack + [f] <= b.stack && f !in a.stack && f in b.orders && f in b.lowlinks && b.lowlinks[f] <= b.orders[f]
    && Attained(g, On(b), b.orders, b.lowlinks[f], f)
    && i <= |callees|
    && (forall j :: 0 <= j < i ==> callees[j] in b.orders
                                   && (callees[j] in On(a) ==> b.lowlinks[f] <= b.orders[callees[j]]))
    && NoneBelow(g, On(b) - On(a) - {f}, On(a), b.orders, b.lowlinks[f])
  }

  function Min(a: nat, b: nat): nat { if b < a then b else a }

  function Lower(s: Search, f: Fid, low: nat): Search
    requires f in s.lowlinks
  {
    s.(lowlinks := s.lowlinks[f := Min(s.lowlinks[f], low)])
  }

  lemma OnGrows(a: Search, b: Search)
    requires a.stack <= b.stack
    ensures On(a) <= On(b)
  {
    forall f | f in On(a) ensures f in On(b) {
      var i :| 0 <= i < |a.stack| && a.stack[i] == f;
      assert b.stack[i] == f;
    }
  }

  lemma StillAttained(g: Graph, on: set<Fid>, orders: Orders, on': set<Fid>, orders': Orders, low: nat, f: Fid)
    requires Attained(g, on, orders, low, f) && on <= on'
    requires forall x :: x in orders ==> x in orders' && orders'[x] == orders[x]
    ensures Attained(g, on', orders', low, f)
  {
  }

  lemma StillNoneBelow(g: Graph, s: set<Fid>, b: set<Fid>, orders: Orders, low: nat, orders': Orders, low': nat)
    requires NoneBelow(g, s, b, orders, low) && low' <= low && b <= orders.Keys
    requires forall x :: x in orders ==> x in orders' && orders'[x] == orders[x]
    ensures NoneBelow(g, s, b, orders', low')
  {
    forall x {:trigger CallsAbove(g, b, orders', low', x)} | x in s ensures CallsAbove(g, b, orders', low', x) {
      assert CallsAbove(g, b, orders, low, x);
    }
  }

  /** A callee on the stack. */
  lemma SawOnStack(g: Graph, a: Search, b: Search, f: Fid, callees: seq<Fid>, i: nat, next: nat, open: set<Fid>)
    requires Ok(g, b, next, open) && Midway(g, a, b, f, callees, i) && On(a) <= b.orders.Keys
    requires i < |callees| && IsCall(g, f, callees[i]) && callees[i] in b.stack
    ensures callees[i] in b.orders && Midway(g, a, Lower(b, f, b.orders[callees[i]]), f, callees, i + 1)
  {
    var h := callees[i];
    var b' := Lower(b, f, b.orders[h]);
    assert On(b') == On(b);
    StillNoneBelow(g, On(b) - On(a) - {f}, On(a), b.orders, b.lowlinks[f], b.orders, b'.lowlinks[f]);
    ReachCall(g, f, h);
    assert h in On(b);
  }

  /** A callee that was visited and has left the stack. */
  lemma SawLeft(g: Graph, a: Search, b: Search, f: Fid, callees: seq<Fid>, i: nat)
    requires Midway(g, a, b, f, callees, i) && i < |callees| && callees[i] in b.orders && callees[i] !in b.stack
    ensures Midway(g, a, b, f, callees, i + 1)
  {
    assert a.stack <= b.stack;
    OnGrows(a, b);
  }

  /** A callee for which the search was called. */
  lemma Called(g: Graph, a: Search, b: Search, c: Search, f: Fid, callees: seq<Fid>, i: nat)
    requires Midway(g, a, b, f, callees, i) && On(a) <= b.orders.Keys
    requires i < |callees| && IsCall(g, f, callees[i]) && callees[i] !in b.orders
    requires Grown(b, c) && Returned(g, b, c, callees[i])
    requires callees[i] !in c.stack ==> c.orders[callees[i]] > c.orders[f]
    ensures f in c.lowlinks && Midway(g, a, Lower(c, f, c.lowlinks[callees[i]]), f, callees, i + 1)
  {
    var h := callees[i];
    var d := Lower(c, f, c.lowlinks[h]);
    assert a.stack <= b.stack && a.stack + [f] <= c.stack;
    OnGrows(a, b);
    OnGrows(b, c);
    assert On(d) == On(c);
    assert c.lowlinks[f] == b.lowlinks[f] && c.orders[f] == b.orders[f];
    var low := d.lowlinks[f];
    StillNoneBelow(g, On(b) - On(a) - {f}, On(a), b.orders, b.lowlinks[f], c.orders, low);
    NoneBelowBoth(g, a, b, c, f, h, low);
    CallAttains(g, b, c, f, h);
    assert h !in On(a);
  }

  lemma NoneBelowBoth(g: Graph, a: Search, b: Search, c: Search, f: Fid, h: Fid, low: nat)
    requires On(a) <= On(b) && On(a) <= b.orders.Keys
    requires Returned(g, b, c, h) && low <= c.lowlinks[h]
    requires NoneBelow(g, On(b) - On(a) - {f}, On(a), c.orders, low)
    ensures NoneBelow(g, On(c) - On(a) - {f}, On(a), c.orders, low)
  {
    forall x {:trigger CallsAbove(g, On(a), c.orders, low, x)} | x in On(c) - On(a) - {f}
      ensures CallsAbove(g, On(a), c.orders, low, x)
    {
      if x !in On(b) { assert CallsAbove(g, On(b), c.orders, c.lowlinks[h], x); }
    }
  }

  lemma CallAttains(g: Graph, b: Search, c: Search, f: Fid, h: Fid)
    requires IsCall(g, f, h) && f in b.orders && f in b.lowlinks && b.lowlinks[f] <= b.orders[f]
    requires Attained(g, On(b), b.orders, b.lowlinks[f], f) && Grown(b, c) && Returned(g, b, c, h)
    requires h !in c.stack ==> c.orders[h] > c.orders[f]
    ensures Attained(g, On(c), c.orders, Min(c.lowlinks[f], c.lowlinks[h]), f)
  {
    OnGrows(b, c);
    StillAttained(g, On(b), b.orders, On(c), c.orders, b.lowlinks[f], f);
    if h in c.stack {
      var y :| y in On(c) && y in c.orders && c.orders[y] == c.lowlinks[h] && Reach(g, h, y);
      ReachCall(g, f, h);
      ReachTrans(g, f, h, y);
    }
  }

  lemma GrownTrans(a: Search, b: Search, c: Search)
    requires Grown(a, b) && Grown(b, c)
    ensures Grown(a, c)
  {
  }

  // ---------- entering and leaving ----------

  lemma EnterOk(g: Graph, a: Search, f: Fid, next: nat, open: set<Fid>, b: Search)
    requires Ok(g, a, next, open) && f in g && f !in a.orders && forall x :: x in open ==> Reach(g, x, f)
    requires b == a.(visited := a.visited + {f}, orders := a.orders[f := next], lowlinks := a.lowlinks[f := next],
                     stack := a.stack + [f])
    ensures Ok(g, b, next + 1, open + {f}) && Grown(a, b) && f !in a.stack
    ensures forall callees :: Midway(g, a, b, f, callees, 0)
  {
    Enter(g, On(a), a.orders, next, open, f);
    assert On(b) == On(a) + {f};
    forall i | 0 <= i < |a.stack| ensures a.stack[i] in a.orders && a.orders[a.stack[i]] < next {}
    assert b.orders.Keys - On(b) == a.orders.Keys - On(a);
  }

  /** The stack from f on up holds what was not visited before f. */
  lemma BelowIsBottom(a: Search, b: Search, f: Fid)
    requires Sorted(b.stack, b.orders) && a.stack + [f] <= b.stack && f in b.orders && On(b) <= b.orders.Keys
    ensures Below(On(b), b.orders, f) == On(a) && f in On(b) && f !in On(a)
    ensures forall x :: x in b.stack[|a.stack|..] <==> x in On(b) - On(a)
    ensures b.stack[..|a.stack|] == a.stack
  {
    var n := |a.stack|;
    var st := b.stack;
    assert st[n] == f && a.stack == st[..n];
    forall i | 0 <= i < |st| ensures b.orders[st[i]] < b.orders[f] <==> i < n {
      assert i < n ==> b.orders[st[i]] < b.orders[st[n]];
      assert i > n ==> b.orders[st[n]] < b.orders[st[i]];
    }
    InPart(st, b.orders, b.orders[f], n);
    OnGrows(a, b);
  }

  /** The members below n have orders below bound, the others not. */
  lemma InPart(st: seq<Fid>, orders: Orders, bound: nat, n: nat)
    requires n <= |st| && forall i :: 0 <= i < |st| ==> st[i] in orders && (orders[st[i]] < bound <==> i < n)
    ensures forall x :: x in st[..n] <==> x in st && orders[x] < bound
    ensures forall x :: x in st[n..] <==> x in st && x !in st[..n]
  {
    forall x ensures x in st[..n] <==> x in st && orders[x] < bound {
      if x in st[..n] {
        var i :| 0 <= i < n && st[..n][i] == x;
      }
    }
    forall x ensures x in st[n..] <==> x in st && x !in st[..n] {
      assert st == st[..n] + st[n..];
      if x in st[n..] {
        var i :| n <= i < |st| && st[i] == x;
      }
    }
  }

  lemma AllExplored(g: Graph, a: Search, b: Search, f: Fid, callees: seq<Fid>)
    requires Midway(g, a, b, f, callees, |callees|) && Sorted(b.stack, b.orders) && On(b) <= b.orders.Keys
    requires forall h :: IsCall(g, f, h) ==> h in callees
    ensures Below(On(b), b.orders, f) == On(a) && Explored(g, On(b), b.orders, b.lowlinks[f], f)
  {
    BelowIsBottom(a, b, f);
    var low := b.lowlinks[f];
    forall x | x in On(b) && b.orders[f] <= b.orders[x] ensures CallsAbove(g, On(a), b.orders, low, x) {
      if x == f {
        forall h | h in On(a) && IsCall(g, f, h) && h in b.orders ensures low <= b.orders[h] {
          var j :| 0 <= j < |callees| && callees[j] == h;
        }
      }
    }
  }

  /** The state after the members from f on up were taken off the stack and, if there are several,
      put into a new cycle. */
  ghost predicate Popped(b: Search, c: Search, n: nat)
    requires n <= |b.stack|
  {
    var members := Elements(b.stack[n..]);
    && c.orders == b.orders && c.lowlinks == b.lowlinks && c.visited == b.visited && c.stack == b.stack[..n]
    && if |b.stack| - n > 1
       then c.made == b.made + [members] && c.cycle.Keys == b.cycle.Keys + members
            && forall x :: x in c.cycle ==> c.cycle[x] == if x in members then |b.made| else b.cycle[x]
       else c.made == b.made && c.cycle == b.cycle
  }

  lemma PopProper(g: Graph, cycle: map<Fid, nat>, made: seq<set<Fid>>, members: set<Fid>, f: Fid, cycle': map<Fid, nat>)
    requires Proper(g, cycle, made) && IsComponent(g, members, f) && f in members && members != {f}
    requires cycle'.Keys == cycle.Keys + members
    requires forall x :: x in cycle' ==> cycle'[x] == if x in members then |made| else cycle[x]
    ensures Proper(g, cycle', made + [members])
  {
    var made' := made + [members];
    forall h {:trigger InCycle(g, cycle', made', h)} | h in cycle' ensures InCycle(g, cycle', made', h) {
      if h in members {
        SameComponent(g, members, f, h);
        assert members == {h} ==> f == h;
      } else {
        assert InCycle(g, cycle, made, h);
        var s := made[cycle[h]];
        forall k | k in s ensures k !in members {
          if k in members {
            ReachSelf(g, h);
            OneComponent(g, s, h, members, f, k);
          }
        }
      }
    }
  }

  lemma LeaveOk(g: Graph, a: Search, b: Search, f: Fid, callees: seq<Fid>, next: nat, open: set<Fid>, c: Search)
    requires open <= On(a) && Ok(g, b, next, open + {f}) && Midway(g, a, b, f, callees, |callees|)
    requires forall h :: IsCall(g, f, h) ==> h in callees
    requires b.lowlinks[f] == b.orders[f] && Popped(b, c, |a.stack|)
    ensures Ok(g, c, next, open) && c.stack == a.stack && f !in c.stack
  {
    AllExplored(g, a, b, f, callees);
    BelowIsBottom(a, b, f);
    TopIsComponent(g, On(b), b.orders, next, open, f);
    Leave(g, On(b), b.orders, next, open, f);
    var members := On(b) - On(a);
    assert members == Elements(b.stack[|a.stack|..]);
    assert On(c) == On(a);
    SortedPrefix(b.stack, b.orders, |a.stack|);
    LeaveDone(g, a, b, f, members, c);
  }

  lemma SortedPrefix(stack: seq<Fid>, orders: Orders, n: nat)
    requires Sorted(stack, orders) && n <= |stack|
    ensures Sorted(stack[..n], orders)
  {
  }

  lemma LeaveDone(g: Graph, a: Search, b: Search, f: Fid, members: set<Fid>, c: Search)
    requires |a.stack| < |b.stack| && b.stack[|a.stack|] == f && Popped(b, c, |a.stack|)
    requires members == On(b) - On(a) && members == Elements(b.stack[|a.stack|..])
    requires f in members && IsComponent(g, members, f) && Sorted(b.stack, b.orders)
    requires Proper(g, b.cycle, b.made) && AllDone(g, b.cycle, b.orders.Keys - On(b))
    ensures Proper(g, c.cycle, c.made) && AllDone(g, c.cycle, b.orders.Keys - On(a))
  {
    var n := |a.stack|;
    if |b.stack| - n > 1 {
      var k := b.stack[n + 1];
      assert b.orders[b.stack[n]] < b.orders[k];
      assert k in b.stack[n..] by { assert b.stack[n..][1] == k; }
      assert k in members && k != f;
      PopProper(g, b.cycle, b.made, members, f, c.cycle);
      assert c.made == b.made + [members];
      assert Proper(g, c.cycle, c.made);
    } else {
      assert c.cycle == b.cycle && c.made == b.made;
      assert Proper(g, c.cycle, c.made);
      assert b.stack[n..] == [f];
      assert members == {f};
    }
    forall x {:trigger Done(g, c.cycle, x)} | x in b.orders.Keys - On(a) ensures Done(g, c.cycle, x) {
      if x in members {
      } else {
        assert Done(g, b.cycle, x);
      }
    }
  }

  lemma StayOk(g: Graph, a: Search, b: Search, f: Fid, callees: seq<Fid>, next: nat, open: set<Fid>)
    requires open <= On(a) && Ok(g, b, next, open + {f}) && Midway(g, a, b, f, callees, |callees|)
    requires forall h :: IsCall(g, f, h) ==> h in callees
    requires b.lowlinks[f] != b.orders[f]
    ensures Ok(g, b, next, open) && Returned(g, a, b, f)
  {
    AllExplored(g, a, b, f, callees);
    BelowIsBottom(a, b, f);
    OnGrows(a, b);
    Stay(g, On(b), b.orders, next, open, f, b.lowlinks[f]);
    forall x {:trigger CallsAbove(g, On(a), b.orders, b.lowlinks[f], x)} | x in On(b) - On(a)
      ensures CallsAbove(g, On(a), b.orders, b.lowlinks[f], x)
    {
      if x == f {
        forall h | h in On(a) && IsCall(g, f, h) && h in b.orders ensures b.lowlinks[f] <= b.orders[h] {
          var j :| 0 <= j < |callees| && callees[j] == h;
        }
      }
    }
  }

  // ---------- the profile ----------

  /** The state of the loop over f's calls. */
  ghost predicate Loop(g: Graph, a: Search, b: Search, f: Fid, callees: seq<Fid>, i: nat, order: nat, next: nat,
                       open: set<Fid>) {
    && Ok(g, b, next, open + {f}) && Grown(a, b) && f in b.orders && b.orders[f] == order && f !in a.orders
    && On(a) <= a.orders.Keys && Midway(g, a, b, f, callees, i)
  }

  lemma LoopCalled(g: Graph, a: Search, b: Search, c: Search, f: Fid, callees: seq<Fid>, i: nat, order: nat, next: nat,
                   next': nat, open: set<Fid>)
    requires Loop(g, a, b, f, callees, i, order, next, open)
    requires i < |callees| && IsCall(g, f, callees[i]) && callees[i] !in b.orders
    requires Grown(b, c) && Ok(g, c, next', open + {f}) && Returned(g, b, c, callees[i]) && c.orders[callees[i]] == next
    ensures f in c.lowlinks && Loop(g, a, Lower(c, f, c.lowlinks[callees[i]]), f, callees, i + 1, order, next', open)
  {
    Called(g, a, b, c, f, callees, i);
    GrownTrans(a, b, c);
    LowerKeeps(g, a, c, f, c.lowlinks[callees[i]], next', open + {f});
  }

  lemma LowerKeeps(g: Graph, a: Search, c: Search, f: Fid, low: nat, next: nat, open: set<Fid>)
    requires Ok(g, c, next, open) && f in c.lowlinks && Grown(a, c) && f !in a.orders
    ensures Ok(g, Lower(c, f, low), next, open) && Grown(a, Lower(c, f, low))
  {
    assert On(Lower(c, f, low)) == On(c);
  }

  lemma LoopOnStack(g: Graph, a: Search, b: Search, f: Fid, callees: seq<Fid>, i: nat, order: nat, next: nat,
                    open: set<Fid>)
    requires Loop(g, a, b, f, callees, i, order, next, open)
    requires i < |callees| && IsCall(g, f, callees[i]) && callees[i] in b.orders && callees[i] in b.stack
    ensures Loop(g, a, Lower(b, f, b.orders[callees[i]]), f, callees, i + 1, order, next, open)
  {
    SawOnStack(g, a, b, f, callees, i, next, open + {f});
  }

  lemma Fewer(a: set<Fid>, b: set<Fid>, all: set<Fid>, f: Fid)
    requires a <= b && f in all && f in b && f !in a
    ensures |all - b| < |all - a|
  {
    assert all - a == (all - b) + ((all - a) * b) && f in (all - a) * b;
  }

  class Profile {
    /** The functions in the order in which the dictionary yields them, and their callees. */
    const functions: seq<Fid>
    const calls: map<Fid, seq<Fid>>
    var cycle: map<Fid, nat>
    var made: seq<set<Fid>>
    var cycles: seq<nat>
    var stack: seq<Fid>
    var orders: Orders
    var lowlinks: Orders
    var visited: set<Fid>

    ghost const graph: Graph := GraphOf(calls)

    function Now(): Search
      reads this
    {
      Search(stack, orders, lowlinks, visited, cycle, made)
    }

    /** Every function is listed once and every callee is defined. */
    ghost predicate Valid() {
      && (forall f :: f in functions <==> f in calls)
      && (forall f, h :: IsCall(graph, f, h) ==> h in calls)
    }

    /** Cycle.add_function. The inner loop over the members of an earlier cycle runs only if the
        function is not a member of this one, to which it was just added. */
    method AddFunction(c: nat, f: Fid)
      requires c < |made| && f !in made[c]
      modifies this`made, this`cycle
      ensures made == old(made)[c := old(made)[c] + {f}] && cycle == old(cycle)[f := c]
    {
      made := made[c := made[c] + {f}];
      if f in cycle { assert f in made[c]; }
      cycle := cycle[f := c];
    }

    method AddCycle(members: seq<Fid>)
      requires forall i, j :: 0 <= i < j < |members| ==> members[i] != members[j]
      modifies this`made, this`cycle
      ensures made == old(made) + [Elements(members)] && cycle.Keys == old(cycle).Keys + Elements(members)
      ensures forall x :: x in cycle ==> cycle[x] == if x in members then |old(made)| else old(cycle)[x]
    {
      made := made + [{}];
      var c := |made| - 1;
      assert Elements(members[..0]) == {};
      for i := 0 to |members|
        invariant made == old(made) + [Elements(members[..i])]
        invariant cycle.Keys == old(cycle).Keys + Elements(members[..i])
        invariant forall x :: x in cycle ==> cycle[x] == if x in members[..i] then c else old(cycle)[x]
      {
        assert members[..i + 1] == members[..i] + [members[i]];
        assert Elements(members[..i + 1]) == Elements(members[..i]) + {members[i]};
        AddFunction(c, members[i]);
      }
      assert members[..|members|] == members;
    }

    /** The end of _tarjan: the functions from position pos of the stack on are a component. */
    method PopComponent(pos: nat)
      requires pos <= |stack| && Sorted(stack, orders)
      modifies this`stack, this`made, this`cycle
      ensures Popped(old(Now()), Now(), pos)
    {
      var members := stack[pos..];
      stack := stack[..pos];
      if |members| > 1 { AddCycle(members); }
    }

    /** _tarjan. The functions whose call is still running are passed as open. */
    method Tarjan(f: Fid, order: nat, ghost open: set<Fid>) returns (next: nat)
      requires Valid() && f in calls && f !in orders && Ok(graph, Now(), order, open)
      requires forall x :: x in open ==> Reach(graph, x, f)
      modifies this`stack, this`orders, this`lowlinks, this`visited, this`cycle, this`made
      ensures Ok(graph, Now(), next, open) && Grown(old(Now()), Now()) && Returned(graph, old(Now()), Now(), f)
      ensures orders[f] == order
      decreases |calls.Keys - orders.Keys|, 0
    {
      ghost var a := Now();
      var pos := |stack|;
      next := EnterFunction(f, order, open);
      for i := 0 to |calls[f]|
        invariant Loop(graph, a, Now(), f, calls[f], i, order, next, open)
      {
        Fewer(a.orders.Keys, orders.Keys, calls.Keys, f);
        next := VisitCallee(a, f, i, order, next, open);
      }
      LeaveFunction(a, pos, f, order, next, open);
    }

    method EnterFunction(f: Fid, order: nat, ghost open: set<Fid>) returns (next: nat)
      requires Valid() && f in calls && f !in orders && Ok(graph, Now(), order, open)
      requires forall x :: x in open ==> Reach(graph, x, f)
      modifies this`stack, this`orders, this`lowlinks, this`visited
      ensures Loop(graph, old(Now()), Now(), f, calls[f], 0, order, next, open)
    {
      ghost var a := Now();
      visited := visited + {f};
      orders := orders[f := order];
      lowlinks := lowlinks[f := order];
      next := order + 1;
      stack := stack + [f];
      EnterOk(graph, a, f, order, open, Now());
    }

    /** The body of the loop over the calls of f. */
    method VisitCallee(ghost a: Search, f: Fid, i: nat, ghost order: nat, next: nat, ghost open: set<Fid>)
        returns (next': nat)
      requires Valid() && f in calls && i < |calls[f]|
      requires forall x :: x in open ==> Reach(graph, x, f)
      requires Loop(graph, a, Now(), f, calls[f], i, order, next, open)
      modifies this`stack, this`orders, this`lowlinks, this`visited, this`cycle, this`made
      ensures Loop(graph, a, Now(), f, calls[f], i + 1, order, next', open)
      decreases |calls.Keys - orders.Keys|, 2
    {
      var callee := calls[f][i];
      assert IsCall(graph, f, callee);
      next' := next;
      if callee !in orders {
        next' := Descend(a, f, i, order, next, open);
      } else if callee in stack {
        LoopOnStack(graph, a, Now(), f, calls[f], i, order, next, open);
        lowlinks := lowlinks[f := Min(lowlinks[f], orders[callee])];
      } else {
        SawLeft(graph, a, Now(), f, calls[f], i);
      }
    }

    method Descend(ghost a: Search, f: Fid, i: nat, ghost order: nat, next: nat, ghost open: set<Fid>)
        returns (next': nat)
      requires Valid() && f in calls && i < |calls[f]| && calls[f][i] !in orders
      requires forall x :: x in open ==> Reach(graph, x, f)
      requires Loop(graph, a, Now(), f, calls[f], i, order, next, open)
      modifies this`stack, this`orders, this`lowlinks, this`visited, this`cycle, this`made
      ensures Loop(graph, a, Now(), f, calls[f], i + 1, order, next', open)
      decreases |calls.Keys - orders.Keys|, 1
    {
      ghost var b := Now();
      var callee := calls[f][i];
      assert IsCall(graph, f, callee);
      CallReached(graph, open, f, callee);
      next' := Tarjan(callee, next, open + {f});
      TakeLow(a, b, f, i, order, next, next', open);
    }

    method TakeLow(ghost a: Search, ghost b: Search, f: Fid, i: nat, ghost order: nat, ghost next: nat,
                   ghost next': nat, ghost open: set<Fid>)
      requires f in calls && i < |calls[f]| && IsCall(graph, f, calls[f][i]) && calls[f][i] !in b.orders
      requires Loop(graph, a, b, f, calls[f], i, order, next, open)
      requires Ok(graph, Now(), next', open + {f}) && Grown(b, Now()) && Returned(graph, b, Now(), calls[f][i])
      requires orders[calls[f][i]] == next
      modifies this`lowlinks
      ensures Loop(graph, a, Now(), f, calls[f], i + 1, order, next', open)
    {
      LoopCalled(graph, a, b, Now(), f, calls[f], i, order, next, next', open);
      lowlinks := lowlinks[f := Min(lowlinks[f], lowlinks[calls[f][i]])];
    }

    method LeaveFunction(ghost a: Search, pos: nat, f: Fid, ghost order: nat, ghost next: nat, ghost open: set<Fid>)
      requires Valid() && f in calls && open <= On(a) && pos == |a.stack|
      requires Loop(graph, a, Now(), f, calls[f], |calls[f]|, order, next, open)
      modifies this`stack, this`cycle, this`made
      ensures Ok(graph, Now(), next, open) && Grown(a, Now()) && Returned(graph, a, Now(), f)
      ensures f in orders && orders[f] == order
    {
      ghost var b := Now();
      if lowlinks[f] == orders[f] {
        PopComponent(pos);
        LeaveOk(graph, a, b, f, calls[f], next, open, Now());
      } else {
        StayOk(graph, a, b, f, calls[f], next, open);
      }
    }

    /** One root of find_cycles. */
    method SearchFrom(f: Fid)
      requires Valid() && f in calls && Proper(graph, cycle, made) && AllDone(graph, cycle, visited)
      modifies this`stack, this`orders, this`lowlinks, this`visited, this`cycle, this`made
      ensures Proper(graph, cycle, made) && AllDone(graph, cycle, visited)
      ensures f in visited && old(visited) <= visited
    {
      stack, orders, lowlinks := [], map[], map[];
      EmptyOk(graph, Now());
      var next := Tarjan(f, 0, {});
      NothingOpen(graph, old(visited), old(cycle), Now(), next);
    }

    method ListCycles()
      modifies this`cycles
      ensures forall i, j :: 0 <= i < j < |cycles| ==> cycles[i] != cycles[j]
      ensures forall c :: c in cycles <==> exists f :: f in functions && f in cycle && cycle[f] == c
    {
      cycles := [];
      for i := 0 to |functions|
        invariant forall a, b :: 0 <= a < b < |cycles| ==> cycles[a] != cycles[b]
        invariant forall c :: c in cycles <==> exists j ::
                  0 <= j < i && functions[j] in cycle && cycle[functions[j]] == c
      {
        var f := functions[i];
        if f in cycle && cycle[f] !in cycles { cycles := cycles + [cycle[f]]; }
      }
    }

    /** find_cycles, on functions without cycles or with those of an earlier run. Every cycle in
        use is listed once. */
    method FindCycles()
      requires Valid() && Proper(graph, cycle, made)
      modifies this
      ensures forall f, h :: f in calls && h in calls && f != h ==> (ShareCycle(cycle, f, h) <==> Mutual(graph, f, h))
      ensures forall f :: f in calls ==> (f !in cycle <==> forall k :: Mutual(graph, f, k) ==> k == f)
      ensures forall f, h :: f in calls && h in calls && f in cycle ==>
                cycle[f] < |made| && (h in made[cycle[f]] <==> ShareCycle(cycle, f, h))
      ensures forall i, j :: 0 <= i < j < |cycles| ==> cycles[i] != cycles[j]
      ensures forall c :: c in cycles <==> exists f :: f in functions && f in cycle && cycle[f] == c
    {
      visited := {};
      for i := 0 to |functions|
        invariant Proper(graph, cycle, made) && AllDone(graph, cycle, visited)
        invariant forall j :: 0 <= j < i ==> functions[j] in visited
      {
        if functions[i] !in visited { SearchFrom(functions[i]); }
      }
      forall f, h | f in calls && h in calls ensures Done(graph, cycle, f) && Done(graph, cycle, h) {}
      ListCycles();
      forall f, h | f in calls && h in calls
        ensures f != h ==> (ShareCycle(cycle, f, h) <==> Mutual(graph, f, h))
        ensures f !in cycle <==> forall k :: Mutual(graph, f, k) ==> k == f
        ensures f in cycle ==> cycle[f] < |made| && (h in made[cycle[f]] <==> ShareCycle(cycle, f, h))
      {
        CyclesAreComponents(graph, cycle, made, f, h);
      }
    }
  }

  // ---------- what find_cycles computes ----------

  /** Two functions are in the same cycle. */
  predicate ShareCycle(cycle: map<Fid, nat>, f: Fid, h: Fid) { f in cycle && h in cycle && cycle[f] == cycle[h] }

  /** With every function done: two functions share a cycle exactly when each reaches the other, a
      function has no cycle exactly when it is alone, and a cycle holds exactly its functions. */
  lemma CyclesAreComponents(g: Graph, cycle: map<Fid, nat>, made: seq<set<Fid>>, f: Fid, h: Fid)
    requires Proper(g, cycle, made) && Done(g, cycle, f) && Done(g, cycle, h)
    ensures f != h ==> (ShareCycle(cycle, f, h) <==> Mutual(g, f, h))
    ensures f !in cycle <==> forall k :: Mutual(g, f, k) ==> k == f
    ensures f in cycle ==> cycle[f] < |made| && (h in made[cycle[f]] <==> ShareCycle(cycle, f, h))
  {
    ReachSelf(g, f);
    ReachSelf(g, h);
    if f in cycle {
      assert InCycle(g, cycle, made, f);
      assert f in made[cycle[f]];
      var k :| k in made[cycle[f]] && k != f;
    }
    if h in cycle {
      assert InCycle(g, cycle, made, h);
      assert h in made[cycle[h]];
    }
  }

  lemma CallReached(g: Graph, open: set<Fid>, f: Fid, h: Fid)
    requires (forall x :: x in open ==> Reach(g, x, f)) && IsCall(g, f, h)
    ensures forall x :: x in open + {f} ==> Reach(g, x, h)
  {
    ReachCall(g, f, h);
    forall x | x in open ensures Reach(g, x, h) { ReachTrans(g, x, f, h); }
  }

  lemma EmptyOk(g: Graph, s: Search)
    requires s.stack == [] && s.orders == map[] && s.lowlinks == map[] && Proper(g, s.cycle, s.made)
    ensures Ok(g, s, 0, {})
  {
    assert On(s) == {};
    assert s.orders.Keys - On(s) == {};
  }

  /** When no call is running nothing is on the stack. */
  lemma NothingOpen(g: Graph, visited: set<Fid>, cycle: map<Fid, nat>, s: Search, next: nat)
    requires Ok(g, s, next, {}) && AllDone(g, cycle, visited) && cycle.Keys <= s.cycle.Keys
    requires s.visited <= visited + s.orders.Keys
    ensures AllDone(g, s.cycle, s.visited)
  {
    assert forall f :: f in On(s) ==> Anchored(g, s.orders, {}, f);
    assert On(s) == {};
    forall f {:trigger Done(g, s.cycle, f)} | f in s.visited ensures Done(g, s.cycle, f) {
      if f in visited { assert Done(g, cycle, f); }
    }
  }
}
