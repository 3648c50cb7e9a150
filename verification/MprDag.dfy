/** The scheduler of requests: one queue for each group, a request is released when it heads all of
    its queues. The ghost field s tells what the queues hold and what happened so far. */
module MprDag {
  import opened Collections
  import opened Options
  import opened MprQueue
  import opened DagOrder
  import opened DagRuns

  /** The first group is named again. */
  predicate Repeats(qids: seq<Qid>)
    requires |qids| > 0
  {
    qids[0] in qids[1..]
  }

  // ---------- while the queues of n are popped ----------

  /** m is first in this group, and n is gone from it once the queues of its first i groups are
      popped; w holds the queues without n. */
  ghost predicate LeadsAt(w: View, n: Node, i: nat, m: Node, q: Qid)
    requires i <= |n.qids|
  {
    Leads(w, m, q) && Left(n.qids, i, q) == 0
  }

  ghost predicate RunsAt(w: View, n: Node, i: nat, m: Node)
    requires i <= |n.qids|
  {
    forall q {:trigger LeadsAt(w, n, i, m, q)} :: q in m.qids ==> LeadsAt(w, n, i, m, q)
  }

  ghost function RunnersAt(w: View, n: Node, i: nat, rest: set<Node>): set<Node>
    requires i <= |n.qids|
  {
    set m | m in rest && RunsAt(w, n, i, m)
  }

  /** The queues after those of the first i groups of n were popped; w holds them without n. */
  function Between(w: View, n: Node, i: nat): View
    requires i <= |n.qids|
  {
    q => Times(Left(n.qids, i, q), n) + w(q)
  }

  lemma BetweenRuns(w: View, n: Node, i: nat, m: Node)
    requires i <= |n.qids| && m != n
    ensures Runs(Between(w, n, i), m) <==> RunsAt(w, n, i, m)
  {
    var v := Between(w, n, i);
    forall q ensures Leads(v, m, q) <==> LeadsAt(w, n, i, m, q) {
      if Left(n.qids, i, q) > 0 { assert v(q)[0] == n; } else { assert v(q) == w(q); }
    }
  }

  lemma BetweenNext(w: View, n: Node, i: nat)
    requires i < |n.qids|
    ensures Between(w, n, i)(n.qids[i]) == [n] + Between(w, n, i + 1)(n.qids[i])
    ensures forall r :: r != n.qids[i] ==> Between(w, n, i + 1)(r) == Between(w, n, i)(r)
  {
    var k := Left(n.qids, i + 1, n.qids[i]);
    assert Times(k + 1, n) == [n] + Times(k, n);
    forall r | r != n.qids[i] ensures Between(w, n, i + 1)(r) == Between(w, n, i)(r) {
      assert Left(n.qids, i, r) == Left(n.qids, i + 1, r);
    }
  }

  lemma BetweenEnds(p: seq<Node>, n: Node)
    requires Distinct(p) && n in p && Runs(ViewOf(p), n)
    ensures var w, w' := ViewOf(p), ViewOf(Without(p, n));
            forall q :: Between(w', n, 0)(q) == w(q) && Between(w', n, |n.qids|)(q) == w'(q)
  {
    WithoutGone(p, n);
    var w, w' := ViewOf(p), ViewOf(Without(p, n));
    forall q ensures Between(w', n, 0)(q) == w(q) && Between(w', n, |n.qids|)(q) == w'(q) {
      assert w(q) == Times(Count(n, q), n) + w'(q);
      assert Times(0, n) + w'(q) == w'(q);
    }
  }

  ghost function Asking(rest: set<Node>, q: Qid): set<Node> { set m | m in rest && q in m.qids }

  /** Each of these requests waits for its groups. */
  ghost predicate AllWait(w: View, rest: set<Node>) {
    forall q {:trigger Nodes(w(q))} :: Nodes(w(q)) == Asking(rest, q)
  }

  /** The head of a queue of n that was just popped. */
  ghost predicate NewHead(w: View, n: Node, i: nat, h: Option<Node>)
    requires i < |n.qids|
  {
    var q := n.qids[i];
    if Left(n.qids, i + 1, q) > 0 then h == Some(n)
    else match h case None => w(q) == [] case Some(m) => Leads(w, m, q)
  }

  /** When one more queue is popped, only its new head may begin to run. */
  lemma OneMore(w: View, n: Node, i: nat, rest: set<Node>, h: Option<Node>)
    requires i < |n.qids| && n !in rest && AllWait(w, rest) && NewHead(w, n, i, h)
    ensures h.Some? && h.value != n ==>
            h.value in rest && h.value !in RunnersAt(w, n, i, rest) && n.qids[i] in h.value.qids
    ensures h == Some(n) ==> Left(n.qids, i + 1, n.qids[i]) > 0
    ensures h == Some(n) ==> RunnersAt(w, n, i + 1, rest) == RunnersAt(w, n, i, rest)
    ensures h != Some(n) ==>
              (RunnersAt(w, n, i + 1, rest)
               == RunnersAt(w, n, i, rest) + if h.Some? && RunsAt(w, n, i + 1, h.value) then {h.value} else {})
  {
    var q := n.qids[i];
    if h.Some? && Left(n.qids, i + 1, q) == 0 {
      assert h.value in Nodes(w(q)) && q in h.value.qids;
      assert !LeadsAt(w, n, i, h.value, q);
    }
    forall m | m in rest && Some(m) != h ensures RunsAt(w, n, i + 1, m) <==> RunsAt(w, n, i, m) {
      OtherUnchanged(w, n, i, m);
    }
  }

  lemma OtherUnchanged(w: View, n: Node, i: nat, m: Node)
    requires i < |n.qids| && (!Leads(w, m, n.qids[i]) || Left(n.qids, i + 1, n.qids[i]) > 0)
    ensures RunsAt(w, n, i + 1, m) <==> RunsAt(w, n, i, m)
  {
    forall x ensures LeadsAt(w, n, i + 1, m, x) <==> LeadsAt(w, n, i, m, x) {}
    if RunsAt(w, n, i + 1, m) {
      forall x {:trigger LeadsAt(w, n, i, m, x)} | x in m.qids ensures LeadsAt(w, n, i, m, x) {
        assert LeadsAt(w, n, i + 1, m, x);
      }
    }
    if RunsAt(w, n, i, m) {
      forall x {:trigger LeadsAt(w, n, i + 1, m, x)} | x in m.qids ensures LeadsAt(w, n, i + 1, m, x) {
        assert LeadsAt(w, n, i, m, x);
      }
    }
  }

  /** Before the first pop exactly those run that run beside n, after the last exactly those that
      run without n. */
  lemma FirstAndLast(p: seq<Node>, n: Node)
    requires Distinct(p) && n in p && Runs(ViewOf(p), n)
    ensures RunnersAt(ViewOf(Without(p, n)), n, 0, Nodes(Without(p, n))) == Runners(p) - {n}
    ensures RunnersAt(ViewOf(Without(p, n)), n, |n.qids|, Nodes(Without(p, n))) == Runners(Without(p, n))
  {
    var w, w' := ViewOf(p), ViewOf(Without(p, n));
    WithoutGone(p, n);
    NodesWithout(p, n);
    forall m | m in Without(p, n) ensures RunsAt(w', n, 0, m) <==> Runs(w, m) {
      ZeroRuns(p, n, m);
    }
    forall m, q ensures LeadsAt(w', n, |n.qids|, m, q) <==> Leads(w', m, q) {}
  }

  lemma ZeroRuns(p: seq<Node>, n: Node, m: Node)
    requires Distinct(p) && n in p && Runs(ViewOf(p), n) && m in p && m != n
    ensures RunsAt(ViewOf(Without(p, n)), n, 0, m) <==> Runs(ViewOf(p), m)
  {
    var w, w' := ViewOf(p), ViewOf(Without(p, n));
    WithoutGone(p, n);
    assert n.qids[0..] == n.qids;
    if Runs(w, m) {
      forall q | q in m.qids ensures q !in n.qids { if q in n.qids { Exclusion(p, m, n, q); } }
      ApartFromGone(w, n, w', m);
      forall q {:trigger LeadsAt(w', n, 0, m, q)} | q in m.qids
        ensures LeadsAt(w', n, 0, m, q) { assert Leads(w', m, q); }
    }
    if RunsAt(w', n, 0, m) {
      forall q | q in m.qids ensures q !in n.qids && Leads(w', m, q) { assert LeadsAt(w', n, 0, m, q); }
      ApartFromGone(w, n, w', m);
    }
  }

  lemma PendingWait(p: seq<Node>)
    ensures AllWait(ViewOf(p), Nodes(p))
  {
    var w := ViewOf(p);
    forall q {:trigger Nodes(w(q))} ensures Nodes(w(q)) == Asking(Nodes(p), q) {
      forall m ensures m in Waiting(p, q) <==> m in p && q in m.qids { WaitingMember(p, q, m); }
      assert Nodes(Waiting(p, q)) == Asking(Nodes(p), q);
    }
  }

  // ---------- a group named twice ----------

  /** Every group is still among those from number i on. */
  ghost predicate AllToBePopped(qids: seq<Qid>, i: nat)
    requires i <= |qids|
  {
    forall q :: q in qids ==> q in qids[i..]
  }

  /** The request that finishes heads its queues again after the queues of its first i groups were
      popped exactly if each of its groups is still to come. */
  lemma HeadsAgain(w: View, n: Node, i: nat, rest: set<Node>)
    requires i <= |n.qids| && n !in rest && AllWait(w, rest)
    ensures Runs(Between(w, n, i), n) <==> AllToBePopped(n.qids, i)
  {
    var v := Between(w, n, i);
    forall q ensures Leads(v, n, q) <==> Left(n.qids, i, q) > 0 {
      if Left(n.qids, i, q) > 0 { assert v(q)[0] == n; } else { assert v(q) == w(q) && n !in Nodes(w(q)); }
    }
    if Runs(v, n) {
      forall q | q in n.qids ensures q in n.qids[i..] { assert Leads(v, n, q); }
    }
  }

  /** That happens after the first pop exactly if the first group is named again, and if not then,
      it never does. */
  lemma AllToCome(qids: seq<Qid>, i: nat)
    requires 0 < i <= |qids|
    ensures AllToBePopped(qids, 1) <==> Repeats(qids)
    ensures AllToBePopped(qids, i) ==> Repeats(qids)
  {
    assert qids == [qids[0]] + qids[1..];
    assert qids[1..] == qids[1..i] + qids[i..];
  }

  /** Not every list with a repetition repeats its first group. */
  lemma SomeRepeat()
    ensures Repeats([1, 1]) && Repeats([2, 2, 1]) && !Repeats([1, 2, 2]) && !Distinct<Qid>([1, 2, 2])
  {
    var a: seq<Qid>, b: seq<Qid>, c: seq<Qid> := [1, 1], [2, 2, 1], [1, 2, 2];
    assert a[1..] == [1] && b[1..] == [2, 1] && c[1..] == [2, 2] && c[1] == c[2];
  }

  /** The requests released while n is popped: first n itself, if its first group is named again, then
      those that begin to run. */
  ghost predicate Tally(runs0: set<Node>, runs: set<Node>, n: Node, i: nat,
                        white0: seq<Node>, new_: seq<Node>, white: seq<Node>, again: bool)
    requires |n.qids| > 0
  {
    && (again <==> i > 0 && Repeats(n.qids)) && white == white0 + If(again, n) + new_ && (i == 0 ==> new_ == [])
    && Distinct(new_) && Nodes(new_) !! runs0 && runs == runs0 - {n} + Nodes(new_)
  }

  /** Those released so far are in order, each released by the pop of one of the first i groups. */
  ghost predicate OrderedTo(n: Node, i: nat, new_: seq<Node>) {
    InOrder(n.qids, new_) && forall m :: m in new_ ==> LastShared(n.qids, |n.qids|, m) < i
  }

  /** One more queue is popped, and its new head is n itself. */
  lemma TallyOwn(runs0: set<Node>, runs: set<Node>, n: Node, i: nat, white0: seq<Node>, new_: seq<Node>,
                 white: seq<Node>, again: bool, heads: bool, add: seq<Node>, again': bool)
    requires i < |n.qids| && Tally(runs0, runs, n, i, white0, new_, white, again) && n.qids[i] in n.qids[i + 1..]
    requires (heads <==> AllToBePopped(n.qids, i + 1)) && add == If(!again && heads, n)
    requires again' <==> again || add != []
    ensures Tally(runs0, runs, n, i + 1, white0, new_, white + add, again')
  {
    AllToCome(n.qids, i + 1);
    assert white + [] == white;
    if i == 0 { assert white0 + [] + [] == white0 && white0 + add + [] == white0 + add; }
  }

  /** One more queue is popped, and its new head is another request, or there is none. */
  lemma TallyOther(runs0: set<Node>, runs: set<Node>, n: Node, i: nat, white0: seq<Node>, new_: seq<Node>,
                   white: seq<Node>, again: bool, add: seq<Node>)
    requires n in runs0 && i < |n.qids| && Tally(runs0, runs, n, i, white0, new_, white, again)
    requires n.qids[i] !in n.qids[i + 1..] && |add| <= 1 && Nodes(add) !! runs && n !in add
    ensures Tally(runs0, runs + Nodes(add), n, i + 1, white0, new_ + add, white + add, again)
  {
    assert white0 + If(again, n) + new_ + add == white0 + If(again, n) + (new_ + add);
    NodesJoin(new_, add);
    assert Nodes(new_) <= runs;
    DistinctJoin(new_, add);
  }

  /** What the pop of queue number i released: the request that finishes, if it heads all its queues again
      and was not released before, or at most one other that begins to run. */
  ghost predicate OnePopped(n: Node, i: nat, again: bool, again': bool, runs: set<Node>, runs': set<Node>,
                            add: seq<Node>)
    requires i < |n.qids|
  {
    if n.qids[i] in n.qids[i + 1..]
    then runs' == runs && add == If(!again && AllToBePopped(n.qids, i + 1), n) && (again' <==> again || add != [])
    else
      && again' == again && |add| <= 1 && Nodes(add) !! runs && n !in add && runs' == runs + Nodes(add)
      && LetRun(n, i, add)
  }

  /** One more queue is popped. */
  lemma TallyNext(runs0: set<Node>, runs: set<Node>, runs': set<Node>, n: Node, i: nat, white0: seq<Node>,
                  new_: seq<Node>, white: seq<Node>, again: bool, add: seq<Node>, again': bool)
      returns (new': seq<Node>, more: seq<Node>)
    requires n in runs0 && i < |n.qids| && Tally(runs0, runs, n, i, white0, new_, white, again)
    requires OnePopped(n, i, again, again', runs, runs', add)
    ensures Tally(runs0, runs', n, i + 1, white0, new', white + add, again')
    ensures new' == new_ + more && |more| <= 1 && LetRun(n, i, more)
  {
    if n.qids[i] in n.qids[i + 1..] {
      TallyOwn(runs0, runs, n, i, white0, new_, white, again, AllToBePopped(n.qids, i + 1), add, again');
      new', more := new_, [];
      assert new_ + [] == new_;
    } else {
      TallyOther(runs0, runs, n, i, white0, new_, white, again, add);
      new', more := new_ + add, add;
    }
  }

  /** Group number i is the last of n's that these ask for. */
  ghost predicate LetRun(n: Node, i: nat, add: seq<Node>)
    requires i < |n.qids|
  {
    forall m :: m in add ==> n.qids[i] in m.qids && forall q :: q in m.qids ==> q !in n.qids[i + 1..]
  }

  lemma RunsIsLet(w: View, n: Node, i: nat, m: Node)
    requires i < |n.qids| && RunsAt(w, n, i + 1, m) && n.qids[i] in m.qids
    ensures LetRun(n, i, [m])
  {
    forall q | q in m.qids ensures q !in n.qids[i + 1..] { assert LeadsAt(w, n, i + 1, m, q); }
  }

  lemma OrderJoin(n: Node, i: nat, new_: seq<Node>, add: seq<Node>)
    requires i < |n.qids| && |add| <= 1 && LetRun(n, i, add)
    requires OrderedTo(n, i, new_)
    ensures OrderedTo(n, i + 1, new_ + add)
  {
    forall m | m in add ensures LastShared(n.qids, |n.qids|, m) == i {
      assert n.qids[i] in m.qids;
      forall p | i < p < |n.qids| ensures n.qids[p] !in m.qids { assert n.qids[i + 1..][p - i - 1] == n.qids[p]; }
    }
    var all := new_ + add;
    forall j, k | 0 <= j < k < |all| ensures LastShared(n.qids, |n.qids|, all[j]) < LastShared(n.qids, |n.qids|,
      all[k]) {
      if k < |new_| { assert all[j] == new_[j] && all[k] == new_[k]; }
      else { assert all[j] == new_[j] && all[j] in new_ && all[k] in add; }
    }
  }

  // ---------- while n is pushed ----------

  /** The first i groups of n are empty. */
  ghost predicate NobodyWaits(w: View, n: Node, i: nat)
    requires i <= |n.qids|
  {
    forall j :: 0 <= j < i ==> w(n.qids[j]) == []
  }

  /** From w to w' exactly n came, at the end of each of its groups. */
  ghost predicate Joined(w: View, n: Node, w': View) {
    forall q {:trigger w'(q)} :: w'(q) == w(q) + Times(Count(n, q), n)
  }

  /** How often q stands among the first i groups. */
  function Early(qids: seq<Qid>, i: nat, q: Qid): nat
    requires i <= |qids|
  {
    if i == 0 then 0 else Early(qids, i - 1, q) + if qids[i - 1] == q then 1 else 0
  }

  lemma {:induction false} EarlyAndLeft(qids: seq<Qid>, i: nat, q: Qid)
    requires i <= |qids|
    ensures Early(qids, i, q) + Left(qids, i, q) == Left(qids, 0, q)
  {
    if i > 0 { EarlyAndLeft(qids, i - 1, q); }
  }

  /** The queues after n was appended to those of its first i groups. */
  function Adding(w: View, n: Node, i: nat): View
    requires i <= |n.qids|
  {
    q => w(q) + Times(Early(n.qids, i, q), n)
  }

  /** x was appended to s, as often as this. */
  ghost predicate Grown(s: seq<Node>, t: seq<Node>, n: Node) { |s| <= |t| && t == s + Times(|t| - |s|, n) }

  /** v(i) are the queues after n was appended to those of its first i groups. */
  ghost predicate StepOk(v: nat -> View, w: View, n: Node, i: nat) {
    i < |n.qids| ==>
      && Grown(w(n.qids[i]), v(i)(n.qids[i]), n)
      && forall q {:trigger v(i + 1)(q)} :: v(i + 1)(q) == v(i)(q) + If(q == n.qids[i], n)
  }

  ghost predicate Steps(v: nat -> View, w: View, n: Node) {
    forall i: nat {:trigger StepOk(v, w, n, i)} :: StepOk(v, w, n, i)
  }

  /** The queues at each step, at the start and in the end. */
  lemma AddingSteps(w: View, n: Node, w': View) returns (v: nat -> View)
    requires Joined(w, n, w')
    ensures Steps(v, w, n) && forall q :: v(0)(q) == w(q) && v(|n.qids|)(q) == w'(q)
  {
    v := (i: nat) => if i <= |n.qids| then Adding(w, n, i) else w;
    forall q ensures v(0)(q) == w(q) && v(|n.qids|)(q) == w'(q) {
      EarlyAndLeft(n.qids, |n.qids|, q);
      assert w(q) + Times(0, n) == w(q);
    }
    forall i: nat {:trigger StepOk(v, w, n, i)} ensures StepOk(v, w, n, i) {
      if i < |n.qids| {
        forall q ensures v(i + 1)(q) == v(i)(q) + If(q == n.qids[i], n) {
          var k := Early(n.qids, i, q);
          assert Times(k + 1, n) == Times(k, n) + [n];
          assert w(q) + (Times(k, n) + [n]) == (w(q) + Times(k, n)) + [n];
        }
      }
    }
  }

  ghost predicate AbsentAt(w: View, n: Node, q: Qid) { n !in w(q) }

  ghost predicate Absent(w: View, n: Node) { forall q {:trigger AbsentAt(w, n, q)} :: AbsentAt(w, n, q) }

  lemma JoinedRuns(w: View, n: Node, w': View)
    requires Joined(w, n, w') && Absent(w, n)
    ensures Runs(w', n) <==> NobodyWaits(w, n, |n.qids|)
  {
    forall q | q in n.qids ensures Leads(w', n, q) <==> w(q) == [] {
      assert w'(q) == w(q) + Times(Count(n, q), n) && AbsentAt(w, n, q);
    }
    if Runs(w', n) {
      forall j | 0 <= j < |n.qids| ensures w(n.qids[j]) == [] { assert Leads(w', n, n.qids[j]); }
    }
  }

  lemma PushJoins(p: seq<Node>, n: Node)
    requires n !in p
    ensures Joined(ViewOf(p), n, ViewOf(p + [n])) && Absent(ViewOf(p), n)
  {
    forall q { WaitingOne(p, n, q); }
    forall q {:trigger AbsentAt(ViewOf(p), n, q)} ensures AbsentAt(ViewOf(p), n, q) { WaitingMember(p, q, n); }
  }

  class Dag {
    var ht: map<Qid, Queue<Node>>
    var white: seq<Node>
    ghost var s: Sched

    function Q(q: Qid): seq<Node>
      reads this`ht, ht.Values
    {
      if q in ht then ht[q].Contents() else []
    }

    ghost predicate Apart()
      reads this`ht
    {
      forall a, b :: a in ht && b in ht && a != b ==> ht[a] != ht[b]
    }

    ghost predicate Holds(w: View)
      reads this`ht, ht.Values
    {
      Apart() && forall q {:trigger Q(q)} :: Q(q) == w(q)
    }

    /** Exactly those that run are white or gray, and the white ones are in the white queue. */
    ghost predicate Painted(pending: set<Node>, runs: set<Node>, white': seq<Node>)
      reads this`white, pending
    {
      && white == white'
      && forall m :: m in pending ==> (m.color == Black <==> m !in runs) && (m.color == White <==> m in white')
    }

    /** The fields hold what s says. */
    ghost predicate Linked()
      reads this, ht.Values, Nodes(s.pending)
    {
      && Holds(ViewOf(s.pending)) && Painted(Nodes(s.pending), Running(s), s.white)
      && forall n :: n in s.pending ==> |n.qids| > 0
    }

    ghost predicate Valid()
      reads this, ht.Values, Nodes(s.pending)
    {
      Linked() && Ok(s)
    }

    constructor ()
      ensures Valid() && s == Sched([], [], [], [], [])
    {
      ht, white, s := map[], [], Sched([], [], [], [], []);
      new;
      assert Nodes([]) == {} && Runners([]) == {};
      forall q {:trigger OrderAt([], [], [], q)} ensures OrderAt([], [], [], q) {}
    }

    /** No two requests that are white or gray share a group. */
    lemma ColouredApart(m: Node, n: Node, q: Qid)
      requires Valid() && m in s.pending && n in s.pending && m.color != Black && n.color != Black
      requires q in m.qids && q in n.qids
      ensures m == n
    {
      assert m in Nodes(s.pending) && n in Nodes(s.pending);
      RunningApart(s, m, n, q);
    }

    // ---------- one queue ----------

    /** Appends to the queue of q, made if there is none; tells whether n is its head. */
    method PushOne(q: Qid, n: Node) returns (isHead: bool)
      requires Apart()
      modifies this`ht, ht.Values
      ensures Apart() && fresh(ht.Values - old(ht.Values))
      ensures forall r :: Q(r) == old(Q(r)) + If(r == q, n)
      ensures isHead <==> old(Q(q)) == [] || old(Q(q))[0] == n
    {
      if q !in ht {
        var qu := new Queue<Node>();
        ht := ht[q := qu];
      }
      ht[q].Push(n);
      var head := ht[q].Peek();
      isHead := head == Some(n);
    }

    method TakeOne(q: Qid) returns (n: Node)
      requires Apart() && Q(q) != []
      modifies ht.Values
      ensures n == old(Q(q))[0] && Q(q) == old(Q(q))[1..]
      ensures forall r :: r != q ==> Q(r) == old(Q(r))
    {
      var o := ht[q].TryPop();
      n := o.value;
    }

    method PeekOne(q: Qid) returns (r: Option<Node>)
      requires Apart() && q in ht
      modifies ht.Values
      ensures r == if |Q(q)| > 0 then Some(Q(q)[0]) else None
      ensures forall p :: Q(p) == old(Q(p))
    {
      r := ht[q].Peek();
    }

    /** No queue was touched. */
    twostate lemma KeepHolds(w: View)
      requires ht == old(ht) && (forall q :: q in ht ==> unchanged(ht[q])) && old(Holds(w))
      ensures Holds(w)
    {
      forall q {:trigger Q(q)} ensures Q(q) == w(q) {
        assert old(Q(q)) == w(q);
        if q in ht { assert ht[q].Contents() == old(ht[q].Contents()); }
      }
    }

    /** Colours m white and appends it to the white queue. */
    method Release(m: Node, ghost pending: set<Node>, ghost runs: set<Node>, ghost w: View)
      requires m in pending && m !in runs && Painted(pending, runs, white) && Holds(w)
      modifies this`white, m
      ensures Painted(pending, runs + {m}, old(white) + [m]) && Holds(w) && m.color == White
    {
      label before:
      m.color := White;
      white := white + [m];
      KeepHolds@before(w);
    }

    // ---------- push ----------

    method AppendOne(n: Node, i: nat, ghost w: View, ghost v: nat -> View, go: bool) returns (go': bool)
      requires i < |n.qids| && Absent(w, n) && Steps(v, w, n) && Holds(v(i)) && (go <==> NobodyWaits(w, n, i))
      modifies this`ht, ht.Values
      ensures Holds(v(i + 1)) && fresh(ht.Values - old(ht.Values)) && (go' <==> NobodyWaits(w, n, i + 1))
    {
      var q := n.qids[i];
      assert StepOk(v, w, n, i) && Q(q) == v(i)(q) && AbsentAt(w, n, q);
      var isHead := PushOne(q, n);
      go' := go && isHead;
    }

    /** The loop of mpr_dag_push: true if n heads all its queues. */
    method PushAll(n: Node, ghost w: View, ghost w': View) returns (go: bool)
      requires Holds(w) && Joined(w, n, w') && Absent(w, n)
      modifies this`ht, ht.Values
      ensures fresh(ht.Values - old(ht.Values)) && Holds(w') && (go <==> Runs(w', n))
    {
      ghost var v := AddingSteps(w, n, w');
      SameHolds(w, v(0));
      go := AppendAll(n, w, v);
      SameHolds(v(|n.qids|), w');
      JoinedRuns(w, n, w');
    }

    lemma SameHolds(w: View, w': View)
      requires Holds(w) && forall q :: w(q) == w'(q)
      ensures Holds(w')
    {
    }

    method AppendAll(n: Node, ghost w: View, ghost v: nat -> View) returns (go: bool)
      requires Absent(w, n) && Steps(v, w, n) && Holds(v(0))
      modifies this`ht, ht.Values
      ensures fresh(ht.Values - old(ht.Values)) && Holds(v(|n.qids|)) && (go <==> NobodyWaits(w, n, |n.qids|))
    {
      go := true;
      for i := 0 to |n.qids|
        invariant Holds(v(i)) && fresh(ht.Values - old(ht.Values)) && (go <==> NobodyWaits(w, n, i))
      {
        go := AppendOne(n, i, w, v, go);
      }
    }

    /** mpr_dag_push. */
    method Push(qids: seq<Qid>, data: Data) returns (n: Node)
      requires Valid() && |qids| > 0
      modifies this, ht.Values
      ensures Valid() && fresh(n) && fresh(ht.Values - old(ht.Values)) && n.qids == qids && n.data == data
      ensures s == Pushed(old(s), n)
      ensures n.color == White <==> forall q :: q in qids ==> old(Q(q)) == []
      ensures n.color != White ==> n.color == Black
      ensures white == old(white) + If(n.color == White, n)
    {
      n := new Node(qids, data);
      assert n !in Nodes(s.pushed);
      PushKeeps(s, n);
      PushNode(n);
    }

    /** Nobody waits for the groups of n. */
    ghost predicate FreeQueues(n: Node)
      reads this`ht, ht.Values
    {
      forall q :: q in n.qids ==> Q(q) == []
    }

    lemma FreeMeansRuns(n: Node, w: View, w': View)
      requires Holds(w) && Joined(w, n, w') && Absent(w, n)
      ensures FreeQueues(n) <==> Runs(w', n)
    {
      JoinedRuns(w, n, w');
      forall q ensures Q(q) == w(q) {}
    }

    method PushNode(n: Node)
      requires Linked() && |n.qids| > 0 && n.color == Black
      requires n !in Nodes(s.pending) && n !in Nodes(s.white)
      modifies this, ht.Values, n
      ensures Linked() && fresh(ht.Values - old(ht.Values)) && s == Pushed(old(s), n)
      ensures n.color == White <==> old(FreeQueues(n))
      ensures n.color != White ==> n.color == Black
      ensures white == old(white) + If(n.color == White, n)
    {
      ghost var p := s.pending;
      var go := PushOrRelease(n, p, Runners(p));
      label before:
      s := Pushed(s, n);
      KeepHolds@before(ViewOf(p + [n]));
    }

    /** The queues and the colours. */
    method PushOrRelease(n: Node, ghost p: seq<Node>, ghost runs: set<Node>) returns (go: bool)
      requires Holds(ViewOf(p)) && Painted(Nodes(p), runs, white) && runs == Runners(p)
      requires n !in p && n !in white && n.color == Black
      modifies this`ht, this`white, ht.Values, n
      ensures fresh(ht.Values - old(ht.Values)) && Holds(ViewOf(p + [n])) && go == Runs(ViewOf(p + [n]), n)
      ensures Painted(Nodes(p + [n]), Runners(p + [n]), white) && white == old(white) + If(go, n)
      ensures (go <==> old(FreeQueues(n))) && n.color == if go then White else Black
    {
      ghost var all := Nodes(p) + {n};
      RunnersArePending(p);
      RunnersAdd(p, n);
      NodesAdd(p, n);
      PushJoins(p, n);
      FreeMeansRuns(n, ViewOf(p), ViewOf(p + [n]));
      go := PushAll(n, ViewOf(p), ViewOf(p + [n]));
      assert Painted(Nodes(p), runs, white);
      assert Painted(all, runs, white);
      if go { Release(n, all, runs, ViewOf(p + [n])); }
    }

    // ---------- release ----------

    /** mpr_dag_getwhite: hands out the oldest white request. None: there is none yet. */
    method GetWhite() returns (r: Option<Data>)
      requires Valid()
      modifies this`white, this`s, Nodes(s.pending)
      ensures Valid()
      ensures old(s.white) == [] ==> r == None && s == old(s)
      ensures old(white) != [] ==>
              r == Some(old(white)[0].data) && white == old(white)[1..] && old(white)[0].color == Gray
      ensures old(s.white) != [] ==> s == Taken(old(s)) && 0 <= Handed(old(s)) < |s.released|
      ensures old(s.white) != [] ==> r == Some(s.released[Handed(old(s))].data)
    {
      if |white| == 0 { return None; }
      TakeKeeps(s);
      RunnersArePending(s.pending);
      r := Some(white[0].data);
      label before:
      white[0].color := Gray;
      white := white[1..];
      s := Taken(s);
      KeepHolds@before(ViewOf(s.pending));
      forall m | m in Nodes(s.pending)
        ensures (m.color == Black <==> m !in Running(s)) && (m.color == White <==> m in white) {
        assert m in old(Nodes(s.white)) <==> m in old(s.white);
      }
    }

    // ---------- pop ----------

    /** Every group of m has a queue. */
    ghost predicate HasQueues(m: Node)
      reads this`ht
    {
      forall q :: q in m.qids ==> q in ht
    }

    /** The check whether m heads all its queues. */
    method HeadsAll(m: Node, ghost v: View) returns (go: bool)
      requires Holds(v) && HasQueues(m)
      modifies ht.Values
      ensures Holds(v) && (go <==> Runs(v, m))
    {
      go := true;
      for j := 0 to |m.qids|
        invariant Holds(v)
        invariant go <==> forall k :: 0 <= k < j ==> Leads(v, m, m.qids[k])
      {
        assert Q(m.qids[j]) == v(m.qids[j]);
        var h := PeekOne(m.qids[j]);
        if h != Some(m) { go := false; }
      }
    }

    method TakeHead(q: Qid, ghost w: View, ghost n: Node, ghost i: nat) returns (node: Node, h: Option<Node>)
      requires i < |n.qids| && q == n.qids[i] && Holds(Between(w, n, i))
      modifies ht.Values
      ensures node == n && Holds(Between(w, n, i + 1)) && NewHead(w, n, i, h)
    {
      BetweenNext(w, n, i);
      assert Q(q) == Between(w, n, i)(q);
      node := TakeOne(q);
      assert Q(q) == Times(Left(n.qids, i + 1, q), n) + w(q);
      h := PeekOne(q);
    }

    /** Pops one queue of n and looks at its new head: may it run now? */
    method TakeAndLook(q: Qid, ghost w: View, ghost n: Node, ghost i: nat, ghost rest: set<Node>, ghost runs: set<Node>)
      returns (node: Node, h: Option<Node>, go: bool)
      requires i < |n.qids| && q == n.qids[i] && n !in rest && AllWait(w, rest) && Holds(Between(w, n, i))
               && HasQueues(n)
      requires Painted(rest, runs, white) && runs == RunnersAt(w, n, i, rest)
      modifies ht.Values
      ensures node == n && Holds(Between(w, n, i + 1)) && Painted(rest, runs, white) && NewHead(w, n, i, h)
      ensures h == Some(n) ==> (go <==> n.color != White && Runs(Between(w, n, i + 1), n))
      ensures h != Some(n) ==> (go <==> h.Some? && RunsAt(w, n, i + 1, h.value))
    {
      node, h := TakeHead(q, w, n, i);
      OneMore(w, n, i, rest, h);
      go := false;
      if h.Some? && h.value.color != White {
        if h.value != n { WaitingHasQueues(w, n, i + 1, rest, h.value); }
        go := HeadsAll(h.value, Between(w, n, i + 1));
        if h.value != n { BetweenRuns(w, n, i + 1, h.value); }
      }
    }

    lemma WaitingHasQueues(w: View, n: Node, i: nat, rest: set<Node>, m: Node)
      requires i <= |n.qids| && AllWait(w, rest) && Holds(Between(w, n, i)) && m in rest
      ensures HasQueues(m)
    {
      forall q | q in m.qids ensures q in ht {
        assert m in Nodes(w(q));
        assert Q(q) == Between(w, n, i)(q);
      }
    }

    /** The request that finishes is released once more. */
    method ReleaseAgain(n: Node, ghost rest: set<Node>, ghost runs: set<Node>, ghost w: View)
      requires n !in rest && Painted(rest, runs, white) && Holds(w)
      modifies this`white, n
      ensures Painted(rest, runs, old(white) + [n]) && Holds(w) && n.color == White
    {
    label before:
      n.color := White;
      white := white + [n];
      KeepHolds@before(w);
    }

    /** Pops one queue of n, and releases its new head if that may run now. */
    method PopOne(q: Qid, ghost w: View, ghost n: Node, ghost i: nat, ghost rest: set<Node>, ghost runs: set<Node>)
      returns (node: Node, ghost add: seq<Node>)
      requires i < |n.qids| && q == n.qids[i] && n !in rest && AllWait(w, rest) && Holds(Between(w, n, i))
               && HasQueues(n)
      requires Painted(rest, runs, white) && runs == RunnersAt(w, n, i, rest)
      modifies this`white, ht.Values, rest, n
      ensures node == n && Holds(Between(w, n, i + 1))
      ensures Painted(rest, RunnersAt(w, n, i + 1, rest), old(white) + add)
      ensures OnePopped(n, i, old(n.color) == White, n.color == White, runs, RunnersAt(w, n, i + 1, rest), add)
    {
      var h, go;
      node, h, go := TakeAndLook(q, w, n, i, rest, runs);
      OneMore(w, n, i, rest, h);
      HeadsAgain(w, n, i + 1, rest);
      add := [];
      assert white + [] == white;
      if go {
        add := [h.value];
        if h != Some(n) { RunsIsLet(w, n, i, h.value); }
        if h == Some(node) { ReleaseAgain(h.value, rest, runs, Between(w, n, i + 1)); }
        else { Release(h.value, rest, runs, Between(w, n, i + 1)); }
      }
    }

    /** What the loop of mpr_dag_pop keeps; w are the queues without n, and rest the requests in them. */
    ghost predicate Popping(w: View, rest: set<Node>, runs0: set<Node>, n: Node, i: nat, white0: seq<Node>,
                            new_: seq<Node>)
      requires i <= |n.qids| && |n.qids| > 0
      reads this`ht, this`white, ht.Values, rest, n
    {
      && Holds(Between(w, n, i)) && HasQueues(n) && Painted(rest, RunnersAt(w, n, i, rest), white)
      && Tally(runs0, RunnersAt(w, n, i, rest), n, i, white0, new_, white, n.color == White)
    }

    method PopNext(q: Qid, ghost w: View, ghost rest: set<Node>, ghost runs0: set<Node>, ghost n: Node, ghost i: nat,
                   ghost white0: seq<Node>, ghost new_: seq<Node>)
                     returns (node: Node, ghost new': seq<Node>, ghost add: seq<Node>)
      requires n !in rest && AllWait(w, rest) && n in runs0 && i < |n.qids| && q == n.qids[i]
      requires Popping(w, rest, runs0, n, i, white0, new_)
      modifies this`white, ht.Values, rest, n
      ensures node == n && Popping(w, rest, runs0, n, i + 1, white0, new')
      ensures new' == new_ + add && |add| <= 1 && LetRun(n, i, add)
    {
      ghost var runs, was, painted := RunnersAt(w, n, i, rest), white, n.color == White;
      ghost var one;
      node, one := PopOne(q, w, n, i, rest, runs);
      new', add := TallyNext(runs0, runs, RunnersAt(w, n, i + 1, rest), n, i, white0, new_, was, painted, one,
                             n.color == White);
    }

    lemma StartPop(p: seq<Node>, n: Node, w: View, rest: set<Node>)
      requires Distinct(p) && n in Runners(p) && n.color != White && |n.qids| > 0
      requires Holds(ViewOf(p)) && Painted(Nodes(p), Runners(p), white)
      requires w == ViewOf(Without(p, n)) && rest == Nodes(Without(p, n))
      ensures n !in rest && AllWait(w, rest) && Popping(w, rest, Runners(p), n, 0, white, [])
    {
      FirstAndLast(p, n);
      NodesWithout(p, n);
      BetweenEnds(p, n);
      PendingWait(Without(p, n));
      forall q {:trigger Q(q)} ensures Q(q) == Between(w, n, 0)(q) {}
      forall q | q in n.qids ensures q in ht { assert Leads(ViewOf(p), n, q) && Q(q) == ViewOf(p)(q); }
      assert white + [] + [] == white && Nodes([]) == {};
    }

    lemma EndPop(p: seq<Node>, n: Node, w: View, rest: set<Node>, white0: seq<Node>, new_: seq<Node>)
      requires Distinct(p) && n in Runners(p) && |n.qids| > 0
      requires w == ViewOf(Without(p, n)) && rest == Nodes(Without(p, n))
      requires Popping(w, rest, Runners(p), n, |n.qids|, white0, new_)
      ensures Holds(w) && Painted(rest, Runners(Without(p, n)), white)
              && white == white0 + If(Repeats(n.qids), n) + new_
      ensures Distinct(new_) && Nodes(new_) == Runners(Without(p, n)) - Runners(p)
    {
      FirstAndLast(p, n);
      NodesWithout(p, n);
      RunnersArePending(Without(p, n));
      BetweenEnds(p, n);
      forall q {:trigger Q(q)} ensures Q(q) == w(q) {}
    }

    /** mpr_dag_pop, for the groups of a request that was handed out and has finished. If its first
        group is named again the finished request itself is released once more, before all others. */
    method Pop(qids: seq<Qid>, ghost n: Node) returns (data: Data)
      requires Valid() && n in s.pending && n.color == Gray && n.qids == qids
      modifies this, ht.Values, Nodes(s.pending)
      ensures data == n.data && |qids| > 0
      ensures old(s.white) <= s.white && Popped(old(s), n, s.white[|old(s.white)|..], s)
      ensures Ok(s) && white == old(white) + If(Repeats(qids), n) + s.white[|old(s.white)|..]
      ensures Valid() <==> !Repeats(qids)
    {
      assert n in Nodes(s.pending);
      ghost var new_;
      data, new_ := PopQueues(qids, s.pending, n);
      AfterPopOk(s, n, new_);
      label before:
      s := AfterPop(s, n, new_);
      KeepHolds@before(ViewOf(s.pending));
      assert s.white[|old(s.white)|..] == new_;
      ValidUnless(n, old(white), new_);
    }

    /** The finished request in the white queue is all that is wrong. */
    lemma ValidUnless(n: Node, white0: seq<Node>, new_: seq<Node>)
      requires Ok(s) && Holds(ViewOf(s.pending)) && Painted(Nodes(s.pending), Running(s), white)
      requires forall m :: m in s.pending ==> |m.qids| > 0
      requires |n.qids| > 0 && white == white0 + If(Repeats(n.qids), n) + new_ && s.white == white0 + new_
      ensures Valid() <==> !Repeats(n.qids)
    {
      if Repeats(n.qids) { assert |white| > |s.white|; } else { assert white == s.white; }
    }

    /** All queues of n. */
    method PopQueues(qids: seq<Qid>, ghost p: seq<Node>, ghost n: Node) returns (data: Data, ghost new_: seq<Node>)
      requires Distinct(p) && n in Runners(p) && n.qids == qids && |qids| > 0
      requires n.color != White && Holds(ViewOf(p)) && Painted(Nodes(p), Runners(p), white)
      modifies this`white, ht.Values, Nodes(Without(p, n)), n
      ensures data == n.data && Holds(ViewOf(Without(p, n)))
      ensures Painted(Nodes(Without(p, n)), Runners(Without(p, n)), white)
      ensures white == old(white) + If(Repeats(qids), n) + new_
      ensures Distinct(new_) && Nodes(new_) == Runners(Without(p, n)) - Runners(p) && InOrder(qids, new_)
    {
      ghost var w, rest, white0 := ViewOf(Without(p, n)), Nodes(Without(p, n)), white;
      StartPop(p, n, w, rest);
      data, new_ := PopLoop(qids, w, rest, Runners(p), n);
      EndPop(p, n, w, rest, white0, new_);
    }

    method PopLoop(qids: seq<Qid>, ghost w: View, ghost rest: set<Node>, ghost runs0: set<Node>, ghost n: Node)
      returns (data: Data, ghost new_: seq<Node>)
      requires n !in rest && AllWait(w, rest) && n in runs0 && n.qids == qids && |qids| > 0
      requires Popping(w, rest, runs0, n, 0, white, [])
      modifies this`white, ht.Values, rest, n
      ensures data == n.data && Popping(w, rest, runs0, n, |qids|, old(white), new_) && OrderedTo(n, |qids|, new_)
    {
      ghost var white0 := white;
      new_ := [];
      var ret: Option<Node> := None;
      for i := 0 to |qids|
        invariant Popping(w, rest, runs0, n, i, white0, new_) && OrderedTo(n, i, new_)
        invariant ret == if i > 0 then Some(n) else None
      {
        var node;
        ghost var add, before := [], new_;
        node, new_, add := PopNext(qids[i], w, rest, runs0, n, i, white0, before);
        OrderJoin(n, i, before, add);
        assert ret.Some? ==> node == ret.value;
        if ret.None? { ret := Some(node); }
      }
      data := ret.value.data;
    }
  }
}
