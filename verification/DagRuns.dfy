/** Whole runs of the scheduler, on values: what every push, release and pop keeps. */
module DagRuns {
  import opened Collections
  import opened DagOrder

  ghost function Nodes(s: seq<Node>): set<Node> { set n | n in s }

  /** The pending requests that are first in all their groups. */
  ghost function Runners(p: seq<Node>): set<Node> { set n | n in p && Runs(ViewOf(p), n) }

  /** pending: unfinished requests in push order; white: the queue of runnable requests; released:
      every request ever put into that queue; pushed and done: all requests in the order of their
      pushes and of their pops. */
  datatype Sched = Sched(pending: seq<Node>, white: seq<Node>, released: seq<Node>, pushed: seq<Node>, done: seq<Node>)

  /** The requests coloured white or gray. */
  ghost function Running(s: Sched): set<Node> { Runners(s.pending) }

  ghost predicate OrderAt(pushed: seq<Node>, done: seq<Node>, p: seq<Node>, q: Qid) {
    Waiting(pushed, q) == Waiting(done, q) + Waiting(p, q)
  }

  /** Each group finishes its requests in push order. */
  ghost predicate OrderOk(pushed: seq<Node>, done: seq<Node>, p: seq<Node>) {
    && Nodes(pushed) == Nodes(done) + Nodes(p) && Nodes(done) !! Nodes(p)
    && forall q {:trigger OrderAt(pushed, done, p, q)} :: OrderAt(pushed, done, p, q)
  }

  /** The last ones of a list, in order. */
  ghost predicate EndOf(a: seq<Node>, b: seq<Node>) { |a| <= |b| && a == b[|b| - |a|..] }

  /** How many requests were handed out. */
  ghost function Handed(s: Sched): int { |s.released| - |s.white| }

  /** Every request that runs or ran was released exactly once, and no other; those that wait to be
      handed out are the last ones released, in the order of their release. */
  ghost predicate Ok(s: Sched) {
    && Distinct(s.pending) && Distinct(s.white) && Distinct(s.released) && Distinct(s.pushed)
    && Nodes(s.white) <= Running(s) && EndOf(s.white, s.released)
    && Nodes(s.released) == Nodes(s.done) + Running(s)
    && OrderOk(s.pushed, s.done, s.pending)
  }

  // ---------- sets of requests ----------

  lemma DistinctAdd(s: seq<Node>, n: Node)
    requires Distinct(s) && n !in Nodes(s)
    ensures Distinct(s + [n])
  {
  }

  lemma NodesAdd(s: seq<Node>, n: Node)
    ensures Nodes(s + [n]) == Nodes(s) + {n}
  {
  }

  lemma DistinctJoin(a: seq<Node>, b: seq<Node>)
    requires Distinct(a) && Distinct(b) && Nodes(a) !! Nodes(b)
    ensures Distinct(a + b)
  {
    forall i, j | 0 <= i < j < |a + b| ensures (a + b)[i] != (a + b)[j] {
      if i < |a| && j >= |a| { assert a[i] in Nodes(a) && b[j - |a|] in Nodes(b); }
    }
  }

  lemma NodesJoin(a: seq<Node>, b: seq<Node>)
    ensures Nodes(a + b) == Nodes(a) + Nodes(b)
  {
  }

  lemma NodesWithout(p: seq<Node>, n: Node)
    requires Distinct(p) && n in p
    ensures Nodes(Without(p, n)) == Nodes(p) - {n}
  {
    forall m ensures m in Without(p, n) <==> m in p && m != n { WithoutMember(p, n, m); }
  }

  lemma {:induction false} SizeOfDistinct(s: seq<Node>)
    requires Distinct(s)
    ensures |Nodes(s)| == |s|
  {
    if |s| > 0 {
      var t, x := s[..|s| - 1], s[|s| - 1];
      SizeOfDistinct(t);
      NodesAdd(t, x);
      assert s == t + [x];
      assert x !in Nodes(t) by { assert forall i :: 0 <= i < |t| ==> t[i] == s[i]; }
    }
  }

  lemma RunnersArePending(p: seq<Node>)
    ensures Runners(p) <= Nodes(p)
  {
  }

  /** A push changes nothing for the others. */
  lemma RunnersAdd(p: seq<Node>, n: Node)
    requires n !in p
    ensures Runners(p + [n]) == Runners(p) + if Runs(ViewOf(p + [n]), n) then {n} else {}
  {
    forall m | m in p ensures Runs(ViewOf(p + [n]), m) <==> Runs(ViewOf(p), m) { AddedRuns(p, n, m); }
  }

  /** A pop stops nobody else from running. */
  lemma RunnersWithout(p: seq<Node>, n: Node)
    requires Distinct(p) && n in Runners(p)
    ensures Runners(p) - {n} <= Runners(Without(p, n))
  {
    forall m | m in Runners(p) - {n} ensures m in Runners(Without(p, n)) {
      WithoutMember(p, n, m);
      WithoutGone(p, n);
      forall q | q in m.qids ensures q !in n.qids { if q in n.qids { Exclusion(p, m, n, q); } }
      ApartFromGone(ViewOf(p), n, ViewOf(Without(p, n)), m);
    }
  }

  // ---------- steps ----------

  /** A push: the request is released at once exactly if nobody waits for its groups. */
  ghost function Pushed(s: Sched, n: Node): Sched {
    var go := Runs(ViewOf(s.pending + [n]), n);
    s.(pending := s.pending + [n], pushed := s.pushed + [n], white := s.white + If(go, n),
      released := s.released + If(go, n))
  }

  /** The oldest white request is handed out and turns gray. */
  ghost function Taken(s: Sched): Sched
    requires |s.white| > 0
  {
    s.(white := s.white[1..])
  }

  /** The last of the first i groups that m asks for too; -1 if there is none. */
  function LastShared(qids: seq<Qid>, i: nat, m: Node): (r: int)
    requires i <= |qids|
    ensures -1 <= r < i && (r >= 0 ==> qids[r] in m.qids)
    ensures forall p :: r < p < i ==> qids[p] !in m.qids
  {
    if i == 0 then -1 else if qids[i - 1] in m.qids then i - 1 else LastShared(qids, i - 1, m)
  }

  /** In the order of the groups whose pop let them run. */
  ghost predicate InOrder(qids: seq<Qid>, new_: seq<Node>) {
    forall j, k :: 0 <= j < k < |new_| ==> LastShared(qids, |qids|, new_[j]) < LastShared(qids, |qids|, new_[k])
  }

  /** A gray request finishes; those that begin to run are released, each when the last of the groups
      it waited for was popped. */
  ghost predicate Popped(s: Sched, n: Node, new_: seq<Node>, s': Sched)
    requires n in s.pending
  {
    && s' == s.(pending := Without(s.pending, n), done := s.done + [n], white := s.white + new_,
       released := s.released + new_)
    && Distinct(new_) && Nodes(new_) == Running(s') - Running(s) && InOrder(n.qids, new_)
  }

  lemma PushOrder(pushed: seq<Node>, done: seq<Node>, p: seq<Node>, n: Node)
    requires OrderOk(pushed, done, p) && n !in Nodes(pushed)
    ensures OrderOk(pushed + [n], done, p + [n])
  {
    NodesAdd(pushed, n);
    NodesAdd(p, n);
    forall q {:trigger OrderAt(pushed + [n], done, p + [n], q)} ensures OrderAt(pushed + [n], done, p + [n], q) {
      assert OrderAt(pushed, done, p, q);
      WaitingOne(pushed, n, q);
      WaitingOne(p, n, q);
    }
  }

  lemma EndMore(a: seq<Node>, b: seq<Node>, c: seq<Node>)
    requires EndOf(a, b)
    ensures EndOf(a + c, b + c)
  {
  }

  lemma PushKeeps(s: Sched, n: Node)
    requires Ok(s) && n !in Nodes(s.pushed)
    ensures Ok(Pushed(s, n)) && n !in Nodes(s.pending) && n !in Nodes(s.white)
  {
    RunnersArePending(s.pending);
    PushOrder(s.pushed, s.done, s.pending, n);
    RunnersAdd(s.pending, n);
    DistinctAdd(s.pushed, n);
    DistinctAdd(s.pending, n);
    DistinctAdd(s.white, n);
    DistinctAdd(s.released, n);
    NodesAdd(s.white, n);
    NodesAdd(s.released, n);
    EndMore(s.white, s.released, [n]);
    assert s.white + [] == s.white && s.released + [] == s.released;
  }

  lemma TakeKeeps(s: Sched)
    requires Ok(s) && |s.white| > 0
    ensures Ok(Taken(s)) && s.white[0] in Running(s) && Nodes(s.white) == {s.white[0]} + Nodes(Taken(s).white)
    ensures s.white[0] !in Taken(s).white
  {
    assert s.white == [s.white[0]] + s.white[1..];
    NodesJoin([s.white[0]], s.white[1..]);
    assert s.white[0] in Nodes(s.white);
  }

  lemma PopOrder(pushed: seq<Node>, done: seq<Node>, p: seq<Node>, n: Node)
    requires OrderOk(pushed, done, p) && Distinct(p) && n in p && Runs(ViewOf(p), n)
    ensures OrderOk(pushed, done + [n], Without(p, n))
  {
    NodesAdd(done, n);
    NodesWithout(p, n);
    var p' := Without(p, n);
    forall q {:trigger OrderAt(pushed, done + [n], p', q)} ensures OrderAt(pushed, done + [n], p', q) {
      assert OrderAt(pushed, done, p, q);
      WaitingOne(done, n, q);
      WithoutWaiting(p, n, q);
    }
  }

  lemma PopKeeps(s: Sched, n: Node, new_: seq<Node>, s': Sched)
    requires Ok(s) && n in s.pending && n in Running(s) && n !in Nodes(s.white) && Popped(s, n, new_, s')
    ensures Ok(s') && Running(s') == Running(s) - {n} + Nodes(new_)
  {
    var p := s.pending;
    PopOrder(s.pushed, s.done, p, n);
    WithoutDistinct(p, n);
    NodesWithout(p, n);
    RunnersWithout(p, n);
    RunnersArePending(p);
    RunnersArePending(s'.pending);
    DistinctJoin(s.white, new_);
    DistinctJoin(s.released, new_);
    NodesJoin(s.white, new_);
    NodesJoin(s.released, new_);
    EndMore(s.white, s.released, new_);
    NodesAdd(s.done, n);
  }

  ghost function AfterPop(s: Sched, n: Node, new_: seq<Node>): Sched
    requires n in s.pending
  {
    Sched(Without(s.pending, n), s.white + new_, s.released + new_, s.pushed, s.done + [n])
  }

  lemma AfterPopOk(s: Sched, n: Node, new_: seq<Node>)
    requires Ok(s) && n in s.pending && n in Running(s) && n !in Nodes(s.white)
    requires Distinct(new_) && Nodes(new_) == Runners(Without(s.pending, n)) - Running(s) && InOrder(n.qids, new_)
    ensures var s' := AfterPop(s, n, new_);
            Ok(s') && Nodes(s'.pending) <= Nodes(s.pending) && Popped(s, n, new_, s') && s'.white[|s.white|..] == new_
  {
    PopKeeps(s, n, new_, AfterPop(s, n, new_));
    NodesWithout(s.pending, n);
  }

  // ---------- what the invariant is for ----------

  /** No two requests that run share a group. */
  lemma RunningApart(s: Sched, m: Node, n: Node, q: Qid)
    requires m in Running(s) && n in Running(s) && q in m.qids && q in n.qids
    ensures m == n
  {
    Exclusion(s.pending, m, n, q);
  }

  /** While anything is pending something runs: the oldest pending request does. */
  lemma Progress(s: Sched)
    requires |s.pending| > 0
    ensures s.pending[0] in Running(s)
  {
    OldestRuns(s.pending);
  }

  /** A group's finished requests are its first ones in push order. */
  lemma GroupOrder(s: Sched, q: Qid)
    requires Ok(s)
    ensures Waiting(s.done, q) <= Waiting(s.pushed, q)
  {
    assert OrderAt(s.pushed, s.done, s.pending, q);
  }

  /** With no new request: something is handed out, or something handed out finishes. */
  ghost predicate DrainStep(s: Sched, s': Sched) {
    || (|s.white| > 0 && s' == Taken(s))
    || (|s.white| <= |s'.white| && exists n ::
       n in s.pending && n in Running(s) && n !in Nodes(s.white) && Popped(s, n, s'.white[|s.white|..], s'))
  }

  ghost predicate StepAt(run: seq<Sched>, j: nat) { j + 1 < |run| ==> DrainStep(run[j], run[j + 1]) }

  ghost predicate IsDrain(run: seq<Sched>) { forall j: nat {:trigger StepAt(run, j)} :: StepAt(run, j) }

  /** Nothing to hand out, and nothing handed out is unfinished. */
  ghost predicate Stuck(s: Sched) { s.white == [] && Running(s) <= Nodes(s.white) }

  ghost function Work(s: Sched): int { 2 * |s.pending| - |Running(s)| + |s.white| }

  lemma PopWork(s: Sched, n: Node, new_: seq<Node>, s': Sched)
    requires Ok(s) && n in s.pending && n in Running(s) && n !in Nodes(s.white) && Popped(s, n, new_, s')
    ensures Work(s') == Work(s) - 1
  {
    PopKeeps(s, n, new_, s');
    SizeOfDistinct(new_);
    assert Running(s) == (Running(s) - {n}) + {n};
    assert |Running(s')| == |Running(s) - {n}| + |Nodes(new_)|;
  }

  lemma DrainStepOk(s: Sched, s': Sched)
    requires Ok(s) && DrainStep(s, s')
    ensures Ok(s') && Work(s') == Work(s) - 1
  {
    if |s.white| > 0 && s' == Taken(s) {
      TakeKeeps(s);
    } else {
      var new_ := s'.white[|s.white|..];
      var n :| n in s.pending && n in Running(s) && n !in Nodes(s.white) && Popped(s, n, new_, s');
      PopKeeps(s, n, new_, s');
      PopWork(s, n, new_, s');
    }
  }

  /** A measure that every step lowers by one, along a run. */
  lemma {:induction false} Countdown<S>(ok: S -> bool, step: (S, S) -> bool, work: S -> int, run: seq<S>, i: nat)
    requires i < |run| && ok(run[0]) && forall j :: 0 <= j < |run| - 1 ==> step(run[j], run[j + 1])
    requires forall s, s' {:trigger step(s, s')} :: ok(s) && step(s, s') ==> ok(s') && work(s') == work(s) - 1
    ensures ok(run[i]) && work(run[i]) == work(run[0]) - i
  {
    if i > 0 {
      Countdown(ok, step, work, run, i - 1);
      assert step(run[i - 1], run[i]);
    }
  }

  lemma {:induction false} DrainOk(run: seq<Sched>, i: nat, s: Sched)
    requires i < |run| && Ok(run[0]) && IsDrain(run) && s == run[i]
    ensures Ok(s) && Work(s) == Work(run[0]) - i
  {
    var ok, step, work := (s: Sched) => Ok(s), (s: Sched, s': Sched) => DrainStep(s, s'), (s: Sched) => Work(s);
    forall s, s' {:trigger step(s, s')} | ok(s) && step(s, s') ensures ok(s') && work(s') == work(s) - 1 {
      DrainStepOk(s, s');
    }
    forall j | 0 <= j < |run| - 1 ensures step(run[j], run[j + 1]) { assert StepAt(run, j); }
    Countdown(ok, step, work, run, i);
  }

  lemma {:induction false} StuckMeansDone(s: Sched)
    requires Ok(s)
    ensures Stuck(s) <==> s.pending == []
    ensures Stuck(s) <==> Work(s) == 0
  {
    RunnersArePending(s.pending);
    SubsetSize(Running(s), Nodes(s.pending));
    SizeOfDistinct(s.white);
    SizeOfDistinct(s.pending);
    if |s.pending| > 0 { Progress(s); }
  }

  /** Whatever the order in which requests are handed out and finish, without new ones it stops
      after a fixed number of steps, and only when every request has finished. */
  lemma {:induction false} Drains(run: seq<Sched>, last: Sched)
    requires |run| > 0 && Ok(run[0]) && IsDrain(run) && last == run[|run| - 1]
    ensures Stuck(last) <==> last.pending == []
    ensures Stuck(last) <==> |run| - 1 == Work(run[0])
  {
    DrainOk(run, |run| - 1, last);
    StuckMeansDone(last);
  }

  // ---------- with new requests all the while ----------

  /** The request of the newest push, and of the newest pop. */
  ghost predicate PushStep(s: Sched, s': Sched) {
    |s'.pushed| > 0 && var n := s'.pushed[|s'.pushed| - 1]; n !in Nodes(s.pushed) && s' == Pushed(s, n)
  }

  ghost predicate PopStep(s: Sched, s': Sched, n: Node) {
    && n in s.pending && n in Running(s) && n !in Nodes(s.white) && |s.white| <= |s'.white|
    && Popped(s, n, s'.white[|s.white|..], s')
  }

  ghost predicate ServeStep(s: Sched, s': Sched) {
    || PushStep(s, s')
    || (|s.white| > 0 && s' == Taken(s))
    || (|s'.done| > |s.done| && PopStep(s, s', s'.done[|s.done|]))
  }

  ghost predicate ServeAt(run: seq<Sched>, j: nat) { j + 1 < |run| ==> ServeStep(run[j], run[j + 1]) }

  ghost predicate IsService(run: seq<Sched>) {
    |run| > 0 && Ok(run[0]) && forall j: nat {:trigger ServeAt(run, j)} :: ServeAt(run, j)
  }

  /** How many requests were pushed no later than n and are not finished, n included. */
  ghost function Rank(p: seq<Node>, n: Node): nat { if n in p then Index(p, n) + 1 else 0 }

  /** This step finishes a request that was pushed no later than n, which is pending. */
  ghost predicate ServesFor(s: Sched, s': Sched, n: Node) {
    && |s'.done| > |s.done| && n in s.pending && s'.done[|s.done|] in s.pending
    && Index(s.pending, s'.done[|s.done|]) <= Index(s.pending, n)
  }

  /** How many of the first i steps of a run do. */
  ghost function ServedFor(run: seq<Sched>, n: Node, i: nat): nat
    requires i < |run|
  {
    if i == 0 then 0 else ServedFor(run, n, i - 1) + if ServesFor(run[i - 1], run[i], n) then 1 else 0
  }

  lemma IndexIs(p: seq<Node>, n: Node, i: nat)
    requires Distinct(p) && i < |p| && p[i] == n
    ensures n in p && Index(p, n) == i
  {
  }

  lemma IndexWithout(p: seq<Node>, m: Node, n: Node)
    requires Distinct(p) && m in p && n in p && m != n
    ensures n in Without(p, m)
    ensures Index(Without(p, m), n) == Index(p, n) - if Index(p, m) < Index(p, n) then 1 else 0
  {
    var i, k := Index(p, m), Index(p, n);
    WithoutDistinct(p, m);
    IndexIs(Without(p, m), n, if i < k then k - 1 else k);
  }

  lemma ServeStepOk(s: Sched, s': Sched)
    requires Ok(s) && ServeStep(s, s')
    ensures Ok(s')
  {
    if PushStep(s, s') {
      PushKeeps(s, s'.pushed[|s'.pushed| - 1]);
    } else if |s.white| > 0 && s' == Taken(s) {
      TakeKeeps(s);
    } else {
      PopKeeps(s, s'.done[|s.done|], s'.white[|s.white|..], s');
    }
  }

  /** A step leaves as many before n as there were, or one less if it serves n. */
  lemma ServeStepRank(s: Sched, s': Sched, n: Node)
    requires Ok(s) && ServeStep(s, s') && n in s.pending + s.done
    ensures n in s'.pending + s'.done
    ensures Rank(s'.pending, n) + (if ServesFor(s, s', n) then 1 else 0) <= Rank(s.pending, n)
  {
    assert n in s.pending ==> n in Nodes(s.pending);
    assert n in s.done ==> n in Nodes(s.done);
    if PushStep(s, s') {
      PushedRank(s, s'.pushed[|s'.pushed| - 1], n);
    } else if !(|s.white| > 0 && s' == Taken(s)) {
      PoppedRank(s, s'.done[|s.done|], n, s');
    }
  }

  lemma PushedRank(s: Sched, x: Node, n: Node)
    requires Ok(s) && x !in Nodes(s.pushed) && n in s.pending + s.done
    ensures Rank(s.pending + [x], n) == Rank(s.pending, n)
  {
    assert n in Nodes(s.pending) + Nodes(s.done);
    DistinctAdd(s.pending, x);
    if n in s.pending { IndexIs(s.pending + [x], n, Index(s.pending, n)); }
  }

  lemma PoppedRank(s: Sched, m: Node, n: Node, s': Sched)
    requires Ok(s) && PopStep(s, s', m) && s'.done == s.done + [m] && n in s.pending + s.done
    ensures n in s'.pending + s'.done
    ensures Rank(s'.pending, n) + (if ServesFor(s, s', n) then 1 else 0) <= Rank(s.pending, n)
  {
    WithoutMember(s.pending, m, n);
    if n in s.pending && m != n { IndexWithout(s.pending, m, n); }
    assert n in s.done ==> n in Nodes(s.done);
    assert s'.done[|s.done|] == m;
  }

  /** Whatever is pushed meanwhile, a request waits for no more pops than there were unfinished
      requests pushed no later than it; and until it is finished one of those runs. */
  lemma {:induction false} Served(run: seq<Sched>, n: Node, i: nat)
    requires IsService(run) && i < |run| && n in run[0].pending
    ensures Ok(run[i]) && n in run[i].pending + run[i].done
    ensures ServedFor(run, n, i) + Rank(run[i].pending, n) <= Rank(run[0].pending, n)
    ensures ServedFor(run, n, i) >= Rank(run[0].pending, n) ==> n in run[i].done
    ensures n in run[i].pending ==> exists m ::
            m in run[i].pending && m in Running(run[i]) && Index(run[i].pending, m) <= Index(run[i].pending, n)
  {
    if i > 0 {
      Served(run, n, i - 1);
      assert ServeAt(run, i - 1);
      ServeStepOk(run[i - 1], run[i]);
      ServeStepRank(run[i - 1], run[i], n);
    }
    if n in run[i].pending {
      Progress(run[i]);
      IndexIs(run[i].pending, run[i].pending[0], 0);
    }
  }

  // ---------- first released, first handed out ----------

  /** How many of the first i steps of a run handed a request out. */
  ghost function HandOuts(run: seq<Sched>, i: nat): nat
    requires i < |run|
  {
    if i == 0 then 0 else HandOuts(run, i - 1) + if |run[i].white| < |run[i - 1].white| then 1 else 0
  }

  lemma ServeStepHands(s: Sched, s': Sched)
    requires Ok(s) && ServeStep(s, s')
    ensures s.released <= s'.released
    ensures Handed(s') == Handed(s) + if |s'.white| < |s.white| then 1 else 0
  {
  }

  /** A request that is the k-th to be handed out now stays so, one place less for every one handed out,
      and is handed out by the k-th that is, whatever is pushed and finishes meanwhile. */
  lemma {:induction false} HandedInOrder(run: seq<Sched>, i: nat, k: nat, s0: Sched, s: Sched)
    requires IsService(run) && i < |run| && s0 == run[0] && s == run[i] && k < |s0.white|
    ensures Ok(s) && s0.released <= s.released && Handed(s) == Handed(s0) + HandOuts(run, i)
    ensures HandOuts(run, i) <= k ==> k - HandOuts(run, i) < |s.white| && s.white[k - HandOuts(run, i)] == s0.white[k]
    ensures HandOuts(run, i) > k ==> s0.white[k] !in s.white
  {
    HandedSoFar(run, i, s0, s);
    var g := Handed(s0) + k;
    assert s0.white[k] == s0.released[g] == s.released[g];
    if HandOuts(run, i) > k {
      forall j | 0 <= j < |s.white| ensures s.white[j] != s0.white[k] {
        assert s.white[j] == s.released[Handed(s) + j];
      }
    }
  }

  lemma {:induction false} HandedSoFar(run: seq<Sched>, i: nat, s0: Sched, s: Sched)
    requires IsService(run) && i < |run| && s0 == run[0] && s == run[i]
    ensures Ok(s) && s0.released <= s.released && Handed(s) == Handed(s0) + HandOuts(run, i)
  {
    if i > 0 {
      HandedSoFar(run, i - 1, s0, run[i - 1]);
      assert ServeAt(run, i - 1);
      ServeStepOk(run[i - 1], s);
      ServeStepHands(run[i - 1], s);
    }
  }
}
