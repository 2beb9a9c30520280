/** mark_reachable and the rewritings of branches in jump_optimization: flow.c. */
module JumpOpt {
  import opened FlowGraph
  import opened Available

  // ----- reachable blocks -----

  ghost function Unmarked(index: seq<int>): nat {
    if index == [] then 0 else Unmarked(index[1..]) + if index[0] > 0 then 1 else 0
  }

  lemma {:induction false} MarkingReduces(x: seq<int>, y: seq<int>)
    requires |x| == |y| && forall k :: 0 <= k < |x| ==> y[k] > 0 ==> x[k] > 0
    ensures Unmarked(y) <= Unmarked(x)
    ensures (exists k :: 0 <= k < |x| && x[k] > 0 && y[k] <= 0) ==> Unmarked(y) < Unmarked(x)
  {
    if x != [] {
      MarkingReduces(x[1..], y[1..]);
      if k :| 0 <= k < |x| && x[k] > 0 && y[k] <= 0 {
        assert k > 0 ==> x[1..][k - 1] > 0 && y[1..][k - 1] <= 0;
      }
    }
  }

  /** y differs from x in that some positive numbers are negated, all of them of reachable blocks, and their
      successors are marked too. */
  ghost predicate Marking(fg: seq<Block>, x: seq<int>, y: seq<int>) {
    && |x| == |y| == |fg|
    && (forall k :: 0 <= k < |x| ==> y[k] == x[k] || (x[k] > 0 && y[k] == -x[k] && Reachable(fg, k)))
    && (forall k, j: nat :: 0 <= k < |x| && y[k] != x[k] && Edge(fg, k, j) ==> y[j] < 0)
  }

  lemma ReachableOn(fg: seq<Block>, i: nat, j: nat)
    requires Reachable(fg, i) && Edge(fg, i, j)
    ensures Reachable(fg, j)
  {
    var bs :| Path(fg, bs) && bs[|bs| - 1] == i;
    assert Path(fg, bs + [j]) && (bs + [j])[|bs + [j]| - 1] == j;
  }

  /** The part of a marking that is done when the block i itself has been marked and, of its successors, done. */
  ghost predicate MarkingFrom(fg: seq<Block>, x: seq<int>, y: seq<int>, i: nat, done: set<nat>) {
    && |x| == |y| == |fg| && i < |fg| && x[i] > 0 && y[i] < 0
    && (forall k :: 0 <= k < |x| ==> y[k] == x[k] || (x[k] > 0 && y[k] == -x[k] && Reachable(fg, k)))
    && (forall k, j: nat :: 0 <= k < |x| && k != i && y[k] != x[k] && Edge(fg, k, j) ==> y[j] < 0)
    && (forall j: nat :: j in done && j < |fg| ==> y[j] < 0)
  }

  lemma MarkingOn(fg: seq<Block>, x: seq<int>, y: seq<int>, z: seq<int>, i: nat, done: set<nat>, j: nat)
    requires MarkingFrom(fg, x, y, i, done) && j < |fg|
    requires y == z || Marking(fg, y, z)
    requires |z| == |fg| && z[j] < 0
    ensures MarkingFrom(fg, x, z, i, done + {j})
  {}

  /** Negates the index of block i and of blocks reachable through it, until every successor of a block that
      it marked is marked. */
  method MarkReachable(fg: seq<Block>, index: array<int>, i: nat)
    requires i < |fg| == index.Length && index[i] > 0 && Reachable(fg, i) && BranchesInside(fg)
    requires forall k :: 0 <= k < index.Length ==> index[k] != 0
    modifies index
    ensures index[i] < 0 && Marking(fg, old(index[..]), index[..])
    decreases Unmarked(index[..])
  {
    hide Reachable, Marking, MarkingFrom, Unmarked;
    ghost var x := index[..];
    index[i] := -index[i];
    MarkedFirst(fg, x, i);
    assert index[..] == x[i := -x[i]];
    ghost var done: set<nat> := {};
    assert fg[i] in fg;
    if !fg[i].branch.NoBranch? {
      var t := fg[i].branch.target;
      ghost var y := index[..];
      if index[t] >= 0 {
        MarkingFacts(fg, x, y, i, done, t);
        MarkReachable(fg, index, t);
      }
      MarkingOn(fg, x, y, index[..], i, done, t);
      done := done + {t};
    }
    if !fg[i].branch.Bra? && i + 1 < |fg| {
      ghost var y := index[..];
      if index[i + 1] >= 0 {
        MarkingFacts(fg, x, y, i, done, i + 1);
        MarkReachable(fg, index, i + 1);
      }
      MarkingOn(fg, x, y, index[..], i, done, i + 1);
      done := done + {i + 1};
    }
    MarkingDone(fg, x, index[..], i, done);
  }

  lemma MarkedFirst(fg: seq<Block>, x: seq<int>, i: nat)
    requires i < |fg| == |x| && x[i] > 0 && Reachable(fg, i)
    ensures MarkingFrom(fg, x, x[i := -x[i]], i, {})
  {}

  lemma MarkingFacts(fg: seq<Block>, x: seq<int>, y: seq<int>, i: nat, done: set<nat>, t: nat)
    requires MarkingFrom(fg, x, y, i, done) && Reachable(fg, i) && Edge(fg, i, t) && y[t] >= 0
    requires forall k :: 0 <= k < |x| ==> x[k] != 0
    ensures Reachable(fg, t) && y[t] > 0 && Unmarked(y) < Unmarked(x)
    ensures forall k :: 0 <= k < |x| ==> y[k] != 0
  {
    ReachableOn(fg, i, t);
    MarkingReduces(x, y);
  }

  lemma MarkingDone(fg: seq<Block>, x: seq<int>, y: seq<int>, i: nat, done: set<nat>)
    requires MarkingFrom(fg, x, y, i, done) && forall j: nat :: Edge(fg, i, j) ==> j in done
    ensures y[i] < 0 && Marking(fg, x, y)
  {}

  lemma {:induction false} MarkedOnPath(fg: seq<Block>, x: seq<int>, y: seq<int>, bs: seq<nat>)
    requires Marking(fg, x, y) && Path(fg, bs) && y[0] < 0 && forall k :: 0 <= k < |x| ==> x[k] > 0
    ensures bs[|bs| - 1] < |fg| && y[bs[|bs| - 1]] < 0
    decreases |bs|
  {
    var m := |bs| - 1;
    if m > 0 {
      assert Path(fg, bs[..m]);
      MarkedOnPath(fg, x, y, bs[..m]);
      assert Edge(fg, bs[m - 1], bs[m]);
    }
  }

  /** From the entry, exactly the reachable blocks are marked. */
  method MarkAll(fg: seq<Block>, index: array<int>)
    requires 0 < |fg| == index.Length && BranchesInside(fg) && forall k :: 0 <= k < index.Length ==> index[k] > 0
    modifies index
    ensures forall k :: 0 <= k < index.Length ==> (index[k] < 0 <==> Reachable(fg, k))
    ensures forall k :: 0 <= k < index.Length ==> index[k] == if index[k] < 0 then -old(index[k]) else old(index[k])
  {
    assert Path(fg, [0]) && [0][|[0]| - 1] == 0;
    MarkReachable(fg, index, 0);
    forall k | 0 <= k < index.Length && Reachable(fg, k)
      ensures index[k] < 0
    {
      var bs :| Path(fg, bs) && bs[|bs| - 1] == k;
      MarkedOnPath(fg, old(index[..]), index[..], bs);
    }
  }

  // ----- the instructions a run executes -----

  /** The non-branch instructions executed in the first n blocks from c. */
  function Executed(fg: seq<Block>, sem: Sem, c: Conf, n: nat): seq<IC> {
    if n == 0 then [] else
      var d := Run(fg, sem, c, n - 1);
      Executed(fg, sem, c, n - 1) + if d.pos < |fg| then fg[d.pos].ics else []
  }

  lemma {:induction false} RunOn(fg: seq<Block>, sem: Sem, c: Conf, m: nat, k: nat)
    ensures Run(fg, sem, c, m + k) == Run(fg, sem, Run(fg, sem, c, m), k)
    ensures Executed(fg, sem, c, m + k) == Executed(fg, sem, c, m) + Executed(fg, sem, Run(fg, sem, c, m), k)
    decreases k
  {
    hide Step;
    if k > 0 {
      RunOn(fg, sem, c, m, k - 1);
    }
  }

  /** m blocks of fg' do what n blocks of fg do: the same instructions, the same state, and both have left the
      function if fg has. */
  ghost predicate Matches(fg: seq<Block>, fg': seq<Block>, sem: Sem, s: Store, n: nat, m: nat) {
    var d, d' := Run(fg, sem, Conf(0, s), n), Run(fg', sem, Conf(0, s), m);
    && Executed(fg, sem, Conf(0, s), n) == Executed(fg', sem, Conf(0, s), m)
    && d.store == d'.store && (d.pos >= |fg| ==> d'.pos >= |fg'|)
  }

  ghost predicate Matched(fg: seq<Block>, fg': seq<Block>, sem: Sem, s: Store, n: nat) {
    exists m: nat :: Matches(fg, fg', sem, s, n, m)
  }

  /** Whatever fg does, fg' does. */
  ghost predicate Follows(fg: seq<Block>, fg': seq<Block>, sem: Sem) {
    forall s, n: nat :: Matched(fg, fg', sem, s, n)
  }

  /** The two graphs execute the same sequences of non-branch instructions. */
  ghost predicate Equivalent(fg: seq<Block>, fg': seq<Block>, sem: Sem) {
    Follows(fg, fg', sem) && Follows(fg', fg, sem)
  }

  lemma FollowsOn(f: seq<Block>, g: seq<Block>, h: seq<Block>, sem: Sem)
    requires Follows(f, g, sem) && Follows(g, h, sem)
    ensures Follows(f, h, sem)
  {
    forall s, n: nat
      ensures Matched(f, h, sem, s, n)
    {
      assert Matched(f, g, sem, s, n);
      var k: nat :| Matches(f, g, sem, s, n, k);
      assert Matched(g, h, sem, s, k);
      var m: nat :| Matches(g, h, sem, s, k, m);
      assert Matches(f, h, sem, s, n, m);
    }
  }

  lemma EquivalentOn(f: seq<Block>, g: seq<Block>, h: seq<Block>, sem: Sem)
    requires Equivalent(f, g, sem) && Equivalent(g, h, sem)
    ensures Equivalent(f, h, sem)
  {
    FollowsOn(f, g, h, sem);
    FollowsOn(h, g, f, sem);
  }

  lemma SelfEquivalent(fg: seq<Block>, sem: Sem)
    ensures Equivalent(fg, fg, sem)
  {
    forall s, n: nat
      ensures Matched(fg, fg, sem, s, n)
    {
      assert Matches(fg, fg, sem, s, n, n);
    }
  }

  /** From p', k blocks of fg' do what block p of fg does, up to related positions. */
  ghost predicate Answers(fg: seq<Block>, fg': seq<Block>, sem: Sem, related: (nat, nat) -> bool,
                          p: nat, p': nat, s: Store, k: nat)
    requires p < |fg|
  {
    var d, d' := Step(fg, sem, Conf(p, s)), Run(fg', sem, Conf(p', s), k);
    Executed(fg', sem, Conf(p', s), k) == fg[p].ics && d.store == d'.store && related(d.pos, d'.pos)
  }

  ghost predicate Answered(fg: seq<Block>, fg': seq<Block>, sem: Sem, related: (nat, nat) -> bool,
                           p: nat, p': nat, s: Store)
    requires p < |fg|
  {
    exists k: nat :: Answers(fg, fg', sem, related, p, p', s, k)
  }

  ghost predicate Simulates(fg: seq<Block>, fg': seq<Block>, sem: Sem, related: (nat, nat) -> bool) {
    && related(0, 0)
    && (forall p: nat, p': nat :: related(p, p') && p >= |fg| ==> p' >= |fg'|)
    && (forall p: nat, p': nat, s :: related(p, p') && p < |fg| ==> Answered(fg, fg', sem, related, p, p', s))
  }

  lemma {:induction false} SimulatedRun(fg: seq<Block>, fg': seq<Block>, sem: Sem, related: (nat, nat) -> bool,
                                       s: Store, n: nat) returns (m: nat)
    requires Simulates(fg, fg', sem, related)
    ensures Matches(fg, fg', sem, s, n, m)
    ensures related(Run(fg, sem, Conf(0, s), n).pos, Run(fg', sem, Conf(0, s), m).pos)
  {
    hide Step;
    if n == 0 {
      m := 0;
    } else {
      var l := SimulatedRun(fg, fg', sem, related, s, n - 1);
      var d, d' := Run(fg, sem, Conf(0, s), n - 1), Run(fg', sem, Conf(0, s), l);
      if d.pos < |fg| {
        assert Answered(fg, fg', sem, related, d.pos, d'.pos, d.store);
        var k: nat :| Answers(fg, fg', sem, related, d.pos, d'.pos, d.store, k);
        RunOn(fg', sem, Conf(0, s), l, k);
        m := l + k;
        assert d == Conf(d.pos, d.store) && d' == Conf(d'.pos, d.store);
      } else {
        m := l;
        Left(fg, sem, d);
      }
    }
  }

  lemma Left(fg: seq<Block>, sem: Sem, c: Conf)
    requires c.pos >= |fg|
    ensures Step(fg, sem, c) == c
  {}

  lemma SimulationFollows(fg: seq<Block>, fg': seq<Block>, sem: Sem, related: (nat, nat) -> bool)
    requires Simulates(fg, fg', sem, related)
    ensures Follows(fg, fg', sem)
  {
    forall s, n: nat
      ensures Matched(fg, fg', sem, s, n)
    {
      var m := SimulatedRun(fg, fg', sem, related, s, n);
    }
  }

  // ----- the rewritings -----

  /** marked contains the entry and every successor of its blocks, and their branches lead to labelled blocks. */
  ghost predicate Closed(fg: seq<Block>, marked: set<nat>) {
    && 0 < |fg| && 0 in marked
    && forall i :: 0 <= i < |fg| && i in marked ==>
         && (!fg[i].branch.NoBranch? ==>
               fg[i].branch.target < |fg| && fg[i].branch.target in marked && fg[fg[i].branch.target].labelled)
         && (!fg[i].branch.Bra? && i + 1 < |fg| ==> i + 1 in marked)
  }

  function Inside(size: nat, marked: set<nat>): (nat, nat) -> bool {
    (p: nat, p': nat) => p == p' && (p in marked || p >= size)
  }

  lemma SameBlock(fg: seq<Block>, fg': seq<Block>, sem: Sem, related: (nat, nat) -> bool, p: nat, s: Store)
    requires p < |fg| == |fg'| && fg'[p].ics == fg[p].ics
    requires related(Step(fg, sem, Conf(p, s)).pos, Step(fg', sem, Conf(p, s)).pos)
    ensures Answers(fg, fg', sem, related, p, p, s, 1)
  {
    assert Run(fg', sem, Conf(p, s), 0) == Conf(p, s);
    assert Run(fg', sem, Conf(p, s), 1) == Step(fg', sem, Conf(p, s));
    assert Executed(fg', sem, Conf(p, s), 0) == [];
    assert Executed(fg', sem, Conf(p, s), 1) == fg'[p].ics;
  }

  ghost predicate Alike(fg: seq<Block>, fg': seq<Block>, sem: Sem, p: nat, s: Store)
    requires |fg| == |fg'|
  {
    p < |fg| ==> fg'[p].ics == fg[p].ics && Step(fg, sem, Conf(p, s)) == Step(fg', sem, Conf(p, s))
  }

  /** Graphs whose marked blocks do the same, step by step. */
  lemma LockStep(fg: seq<Block>, fg': seq<Block>, marked: set<nat>, sem: Sem)
    requires |fg| == |fg'| && Closed(fg, marked)
    requires forall p, s :: p in marked ==> Alike(fg, fg', sem, p, s)
    ensures Equivalent(fg, fg', sem)
  {
    var related := Inside(|fg|, marked);
    forall p: nat, p': nat, s | related(p, p') && p < |fg|
      ensures Answered(fg, fg', sem, related, p, p', s) && Answered(fg', fg, sem, related, p, p', s)
    {
      assert Alike(fg, fg', sem, p, s);
      SameBlock(fg, fg', sem, related, p, s);
      SameBlock(fg', fg, sem, related, p, s);
    }
    SimulationFollows(fg, fg', sem, related);
    SimulationFollows(fg', fg, sem, related);
  }

  const GONE := Block(false, [], NoBranch)

  /** Deleting a block that cannot be reached. */
  lemma DeletingKeepsRuns(fg: seq<Block>, g: nat, marked: set<nat>, sem: Sem)
    requires Closed(fg, marked) && g < |fg| && g !in marked
    ensures Closed(fg[g := GONE], marked) && Equivalent(fg, fg[g := GONE], sem)
  {
    LockStep(fg, fg[g := GONE], marked, sem);
  }

  /** Deleting a branch to the following block. */
  lemma DroppingKeepsRuns(fg: seq<Block>, g: nat, marked: set<nat>, sem: Sem)
    requires Closed(fg, marked) && g < |fg| && !fg[g].branch.NoBranch? && fg[g].branch.target == g + 1 < |fg|
    ensures var fg' := fg[g := fg[g].(branch := NoBranch)];
            Closed(fg', marked) && Equivalent(fg, fg', sem)
  {
    LockStep(fg, fg[g := fg[g].(branch := NoBranch)], marked, sem);
  }

  function Negated(c: Cond): Cond {
    match c
    case EQ => NE
    case NE => EQ
    case LT => GE
    case GE => LT
    case GT => LE
    case LE => GT
  }

  /** bcc l1; bra l2; l1: */
  predicate Crossing(fg: seq<Block>, g: nat) {
    && g + 2 < |fg| && fg[g].branch.Bcc? && fg[g].branch.target == g + 2
    && !fg[g + 1].labelled && fg[g + 1].ics == [] && fg[g + 1].branch.Bra?
  }

  /** b!cc l2; bra l1; l1: */
  function Uncrossed(fg: seq<Block>, g: nat): seq<Block>
    requires Crossing(fg, g)
  {
    fg[g := fg[g].(branch := Bcc(Negated(fg[g].branch.cond), fg[g + 1].branch.target))]
      [g + 1 := fg[g + 1].(branch := Bra(g + 2))]
  }

  /** bcc a; bra b against b!cc b; bra a, where only block g leads to the second branch. */
  ghost predicate Crossed(fg: seq<Block>, fg': seq<Block>, g: nat) {
    && |fg| == |fg'| && g + 1 < |fg|
    && fg[g].branch.Bcc? && fg[g + 1].branch.Bra? && !fg[g + 1].labelled && fg[g + 1].ics == []
    && fg' == fg[g := fg[g].(branch := Bcc(Negated(fg[g].branch.cond), fg[g + 1].branch.target))]
                [g + 1 := fg[g + 1].(branch := Bra(fg[g].branch.target))]
  }

  /** In fg the second branch may still be ahead when fg' has already taken it. */
  function Ahead(size: nat, marked: set<nat>, g: nat, b: nat): (nat, nat) -> bool {
    (p: nat, p': nat) => if p == g then p' == b else p == p' && (p in marked || p >= size)
  }

  lemma {:induction false} TwoSteps(fg: seq<Block>, sem: Sem, c: Conf)
    requires c.pos < |fg|
    ensures Run(fg, sem, c, 2) == Step(fg, sem, Step(fg, sem, c))
    ensures Step(fg, sem, c).pos < |fg| && fg[Step(fg, sem, c).pos].ics == [] ==> Executed(fg, sem, c, 2) == fg[c.pos].ics
  {
    assert Run(fg, sem, c, 0) == c;
    assert Run(fg, sem, c, 1) == Step(fg, sem, c);
    assert Executed(fg, sem, c, 0) == [];
    assert Executed(fg, sem, c, 1) == fg[c.pos].ics;
  }

  /** An empty block that branches. */
  lemma JustBranches(fg: seq<Block>, sem: Sem, g: nat, s: Store)
    requires g < |fg| && fg[g].ics == [] && fg[g].branch.Bra?
    ensures Step(fg, sem, Conf(g, s)) == Conf(fg[g].branch.target, s)
  {}

  lemma NothingRun(fg: seq<Block>, fg': seq<Block>, sem: Sem, related: (nat, nat) -> bool, p: nat, p': nat, s: Store)
    requires p < |fg| && fg[p].ics == [] && fg[p].branch.Bra? && related(fg[p].branch.target, p')
    ensures Answered(fg, fg', sem, related, p, p', s)
  {
    JustBranches(fg, sem, p, s);
    assert Run(fg', sem, Conf(p', s), 0) == Conf(p', s) && Executed(fg', sem, Conf(p', s), 0) == [];
    assert Answers(fg, fg', sem, related, p, p', s, 0);
  }

  lemma CrossedAnswers(fg: seq<Block>, fg': seq<Block>, g: nat, marked: set<nat>, sem: Sem, p: nat, s: Store)
    requires Closed(fg, marked) && Closed(fg', marked) && Crossed(fg, fg', g) && g in marked
    requires p in marked && p < |fg| && p != g + 1
    ensures Answered(fg, fg', sem, Ahead(|fg|, marked, g + 1, fg[g + 1].branch.target), p, p, s)
  {
    hide ExecAll;
    var b := fg[g + 1].branch.target;
    var related := Ahead(|fg|, marked, g + 1, b);
    var d := Step(fg, sem, Conf(p, s));
    var d' := Step(fg', sem, Conf(p, s));
    assert d.store == d'.store;
    if p == g && d'.pos == g + 1 {
      TwoSteps(fg', sem, Conf(p, s));
      JustBranches(fg', sem, g + 1, d'.store);
      assert d' == Conf(g + 1, d.store);
      assert d.pos == fg[g].branch.target;
      assert Answers(fg, fg', sem, related, p, p, s, 2);
    } else {
      assert related(d.pos, d'.pos);
      SameBlock(fg, fg', sem, related, p, s);
    }
  }

  lemma CrossedFollows(fg: seq<Block>, fg': seq<Block>, g: nat, marked: set<nat>, sem: Sem)
    requires Closed(fg, marked) && Closed(fg', marked) && Crossed(fg, fg', g) && g in marked
    ensures Follows(fg, fg', sem)
  {
    var b := fg[g + 1].branch.target;
    var related := Ahead(|fg|, marked, g + 1, b);
    forall p: nat, p': nat, s | related(p, p') && p < |fg|
      ensures Answered(fg, fg', sem, related, p, p', s)
    {
      if p == g + 1 {
        NothingRun(fg, fg', sem, related, p, p', s);
      } else {
        CrossedAnswers(fg, fg', g, marked, sem, p, s);
      }
    }
    SimulationFollows(fg, fg', sem, related);
  }

  /** Turning the condition around, so that one branch is left. */
  lemma UncrossingKeepsRuns(fg: seq<Block>, g: nat, marked: set<nat>, sem: Sem)
    requires Closed(fg, marked) && Crossing(fg, g) && g in marked
    ensures Closed(Uncrossed(fg, g), marked) && Equivalent(fg, Uncrossed(fg, g), sem)
  {
    hide Closed, Uncrossed, Crossing, Crossed, Follows;
    UncrossingCloses(fg, g, marked);
    CrossedFollows(fg, Uncrossed(fg, g), g, marked, sem);
    CrossedFollows(Uncrossed(fg, g), fg, g, marked, sem);
  }

  /** The uncrossed form is crossed back by the same rewriting. */
  lemma UncrossingCloses(fg: seq<Block>, g: nat, marked: set<nat>)
    requires Closed(fg, marked) && Crossing(fg, g) && g in marked
    ensures Closed(Uncrossed(fg, g), marked)
    ensures Crossed(fg, Uncrossed(fg, g), g) && Crossed(Uncrossed(fg, g), fg, g)
  {
    var fg' := Uncrossed(fg, g);
    assert Negated(Negated(fg[g].branch.cond)) == fg[g].branch.cond;
    assert fg == fg'[g := fg[g]][g + 1 := fg[g + 1]];
  }

  /** Block p branches to block g, which only branches on. */
  predicate Bypassable(fg: seq<Block>, p: nat, g: nat) {
    && p < |fg| && g < |fg| && fg[g].ics == [] && fg[g].branch.Bra? && fg[g].branch.target != g
    && !fg[p].branch.NoBranch? && fg[p].branch.target == g
  }

  function Bypassed(fg: seq<Block>, p: nat, g: nat): seq<Block>
    requires Bypassable(fg, p, g)
  {
    fg[p := fg[p].(branch := fg[p].branch.(target := fg[g].branch.target))]
  }

  /** In fg' the bypassed branch g has been taken already. */
  function Beyond(size: nat, marked: set<nat>, g: nat, t: nat): (nat, nat) -> bool {
    (p: nat, p': nat) => (p == p' && (p in marked || p >= size)) || (p == g && p' == t)
  }

  /** A branch to a branch may as well go where that goes. */
  lemma BypassingKeepsRuns(fg: seq<Block>, p0: nat, g: nat, marked: set<nat>, sem: Sem)
    requires Closed(fg, marked) && Bypassable(fg, p0, g) && p0 in marked
    ensures Closed(Bypassed(fg, p0, g), marked) && Equivalent(fg, Bypassed(fg, p0, g), sem)
  {
    hide ExecAll;
    var fg' := Bypassed(fg, p0, g);
    var t := fg[g].branch.target;
    var related := Beyond(|fg|, marked, g, t);
    var same := Inside(|fg|, marked);
    forall p: nat, p': nat, s | related(p, p') && p < |fg|
      ensures Answered(fg, fg', sem, related, p, p', s)
    {
      if p == p' {
        SameBlock(fg, fg', sem, related, p, s);
      } else {
        NothingRun(fg, fg', sem, related, p, p', s);
      }
    }
    SimulationFollows(fg, fg', sem, related);
    forall p: nat, p': nat, s | same(p, p') && p < |fg|
      ensures Answered(fg', fg, sem, same, p, p', s)
    {
      BypassedAnswers(fg, p0, g, marked, sem, p, s);
    }
    SimulationFollows(fg', fg, sem, same);
  }

  lemma BypassedAnswers(fg: seq<Block>, p0: nat, g: nat, marked: set<nat>, sem: Sem, p: nat, s: Store)
    requires Closed(fg, marked) && Bypassable(fg, p0, g) && p0 in marked && p in marked && p < |fg|
    ensures Answered(Bypassed(fg, p0, g), fg, sem, Inside(|fg|, marked), p, p, s)
  {
    hide ExecAll;
    var fg' := Bypassed(fg, p0, g);
    var same := Inside(|fg|, marked);
    var d := Step(fg, sem, Conf(p, s));
    var d' := Step(fg', sem, Conf(p, s));
    if d == d' {
      SameBlock(fg', fg, sem, same, p, s);
    } else {
      TwoSteps(fg, sem, Conf(p, s));
      assert d == Conf(g, d.store);
      JustBranches(fg, sem, g, d.store);
      assert Answers(fg', fg, sem, same, p, p, s, 2);
    }
  }

  // ----- one pass of jump_optimization -----

  /** What a rewriting step keeps: the run from the original graph and the closed set. */
  ghost predicate Kept(was: seq<Block>, fg: seq<Block>, marked: set<nat>, sem: Sem) {
    |was| == |fg| && Closed(fg, marked) && Equivalent(was, fg, sem)
  }

  lemma KeptOn(was: seq<Block>, fg: seq<Block>, fg': seq<Block>, marked: set<nat>, sem: Sem)
    requires Kept(was, fg, marked, sem) && |fg'| == |fg| && Closed(fg', marked) && Equivalent(fg, fg', sem)
    ensures Kept(was, fg', marked, sem)
  {
    EquivalentOn(was, fg, fg', sem);
  }

  ghost predicate Outside(fg: seq<Block>, marked: set<nat>, n: nat) {
    forall k :: 0 <= k < n && k < |fg| && k !in marked ==> fg[k] == GONE
  }

  /** Block g does not branch to the next block, nor around a branch. */
  predicate Straightened(fg: seq<Block>, g: nat)
    requires g < |fg|
  {
    !(g + 1 < |fg| && !fg[g].branch.NoBranch? && fg[g].branch.target == g + 1) && !Crossing(fg, g)
  }

  /** Of the blocks before n, those in marked are straightened and the others gone. */
  ghost predicate TidyBlocks(fg: seq<Block>, marked: set<nat>, n: nat)
    requires n <= |fg|
  {
    forall k: nat :: k < n ==> if k in marked then Straightened(fg, k) else fg[k] == GONE
  }

  ghost predicate NoDetours(fg: seq<Block>, ins: seq<seq<nat>>) {
    forall g: nat :: g < |ins| ==> NoDetour(fg, ins, g)
  }

  /** No listed predecessor of g could branch on to where g branches. */
  predicate NoDetour(fg: seq<Block>, ins: seq<seq<nat>>, g: nat)
    requires g < |ins|
  {
    forall k :: 0 <= k < |ins[g]| ==> !Bypassable(fg, ins[g][k], g)
  }

  // ----- what the rewritings lower -----

  /** Blocks that are not deleted, and branches. */
  ghost function Weight(fg: seq<Block>): nat {
    if fg == [] then 0 else
      Weight(fg[1..]) + (if fg[0] == GONE then 0 else 1) + if fg[0].branch.NoBranch? then 0 else 1
  }

  ghost function BlockWeight(b: Block): nat {
    (if b == GONE then 0 else 1) + if b.branch.NoBranch? then 0 else 1
  }

  lemma {:induction false} WeightChange(fg: seq<Block>, g: nat, b: Block)
    requires g < |fg|
    ensures Weight(fg[g := b]) == Weight(fg) - BlockWeight(fg[g]) + BlockWeight(b)
  {
    if g > 0 {
      WeightChange(fg[1..], g - 1, b);
      assert fg[g := b][1..] == fg[1..][g - 1 := b];
    } else {
      assert fg[g := b][1..] == fg[1..];
    }
  }

  /** The rewriting of one reachable block: a branch to the next block is dropped; around a branch, the condition is
      turned into its opposite and goes where the second branch went, and the second goes where the first did. */
  method RewriteBlock(fg: array<Block>, g: nat, ghost was: seq<Block>, ghost marked: set<nat>, ghost sem: Sem)
    returns (changed: bool)
    requires g < fg.Length && g in marked && Kept(was, fg[..], marked, sem) && Outside(fg[..], marked, g)
    modifies fg
    ensures Kept(was, fg[..], marked, sem) && Outside(fg[..], marked, g + 1)
    ensures !changed ==> fg[..] == old(fg[..])
    ensures changed <==> !Straightened(old(fg[..]), g)
    ensures changed ==> if Crossing(old(fg[..]), g) then Turned(old(fg[..]), fg[..], g)
                        else fg[..] == old(fg[..])[g := old(fg[g]).(branch := NoBranch)]
  {
    hide Equivalent, Kept, Closed;
    changed := false;
    if g + 1 < fg.Length && !fg[g].branch.NoBranch? && fg[g].branch.target == g + 1 {
      ghost var x := fg[..];
      KeptFacts(was, x, marked, sem);
      DroppingKeepsRuns(x, g, marked, sem);
      fg[g] := fg[g].(branch := NoBranch);
      assert fg[..] == x[g := x[g].(branch := NoBranch)];
      KeptOn(was, x, fg[..], marked, sem);
      changed := true;
    }
    if Crossing(fg[..], g) {
      ghost var x := fg[..];
      KeptFacts(was, x, marked, sem);
      UncrossingKeepsRuns(x, g, marked, sem);
      var l1 := fg[g].branch.target;
      fg[g] := fg[g].(branch := Bcc(Negated(fg[g].branch.cond), fg[g + 1].branch.target));
      fg[g + 1] := fg[g + 1].(branch := Bra(l1));
      assert fg[..] == Uncrossed(x, g);
      KeptOn(was, x, fg[..], marked, sem);
      changed := true;
    }
  }

  /** Blocks g and g + 1 with their branches turned around: taken where they were not, and to each other's target. */
  ghost predicate Turned(fg: seq<Block>, fg': seq<Block>, g: nat)
    requires Crossing(fg, g)
  {
    && |fg'| == |fg| && (forall k :: 0 <= k < |fg| && k != g && k != g + 1 ==> fg'[k] == fg[k])
    && fg'[g] == fg[g].(branch := fg'[g].branch) && fg'[g].branch.Bcc?
    && (forall cc :: Holds(fg'[g].branch.cond, cc) <==> !Holds(fg[g].branch.cond, cc))
    && fg'[g].branch.target == fg[g + 1].branch.target
    && fg'[g + 1] == fg[g + 1].(branch := Bra(fg[g].branch.target))
  }

  lemma KeptFacts(was: seq<Block>, fg: seq<Block>, marked: set<nat>, sem: Sem)
    requires Kept(was, fg, marked, sem)
    ensures |was| == |fg| && Closed(fg, marked)
  {}

  /** Blocks keep their labels and instructions, unless they are deleted. */
  ghost predicate SameCode(fg: seq<Block>, fg': seq<Block>, marked: set<nat>) {
    |fg| == |fg'| && forall k :: 0 <= k < |fg| && k in marked ==> fg'[k] == fg[k].(branch := fg'[k].branch)
  }

  /** Block g has been given a branch to the next block that will be dropped in its turn. */
  predicate Pending(fg: seq<Block>, marked: set<nat>, g: nat) {
    g + 1 < |fg| && g in marked && fg[g].branch == Bra(g + 1)
  }

  /** Of the blocks before g, those in marked are straightened and the others gone; only block g - 1 may still branch
      around a branch, if that is one that will be dropped. */
  ghost predicate TidyBefore(fg: seq<Block>, marked: set<nat>, g: nat)
    requires g <= |fg|
  {
    forall k: nat :: k < g ==>
      if k in marked then Straightened(fg, k) || (k + 1 == g && Pending(fg, marked, g) && (fg[k].branch.NoBranch? || fg[k].branch.target != g))
      else fg[k] == GONE
  }

  lemma TurnedBlock(x: seq<Block>, y: seq<Block>, marked: set<nat>, g: nat)
    requires g < |x| == |y| && g in marked && Closed(x, marked) && TidyBefore(x, marked, g) && Crossing(x, g) && Turned(x, y, g)
    ensures TidyBefore(y, marked, g + 1) && Pending(y, marked, g + 1) && !Pending(x, marked, g)
  {}

  lemma DroppedBlock(x: seq<Block>, marked: set<nat>, g: nat)
    requires g < |x| && g in marked && TidyBefore(x, marked, g) && !Crossing(x, g) && !Straightened(x, g)
    ensures TidyBefore(x[g := x[g].(branch := NoBranch)], marked, g + 1)
  {}

  lemma StraightBlock(x: seq<Block>, marked: set<nat>, g: nat)
    requires g < |x| && g in marked && TidyBefore(x, marked, g) && Straightened(x, g)
    ensures TidyBefore(x, marked, g + 1) && !Pending(x, marked, g)
  {}

  lemma TurnedWeight(x: seq<Block>, y: seq<Block>, g: nat)
    requires Crossing(x, g) && Turned(x, y, g)
    ensures Weight(y) <= Weight(x)
  {
    hide Weight, Holds;
    var b := x[g].(branch := y[g].branch);
    var c := x[g + 1].(branch := Bra(g + 2));
    assert y == x[g := b][g + 1 := c];
    WeightChange(x, g, b);
    WeightChange(x[g := b], g + 1, c);
  }

  /** One block rewritten: the blocks up to it are tidy, and the graph is lighter or will be with the next block. */
  lemma RewrittenBlock(x: seq<Block>, y: seq<Block>, marked: set<nat>, g: nat)
    requires g < |x| == |y| && g in marked && Closed(x, marked) && TidyBefore(x, marked, g)
    requires if Crossing(x, g) then Turned(x, y, g)
             else y == x[g := if Straightened(x, g) then x[g] else x[g].(branch := NoBranch)]
    ensures TidyBefore(y, marked, g + 1) && SameCode(x, y, marked)
    ensures Weight(y) <= Weight(x)
    ensures Pending(x, marked, g) ==> Weight(y) < Weight(x)
    ensures !Straightened(x, g) ==> Weight(y) < Weight(x) || Pending(y, marked, g + 1)
  {
    hide Weight, Holds, Closed, TidyBefore;
    if Crossing(x, g) {
      TurnedBlock(x, y, marked, g);
      TurnedWeight(x, y, g);
    } else {
      WeightChange(x, g, y[g]);
      if Straightened(x, g) {
        assert y == x;
        StraightBlock(x, marked, g);
      } else {
        DroppedBlock(x, marked, g);
      }
    }
  }

  /** A block that cannot be reached deleted. */
  lemma DeletedBlock(x: seq<Block>, marked: set<nat>, g: nat)
    requires g < |x| && g !in marked && TidyBefore(x, marked, g)
    ensures TidyBefore(x[g := GONE], marked, g + 1) && SameCode(x, x[g := GONE], marked)
    ensures !Pending(x, marked, g)
    ensures Weight(x[g := GONE]) <= Weight(x) && (x[g] != GONE ==> Weight(x[g := GONE]) < Weight(x))
  {
    hide Weight;
    WeightChange(x, g, GONE);
  }

  lemma TidyAtEnd(fg: seq<Block>, marked: set<nat>)
    requires TidyBefore(fg, marked, |fg|)
    ensures TidyBlocks(fg, marked, |fg|)
  {}

  lemma SameCodeOn(x: seq<Block>, y: seq<Block>, z: seq<Block>, marked: set<nat>)
    requires SameCode(x, y, marked) && SameCode(y, z, marked)
    ensures SameCode(x, z, marked)
  {}

  /** The first loop: unreachable blocks are deleted, reachable ones rewritten. Afterwards no block that is left
      branches to the next one or around a branch, and a change has made the graph lighter. */
  method RewriteBlocks(fg: array<Block>, index: array<int>, ghost was: seq<Block>, ghost marked: set<nat>, ghost sem: Sem)
    returns (changed: bool)
    requires fg.Length == index.Length && Kept(was, fg[..], marked, sem)
    requires forall k :: 0 <= k < index.Length ==> (index[k] < 0 <==> k in marked)
    modifies fg, index
    ensures Kept(was, fg[..], marked, sem) && Outside(fg[..], marked, fg.Length)
    ensures TidyBlocks(fg[..], marked, fg.Length) && SameCode(old(fg[..]), fg[..], marked)
    ensures !changed ==> fg[..] == old(fg[..])
    ensures changed <==> !TidyBlocks(old(fg[..]), marked, fg.Length)
    ensures changed ==> Weight(fg[..]) < Weight(old(fg[..]))
  {
    hide Equivalent, Kept, Straightened, Closed, Weight, Crossing, TidyBefore, Turned, Pending, SameCode;
    changed := false;
    ghost var start := fg[..];
    NothingYet(start, marked);
    for g := 0 to fg.Length
      invariant forall k :: g <= k < index.Length ==> (index[k] < 0 <==> k in marked)
      invariant Kept(was, fg[..], marked, sem) && Outside(fg[..], marked, g)
      invariant !changed ==> fg[..] == start
      invariant changed <==> !TidyBlocks(start, marked, g)
      invariant TidyBefore(fg[..], marked, g) && SameCode(start, fg[..], marked)
      invariant changed ==> Weight(fg[..]) < Weight(start) || (Pending(fg[..], marked, g) && Weight(fg[..]) <= Weight(start))
    {
      ghost var x := fg[..];
      KeptFacts(was, x, marked, sem);
      if index[g] < 0 {
        index[g] := -index[g];
        var c := RewriteBlock(fg, g, was, marked, sem);
        changed := changed || c;
        RewritingDone(x, fg[..], g, c);
        RewrittenBlock(x, fg[..], marked, g);
      } else {
        DeletedBlock(x, marked, g);
        if fg[g] != GONE {
          DeletingKeepsRuns(x, g, marked, sem);
          fg[g] := GONE;
          KeptOn(was, x, x[g := GONE], marked, sem);
          changed := true;
        }
        assert fg[..] == x[g := GONE];
      }
      SameCodeOn(start, x, fg[..], marked);
    }
    TidyAtEnd(fg[..], marked);
    NothingPending(fg[..], marked);
  }

  lemma RewritingDone(x: seq<Block>, y: seq<Block>, g: nat, changed: bool)
    requires g < |x| && (changed <==> !Straightened(x, g)) && (!changed ==> y == x)
    requires changed ==> if Crossing(x, g) then Turned(x, y, g) else y == x[g := x[g].(branch := NoBranch)]
    ensures if Crossing(x, g) then Turned(x, y, g)
            else y == x[g := if Straightened(x, g) then x[g] else x[g].(branch := NoBranch)]
  {}

  lemma NothingYet(fg: seq<Block>, marked: set<nat>)
    ensures TidyBefore(fg, marked, 0) && SameCode(fg, fg, marked)
  {}

  lemma NothingPending(fg: seq<Block>, marked: set<nat>)
    ensures !Pending(fg, marked, |fg|)
  {}

  // ----- detours -----

  /** Block x only branches on, to another block. */
  predicate Hops(fg: seq<Block>, x: nat) {
    x < |fg| && fg[x].ics == [] && fg[x].branch.Bra? && fg[x].branch.target != x
  }

  /** Where a branch to t has come after n such blocks. */
  function Onward(fg: seq<Block>, t: nat, n: nat): nat {
    if n == 0 then t else
      var x := Onward(fg, t, n - 1);
      if Hops(fg, x) then fg[x].branch.target else x
  }

  ghost predicate Passes(fg: seq<Block>, t: nat, x: nat) {
    exists n: nat :: Onward(fg, t, n) == x
  }

  /** The blocks that only branch on and that a branch to t passes. */
  ghost function Detour(fg: seq<Block>, t: nat): set<nat> {
    set x | 0 <= x < |fg| && Hops(fg, x) && Passes(fg, t, x)
  }

  /** Over the branches of the first n blocks: how many blocks that only branch on they pass. */
  ghost function Detours(fg: seq<Block>, n: nat): nat
    requires n <= |fg|
  {
    if n == 0 then 0 else
      Detours(fg, n - 1) + if fg[n - 1].branch.NoBranch? then 0 else |Detour(fg, fg[n - 1].branch.target)|
  }

  /** The branches of the listed blocks to block g, which only branches on, go where that goes. */
  ghost predicate BlockBypassed(x: seq<Block>, y: seq<Block>, preds: seq<nat>, g: nat) {
    && |x| == |y| && g < |x|
    && forall p: nat :: p < |x| ==>
         y[p] == if p in preds && Bypassable(x, p, g) then x[p].(branch := x[p].branch.(target := x[g].branch.target)) else x[p]
  }

  lemma {:induction false} OnwardBypassed(x: seq<Block>, y: seq<Block>, preds: seq<nat>, g: nat, t: nat, n: nat) returns (m: nat)
    requires BlockBypassed(x, y, preds, g)
    ensures Onward(y, t, n) == Onward(x, t, m)
  {
    if n == 0 {
      m := 0;
    } else {
      var l := OnwardBypassed(x, y, preds, g, t, n - 1);
      var p := Onward(y, t, n - 1);
      if !Hops(y, p) {
        m := l;
      } else if p in preds && Bypassable(x, p, g) {
        assert Onward(x, t, l + 1) == g;
        m := l + 2;
      } else {
        m := l + 1;
      }
    }
  }

  lemma DetourShrinks(x: seq<Block>, y: seq<Block>, preds: seq<nat>, g: nat, t: nat)
    requires BlockBypassed(x, y, preds, g)
    ensures Detour(y, t) <= Detour(x, t)
  {
    forall z | z in Detour(y, t)
      ensures z in Detour(x, t)
    {
      var n: nat :| Onward(y, t, n) == z;
      var m := OnwardBypassed(x, y, preds, g, t, n);
    }
  }

  lemma {:induction false} OnwardTwice(fg: seq<Block>, t: nat, m: nat, n: nat)
    ensures Onward(fg, Onward(fg, t, m), n) == Onward(fg, t, m + n)
  {
    if n > 0 { OnwardTwice(fg, t, m, n - 1); }
  }

  /** The branch to g passes what the branch to where g goes passes. */
  lemma DetourOn(fg: seq<Block>, g: nat)
    requires Hops(fg, g)
    ensures Detour(fg, fg[g].branch.target) <= Detour(fg, g) && g in Detour(fg, g)
  {
    assert Onward(fg, g, 0) == g;
    assert Onward(fg, g, 1) == fg[g].branch.target;
    forall z | z in Detour(fg, fg[g].branch.target)
      ensures z in Detour(fg, g)
    {
      var n: nat :| Onward(fg, fg[g].branch.target, n) == z;
      OnwardTwice(fg, g, 1, n);
    }
  }

  lemma SubsetSize(a: set<nat>, b: set<nat>)
    requires a <= b
    ensures |a| <= |b| && (a != b ==> |a| < |b|)
  {
    assert b == a + (b - a);
  }

  /** No branch leads to g any more. */
  ghost predicate Deserted(fg: seq<Block>, g: nat) {
    forall p: nat :: p < |fg| && !fg[p].branch.NoBranch? ==> fg[p].branch.target != g
  }

  lemma {:induction false} NeverBack(fg: seq<Block>, g: nat, t: nat, n: nat)
    requires Deserted(fg, g) && t != g
    ensures Onward(fg, t, n) != g
  {
    if n > 0 { NeverBack(fg, g, t, n - 1); }
  }

  /** What one branch passes. */
  ghost function Passed(fg: seq<Block>, p: nat): nat
    requires p < |fg|
  {
    if fg[p].branch.NoBranch? then 0 else |Detour(fg, fg[p].branch.target)|
  }

  lemma PassedShrinks(x: seq<Block>, y: seq<Block>, preds: seq<nat>, g: nat, p: nat)
    requires BlockBypassed(x, y, preds, g) && p < |x|
    ensures Passed(y, p) <= Passed(x, p)
    ensures p in preds && Bypassable(x, p, g) && Deserted(y, g) ==> Passed(y, p) < Passed(x, p)
  {
    hide Onward, Detour;
    if !x[p].branch.NoBranch? {
      var t := y[p].branch.target;
      DetourShrinks(x, y, preds, g, t);
      SubsetSize(Detour(y, t), Detour(x, t));
      if p in preds && Bypassable(x, p, g) {
        DetourOn(x, g);
        SubsetSize(Detour(y, t), Detour(x, g));
        if Deserted(y, g) { NotPassed(y, g, t); }
      }
    }
  }

  lemma NotPassed(fg: seq<Block>, g: nat, t: nat)
    requires Deserted(fg, g) && t != g
    ensures g !in Detour(fg, t)
  {
    forall n: nat
      ensures Onward(fg, t, n) != g
    {
      NeverBack(fg, g, t, n);
    }
  }

  lemma {:induction false} DetoursShrink(x: seq<Block>, y: seq<Block>, preds: seq<nat>, g: nat, n: nat)
    requires BlockBypassed(x, y, preds, g) && n <= |x|
    ensures Detours(y, n) <= Detours(x, n)
    ensures Deserted(y, g) && (exists p :: 0 <= p < n && p in preds && Bypassable(x, p, g)) ==> Detours(y, n) < Detours(x, n)
  {
    hide Detour, Bypassable, BlockBypassed, Deserted;
    if n > 0 {
      DetoursShrink(x, y, preds, g, n - 1);
      BypassedSizes(x, y, preds, g);
      PassedShrinks(x, y, preds, g, n - 1);
    }
  }

  lemma BypassedSizes(x: seq<Block>, y: seq<Block>, preds: seq<nat>, g: nat)
    requires BlockBypassed(x, y, preds, g)
    ensures |x| == |y|
  {}

  // ----- the second loop -----

  lemma NothingBypassed(x: seq<Block>, g: nat)
    requires g < |x|
    ensures BlockBypassed(x, x, [], g)
  {}

  /** One more predecessor. */
  lemma BypassStep(x: seq<Block>, y: seq<Block>, preds: seq<nat>, k: nat, g: nat)
    requires k < |preds| && preds[k] < |x| && BlockBypassed(x, y, preds[..k], g)
    ensures BlockBypassed(x, if Bypassable(y, preds[k], g) then Bypassed(y, preds[k], g) else y, preds[..k + 1], g)
    ensures (exists p :: p in preds[..k + 1] && Bypassable(x, p, g))
            <==> (exists p :: p in preds[..k] && Bypassable(x, p, g)) || Bypassable(y, preds[k], g)
  {
    assert preds[..k + 1] == preds[..k] + [preds[k]];
  }

  /** One block's turn: if it only branches on, the listed blocks that branch there branch on. */
  method BypassBlock(fg: array<Block>, preds: seq<nat>, g: nat, ghost was: seq<Block>, ghost marked: set<nat>, ghost sem: Sem)
    returns (changed: bool)
    requires g < fg.Length && forall k :: 0 <= k < |preds| ==> preds[k] < fg.Length
    requires Kept(was, fg[..], marked, sem) && Outside(fg[..], marked, fg.Length)
    modifies fg
    ensures Kept(was, fg[..], marked, sem) && Outside(fg[..], marked, fg.Length)
    ensures BlockBypassed(old(fg[..]), fg[..], preds, g)
    ensures changed <==> exists p :: p in preds && Bypassable(old(fg[..]), p, g)
    ensures !changed ==> fg[..] == old(fg[..])
  {
    hide Equivalent, Kept, BlockBypassed;
    changed := false;
    ghost var x := fg[..];
    NothingBypassed(x, g);
    assert preds[..0] == [];
    for k := 0 to |preds|
      invariant Kept(was, fg[..], marked, sem) && Outside(fg[..], marked, fg.Length)
      invariant BlockBypassed(x, fg[..], preds[..k], g)
      invariant changed <==> exists p :: p in preds[..k] && Bypassable(x, p, g)
      invariant !changed ==> fg[..] == x
    {
      var p := preds[k];
      ghost var y := fg[..];
      BypassStep(x, y, preds, k, g);
      if Bypassable(fg[..], p, g) {
        KeptFacts(was, y, marked, sem);
        BypassingKeepsRuns(y, p, g, marked, sem);
        fg[p] := fg[p].(branch := fg[p].branch.(target := fg[g].branch.target));
        assert fg[..] == Bypassed(y, p, g);
        KeptOn(was, y, fg[..], marked, sem);
        changed := true;
      }
    }
    assert preds[..|preds|] == preds;
  }

  /** Every branch is in the list of the block it leads to. */
  ghost predicate Listed(fg: seq<Block>, ins: seq<seq<nat>>) {
    |ins| == |fg| && forall p: nat :: p < |fg| && !fg[p].branch.NoBranch? && fg[p].branch.target < |fg| ==> p in ins[fg[p].branch.target]
  }

  lemma NowDeserted(x: seq<Block>, y: seq<Block>, ins: seq<seq<nat>>, g: nat)
    requires Listed(x, ins) && g < |x| && BlockBypassed(x, y, ins[g], g) && exists p :: p in ins[g] && Bypassable(x, p, g)
    ensures Deserted(y, g)
  {}

  lemma {:induction false} SameWeight(x: seq<Block>, y: seq<Block>)
    requires |x| == |y| && forall k :: 0 <= k < |x| ==> BlockWeight(y[k]) == BlockWeight(x[k])
    ensures Weight(x) == Weight(y)
  {
    if x != [] {
      assert forall k :: 0 <= k < |x| - 1 ==> x[1..][k] == x[k + 1] && y[1..][k] == y[k + 1];
      SameWeight(x[1..], y[1..]);
    }
  }

  lemma BypassedWeight(x: seq<Block>, y: seq<Block>, preds: seq<nat>, g: nat)
    requires BlockBypassed(x, y, preds, g)
    ensures Weight(y) == Weight(x)
  {
    hide Weight;
    forall k: nat | k < |x|
      ensures BlockWeight(y[k]) == BlockWeight(x[k])
    {}
    SameWeight(x, y);
  }

  /** The second loop: branches to a block that only branches on go where that leads, block after block. ins are the
      predecessor lists made before the first loop. If they list all branches, a change makes detours fewer. */
  method BypassBranches(fg: array<Block>, ins: seq<seq<nat>>, ghost was: seq<Block>, ghost marked: set<nat>, ghost sem: Sem)
    returns (changed: bool, ghost trace: seq<seq<Block>>)
    requires |ins| == fg.Length && forall g, k :: 0 <= g < |ins| && 0 <= k < |ins[g]| ==> ins[g][k] < fg.Length
    requires Kept(was, fg[..], marked, sem) && Outside(fg[..], marked, fg.Length)
    modifies fg
    ensures Kept(was, fg[..], marked, sem) && Outside(fg[..], marked, fg.Length)
    ensures |trace| == |ins| + 1 && trace[0] == old(fg[..]) && trace[|ins|] == fg[..]
    ensures forall g: nat :: g < |ins| ==> BlockBypassed(trace[g], trace[g + 1], ins[g], g)
    ensures !changed ==> fg[..] == old(fg[..])
    ensures changed <==> !NoDetours(old(fg[..]), ins)
    ensures Weight(fg[..]) == Weight(old(fg[..])) && Detours(fg[..], fg.Length) <= Detours(old(fg[..]), fg.Length)
    ensures changed && Listed(old(fg[..]), ins) ==> Detours(fg[..], fg.Length) < Detours(old(fg[..]), fg.Length)
  {
    hide Equivalent, Kept, Weight, Detours, BlockBypassed, Bypassable, Listed, Deserted;
    changed := false;
    ghost var start := fg[..];
    trace := [start];
    for g := 0 to fg.Length
      invariant Kept(was, fg[..], marked, sem) && Outside(fg[..], marked, fg.Length)
      invariant |trace| == g + 1 && trace[0] == start && trace[g] == fg[..]
      invariant forall h: nat :: h < g ==> BlockBypassed(trace[h], trace[h + 1], ins[h], h)
      invariant !changed ==> fg[..] == start && forall h: nat :: h < g ==> NoDetour(start, ins, h)
      invariant changed ==> !NoDetours(start, ins)
      invariant Weight(fg[..]) == Weight(start) && Detours(fg[..], fg.Length) <= Detours(start, fg.Length)
      invariant changed && Listed(start, ins) ==> Detours(fg[..], fg.Length) < Detours(start, fg.Length)
    {
      ghost var x := fg[..];
      var c := BypassBlock(fg, ins[g], g, was, marked, sem);
      assert c <==> !NoDetour(x, ins, g);
      BypassedWeight(x, fg[..], ins[g], g);
      if c && !changed && Listed(start, ins) {
        NowDeserted(x, fg[..], ins, g);
        PredsInside(x, ins[g], g);
      }
      DetoursShrink(x, fg[..], ins[g], g, fg.Length);
      trace := trace + [fg[..]];
      changed := changed || c;
    }
  }

  lemma PredsInside(x: seq<Block>, preds: seq<nat>, g: nat)
    requires exists p :: p in preds && Bypassable(x, p, g)
    ensures exists p :: 0 <= p < |x| && p in preds && Bypassable(x, p, g)
  {}

  /** What construct_flowgraph delivers: every branch leads to a block of the graph that starts with a label. */
  ghost predicate Constructed(fg: seq<Block>) {
    && 0 < |fg| && BranchesInside(fg)
    && forall i :: 0 <= i < |fg| && !fg[i].branch.NoBranch? ==> fg[fg[i].branch.target].labelled
  }

  ghost function Reached(fg: seq<Block>): set<nat> {
    set k | 0 <= k < |fg| && Reachable(fg, k)
  }

  lemma ReachedIsClosed(fg: seq<Block>, sem: Sem)
    requires Constructed(fg)
    ensures Kept(fg, fg, Reached(fg), sem)
  {
    hide Reachable;
    assert Reachable(fg, 0) by { EntryReachable(fg); }
    forall i, j: nat | i in Reached(fg) && Edge(fg, i, j)
      ensures j in Reached(fg)
    {
      ReachableOn(fg, i, j);
    }
    forall i | 0 <= i < |fg| && i in Reached(fg)
      ensures !fg[i].branch.NoBranch? ==> fg[i].branch.target in Reached(fg)
      ensures !fg[i].branch.Bra? && i + 1 < |fg| ==> i + 1 in Reached(fg)
    {
      assert fg[i] in fg;
      if !fg[i].branch.NoBranch? { assert Edge(fg, i, fg[i].branch.target); }
      if !fg[i].branch.Bra? && i + 1 < |fg| { assert Edge(fg, i, i + 1); }
    }
    SelfEquivalent(fg, sem);
  }

  lemma EntryReachable(fg: seq<Block>)
    requires 0 < |fg|
    ensures Reachable(fg, 0)
  {
    assert Path(fg, [0]) && [0][|[0]| - 1] == 0;
  }

  /** What no pass changes any more: every block can be reached or is gone, no reachable block branches to the next one
      or around a branch, and no listed predecessor of a block that only branches on branches there. */
  ghost predicate Tidy(fg: seq<Block>, ins: seq<seq<nat>>) {
    TidyBlocks(fg, Reached(fg), |fg|) && NoDetours(fg, ins)
  }

  /** What a pass lowers when it changes something, provided the predecessor lists list all branches: the blocks and
      branches that are left or, with as many of them, the blocks that only branch on and are passed. */
  ghost predicate Lower(fg: seq<Block>, fg': seq<Block>) {
    Weight(fg') < Weight(fg) || (Weight(fg') == Weight(fg) && Detours(fg', |fg'|) < Detours(fg, |fg|))
  }

  /** One pass keeps the sequences of non-branch instructions that runs execute, and deletes every block that
      cannot be reached. It reports a change exactly if the graph was not yet tidy, and then it has lowered it. */
  method JumpOptimizationPass(fg: array<Block>, ins: seq<seq<nat>>, ghost sem: Sem) returns (changed: bool)
    requires Constructed(fg[..])
    requires |ins| == fg.Length && forall g, k :: 0 <= g < |ins| && 0 <= k < |ins[g]| ==> ins[g][k] < fg.Length
    modifies fg
    ensures Equivalent(old(fg[..]), fg[..], sem)
    ensures forall k :: 0 <= k < fg.Length && !Reachable(old(fg[..]), k) ==> fg[k] == GONE
    ensures SameCode(old(fg[..]), fg[..], Reached(old(fg[..])))
    ensures Constructed(fg[..]) && Closed(fg[..], Reached(old(fg[..])))
    ensures !changed ==> fg[..] == old(fg[..])
    ensures changed <==> !Tidy(old(fg[..]), ins)
    ensures changed && Listed(old(fg[..]), ins) ==> Lower(old(fg[..]), fg[..])
  {
    hide Equivalent, Reachable, Closed, Constructed, TidyBlocks, NoDetours, SameCode, Weight, Detours, Listed,
         BlockBypassed;
    ghost var was := fg[..];
    ghost var marked := Reached(was);
    var index := new int[fg.Length](k => k + 1);
    ConstructedFacts(was);
    MarkAll(fg[..], index);
    ReachedIsClosed(was, sem);
    changed := RewriteBlocks(fg, index, was, marked, sem);
    ghost var x := fg[..];
    var c, trace := BypassBranches(fg, ins, was, marked, sem);
    SameCodeTraced(x, trace, ins, marked, |ins|);
    SameCodeOn(was, x, fg[..], marked);
    StillConstructed(fg[..], marked);
    changed := changed || c;
  }

  lemma {:induction false} SameCodeTraced(x: seq<Block>, trace: seq<seq<Block>>, ins: seq<seq<nat>>, marked: set<nat>, n: nat)
    requires n <= |ins| && |trace| == |ins| + 1 && trace[0] == x
    requires forall g: nat :: g < n ==> BlockBypassed(trace[g], trace[g + 1], ins[g], g)
    ensures SameCode(x, trace[n], marked)
  {
    if n > 0 {
      SameCodeTraced(x, trace, ins, marked, n - 1);
      SameCodeOn(x, trace[n - 1], trace[n], marked);
    }
  }

  lemma StillConstructed(fg: seq<Block>, marked: set<nat>)
    requires Closed(fg, marked) && Outside(fg, marked, |fg|)
    ensures Constructed(fg)
  {}

  lemma ConstructedFacts(fg: seq<Block>)
    requires Constructed(fg)
    ensures 0 < |fg| && BranchesInside(fg)
    ensures forall p :: 0 <= p < |fg| && !fg[p].branch.NoBranch? ==> fg[p].branch.target < |fg|
  {}

  // ----- the repetition -----

  /** ins[g] lists the block before g and the blocks below n that branch to g. */
  ghost predicate ListsBelow(fg: seq<Block>, ins: seq<seq<nat>>, n: nat) {
    |ins| == |fg| && forall g: nat, p: nat :: g < |fg| ==> (p in ins[g] <==> IsPredecessor(fg, p, g, n))
  }

  predicate IsPredecessor(fg: seq<Block>, p: nat, g: nat, n: nat) {
    p < |fg| && (p + 1 == g || (p < n && !fg[p].branch.NoBranch? && fg[p].branch.target == g))
  }

  lemma OneListed(fg: seq<Block>, ins: seq<seq<nat>>, n: nat, ins': seq<seq<nat>>)
    requires n < |fg| && ListsBelow(fg, ins, n)
    requires if fg[n].branch.NoBranch? || fg[n].branch.target >= |fg| then ins' == ins
             else ins' == ins[fg[n].branch.target := ins[fg[n].branch.target] + [n]]
    ensures ListsBelow(fg, ins', n + 1)
  {
    forall g: nat, p: nat | g < |fg|
      ensures p in ins'[g] <==> IsPredecessor(fg, p, g, n + 1)
    {
      assert p in ins[g] <==> IsPredecessor(fg, p, g, n);
    }
  }

  /** The predecessor lists of construct_flowgraph: the block before, and every block that branches there. */
  method ListPredecessors(fg: array<Block>) returns (ins: seq<seq<nat>>)
    requires forall p :: 0 <= p < fg.Length && !fg[p].branch.NoBranch? ==> fg[p].branch.target < fg.Length
    ensures ListsBelow(fg[..], ins, fg.Length)
  {
    ins := seq(fg.Length, g => if g > 0 then [g - 1] else []);
    for n := 0 to fg.Length
      invariant ListsBelow(fg[..], ins, n)
    {
      ghost var before := ins;
      if !fg[n].branch.NoBranch? {
        var t := fg[n].branch.target;
        ins := ins[t := ins[t] + [n]];
      }
      OneListed(fg[..], before, n, ins);
    }
  }

  lemma ListsAll(fg: seq<Block>, ins: seq<seq<nat>>)
    requires ListsBelow(fg, ins, |fg|)
    ensures Listed(fg, ins)
    ensures forall g, k :: 0 <= g < |ins| && 0 <= k < |ins[g]| ==> ins[g][k] < |fg|
    ensures NoDetours(fg, ins) <==> forall p: nat, g: nat :: !Bypassable(fg, p, g)
  {
    forall g, k | 0 <= g < |ins| && 0 <= k < |ins[g]|
      ensures ins[g][k] < |fg|
    {
      var p := ins[g][k];
      assert p in ins[g] && IsPredecessor(fg, p, g, |fg|);
    }
    forall p: nat, g: nat | Bypassable(fg, p, g)
      ensures !NoDetours(fg, ins)
    {
      assert IsPredecessor(fg, p, g, |fg|) && p in ins[g];
      var k :| 0 <= k < |ins[g]| && ins[g][k] == p;
      assert !NoDetour(fg, ins, g);
    }
    forall p: nat | p < |fg| && !fg[p].branch.NoBranch? && fg[p].branch.target < |fg|
      ensures p in ins[fg[p].branch.target]
    {
      assert IsPredecessor(fg, p, fg[p].branch.target, |fg|);
    }
  }

  /** Nothing is left to do: no block that cannot be reached, no branch to the next block, around a branch or to a
      block that only branches on. */
  ghost predicate Done(fg: seq<Block>) {
    TidyBlocks(fg, Reached(fg), |fg|) && forall p: nat, g: nat :: !Bypassable(fg, p, g)
  }

  /** Blocks that cannot be reached have neither label nor code. */
  ghost predicate NothingDead(fg: seq<Block>) {
    forall k: nat :: k < |fg| && !Reachable(fg, k) ==> !fg[k].labelled && fg[k].ics == [] && fg[k].branch == NoBranch
  }

  /** No branch could be done without: it does not lead to the next block, nor to a block that only branches on, other
      than to itself, nor around a block that no label leads to and that only branches. */
  ghost predicate NothingRoundabout(fg: seq<Block>) {
    forall p: nat :: p < |fg| && !fg[p].branch.NoBranch? && fg[p].branch.target < |fg| ==>
      var t := fg[p].branch.target;
      && t != p + 1
      && !(fg[t].ics == [] && fg[t].branch.Bra? && fg[t].branch.target != t)
      && !(fg[p].branch.Bcc? && t == p + 2 && !fg[p + 1].labelled && fg[p + 1].ics == [] && fg[p + 1].branch.Bra?)
  }

  lemma DoneMeans(fg: seq<Block>)
    requires Done(fg) && Constructed(fg)
    ensures NothingDead(fg) && NothingRoundabout(fg)
  {
    hide Reachable;
    forall p: nat | p < |fg| && !fg[p].branch.NoBranch?
      ensures Straightened(fg, p) && !Bypassable(fg, p, fg[p].branch.target)
    {
      assert fg[p] != GONE;
    }
  }

  /** The repetition ends, and then nothing is left to do and runs still execute the same sequences of non-branch
      instructions. */
  method JumpOptimization(fg: array<Block>, ghost sem: Sem)
    requires Constructed(fg[..])
    modifies fg
    ensures Equivalent(old(fg[..]), fg[..], sem)
    ensures Constructed(fg[..]) && NothingDead(fg[..]) && NothingRoundabout(fg[..])
  {
    hide Equivalent, Constructed, TidyBlocks, NoDetours, Weight, Detours, Listed, Reached, SameCode, Closed, Reachable,
         NothingDead, NothingRoundabout;
    var changed := true;
    SelfEquivalent(fg[..], sem);
    while changed
      invariant Constructed(fg[..]) && Equivalent(old(fg[..]), fg[..], sem)
      invariant !changed ==> Done(fg[..])
      decreases Weight(fg[..]), Detours(fg[..], fg.Length), changed
    {
      ghost var x := fg[..];
      ConstructedFacts(x);
      var ins := ListPredecessors(fg);
      ListsAll(x, ins);
      changed := JumpOptimizationPass(fg, ins, sem);
      EquivalentOn(old(fg[..]), x, fg[..], sem);
    }
    DoneMeans(fg[..]);
  }
}
