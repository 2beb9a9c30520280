/** What being live and being dead means, in instructions and paths instead of sets that are updated. */
module LiveMeaning {
  import opened FlowGraph
  import opened LiveVars

  // ----- inside a block -----

  /** p reads v other than as the operand that is also its target. */
  predicate UsesAnew(p: IC, v: nat) {
    v in p.uses && !(p.z == Var(v) && (p.q1 == p.z || p.q2 == p.z))
  }

  /** p gives v a value that does not come from v. */
  predicate Overwrites(p: IC, v: nat) {
    p.z == Var(v) && p.q1 != p.z && p.q2 != p.z
  }

  ghost predicate UsedFirst(ics: seq<IC>, v: nat, j: nat) {
    j < |ics| && UsesAnew(ics[j], v) && forall i :: 0 <= i < j ==> !Overwrites(ics[i], v)
  }

  ghost predicate OverwrittenFirst(ics: seq<IC>, v: nat, j: nat) {
    j < |ics| && Overwrites(ics[j], v) && forall i :: 0 <= i <= j ==> !UsesAnew(ics[i], v)
  }

  /** Where v is used or overwritten at all, one of the two comes first. */
  lemma {:induction false} OneComesFirst(ics: seq<IC>, v: nat, n: nat)
    requires n <= |ics|
    ensures (exists i :: 0 <= i < n && (UsesAnew(ics[i], v) || Overwrites(ics[i], v)))
            ==> exists j: nat :: j < n && (UsedFirst(ics, v, j) || OverwrittenFirst(ics, v, j))
  {
    if n > 0 {
      OneComesFirst(ics, v, n - 1);
      if (UsesAnew(ics[n - 1], v) || Overwrites(ics[n - 1], v))
         && !exists i :: 0 <= i < n - 1 && (UsesAnew(ics[i], v) || Overwrites(ics[i], v)) {
        assert UsedFirst(ics, v, n - 1) || OverwrittenFirst(ics, v, n - 1);
      }
    }
  }

  lemma PrefixFirst(ics: seq<IC>, v: nat, m: nat, j: nat)
    requires j < m <= |ics|
    ensures UsedFirst(ics, v, j) <==> UsedFirst(ics[..m], v, j)
    ensures OverwrittenFirst(ics, v, j) <==> OverwrittenFirst(ics[..m], v, j)
  {}

  ghost predicate SomeUsedFirst(ics: seq<IC>, v: nat) {
    exists j: nat :: UsedFirst(ics, v, j)
  }

  ghost predicate SomeOverwrittenFirst(ics: seq<IC>, v: nat) {
    exists j: nat :: OverwrittenFirst(ics, v, j)
  }

  /** One more instruction. */
  lemma FirstStep(ics: seq<IC>, v: nat, m: nat)
    requires |ics| == m + 1
    ensures SomeUsedFirst(ics, v)
            <==> SomeUsedFirst(ics[..m], v) || (UsesAnew(ics[m], v) && !SomeOverwrittenFirst(ics[..m], v))
    ensures SomeOverwrittenFirst(ics, v)
            <==> SomeOverwrittenFirst(ics[..m], v) || (Overwrites(ics[m], v) && !SomeUsedFirst(ics, v))
  {
    hide UsesAnew, Overwrites;
    forall j: nat | j < m
      ensures UsedFirst(ics, v, j) <==> UsedFirst(ics[..m], v, j)
      ensures OverwrittenFirst(ics, v, j) <==> OverwrittenFirst(ics[..m], v, j)
    {
      PrefixFirst(ics, v, m, j);
    }
    OneComesFirst(ics, v, m);
    if SomeUsedFirst(ics[..m], v) {
      var j: nat :| UsedFirst(ics[..m], v, j);
      assert UsedFirst(ics, v, j);
    } else if SomeOverwrittenFirst(ics[..m], v) {
      var j: nat :| OverwrittenFirst(ics[..m], v, j);
      assert OverwrittenFirst(ics, v, j) && !UsedFirst(ics, v, m);
    } else {
      forall i | 0 <= i < m
        ensures !UsesAnew(ics[i], v) && !Overwrites(ics[i], v)
      {}
      assert UsesAnew(ics[m], v) <==> UsedFirst(ics, v, m);
      assert Overwrites(ics[m], v) && !UsesAnew(ics[m], v) <==> OverwrittenFirst(ics, v, m);
    }
  }

  /** use(B) holds what some instruction reads before any overwrites it, def(B) what some instruction overwrites
      before any reads it. */
  lemma {:induction false} GenKillMeans(ics: seq<IC>, v: nat)
    ensures v in GenKill(ics).0 <==> SomeUsedFirst(ics, v)
    ensures v in GenKill(ics).1 <==> SomeOverwrittenFirst(ics, v)
  {
    hide UsesAnew, Overwrites;
    if ics != [] {
      var m := |ics| - 1;
      GenKillMeans(ics[..m], v);
      FirstStep(ics, v, m);
      ChangeMeans(ics[m], GenKill(ics[..m]), v);
    }
  }

  lemma ChangeMeans(p: IC, ud: (set<nat>, set<nat>), v: nat)
    ensures var after := AvChange(p, ud);
      && (v in after.0 <==> v in ud.0 || (UsesAnew(p, v) && v !in ud.1))
      && (v in after.1 <==> v in ud.1 || (Overwrites(p, v) && v !in after.0))
  {}

  // ----- what is deleted -----

  /** The instructions of a block that are kept. */
  function Selected(ics: seq<IC>, keep: seq<bool>): seq<IC>
    requires |keep| == |ics|
  {
    if ics == [] then [] else
      Selected(ics[..|ics| - 1], keep[..|ics| - 1]) + if keep[|ics| - 1] then [ics[|ics| - 1]] else []
  }

  /** An instruction that is kept, behind position k, reads v before any that is kept assigns to it. */
  ghost predicate ReadAt(ics: seq<IC>, keep: seq<bool>, k: int, v: nat, j: nat)
    requires |keep| == |ics|
  {
    k < j < |ics| && keep[j] && v in ics[j].uses && !AssignedBetween(ics, keep, k, v, j)
  }

  ghost predicate AssignedBetween(ics: seq<IC>, keep: seq<bool>, k: int, v: nat, n: nat)
    requires |keep| == |ics|
  {
    exists i: nat :: k < i < n && i < |ics| && keep[i] && ics[i].z == Var(v)
  }

  /** The value that v has behind position k is read in the block, or is still there at the end and used afterwards. */
  ghost predicate ReadLater(ics: seq<IC>, keep: seq<bool>, used: set<nat>, k: int, v: nat)
    requires |keep| == |ics|
  {
    (exists j: nat :: ReadAt(ics, keep, k, v, j)) || (v in used && !AssignedBetween(ics, keep, k, v, |ics|))
  }

  predicate TouchesVolatile(p: IC, volatile: set<nat>) {
    exists v :: v in volatile && Var(v) in [p.q1, p.q2, p.z]
  }

  /** Exactly those are deleted that assign to a variable whose value no instruction that is kept reads later and that
      is not used afterwards, unless something volatile is touched. */
  ghost predicate KeepsNeeded(ics: seq<IC>, keep: seq<bool>, used: set<nat>, volatile: set<nat>) {
    |keep| == |ics| && forall k: nat :: k < |ics| ==>
      (!keep[k] <==> ics[k].z.Var? && !ReadLater(ics, keep, used, k, ics[k].z.v) && !TouchesVolatile(ics[k], volatile))
  }

  lemma VolatileMeans(p: IC, volatile: set<nat>)
    ensures VolatileIC(p, volatile) <==> TouchesVolatile(p, volatile)
  {
    if VolatileIC(p, volatile) {
      var q :| q in [p.q1, p.q2, p.z] && q.Var? && q.v in volatile;
      assert Var(q.v) in [p.q1, p.q2, p.z];
    }
  }

  /** Reading later, seen from one instruction earlier in the block. */
  lemma LaterStep(ics: seq<IC>, keep: seq<bool>, used: set<nat>, k: int, v: nat)
    requires |keep| == |ics| > 0 && -1 <= k < |ics| - 1
    ensures var m := |ics| - 1;
            ReadLater(ics, keep, used, k, v)
            <==> ReadLater(ics[..m], keep[..m], if keep[m] then AvUpdate(ics[m], used) else used, k, v)
  {
    var m := |ics| - 1;
    forall n: nat | n <= m
      ensures AssignedBetween(ics, keep, k, v, n) <==> AssignedBetween(ics[..m], keep[..m], k, v, n)
    {
      BetweenInPrefix(ics, keep, k, v, m, n);
    }
    forall j: nat | j < m
      ensures ReadAt(ics, keep, k, v, j) <==> ReadAt(ics[..m], keep[..m], k, v, j)
    {}
    assert AssignedBetween(ics, keep, k, v, m + 1) <==> AssignedBetween(ics, keep, k, v, m) || (keep[m] && ics[m].z == Var(v)) by {
      if keep[m] && ics[m].z == Var(v) { assert AssignedBetween(ics, keep, k, v, m + 1); }
    }
    if j: nat :| ReadAt(ics[..m], keep[..m], k, v, j) {
      assert ReadAt(ics, keep, k, v, j);
    }
    if keep[m] && v in ics[m].uses && !AssignedBetween(ics, keep, k, v, m) {
      assert ReadAt(ics, keep, k, v, m);
    }
  }

  lemma BetweenInPrefix(ics: seq<IC>, keep: seq<bool>, k: int, v: nat, m: nat, n: nat)
    requires |keep| == |ics| && n <= m <= |ics|
    ensures AssignedBetween(ics, keep, k, v, n) <==> AssignedBetween(ics[..m], keep[..m], k, v, n)
  {
    if AssignedBetween(ics, keep, k, v, n) {
      var i: nat :| k < i < n && i < |ics| && keep[i] && ics[i].z == Var(v);
      assert keep[..m][i] && ics[..m][i].z == Var(v);
    }
    if AssignedBetween(ics[..m], keep[..m], k, v, n) {
      var i: nat :| k < i < n && i < |ics[..m]| && keep[..m][i] && ics[..m][i].z == Var(v);
      assert keep[i] && ics[i].z == Var(v);
    }
  }

  lemma LastLater(ics: seq<IC>, keep: seq<bool>, used: set<nat>, v: nat)
    requires |keep| == |ics| > 0
    ensures ReadLater(ics, keep, used, |ics| - 1, v) <==> v in used
  {}

  /** What dead_assignments leaves of a block. */
  lemma {:induction false} KeptMeans(ics: seq<IC>, used: set<nat>, volatile: set<nat>) returns (keep: seq<bool>)
    ensures KeepsNeeded(ics, keep, used, volatile) && Kept(ics, used, volatile) == Selected(ics, keep)
    ensures Reports(ics, used, volatile) <==> exists k :: 0 <= k < |ics| && !keep[k] && !ics[k].code.GetReturn?
  {
    hide ReadLater, TouchesVolatile, AvUpdate;
    if ics == [] {
      keep := [];
    } else {
      var m := |ics| - 1;
      var p := ics[m];
      var dead := Dead(p, used, volatile);
      var before := KeptMeans(ics[..m], if dead then used else AvUpdate(p, used), volatile);
      keep := before + [!dead];
      assert keep[..m] == before;
      VolatileMeans(p, volatile);
      forall k: nat | k < |ics|
        ensures !keep[k] <==> ics[k].z.Var? && !ReadLater(ics, keep, used, k, ics[k].z.v) && !TouchesVolatile(ics[k], volatile)
      {
        if k < m {
          assert ics[..m][k] == ics[k] && keep[k] == before[k];
          if ics[k].z.Var? { LaterStep(ics, keep, used, k, ics[k].z.v); }
        } else if p.z.Var? {
          LastLater(ics, keep, used, p.z.v);
        }
      }
    }
  }

  // ----- along paths -----

  /** A path from whose beginning on v is not overwritten first in any block but the last, which uses it or hands it
      to the caller. */
  ghost predicate LivePath(fg: seq<Block>, visible: set<nat>, bs: seq<nat>, v: nat) {
    && bs != [] && (forall k :: 0 <= k < |bs| ==> bs[k] < |fg|)
    && (forall k :: 0 <= k < |bs| - 1 ==> Edge(fg, bs[k], bs[k + 1]) && v !in GenKill(fg[bs[k]].ics).1)
    && var last := bs[|bs| - 1];
       v in GenKill(fg[last].ics).0 || (last == |fg| - 1 && v in visible && v !in GenKill(fg[last].ics).1)
  }

  ghost predicate LiveFrom(fg: seq<Block>, visible: set<nat>, i: nat, v: nat) {
    exists bs :: LivePath(fg, visible, bs, v) && bs[0] == i
  }

  lemma PathTail(fg: seq<Block>, visible: set<nat>, bs: seq<nat>, v: nat)
    requires LivePath(fg, visible, bs, v) && |bs| > 1
    ensures LivePath(fg, visible, bs[1..], v) && Edge(fg, bs[0], bs[1]) && v !in GenKill(fg[bs[0]].ics).1
  {
    hide GenKill, Edge;
    var cs := bs[1..];
    assert forall k :: 0 <= k < |cs| ==> cs[k] == bs[k + 1];
  }

  lemma EdgeIsLive(fg: seq<Block>, live: seq<set<nat>>, visible: set<nat>, i: nat, j: nat, v: nat)
    requires |live| == |fg| && Edge(fg, i, j) && v !in GenKill(fg[i].ics).1 && v in live[j]
    ensures v in InOf(fg, live, i, visible)
  {
    hide GenKill;
  }

  lemma {:induction false} PathIsLive(fg: seq<Block>, live: seq<set<nat>>, visible: set<nat>, bs: seq<nat>, v: nat)
    requires LiveSolution(fg, live, visible) && LivePath(fg, visible, bs, v)
    ensures v in live[bs[0]]
    decreases |bs|
  {
    hide GenKill, Edge;
    assert live[bs[0]] == InOf(fg, live, bs[0], visible);
    if |bs| > 1 {
      PathTail(fg, visible, bs, v);
      PathIsLive(fg, live, visible, bs[1..], v);
      EdgeIsLive(fg, live, visible, bs[0], bs[1], v);
    }
  }

  lemma LiveStep(fg: seq<Block>, visible: set<nat>, i: nat, j: nat, v: nat)
    requires i < |fg| && Edge(fg, i, j) && v !in GenKill(fg[i].ics).1 && LiveFrom(fg, visible, j, v)
    ensures LiveFrom(fg, visible, i, v)
  {
    hide GenKill, Edge;
    var bs :| LivePath(fg, visible, bs, v) && bs[0] == j;
    var cs := [i] + bs;
    assert forall k :: 0 < k < |cs| ==> cs[k] == bs[k - 1];
    assert LivePath(fg, visible, cs, v);
  }

  lemma LiveHere(fg: seq<Block>, visible: set<nat>, i: nat, v: nat)
    requires i < |fg|
    requires v in GenKill(fg[i].ics).0 || (i == |fg| - 1 && v in visible && v !in GenKill(fg[i].ics).1)
    ensures LiveFrom(fg, visible, i, v)
  {
    assert LivePath(fg, visible, [i], v) && [i][0] == i;
  }

  lemma ThePath(fg: seq<Block>, visible: set<nat>, i: nat, v: nat) returns (bs: seq<nat>)
    requires LiveFrom(fg, visible, i, v)
    ensures LivePath(fg, visible, bs, v) && bs[0] == i
  {
    bs :| LivePath(fg, visible, bs, v) && bs[0] == i;
  }

  /** Of the live variables, those with a path. */
  ghost function OnPaths(fg: seq<Block>, live: seq<set<nat>>, visible: set<nat>): (y: seq<set<nat>>)
    requires |live| == |fg|
    ensures |y| == |fg| && forall k :: 0 <= k < |fg| ==> y[k] == set u | u in live[k] && LiveFrom(fg, visible, k, u)
  {
    seq(|fg|, k requires 0 <= k < |fg| => set u | u in live[k] && LiveFrom(fg, visible, k, u))
  }

  lemma PathsAbove(fg: seq<Block>, live: seq<set<nat>>, visible: set<nat>, y: seq<set<nat>>)
    requires LiveSolution(fg, live, visible) && y == OnPaths(fg, live, visible)
    ensures Above(fg, y, visible)
  {
    hide GenKill, LiveFrom, OnPaths;
    forall i | 0 <= i < |fg|
      ensures InOf(fg, y, i, visible) <= y[i]
    {
      InOfMonotone(fg, y, live, i, visible);
      forall v | v in InOf(fg, y, i, visible)
        ensures LiveFrom(fg, visible, i, v)
      {
        InMeans(fg, live, visible, y, i, v);
      }
    }
  }

  lemma InMeans(fg: seq<Block>, live: seq<set<nat>>, visible: set<nat>, y: seq<set<nat>>, i: nat, v: nat)
    requires |live| == |fg| && y == OnPaths(fg, live, visible) && i < |fg| && v in InOf(fg, y, i, visible)
    ensures LiveFrom(fg, visible, i, v)
  {
    hide GenKill, LiveFrom, OnPaths;
    var (use, def) := GenKill(fg[i].ics);
    var b := fg[i];
    if v in use || (i == |fg| - 1 && v in visible) {
      LiveHere(fg, visible, i, v);
    } else if !b.branch.NoBranch? && b.branch.target < |fg| && v in y[b.branch.target] {
      LiveStep(fg, visible, i, b.branch.target, v);
    } else {
      LiveStep(fg, visible, i, i + 1, v);
    }
  }

  /** A variable is in the least solution if and only if there is such a path: it holds nothing that could be dead. */
  lemma LiveMeans(fg: seq<Block>, live: seq<set<nat>>, visible: set<nat>, i: nat, v: nat)
    requires LeastLive(fg, live, visible) && i < |fg|
    ensures v in live[i] <==> LiveFrom(fg, visible, i, v)
  {
    hide GenKill, LiveFrom, Above;
    if LiveFrom(fg, visible, i, v) {
      var bs := ThePath(fg, visible, i, v);
      PathIsLive(fg, live, visible, bs, v);
    }
    var y := OnPaths(fg, live, visible);
    PathsAbove(fg, live, visible, y);
    assert Below(live, y);
  }

  /** What the deletion takes as used after a block. */
  lemma OutMeans(fg: seq<Block>, live: seq<set<nat>>, visible: set<nat>, i: nat, v: nat)
    requires LeastLive(fg, live, visible) && i < |fg|
    ensures v in OutOf(fg, live, i, visible)
            <==> (i == |fg| - 1 && v in visible) || exists j: nat :: Edge(fg, i, j) && LiveFrom(fg, visible, j, v)
  {
    hide LiveFrom, LeastLive, LiveSolution, GenKill;
    SolutionSize(fg, live, visible);
    forall j: nat | j < |fg|
      ensures v in live[j] <==> LiveFrom(fg, visible, j, v)
    {
      LiveMeans(fg, live, visible, j, v);
    }
    var b := fg[i];
    if !b.branch.NoBranch? && b.branch.target < |fg| { assert Edge(fg, i, b.branch.target); }
    if !b.branch.Bra? && i + 1 < |fg| { assert Edge(fg, i, i + 1); }
  }

  lemma SolutionSize(fg: seq<Block>, live: seq<set<nat>>, visible: set<nat>)
    requires LeastLive(fg, live, visible)
    ensures |live| == |fg|
  {}
}
