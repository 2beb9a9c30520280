/** Live variables and removal of dead assignments: av.c. */
module LiveVars {
  import opened FlowGraph

  // ----- one instruction -----

  /** The operand that equals the target, as in x = x op y: it makes no new use of x. */
  function SelfOperand(p: IC): Obj {
    if p.q2 == p.z && p.q2.Var? then p.q2
    else if p.q1 == p.z && p.q1.Var? then p.q1
    else NoObj
  }

  /** The variables of us which are a new use: not the instruction's own operand self, not defined before. */
  function NewUses(us: seq<nat>, self: Obj, def: set<nat>): set<nat> {
    set v | v in us && Var(v) != self && v !in def
  }

  /** av_change on the pair (use, def) of the code before p. */
  function AvChange(p: IC, ud: (set<nat>, set<nat>)): (set<nat>, set<nat>) {
    var use := ud.0 + NewUses(p.uses, SelfOperand(p), ud.1);
    (use, if p.z.Var? && p.q1 != p.z && p.q2 != p.z && p.z.v !in use then ud.1 + {p.z.v} else ud.1)
  }

  function GenKill(ics: seq<IC>): (set<nat>, set<nat>) {
    if ics == [] then ({}, {}) else AvChange(ics[|ics| - 1], GenKill(ics[..|ics| - 1]))
  }

  /** av_update: the variables used at or after p, from those used after it. */
  function AvUpdate(p: IC, used: set<nat>): set<nat> {
    (if p.z.Var? then used - {p.z.v} else used) + (set v | v in p.uses)
  }

  predicate VolatileIC(p: IC, volatile: set<nat>) {
    || (p.q1.Var? && p.q1.v in volatile)
    || (p.q2.Var? && p.q2.v in volatile)
    || (p.z.Var? && p.z.v in volatile)
  }

  predicate Dead(p: IC, used: set<nat>, volatile: set<nat>) {
    p.z.Var? && p.z.v !in used && !VolatileIC(p, volatile)
  }

  /** What dead_assignments leaves of a block with the variables used after it. */
  function Kept(ics: seq<IC>, used: set<nat>, volatile: set<nat>): seq<IC> {
    if ics == [] then [] else
      var p, before := ics[|ics| - 1], ics[..|ics| - 1];
      if Dead(p, used, volatile) then Kept(before, used, volatile)
      else Kept(before, AvUpdate(p, used), volatile) + [p]
  }

  // ----- deleting keeps the meaning of a block -----

  /** The variables on which two runs must agree before p to agree on needed after it. */
  ghost function Need(p: IC, needed: set<nat>): set<nat> {
    if p.z.Var? && p.z.v !in needed then needed + (set v | v in p.uses && Var(v) != SelfOperand(p))
    else (if p.z.Var? then needed - {p.z.v} else needed) + (set v | v in p.uses)
  }

  ghost function NeedAll(ics: seq<IC>, used: set<nat>, needed: set<nat>, volatile: set<nat>): set<nat> {
    if ics == [] then needed else
      var p, before := ics[|ics| - 1], ics[..|ics| - 1];
      if Dead(p, used, volatile) then NeedAll(before, used, needed, volatile)
      else NeedAll(before, AvUpdate(p, used), Need(p, needed), volatile)
  }

  /** Two stores that nothing can tell apart which reads only the variables in vs. */
  ghost predicate Agree(s: Store, t: Store, vs: set<nat>) {
    && |s.vals| == |t.vals| && s.cc == t.cc && s.ret == t.ret && s.events == t.events
    && forall v :: v in vs && v < |s.vals| ==> s.vals[v] == t.vals[v]
  }

  lemma AgreeingArguments(p: IC, s: Store, t: Store, vs: set<nat>)
    requires Agree(s, t, vs) && forall v :: v in p.uses ==> v in vs
    ensures Values(p.uses, s.vals) == Values(p.uses, t.vals)
  {}

  lemma ExecAgrees(p: IC, sem: Sem, s: Store, t: Store, needed: set<nat>)
    requires Covered(p, |s.vals|) && Agree(s, t, Need(p, needed) + sem.volatile)
    ensures Agree(Exec(p, sem, s), Exec(p, sem, t), needed + sem.volatile)
  {
    match p.code {
      case Call(_) => CallAgrees(p, sem, s, t, needed);
      case Compare => TestAgrees(p, sem, s, t, needed);
      case SetReturn => TestAgrees(p, sem, s, t, needed);
      case Nop => TestAgrees(p, sem, s, t, needed);
      case _ => AssignAgrees(p, sem, s, t, needed);
    }
  }

  lemma TestAgrees(p: IC, sem: Sem, s: Store, t: Store, needed: set<nat>)
    requires Covered(p, |s.vals|) && Agree(s, t, Need(p, needed) + sem.volatile)
    requires p.code.Compare? || p.code.SetReturn? || p.code.Nop?
    ensures Agree(Exec(p, sem, s), Exec(p, sem, t), needed + sem.volatile)
  {}

  lemma AssignAgrees(p: IC, sem: Sem, s: Store, t: Store, needed: set<nat>)
    requires Covered(p, |s.vals|) && Agree(s, t, Need(p, needed) + sem.volatile)
    requires !p.code.Compare? && !p.code.SetReturn? && !p.code.Nop? && !p.code.Call?
    ensures Agree(Exec(p, sem, s), Exec(p, sem, t), needed + sem.volatile)
  {
    hide Agree, Computed, Seen, Exec;
    var vs := Need(p, needed) + sem.volatile;
    if !p.code.Address? {
      if Known(p.q1, vs) { OperandAgrees(p.q1, sem, s, t, vs); }
      if Known(p.q2, vs) { OperandAgrees(p.q2, sem, s, t, vs); }
      if !Known(p.q1, vs) { NothingSeen(p.q1, sem, s, t); }
      if !Known(p.q2, vs) { NothingSeen(p.q2, sem, s, t); }
    }
    if p.z.Var? && p.z.v !in needed && p.z.v !in sem.volatile {
      UnneededAgrees(p, sem, s, t, vs, needed + sem.volatile);
    } else {
      SameComputed(p, sem, s, t, vs);
      StoredAgrees(p, sem, s, t, vs, needed + sem.volatile);
    }
  }

  predicate Known(q: Obj, vs: set<nat>) {
    q.Var? ==> q.v in vs
  }

  lemma OperandAgrees(q: Obj, sem: Sem, s: Store, t: Store, vs: set<nat>)
    requires Agree(s, t, vs) && Known(q, vs)
    ensures Value(q, s.vals) == Value(q, t.vals) && Seen(q, sem, s.vals) == Seen(q, sem, t.vals)
  {}

  lemma NothingSeen(q: Obj, sem: Sem, s: Store, t: Store)
    requires !Known(q, sem.volatile)
    ensures Seen(q, sem, s.vals) == Seen(q, sem, t.vals)
  {}

  lemma SameComputed(p: IC, sem: Sem, s: Store, t: Store, vs: set<nat>)
    requires Agree(s, t, vs) && !p.code.Call?
    requires !p.code.Address? ==> Value(p.q1, s.vals) == Value(p.q1, t.vals) && Value(p.q2, s.vals) == Value(p.q2, t.vals)
    ensures Computed(p, sem, s) == Computed(p, sem, t)
  {}

  predicate Assigns(p: IC) {
    !p.code.Compare? && !p.code.SetReturn? && !p.code.Nop? && !p.code.Call?
  }

  predicate SeesSame(p: IC, sem: Sem, s: Store, t: Store) {
    p.code.Address? || (Seen(p.q1, sem, s.vals) == Seen(p.q1, sem, t.vals) && Seen(p.q2, sem, s.vals) == Seen(p.q2, sem, t.vals))
  }

  /** An assignment of the same value. */
  lemma StoredAgrees(p: IC, sem: Sem, s: Store, t: Store, vs: set<nat>, after: set<nat>)
    requires Assigns(p) && Agree(s, t, vs) && SeesSame(p, sem, s, t) && Computed(p, sem, s) == Computed(p, sem, t)
    requires forall v :: v in after ==> v in vs || p.z == Var(v)
    ensures Agree(Exec(p, sem, s), Exec(p, sem, t), after)
  {
    hide Seen, Computed;
  }

  /** An assignment to a variable that does not matter afterwards. */
  lemma UnneededAgrees(p: IC, sem: Sem, s: Store, t: Store, vs: set<nat>, after: set<nat>)
    requires Assigns(p) && Agree(s, t, vs) && SeesSame(p, sem, s, t)
    requires p.z.Var? && p.z.v !in after && p.z.v !in sem.volatile && forall v :: v in after ==> v in vs
    ensures Agree(Exec(p, sem, s), Exec(p, sem, t), after)
  {
    hide Seen, Computed;
  }

  lemma CallAgrees(p: IC, sem: Sem, s: Store, t: Store, needed: set<nat>)
    requires Covered(p, |s.vals|) && p.code.Call? && Agree(s, t, Need(p, needed) + sem.volatile)
    ensures Agree(Exec(p, sem, s), Exec(p, sem, t), needed + sem.volatile)
  {
    AgreeingArguments(p, s, t, Need(p, needed) + sem.volatile);
  }

  lemma DeadAgrees(p: IC, sem: Sem, s: Store, t: Store, needed: set<nat>)
    requires Covered(p, |s.vals|) && p.z.Var? && p.z.v !in needed && !VolatileIC(p, sem.volatile)
    requires Agree(s, t, needed + sem.volatile)
    ensures Agree(Exec(p, sem, s), t, needed + sem.volatile)
  {}

  /** Running what dead_assignments leaves gives the values needed afterwards and shows the same events. */
  lemma {:induction false} KeptAgrees(ics: seq<IC>, sem: Sem, s: Store, t: Store, used: set<nat>, needed: set<nat>)
    requires forall p :: p in ics ==> Covered(p, |s.vals|)
    requires needed <= used && Agree(s, t, NeedAll(ics, used, needed, sem.volatile) + sem.volatile)
    ensures Agree(ExecAll(ics, sem, s), ExecAll(Kept(ics, used, sem.volatile), sem, t), needed + sem.volatile)
  {
    if ics != [] {
      var p, before := ics[|ics| - 1], ics[..|ics| - 1];
      ExecKeepsSize(before, sem, s);
      if Dead(p, used, sem.volatile) {
        KeptAgrees(before, sem, s, t, used, needed);
        DeadAgrees(p, sem, ExecAll(before, sem, s),
                   ExecAll(Kept(before, used, sem.volatile), sem, t), needed);
      } else {
        var k := Kept(before, AvUpdate(p, used), sem.volatile);
        KeptAgrees(before, sem, s, t, AvUpdate(p, used), Need(p, needed));
        ExecAgrees(p, sem, ExecAll(before, sem, s), ExecAll(k, sem, t), needed);
        assert (k + [p])[..|k + [p]| - 1] == k;
      }
    }
  }

  /** What the block needs is in the analysis' in(B) = use(B) + (out(B) - def(B)). */
  lemma {:induction false} NeedIsLive(ics: seq<IC>, used: set<nat>, needed: set<nat>, volatile: set<nat>)
    requires needed <= used
    ensures var (use, def) := GenKill(ics); NeedAll(ics, used, needed, volatile) <= use + (needed - def)
  {
    if ics != [] {
      var p, before := ics[|ics| - 1], ics[..|ics| - 1];
      if Dead(p, used, volatile) {
        NeedIsLive(before, used, needed, volatile);
      } else {
        NeedIsLive(before, AvUpdate(p, used), Need(p, needed), volatile);
      }
    }
  }

  // ----- the whole graph -----

  /** out(B): what the successors need; at the end of the function what the caller can see. */
  function OutOf(fg: seq<Block>, avIn: seq<set<nat>>, i: nat, visible: set<nat>): set<nat>
    requires i < |fg| == |avIn|
  {
    var b := fg[i];
    (if b.branch.NoBranch? || b.branch.target >= |fg| then {} else avIn[b.branch.target])
    + (if !b.branch.Bra? && i + 1 < |fg| then avIn[i + 1] else {})
    + (if i + 1 == |fg| then visible else {})
  }

  /** in(B) = use(B) + (out(B) - def(B)). */
  function InOf(fg: seq<Block>, avIn: seq<set<nat>>, i: nat, visible: set<nat>): set<nat>
    requires i < |fg| == |avIn|
  {
    var (use, def) := GenKill(fg[i].ics);
    use + (OutOf(fg, avIn, i, visible) - def)
  }

  /** A solution of the equations. */
  ghost predicate LiveSolution(fg: seq<Block>, avIn: seq<set<nat>>, visible: set<nat>) {
    |avIn| == |fg| && forall i :: 0 <= i < |fg| ==> avIn[i] == InOf(fg, avIn, i, visible)
  }

  /** The graph with every block cut down to what dead_assignments keeps. */
  function Cleaned(fg: seq<Block>, avOut: seq<set<nat>>, volatile: set<nat>): (r: seq<Block>)
    requires |avOut| == |fg|
    ensures |r| == |fg|
  {
    seq(|fg|, i requires 0 <= i < |fg| => fg[i].(ics := Kept(fg[i].ics, avOut[i], volatile)))
  }

  function Outs(fg: seq<Block>, avIn: seq<set<nat>>, visible: set<nat>): (r: seq<set<nat>>)
    requires |avIn| == |fg|
    ensures |r| == |fg|
  {
    seq(|fg|, i requires 0 <= i < |fg| => OutOf(fg, avIn, i, visible))
  }

  ghost function LiveAt(fg: seq<Block>, avIn: seq<set<nat>>, visible: set<nat>, pos: nat): set<nat>
    requires |avIn| == |fg|
  {
    if pos < |fg| then avIn[pos] else visible
  }

  lemma StepAgrees(fg: seq<Block>, sem: Sem, avIn: seq<set<nat>>, visible: set<nat>, c: Conf, d: Conf)
    requires LiveSolution(fg, avIn, visible) && BranchesInside(fg) && AllCovered(fg, |c.store.vals|)
    requires c.pos == d.pos <= |fg| && Agree(c.store, d.store, LiveAt(fg, avIn, visible, c.pos) + sem.volatile)
    ensures var fg' := Cleaned(fg, Outs(fg, avIn, visible), sem.volatile);
            var c', d' := Step(fg, sem, c), Step(fg', sem, d);
      && c'.pos == d'.pos <= |fg| && |c'.store.vals| == |c.store.vals|
      && Agree(c'.store, d'.store, LiveAt(fg, avIn, visible, c'.pos) + sem.volatile)
  {
    if c.pos < |fg| {
      var b, out := fg[c.pos], OutOf(fg, avIn, c.pos, visible);
      assert b in fg;
      NeedIsLive(b.ics, out, out, sem.volatile);
      KeptAgrees(b.ics, sem, c.store, d.store, out, out);
      ExecKeepsSize(b.ics, sem, c.store);
    }
  }

  /** Dead-assignment removal preserves every run: after any number of blocks the optimized function is at
      the same block, has shown the same events and agrees on the live variables; at the exit these are the
      variables the caller can see. */
  lemma {:induction false} DeadAssignmentsPreserveRuns(fg: seq<Block>, sem: Sem, avIn: seq<set<nat>>,
                                                      visible: set<nat>, c: Conf, n: nat)
    requires LiveSolution(fg, avIn, visible) && BranchesInside(fg) && AllCovered(fg, |c.store.vals|)
    requires c.pos <= |fg|
    ensures var fg' := Cleaned(fg, Outs(fg, avIn, visible), sem.volatile);
            var c', d' := Run(fg, sem, c, n), Run(fg', sem, c, n);
      && c'.pos == d'.pos <= |fg| && |c'.store.vals| == |c.store.vals|
      && Agree(c'.store, d'.store, LiveAt(fg, avIn, visible, c'.pos) + sem.volatile)
  {
    hide Step, InOf, Cleaned, Outs, AllCovered, BranchesInside, LiveAt;
    if n > 0 {
      DeadAssignmentsPreserveRuns(fg, sem, avIn, visible, c, n - 1);
      var fg' := Cleaned(fg, Outs(fg, avIn, visible), sem.volatile);
      StepAgrees(fg, sem, avIn, visible, Run(fg, sem, c, n - 1), Run(fg', sem, c, n - 1));
    }
  }

  // ----- the analysis and the deletion as vbcc performs them -----

  lemma NewUsesSnoc(us: seq<nat>, u: nat, self: Obj, def: set<nat>)
    ensures NewUses(us + [u], self, def)
            == NewUses(us, self, def) + if Var(u) != self && u !in def then {u} else {}
  {
    assert forall v :: v in us + [u] <==> v in us || v == u;
  }

  /** av_change, on the sets use and def of the block so far. */
  method Change(p: IC, use: set<nat>, def: set<nat>) returns (use': set<nat>, def': set<nat>)
    ensures (use', def') == AvChange(p, (use, def))
  {
    var n := SelfOperand(p);
    use', def' := use, def;
    var j := 0;
    while j < |p.uses|
      invariant 0 <= j <= |p.uses|
      invariant use' == use + NewUses(p.uses[..j], n, def)
    {
      assert p.uses[..j + 1] == p.uses[..j] + [p.uses[j]];
      NewUsesSnoc(p.uses[..j], p.uses[j], n, def);
      if Var(p.uses[j]) != n && p.uses[j] !in def {
        use' := use' + {p.uses[j]};
      }
      assert use' == use + NewUses(p.uses[..j + 1], n, def);
      j := j + 1;
    }
    assert p.uses[..|p.uses|] == p.uses;
    if p.z.Var? && p.q1 != p.z && p.q2 != p.z && p.z.v !in use' {
      def' := def' + {p.z.v};
    }
  }

  /** The blocks' use and def sets. */
  method BlockSets(fg: seq<Block>) returns (gens: array<set<nat>>, kills: array<set<nat>>)
    ensures fresh(gens) && fresh(kills) && gens != kills && gens.Length == kills.Length == |fg|
    ensures forall i :: 0 <= i < |fg| ==> (gens[i], kills[i]) == GenKill(fg[i].ics)
  {
    gens := new set<nat>[|fg|];
    kills := new set<nat>[|fg|];
    var g := 0;
    while g < |fg|
      invariant 0 <= g <= |fg|
      invariant forall i :: 0 <= i < g ==> (gens[i], kills[i]) == GenKill(fg[i].ics)
    {
      var use: set<nat>, def: set<nat>, k := {}, {}, 0;
      while k < |fg[g].ics|
        invariant 0 <= k <= |fg[g].ics| && (use, def) == GenKill(fg[g].ics[..k])
        modifies {}
      {
        use, def := Change(fg[g].ics[k], use, def);
        assert fg[g].ics[..k + 1][..k] == fg[g].ics[..k];
        k := k + 1;
      }
      assert fg[g].ics[..k] == fg[g].ics;
      gens[g], kills[g] := use, def;
      g := g + 1;
    }
  }

  // ----- the fixpoint loop -----

  ghost function Universe(vcount: nat): (u: set<nat>)
    ensures forall v: nat :: v in u <==> v < vcount
  {
    if vcount == 0 then {} else Universe(vcount - 1) + {vcount - 1}
  }

  ghost predicate Within(x: seq<set<nat>>, vcount: nat) {
    forall i :: 0 <= i < |x| ==> x[i] <= Universe(vcount)
  }

  /** x solves the inequations in(B) >= use(B) + (out(B) - def(B)); every solution of the equations does. */
  ghost predicate Above(fg: seq<Block>, x: seq<set<nat>>, visible: set<nat>) {
    |x| == |fg| && forall i :: 0 <= i < |fg| ==> InOf(fg, x, i, visible) <= x[i]
  }

  ghost predicate Rising(fg: seq<Block>, x: seq<set<nat>>, visible: set<nat>) {
    |x| == |fg| && forall i :: 0 <= i < |fg| ==> x[i] <= InOf(fg, x, i, visible)
  }

  ghost predicate Below(x: seq<set<nat>>, y: seq<set<nat>>) {
    |x| == |y| && forall i :: 0 <= i < |x| ==> x[i] <= y[i]
  }

  ghost predicate BelowAll(fg: seq<Block>, x: seq<set<nat>>, visible: set<nat>) {
    forall y :: Above(fg, y, visible) ==> Below(x, y)
  }

  lemma InOfMonotone(fg: seq<Block>, x: seq<set<nat>>, y: seq<set<nat>>, i: nat, visible: set<nat>)
    requires Below(x, y) && i < |fg| == |x|
    ensures InOf(fg, x, i, visible) <= InOf(fg, y, i, visible)
  {}

  /** How many bits the vectors can still gain. */
  ghost function Missing(x: seq<set<nat>>, vcount: nat): nat {
    if x == [] then 0 else Missing(x[..|x| - 1], vcount) + |Universe(vcount) - x[|x| - 1]|
  }

  lemma {:induction false} MissingDrops(x: seq<set<nat>>, g: nat, s: set<nat>, vcount: nat)
    requires g < |x| && x[g] < s <= Universe(vcount)
    ensures Missing(x[g := s], vcount) < Missing(x, vcount)
  {
    var k := |x| - 1;
    if g == k {
      assert x[g := s][..k] == x[..k];
      var u := Universe(vcount);
      var v :| v in s && v !in x[g];
      assert (u - s) + {v} <= u - x[g];
      SubsetSize((u - s) + {v}, u - x[g]);
    } else {
      assert x[g := s][..k] == x[..k][g := s];
      MissingDrops(x[..k], g, s, vcount);
    }
  }

  lemma SubsetSize<T>(a: set<T>, b: set<T>)
    requires a <= b
    ensures |a| <= |b|
  {
    if a != {} {
      var x :| x in a;
      SubsetSize(a - {x}, b - {x});
    }
  }

  lemma GenIsCovered(ics: seq<IC>, vcount: nat)
    requires forall p :: p in ics ==> Covered(p, vcount)
    ensures GenKill(ics).0 <= Universe(vcount)
  {
    if ics != [] {
      assert ics[|ics| - 1] in ics;
      GenIsCovered(ics[..|ics| - 1], vcount);
    }
  }

  lemma InOfWithin(fg: seq<Block>, x: seq<set<nat>>, i: nat, visible: set<nat>, vcount: nat)
    requires |x| == |fg| && i < |fg| && Within(x, vcount) && visible <= Universe(vcount) && AllCovered(fg, vcount)
    ensures InOf(fg, x, i, visible) <= Universe(vcount)
  {
    assert fg[i] in fg;
    GenIsCovered(fg[i].ics, vcount);
  }

  /** One assignment of the loop keeps what makes its result the least solution. */
  lemma UpdateKeeps(fg: seq<Block>, x: seq<set<nat>>, g: nat, visible: set<nat>, vcount: nat)
    requires g < |fg| && Rising(fg, x, visible) && BelowAll(fg, x, visible) && Within(x, vcount)
    requires visible <= Universe(vcount) && AllCovered(fg, vcount)
    ensures var x' := x[g := InOf(fg, x, g, visible)];
      && Rising(fg, x', visible) && BelowAll(fg, x', visible) && Within(x', vcount)
      && (x[g] != InOf(fg, x, g, visible) ==> Missing(x', vcount) < Missing(x, vcount))
  {
    hide InOf;
    var s := InOf(fg, x, g, visible);
    var x' := x[g := s];
    InOfWithin(fg, x, g, visible, vcount);
    forall i | 0 <= i < |fg|
      ensures x'[i] <= InOf(fg, x', i, visible)
    {
      InOfMonotone(fg, x, x', i, visible);
    }
    forall y | Above(fg, y, visible)
      ensures Below(x', y)
    {
      InOfMonotone(fg, x, y, g, visible);
    }
    if x[g] != s {
      MissingDrops(x, g, s, vcount);
    }
  }

  /** active_vars: the least solution of the equations, for every graph. */
  method ActiveVars(fg: seq<Block>, visible: set<nat>, ghost vcount: nat)
    returns (avIn: array<set<nat>>, avOut: array<set<nat>>)
    requires BranchesInside(fg) && AllCovered(fg, vcount) && visible <= Universe(vcount)
    ensures fresh(avIn) && fresh(avOut) && avIn.Length == avOut.Length == |fg|
    ensures LiveSolution(fg, avIn[..], visible) && avOut[..] == Outs(fg, avIn[..], visible)
    ensures forall y :: Above(fg, y, visible) ==> Below(avIn[..], y)
  {
    hide InOf, OutOf, Missing, AllCovered;
    var gens, kills := BlockSets(fg);
    avIn := new set<nat>[|fg|](_ => {});
    avOut := new set<nat>[|fg|](_ => {});
    var changed := true;
    while changed
      invariant Rising(fg, avIn[..], visible) && BelowAll(fg, avIn[..], visible) && Within(avIn[..], vcount)
      invariant !changed ==> LiveSolution(fg, avIn[..], visible) && avOut[..] == Outs(fg, avIn[..], visible)
      invariant forall i :: 0 <= i < |fg| ==> (gens[i], kills[i]) == GenKill(fg[i].ics)
      decreases Missing(avIn[..], vcount), changed
    {
      changed := false;
      ghost var before := avIn[..];
      var g := 0;
      while g < |fg|
        invariant 0 <= g <= |fg|
        invariant Rising(fg, avIn[..], visible) && BelowAll(fg, avIn[..], visible) && Within(avIn[..], vcount)
        invariant changed ==> Missing(avIn[..], vcount) < Missing(before, vcount)
        invariant !changed ==> avIn[..] == before
        invariant !changed ==> forall i :: 0 <= i < g ==>
                    avOut[i] == OutOf(fg, before, i, visible) && before[i] == InOf(fg, before, i, visible)
        invariant forall i :: 0 <= i < |fg| ==> (gens[i], kills[i]) == GenKill(fg[i].ics)
      {
        var x := avIn[..];
        UpdateKeeps(fg, x, g, visible, vcount);
        Unfold(fg, x, g, visible);
        avOut[g] := OutOf(fg, x, g, visible);
        var tmp := gens[g] + (avOut[g] - kills[g]);
        if tmp != avIn[g] {
          changed := true;
          avIn[g] := tmp;
          assert avIn[..] == x[g := tmp];
        }
        g := g + 1;
      }
    }
  }

  lemma Unfold(fg: seq<Block>, x: seq<set<nat>>, i: nat, visible: set<nat>)
    requires i < |fg| == |x|
    ensures var (use, def) := GenKill(fg[i].ics);
            InOf(fg, x, i, visible) == use + (OutOf(fg, x, i, visible) - def)
  {}

  // ----- the deletion -----

  method Update(p: IC, used: set<nat>) returns (used': set<nat>)
    ensures used' == AvUpdate(p, used)
  {
    used' := if p.z.Var? then used - {p.z.v} else used;
    ghost var u0 := used';
    var j := 0;
    while j < |p.uses|
      invariant 0 <= j <= |p.uses|
      invariant used' == u0 + (set v | v in p.uses[..j])
    {
      assert p.uses[..j + 1] == p.uses[..j] + [p.uses[j]];
      used' := used' + {p.uses[j]};
      j := j + 1;
    }
    assert p.uses[..|p.uses|] == p.uses;
  }

  /** Whether something other than a GETRETURN is deleted, which is what vbcc reports. */
  function Reports(ics: seq<IC>, used: set<nat>, volatile: set<nat>): bool {
    if ics == [] then false else
      var p, before := ics[|ics| - 1], ics[..|ics| - 1];
      if Dead(p, used, volatile) then !p.code.GetReturn? || Reports(before, used, volatile)
      else Reports(before, AvUpdate(p, used), volatile)
  }

  method CleanBlock(ics: seq<IC>, avOut: set<nat>, volatile: set<nat>) returns (ics': seq<IC>, changed: bool)
    ensures ics' == Kept(ics, avOut, volatile)
    ensures changed == Reports(ics, avOut, volatile)
  {
    ics', changed := ics, false;
    var used, k := avOut, |ics|;
    ghost var tail := [];
    assert ics[..|ics|] == ics;
    while k > 0
      invariant 0 <= k <= |ics| && ics' == ics[..k] + tail
      invariant Kept(ics, avOut, volatile) == Kept(ics[..k], used, volatile) + tail
      invariant Reports(ics, avOut, volatile) == (changed || Reports(ics[..k], used, volatile))
    {
      var p := ics'[k - 1];
      assert p == ics[k - 1] && ics[..k][..k - 1] == ics[..k - 1];
      if Dead(p, used, volatile) {
        if !p.code.GetReturn? {
          changed := true;
        }
        ics' := ics'[..k - 1] + ics'[k..];
        assert ics' == ics[..k - 1] + tail;
      } else {
        used := Update(p, used);
        tail := [p] + tail;
        assert ics[..k] == ics[..k - 1] + [p];
      }
      k := k - 1;
    }
  }

  /** dead_assignments without its reordering of post-operations. */
  method DeadAssignments(fg: array<Block>, avOut: array<set<nat>>, volatile: set<nat>) returns (changed: bool)
    requires fg.Length == avOut.Length
    modifies fg
    ensures fg[..] == Cleaned(old(fg[..]), avOut[..], volatile)
    ensures changed <==> exists i :: 0 <= i < fg.Length && Reports(old(fg[..])[i].ics, avOut[i], volatile)
  {
    hide Kept;
    changed := false;
    ghost var was := fg[..];
    var g := 0;
    while g < fg.Length
      invariant 0 <= g <= fg.Length
      invariant forall i :: g <= i < fg.Length ==> fg[i] == was[i]
      invariant forall i :: 0 <= i < g ==> fg[i] == was[i].(ics := Kept(was[i].ics, avOut[i], volatile))
      invariant changed <==> exists i :: 0 <= i < g && Reports(was[i].ics, avOut[i], volatile)
    {
      var ics, c := CleanBlock(fg[g].ics, avOut[g], volatile);
      fg[g] := fg[g].(ics := ics);
      changed := changed || c;
      g := g + 1;
    }
  }

  /** fg' does on every run what fg does, as far as the caller and the outside can see. */
  ghost predicate SameRuns(fg: seq<Block>, fg': seq<Block>, visible: set<nat>, volatile: set<nat>, vcount: nat) {
    forall sem: Sem, c: Conf, n: nat {:trigger Run(fg, sem, c, n)} {:trigger Run(fg', sem, c, n)} ::
      sem.volatile == volatile && |c.store.vals| == vcount && c.pos <= |fg| ==>
        var d, d' := Run(fg, sem, c, n), Run(fg', sem, c, n);
        && d.pos == d'.pos <= |fg|
        && Agree(d.store, d'.store, if d.pos == |fg| then visible + volatile else volatile)
  }

  lemma CleanedRunsTheSame(fg: seq<Block>, avIn: seq<set<nat>>, visible: set<nat>, volatile: set<nat>, vcount: nat)
    requires LiveSolution(fg, avIn, visible) && BranchesInside(fg) && AllCovered(fg, vcount)
    ensures SameRuns(fg, Cleaned(fg, Outs(fg, avIn, visible), volatile), visible, volatile, vcount)
  {
    forall sem: Sem, c: Conf, n: nat | sem.volatile == volatile && |c.store.vals| == vcount && c.pos <= |fg|
      ensures var d, d' := Run(fg, sem, c, n), Run(Cleaned(fg, Outs(fg, avIn, visible), volatile), sem, c, n);
        && d.pos == d'.pos <= |fg|
        && Agree(d.store, d'.store, if d.pos == |fg| then visible + volatile else volatile)
    {
      hide Cleaned, Outs, LiveSolution, AllCovered, BranchesInside, Run;
      DeadAssignmentsPreserveRuns(fg, sem, avIn, visible, c, n);
    }
  }

  /** The analysis followed by the deletion: every run keeps its events and what the caller sees; what is deleted is
      what the least solution says is dead. */
  method EliminateDead(fg: array<Block>, visible: set<nat>, volatile: set<nat>, ghost vcount: nat) returns (changed: bool, ghost live: seq<set<nat>>)
    requires BranchesInside(fg[..]) && AllCovered(fg[..], vcount) && visible <= Universe(vcount)
    modifies fg
    ensures SameRuns(old(fg[..]), fg[..], visible, volatile, vcount)
    ensures LeastLive(old(fg[..]), live, visible) && fg[..] == Cleaned(old(fg[..]), Outs(old(fg[..]), live, visible), volatile)
    ensures changed <==> exists i :: 0 <= i < fg.Length && Reports(old(fg[i].ics), Outs(old(fg[..]), live, visible)[i], volatile)
  {
    hide SameRuns, LiveSolution, Above;
    ghost var was := fg[..];
    var avIn, avOut := ActiveVars(fg[..], visible, vcount);
    live := avIn[..];
    CleanedRunsTheSame(fg[..], avIn[..], visible, volatile, vcount);
    ghost var outs := avOut[..];
    changed := DeadAssignments(fg, avOut, volatile);
    assert avOut[..] == outs;
  }

  /** live solves the equations, and is the least that does. */
  ghost predicate LeastLive(fg: seq<Block>, live: seq<set<nat>>, visible: set<nat>) {
    LiveSolution(fg, live, visible) && forall y :: Above(fg, y, visible) ==> Below(live, y)
  }
}
