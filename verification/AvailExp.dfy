/** available_expressions in cse.c: which expressions have been computed, with the value they would have now. */
module AvailExp {
  import opened FlowGraph
  import opened Available
  import opened Expressions

  /** The numbers that the change list of an instruction ends, from the rows of ae_kills. */
  function Ended(kills: seq<set<nat>>, changes: seq<nat>): set<nat> {
    if changes == [] then {} else
      var v := changes[|changes| - 1];
      Ended(kills, changes[..|changes| - 1]) + if v < |kills| then kills[v] else {}
  }

  function Own(p: IC): set<nat> {
    if p.expindex >= 0 then {p.expindex} else {}
  }

  /** An expression is available after an instruction that computes it, unless that changes an operand. */
  function ExpEffect(kills: seq<set<nat>>, p: IC): Effect {
    Effect(Ended(kills, p.changes), Own(p) - Ended(kills, p.changes))
  }

  function ExpEffects(kills: seq<set<nat>>, ics: seq<IC>): (r: seq<Effect>)
    ensures |r| == |ics|
  {
    seq(|ics|, k requires 0 <= k < |ics| => ExpEffect(kills, ics[k]))
  }

  /** ae_gen and ae_kill of a block, computed from its end. */
  function GenKill(kills: seq<set<nat>>, ics: seq<IC>): (set<nat>, set<nat>) {
    if ics == [] then ({}, {}) else
      var (gen, kill) := GenKill(kills, ics[1..]);
      var kill' := kill + (Ended(kills, ics[0].changes) - gen);
      (gen + (Own(ics[0]) - kill'), kill')
  }

  lemma {:induction false} GenKillSums(kills: seq<set<nat>>, ics: seq<IC>, act: set<nat>)
    ensures var (gen, kill) := GenKill(kills, ics);
            gen !! kill && Walk(ExpEffects(kills, ics), act) == gen + (act - kill)
  {
    if ics != [] {
      var e := ExpEffect(kills, ics[0]);
      assert ExpEffects(kills, ics) == [e] + ExpEffects(kills, ics[1..]);
      WalkAppend([e], ExpEffects(kills, ics[1..]), act);
      assert [e][..0] == [];
      GenKillSums(kills, ics[1..], Apply(e, act));
    }
  }

  lemma {:induction false} EndedHas(kills: seq<set<nat>>, changes: seq<nat>, i: nat)
    ensures i in Ended(kills, changes) <==> exists v :: v in changes && v < |kills| && i in kills[v]
  {
    if changes != [] {
      var k := |changes| - 1;
      EndedHas(kills, changes[..k], i);
      assert changes == changes[..k] + [changes[k]];
    }
  }

  // ----- what an available expression is worth -----

  ghost predicate KillsKnow(kills: seq<set<nat>>, ics: seq<IC>, vcount: nat) {
    && |kills| == vcount
    && forall p :: p in ics ==> Covered(p, vcount) && KillsOperands(p, kills) && (p.expindex >= 0 ==> !p.q1.NoObj? && !p.code.GetReturn?)
  }

  /** An instruction that does not end an expression leaves its value as it is. */
  lemma ExecKeepsExpression(kills: seq<set<nat>>, e: IC, p: IC, sem: Sem, s: Store)
    requires |kills| == |s.vals| && Covered(p, |s.vals|) && Covered(e, |s.vals|) && KillsOperands(e, kills)
    requires e.expindex >= 0 && !e.code.GetReturn? && e.expindex !in Ended(kills, p.changes)
    ensures Computed(e, sem, Exec(p, sem, s)) == Computed(e, sem, s)
  {
    var t := Exec(p, sem, s);
    forall v: nat | v < |s.vals| && v !in p.changes
      ensures t.vals[v] == s.vals[v]
    {}
    EndedHas(kills, p.changes, e.expindex);
    forall v: nat | v < |s.vals| && Reads(e, v)
      ensures t.vals[v] == s.vals[v]
    {
      assert e.expindex in kills[v];
    }
  }

  /** From instruction k on, whatever else is run, expression k keeps the value it has there. */
  lemma {:induction false} ExpressionKeepsValue(kills: seq<set<nat>>, ics: seq<IC>, k: nat, sem: Sem, s: Store)
    requires KillsKnow(kills, ics, |s.vals|) && k < |ics| && ics[k].expindex >= 0
    requires LastsFrom(ExpEffects(kills, ics), ics[k].expindex, k)
    ensures Computed(ics[k], sem, ExecAll(ics, sem, s)) == Computed(ics[k], sem, ExecAll(ics[..k], sem, s))
    decreases |ics|
  {
    hide Computed, Exec, Ended, KillsOperands, Covered;
    var m := |ics| - 1;
    var e := ics[k];
    assert e in ics && ics[m] in ics;
    ExecKeepsSize(ics[..m], sem, s);
    assert e.expindex !in Ended(kills, ics[m].changes) by {
      var es := ExpEffects(kills, ics);
      assert k < m ==> e.expindex !in es[m].kill;
      assert k == m ==> e.expindex in es[m].gen;
    }
    ExecKeepsExpression(kills, e, ics[m], sem, ExecAll(ics[..m], sem, s));
    if k < m {
      assert ics[..m][k] == e && ics[..m][..k] == ics[..k];
      assert LastsFrom(ExpEffects(kills, ics[..m]), e.expindex, k) by {
        assert ExpEffects(kills, ics)[..m] == ExpEffects(kills, ics[..m]);
      }
      ExpressionKeepsValue(kills, ics[..m], k, sem, s);
    }
  }

  /** The instructions on the way to the last block of bs. */
  ghost function PathCode(fg: seq<Block>, bs: seq<nat>): seq<IC> {
    if |bs| <= 1 then [] else
      PathCode(fg, bs[..|bs| - 1]) + if bs[|bs| - 2] < |fg| then fg[bs[|bs| - 2]].ics else []
  }

  function BlockEffects(fg: seq<Block>, kills: seq<set<nat>>): (r: seq<seq<Effect>>)
    ensures |r| == |fg|
  {
    seq(|fg|, b requires 0 <= b < |fg| => ExpEffects(kills, fg[b].ics))
  }

  lemma {:induction false} PathCodeEffects(fg: seq<Block>, kills: seq<set<nat>>, bs: seq<nat>)
    ensures PathEffects(BlockEffects(fg, kills), bs) == ExpEffects(kills, PathCode(fg, bs))
  {
    if |bs| > 1 {
      PathCodeEffects(fg, kills, bs[..|bs| - 1]);
    }
  }

  ghost predicate FlowOf(fg: seq<Block>, kills: seq<set<nat>>, f: Flow) {
    && Fits(fg, f)
    && forall i :: 0 <= i < |fg| ==> (f.gen[i], f.kill[i]) == GenKill(kills, fg[i].ics)
  }

  lemma FlowSums(fg: seq<Block>, kills: seq<set<nat>>, f: Flow)
    requires FlowOf(fg, kills, f)
    ensures Sums(f, BlockEffects(fg, kills))
  {
    forall i, act | 0 <= i < |fg|
      ensures Walk(ExpEffects(kills, fg[i].ics), act) == f.gen[i] + (act - f.kill[i])
    {
      GenKillSums(kills, fg[i].ics, act);
    }
  }

  ghost predicate AllKnown(fg: seq<Block>, kills: seq<set<nat>>, vcount: nat) {
    forall b :: b in fg ==> KillsKnow(kills, b.ics, vcount)
  }

  lemma {:induction false} PathCodeKnown(fg: seq<Block>, kills: seq<set<nat>>, bs: seq<nat>, vcount: nat)
    requires AllKnown(fg, kills, vcount) && |kills| == vcount
    ensures KillsKnow(kills, PathCode(fg, bs), vcount)
  {
    if |bs| > 1 {
      PathCodeKnown(fg, kills, bs[..|bs| - 1], vcount);
      var b := bs[|bs| - 2];
      if b < |fg| { assert fg[b] in fg; }
    }
  }

  /** Instruction k of code has number i, and running the rest of code changes none of its operands: computing it
      again gives the value it had there. */
  ghost predicate StillWorth(code: seq<IC>, i: nat, k: nat, sem: Sem, s: Store) {
    && k < |code| && code[k].expindex == i
    && Computed(code[k], sem, ExecAll(code, sem, s)) == Computed(code[k], sem, ExecAll(code[..k], sem, s))
  }

  /** Available expressions are sound over all paths: when number i is in ae_in(B), then on every way from the
      entry to B some instruction with number i is run after which no operand of it is changed, so that its value
      is what a new computation in B would give. */
  lemma AvailableExpressionsAreSound(fg: seq<Block>, kills: seq<set<nat>>, f: Flow, ins: seq<set<nat>>, outs: seq<set<nat>>,
                                     bs: seq<nat>, i: nat, sem: Sem, s: Store)
    requires FlowOf(fg, kills, f) && Solution(fg, f, ins, outs) && Path(fg, bs)
    requires AllKnown(fg, kills, |s.vals|) && |kills| == |s.vals|
    requires bs[|bs| - 1] < |fg| && i in ins[bs[|bs| - 1]]
    ensures exists k :: StillWorth(PathCode(fg, bs), i, k, sem, s)
  {
    hide Fits, Solution, ExecAll, KillsKnow, ExpEffects, LastsFrom, AllKnown, Computed;
    var code := PathCode(fg, bs);
    FlowSums(fg, kills, f);
    AvailableIsSound(fg, f, BlockEffects(fg, kills), ins, outs, bs, i);
    PathCodeEffects(fg, kills, bs);
    PathCodeKnown(fg, kills, bs, |s.vals|);
    var k :| LastsFrom(ExpEffects(kills, code), i, k);
    GeneratesOwn(kills, code, i, k);
    ExpressionKeepsValue(kills, code, k, sem, s);
    assert StillWorth(code, i, k, sem, s);
  }

  lemma GeneratesOwn(kills: seq<set<nat>>, ics: seq<IC>, i: nat, k: nat)
    requires LastsFrom(ExpEffects(kills, ics), i, k)
    ensures k < |ics| && ics[k].expindex == i
  {}

  // ----- the analysis as vbcc performs it -----

  lemma EndedSnoc(kills: seq<set<nat>>, changes: seq<nat>, v: nat)
    ensures Ended(kills, changes + [v]) == Ended(kills, changes) + if v < |kills| then kills[v] else {}
  {
    assert (changes + [v])[..|changes|] == changes;
  }

  /** ae_gen and ae_kill of one block, from its end to its start. */
  method BlockSets(ics: seq<IC>, kills: seq<set<nat>>) returns (gen: set<nat>, kill: set<nat>)
    ensures (gen, kill) == GenKill(kills, ics)
  {
    gen, kill := {}, {};
    var k := |ics|;
    while k > 0
      invariant 0 <= k <= |ics| && (gen, kill) == GenKill(kills, ics[k..])
    {
      k := k - 1;
      assert ics[k..][1..] == ics[k + 1..];
      var p := ics[k];
      var tmp: set<nat> := {};
      var j := 0;
      while j < |p.changes|
        invariant 0 <= j <= |p.changes| && tmp == Ended(kills, p.changes[..j])
      {
        assert p.changes[..j + 1] == p.changes[..j] + [p.changes[j]];
        EndedSnoc(kills, p.changes[..j], p.changes[j]);
        if p.changes[j] < |kills| {
          tmp := tmp + kills[p.changes[j]];
        }
        j := j + 1;
      }
      assert p.changes[..j] == p.changes;
      ghost var gen0, kill0 := gen, kill;
      tmp := tmp - gen;
      kill := kill + tmp;
      if p.expindex >= 0 && p.expindex !in kill {
        gen := gen + {p.expindex};
      }
      assert gen == gen0 + (Own(p) - kill);
    }
    assert ics[0..] == ics;
  }

  lemma {:induction false} GenWithin(kills: seq<set<nat>>, ics: seq<IC>, universe: set<nat>)
    requires forall p :: p in ics && p.expindex >= 0 ==> p.expindex in universe
    ensures GenKill(kills, ics).0 <= universe
  {
    if ics != [] {
      assert ics[0] in ics;
      GenWithin(kills, ics[1..], universe);
    }
  }

  /** available_expressions: it stops for every graph, at the greatest solution, which is all that is
      available on every path. */
  method AvailableExpressions(fg: seq<Block>, preds: seq<seq<nat>>, kills: seq<set<nat>>, universe: set<nat>)
    returns (aeIn: array<set<nat>>, aeOut: array<set<nat>>, ghost f: Flow)
    requires Lists(fg, preds) && forall b, p :: b in fg && p in b.ics && p.expindex >= 0 ==> p.expindex in universe
    ensures fresh(aeIn) && fresh(aeOut) && aeIn.Length == aeOut.Length == |fg|
    ensures FlowOf(fg, kills, f) && f.universe == universe && Solution(fg, f, aeIn[..], aeOut[..])
    ensures forall y :: Supported(fg, f, y) ==> Below(y, aeOut[..])
  {
    hide Lists, GenKill;
    var gens, kls := [], [];
    for g := 0 to |fg|
      invariant |gens| == |kls| == g
      invariant forall i :: 0 <= i < g ==>
                  (gens[i], kls[i]) == GenKill(kills, fg[i].ics) && gens[i] <= universe && gens[i] !! kls[i]
    {
      assert fg[g] in fg;
      var gen, kill := BlockSets(fg[g].ics, kills);
      GenKillSums(kills, fg[g].ics, {});
      GenWithin(kills, fg[g].ics, universe);
      gens, kls := gens + [gen], kls + [kill];
    }
    var flow := Flow(gens, kls, universe);
    f := flow;
    aeIn, aeOut := Solve(fg, preds, flow);
  }
}
