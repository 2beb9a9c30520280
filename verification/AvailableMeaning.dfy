/** What the available expressions and copies are, in the code on the ways to a block, and what propagating does. */
module AvailableMeaning {
  import opened FlowGraph
  import opened Available
  import opened Expressions
  import E = AvailExp
  import opened CopyProp

  /** The greatest solution of the equations. */
  ghost predicate Greatest(fg: seq<Block>, f: Flow, ins: seq<set<nat>>, outs: seq<set<nat>>)
    requires Fits(fg, f)
  {
    Solution(fg, f, ins, outs) && forall y :: Supported(fg, f, y) ==> Below(y, outs)
  }

  ghost predicate AllReachable(fg: seq<Block>) {
    forall b :: 0 <= b < |fg| ==> Reachable(fg, b)
  }

  /** In on the greatest solution: on every way to b something makes i available to the end. */
  lemma ExactlyOnAllPaths(fg: seq<Block>, f: Flow, es: seq<seq<Effect>>, ins: seq<set<nat>>, outs: seq<set<nat>>, b: nat, i: nat)
    requires Fits(fg, f) && Sums(f, es) && Greatest(fg, f, ins, outs) && AllReachable(fg)
    requires b < |fg| && i in f.universe
    ensures i in ins[b] <==> LastsOnAllPaths(fg, es, b, i)
  {
    if i in ins[b] {
      forall bs | Path(fg, bs) && bs[|bs| - 1] == b
        ensures exists k :: LastsFrom(PathEffects(es, bs), i, k)
      {
        AvailableIsSound(fg, f, es, ins, outs, bs, i);
      }
    }
    if LastsOnAllPaths(fg, es, b, i) {
      AvailableIsComplete(fg, f, es, ins, outs, b, i);
    }
  }

  // ----- expressions -----

  /** p changes no operand of e; the address of a variable does not change with it. */
  ghost predicate LeavesOperands(p: IC, e: IC) {
    forall v :: v in p.changes ==> e.code.Address? || (e.q1 != Var(v) && e.q2 != Var(v))
  }

  /** Instruction k has the expression's number, and neither it nor any behind it changes an operand of k. */
  ghost predicate ComputedAndKept(code: seq<IC>, i: nat, k: nat) {
    k < |code| && code[k].expindex == i && forall j :: k <= j < |code| ==> LeavesOperands(code[j], code[k])
  }

  lemma EndedMeans(kills: seq<set<nat>>, p: IC, e: IC, vcount: nat)
    requires |kills| == vcount && Covered(p, vcount) && KillsOperands(e, kills) && e.expindex >= 0
    ensures e.expindex in E.Ended(kills, p.changes) <==> !LeavesOperands(p, e)
  {
    hide E.Ended;
    E.EndedHas(kills, p.changes, e.expindex);
    forall v | v in p.changes
      ensures e.expindex in kills[v] <==> Reads(e, v)
    {}
  }

  lemma ExpressionLasts(kills: seq<set<nat>>, code: seq<IC>, i: nat, k: nat, vcount: nat)
    requires E.KillsKnow(kills, code, vcount)
    ensures LastsFrom(E.ExpEffects(kills, code), i, k) <==> ComputedAndKept(code, i, k)
  {
    hide E.Ended, LeavesOperands;
    if k < |code| && code[k].expindex == i {
      assert code[k] in code;
      forall j | k <= j < |code|
        ensures i in E.Ended(kills, code[j].changes) <==> !LeavesOperands(code[j], code[k])
      {
        assert code[j] in code;
        EndedMeans(kills, code[j], code[k], vcount);
      }
      var es := E.ExpEffects(kills, code);
      assert i in es[k].gen <==> LeavesOperands(code[k], code[k]);
      assert forall j :: k < j < |code| ==> (i in es[j].kill <==> !LeavesOperands(code[j], code[k]));
    }
  }

  ghost predicate ComputedOnAllPaths(fg: seq<Block>, b: nat, i: nat) {
    forall bs :: Path(fg, bs) && bs[|bs| - 1] == b ==> exists k :: ComputedAndKept(E.PathCode(fg, bs), i, k)
  }

  /** Expression number i is available at the start of b if and only if every way there computes it and then leaves its
      operands alone. */
  lemma ExpressionsAreExact(fg: seq<Block>, kills: seq<set<nat>>, f: Flow, ins: seq<set<nat>>, outs: seq<set<nat>>,
                            b: nat, i: nat, vcount: nat)
    requires E.FlowOf(fg, kills, f) && Greatest(fg, f, ins, outs) && AllReachable(fg)
    requires E.AllKnown(fg, kills, vcount) && |kills| == vcount && b < |fg| && i in f.universe
    ensures i in ins[b] <==> ComputedOnAllPaths(fg, b, i)
  {
    hide LastsFrom, ComputedAndKept, Greatest, AllReachable, E.KillsKnow, E.ExpEffects, E.PathCode, Fits;
    var es := E.BlockEffects(fg, kills);
    E.FlowSums(fg, kills, f);
    FitsFlow(fg, kills, f);
    ExactlyOnAllPaths(fg, f, es, ins, outs, b, i);
    forall bs | Path(fg, bs)
      ensures (exists k :: LastsFrom(PathEffects(es, bs), i, k)) <==> exists k :: ComputedAndKept(E.PathCode(fg, bs), i, k)
    {
      ExpressionOnPath(fg, kills, bs, i, vcount);
    }
    assert LastsOnAllPaths(fg, es, b, i) ==> ComputedOnAllPaths(fg, b, i);
    assert ComputedOnAllPaths(fg, b, i) ==> LastsOnAllPaths(fg, es, b, i);
  }

  lemma ExpressionOnPath(fg: seq<Block>, kills: seq<set<nat>>, bs: seq<nat>, i: nat, vcount: nat)
    requires E.AllKnown(fg, kills, vcount) && |kills| == vcount
    ensures (exists k :: LastsFrom(PathEffects(E.BlockEffects(fg, kills), bs), i, k))
            <==> exists k :: ComputedAndKept(E.PathCode(fg, bs), i, k)
  {
    hide LastsFrom, ComputedAndKept, E.KillsKnow, E.ExpEffects, E.PathCode, PathEffects, E.AllKnown;
    var code := E.PathCode(fg, bs);
    E.PathCodeEffects(fg, kills, bs);
    E.PathCodeKnown(fg, kills, bs, vcount);
    forall k: nat
      ensures LastsFrom(E.ExpEffects(kills, code), i, k) <==> ComputedAndKept(code, i, k)
    {
      ExpressionLasts(kills, code, i, k, vcount);
    }
  }

  lemma FitsFlow(fg: seq<Block>, kills: seq<set<nat>>, f: Flow)
    requires E.FlowOf(fg, kills, f)
    ensures Fits(fg, f)
  {}

  // ----- copies -----

  /** p changes neither variable of the copy e. */
  ghost predicate LeavesCopy(p: IC, e: IC) {
    forall v :: v in p.changes ==> e.z != Var(v) && e.q1 != Var(v)
  }

  /** Instruction k is the copy, and none behind it changes either of its variables. */
  ghost predicate CopiedAndKept(code: seq<IC>, i: nat, k: nat) {
    k < |code| && code[k].copyindex == i && forall j :: k < j < |code| ==> LeavesCopy(code[j], code[k])
  }

  ghost predicate AllNamed(code: seq<IC>, table: map<nat, Copy>) {
    forall p :: p in code ==> Numbered(p, table)
  }

  lemma CopyLasts(table: map<nat, Copy>, code: seq<IC>, i: nat, k: nat)
    requires AllNamed(code, table)
    ensures LastsFrom(CopyEffects(table, code), i, k) <==> CopiedAndKept(code, i, k)
  {
    hide Killed;
    if k < |code| && code[k].copyindex == i {
      assert code[k] in code;
      forall j | k < j < |code|
        ensures i in Killed(table, code[j].changes) <==> !LeavesCopy(code[j], code[k])
      {
        KilledHas(table, code[j].changes, i);
      }
      var es := CopyEffects(table, code);
      assert i in es[k].gen;
      assert forall j :: k < j < |code| ==> (i in es[j].kill <==> !LeavesCopy(code[j], code[k]));
    }
  }

  function CopyBlocks(fg: seq<Block>, table: map<nat, Copy>): (r: seq<seq<Effect>>)
    ensures |r| == |fg|
  {
    seq(|fg|, b requires 0 <= b < |fg| => CopyEffects(table, fg[b].ics))
  }

  lemma {:induction false} CopyPath(fg: seq<Block>, table: map<nat, Copy>, bs: seq<nat>)
    ensures PathEffects(CopyBlocks(fg, table), bs) == CopyEffects(table, E.PathCode(fg, bs))
  {
    hide CopyEffect;
    if |bs| > 1 { CopyPath(fg, table, bs[..|bs| - 1]); }
  }

  ghost predicate AllNamedIn(fg: seq<Block>, table: map<nat, Copy>) {
    forall b :: 0 <= b < |fg| ==> AllNamed(fg[b].ics, table)
  }

  lemma {:induction false} PathNamed(fg: seq<Block>, table: map<nat, Copy>, bs: seq<nat>)
    requires AllNamedIn(fg, table)
    ensures AllNamed(E.PathCode(fg, bs), table)
  {
    hide Numbered;
    if |bs| > 1 {
      PathNamed(fg, table, bs[..|bs| - 1]);
      assert bs[|bs| - 2] < |fg| ==> AllNamed(fg[bs[|bs| - 2]].ics, table);
    }
  }

  lemma CopySums(fg: seq<Block>, table: map<nat, Copy>, f: Flow)
    requires FlowOf(fg, table, f)
    ensures Fits(fg, f) && Sums(f, CopyBlocks(fg, table))
  {
    forall i, act | 0 <= i < |fg|
      ensures Walk(CopyEffects(table, fg[i].ics), act) == f.gen[i] + (act - f.kill[i])
    {
      GenKillSums(table, fg[i].ics, act);
    }
  }

  ghost predicate CopiedOnAllPaths(fg: seq<Block>, b: nat, i: nat) {
    forall bs :: Path(fg, bs) && bs[|bs| - 1] == b ==> exists k :: CopiedAndKept(E.PathCode(fg, bs), i, k)
  }

  lemma CopyOnPath(fg: seq<Block>, table: map<nat, Copy>, bs: seq<nat>, i: nat)
    requires AllNamedIn(fg, table)
    ensures (exists k :: LastsFrom(PathEffects(CopyBlocks(fg, table), bs), i, k))
            <==> exists k :: CopiedAndKept(E.PathCode(fg, bs), i, k)
  {
    hide LastsFrom, CopiedAndKept, CopyEffects, E.PathCode, PathEffects, Numbered, AllNamed;
    var code := E.PathCode(fg, bs);
    CopyPath(fg, table, bs);
    PathNamed(fg, table, bs);
    forall k: nat
      ensures LastsFrom(CopyEffects(table, code), i, k) <==> CopiedAndKept(code, i, k)
    {
      CopyLasts(table, code, i, k);
    }
  }

  /** Copy number i is available at the start of b if and only if every way there makes it and then leaves both of its
      variables alone. */
  lemma CopiesAreExact(fg: seq<Block>, table: map<nat, Copy>, f: Flow, ins: seq<set<nat>>, outs: seq<set<nat>>,
                       b: nat, i: nat, vcount: nat)
    requires FlowOf(fg, table, f) && Fits(fg, f) && Greatest(fg, f, ins, outs) && AllReachable(fg)
    requires AllNumbered(fg, table, vcount) && b < |fg| && i in f.universe
    ensures i in ins[b] <==> CopiedOnAllPaths(fg, b, i)
  {
    hide LastsFrom, CopiedAndKept, Greatest, AllReachable, CopyEffects, E.PathCode, Numbered;
    assert AllNamedIn(fg, table);
    var es := CopyBlocks(fg, table);
    CopySums(fg, table, f);
    ExactlyOnAllPaths(fg, f, es, ins, outs, b, i);
    forall bs | Path(fg, bs)
      ensures (exists k :: LastsFrom(PathEffects(es, bs), i, k)) <==> exists k :: CopiedAndKept(E.PathCode(fg, bs), i, k)
    {
      CopyOnPath(fg, table, bs, i);
    }
    assert LastsOnAllPaths(fg, es, b, i) ==> CopiedOnAllPaths(fg, b, i);
    assert CopiedOnAllPaths(fg, b, i) ==> LastsOnAllPaths(fg, es, b, i);
  }

  // ----- what propagating does -----

  /** Copy i is active, its listed instruction still is o = y for another variable y, and the tests let it replace. */
  predicate Usable(l: Listing, table: map<nat, Copy>, act: set<nat>, o: Obj, i: nat)
    requires HasPlaces(l.fg, l.clist)
  {
    && i < l.ccount && i in act && i in l.clist && i in table
    && o == Var(table[i].z) && table[i].y != table[i].z && l.mayReplace(l.fg[l.clist[i].0].ics[l.clist[i].1], o)
  }

  /** o' is the source of the first copy that can be used for o; without one it is o. */
  ghost predicate Takes(l: Listing, table: map<nat, Copy>, act: set<nat>, o: Obj, o': Obj)
    requires HasPlaces(l.fg, l.clist)
  {
    if exists i: nat :: Usable(l, table, act, o, i) then
      exists i: nat :: Usable(l, table, act, o, i) && (forall j: nat :: j < i ==> !Usable(l, table, act, o, j)) && o' == Var(table[i].y)
    else o' == o
  }

  lemma {:induction false} ChoiceMeans(l: Listing, table: map<nat, Copy>, dest: set<nat>, act: set<nat>, o: Obj, i: nat)
    requires StillCopies(l.fg, l.clist, table, dest) && HasPlaces(l.fg, l.clist) && o.Var? && i <= l.ccount
    requires forall j: nat :: j < i ==> !Usable(l, table, act - dest, o, j)
    ensures Takes(l, table, act - dest, o, Choice(l, i, o, act - dest))
    decreases l.ccount - i
  {
    if i < l.ccount {
      assert Usable(l, table, act - dest, o, i) <==> i in act - dest && Serves(l, i, o);
      if !Usable(l, table, act - dest, o, i) { ChoiceMeans(l, table, dest, act, o, i + 1); }
    }
  }

  /** What becomes of an instruction: both operands take the source of their first usable copy, except that an address
      is not touched and that the second operand may have to stay apart from the target. */
  ghost predicate IsPropagated(l: Listing, table: map<nat, Copy>, act: set<nat>, useq2asz: bool, p: IC, p': IC)
    requires HasPlaces(l.fg, l.clist)
  {
    && p' == p.(q1 := p'.q1, q2 := p'.q2)
    && if p.code.Address? || p.code.Nop? then p' == p else
         && Takes(l, table, act, p.q1, p'.q1)
         && (Takes(l, table, act, p.q2, p'.q2) || (!useq2asz && p'.q2 == p.q2 && Takes(l, table, act, p.q2, p.z)))
         && (!useq2asz && p'.q2 == p.z ==> p.q2 == p.z)
  }

  lemma ChosenMeans(l: Listing, table: map<nat, Copy>, dest: set<nat>, act: set<nat>, useq2asz: bool, p: IC)
    requires StillCopies(l.fg, l.clist, table, dest) && HasPlaces(l.fg, l.clist)
    ensures IsPropagated(l, table, act - dest, useq2asz, p, Chosen(l, p, act - dest, useq2asz))
  {
    hide Choice, StillCopies, Takes;
    TakesNothing(l, table, act - dest, p.q1);
    TakesNothing(l, table, act - dest, p.q2);
    if p.q1.Var? { ChoiceMeans(l, table, dest, act, p.q1, 0); }
    if p.q2.Var? { ChoiceMeans(l, table, dest, act, p.q2, 0); }
  }

  lemma TakesNothing(l: Listing, table: map<nat, Copy>, act: set<nat>, o: Obj)
    requires HasPlaces(l.fg, l.clist)
    ensures !o.Var? ==> Takes(l, table, act, o, o)
  {}

  /** The copies that hold after p: those of which it changes no variable, and p itself. */
  ghost predicate ActiveAfter(table: map<nat, Copy>, p: IC, act: set<nat>, act': set<nat>) {
    forall i: nat :: i in act' <==>
      (i in act && !(i in table && (table[i].z in p.changes || table[i].y in p.changes))) || p.copyindex == i
  }

  /** One block, instruction after instruction: each is propagated with the copies that hold before it, leaving out
      those that have been rewritten themselves. */
  ghost predicate Propagates(l: Listing, g: nat, k: nat, act: set<nat>, dest: set<nat>, table: map<nat, Copy>, useq2asz: bool,
                             fg': seq<Block>, dest': set<nat>)
    requires g < |l.fg| && k <= |l.fg[g].ics|
    decreases |l.fg[g].ics| - k
  {
    if k == |l.fg[g].ics| then fg' == l.fg && dest' == dest else
      var p := l.fg[g].ics[k];
      && HasPlaces(l.fg, l.clist)
      && exists p', act' ::
        && IsPropagated(l, table, act - dest, useq2asz, p, p') && ActiveAfter(table, p, act, act')
        && Propagates(l.(fg := l.fg[g := l.fg[g].(ics := l.fg[g].ics[k := p'])]), g, k + 1, act',
                      if p' == p || p.copyindex < 0 then dest else dest + {p.copyindex}, table, useq2asz, fg', dest')
  }

  lemma {:induction false} RewritingPropagates(l: Listing, g: nat, k: nat, act: set<nat>, dest: set<nat>,
                                               table: map<nat, Copy>, useq2asz: bool)
    requires g < |l.fg| && k <= |l.fg[g].ics| && StillCopies(l.fg, l.clist, table, dest) && HasPlaces(l.fg, l.clist)
    ensures var (fg', dest') := Rewriting(l, g, k, act, dest, table, useq2asz);
            Propagates(l, g, k, act, dest, table, useq2asz, fg', dest') && StillCopies(fg', l.clist, table, dest')
    decreases |l.fg[g].ics| - k
  {
    hide Chosen, Killed, HasPlaces, StillCopies, IsPropagated, ActiveAfter;
    if k < |l.fg[g].ics| {
      var p := l.fg[g].ics[k];
      var p' := Chosen(l, p, act - dest, useq2asz);
      var act' := act - Killed(table, p.changes) + Own(p);
      var dest' := Rewrote(dest, p, p');
      ReplacedHasPlaces(l.fg, l.clist, g, k, p');
      ChosenMeans(l, table, dest, act, useq2asz, p);
      SameIndex(l, table, act - dest, useq2asz, p, p');
      KeepsListed(l.fg, l.clist, table, dest, dest', g, k, p');
      AfterMeans(table, p, act);
      RewritingPropagates(l.(fg := Replaced(l.fg, g, k, p')), g, k + 1, act', dest', table, useq2asz);
    }
  }

  lemma SameIndex(l: Listing, table: map<nat, Copy>, act: set<nat>, useq2asz: bool, p: IC, p': IC)
    requires HasPlaces(l.fg, l.clist) && IsPropagated(l, table, act, useq2asz, p, p')
    ensures p'.copyindex == p.copyindex
  {}

  lemma AfterMeans(table: map<nat, Copy>, p: IC, act: set<nat>)
    ensures ActiveAfter(table, p, act, act - Killed(table, p.changes) + Own(p))
  {
    hide Killed;
    forall i: nat
      ensures i in Killed(table, p.changes) <==> i in table && (table[i].z in p.changes || table[i].y in p.changes)
    {
      KilledHas(table, p.changes, i);
    }
  }

  /** All blocks, one after the other, each from the copies that are available at its start. */
  ghost predicate PropagatesAll(l: Listing, starts: seq<set<nat>>, g: nat, dest: set<nat>, table: map<nat, Copy>,
                                useq2asz: bool, result: seq<Block>)
    requires g <= |l.fg| == |starts|
    decreases |starts| - g
  {
    if g == |l.fg| then result == l.fg else
      exists fg', dest' :: Propagates(l, g, 0, starts[g], dest, table, useq2asz, fg', dest')
        && |fg'| == |l.fg| && PropagatesAll(l.(fg := fg'), starts, g + 1, dest', table, useq2asz, result)
  }

  /** What copy_propagation leaves is that. */
  lemma {:induction false} RewritingAllPropagates(l: Listing, starts: seq<set<nat>>, g: nat, dest: set<nat>,
                                                  table: map<nat, Copy>, useq2asz: bool)
    requires g <= |l.fg| == |starts| && StillCopies(l.fg, l.clist, table, dest) && HasPlaces(l.fg, l.clist)
    ensures PropagatesAll(l, starts, g, dest, table, useq2asz, RewritingAll(l, starts, g, dest, table, useq2asz))
    decreases |starts| - g
  {
    hide Rewriting, HasPlaces, StillCopies, Propagates;
    if g < |l.fg| {
      var (fg', dest') := Rewriting(l, g, 0, starts[g], dest, table, useq2asz);
      RewritingKeeps(l, g, 0, starts[g], dest, table, useq2asz);
      RewritingPropagates(l, g, 0, starts[g], dest, table, useq2asz);
      RewritingAllPropagates(l.(fg := fg'), starts, g + 1, dest', table, useq2asz);
    }
  }
}
