/** num_exp and available_expressions, one after the other. */
module ExpressionPass {
  import opened FlowGraph
  import opened Available
  import opened Numbering
  import opened Expressions
  import opened AvailExp
  import opened InstructionList

  /** p' is p with its operands in order and a number if and only if p is an expression. */
  predicate Becomes(p: IC, p': IC, opt: Options) {
    SameBut(ExpIndex, Ordered(p, opt), p') && (p'.expindex >= 0 <==> IsExpression(p, opt))
  }

  /** The instruction that fetches a call's result has no operand. */
  predicate WellFormed(p: IC) {
    p.code.GetReturn? ==> p.q1.NoObj?
  }

  predicate IsKnown(p: IC) {
    p.expindex >= 0 ==> !p.code.Call? && !p.q1.NoObj? && !p.code.GetReturn?
  }

  lemma BecomesKnown(p: IC, p': IC, opt: Options, vcount: nat)
    requires Becomes(p, p', opt) && Covered(p, vcount) && WellFormed(p)
    ensures Covered(p', vcount) && IsKnown(p')
  {}

  lemma BecomesExec(p: IC, p': IC, opt: Options, sem: Sem, s: Store)
    requires Becomes(p, p', opt) && Commuting(sem, opt) && !(IsVolatile(p.q1, sem) && IsVolatile(p.q2, sem))
    ensures Exec(p', sem, s) == Exec(p, sem, s)
  {
    hide Ordered, IsExpression;
    OrderedExec(p, opt, sem, s);
    NumberUnseen(Ordered(p, opt), p', sem, s);
  }

  lemma NumberUnseen(p: IC, p': IC, sem: Sem, s: Store)
    requires SameBut(ExpIndex, p, p')
    ensures Exec(p', sem, s) == Exec(p, sem, s)
  {}

  /** list is the instruction list of fg after num_exp. */
  ghost predicate IsNumbered(fg: seq<Block>, list: seq<IC>, opt: Options, kills: seq<set<nat>>) {
    && |list| == |Instructions(fg)|
    && (forall k :: 0 <= k < |list| ==> Becomes(Instructions(fg)[k], list[k], opt) && KillsOperands(list[k], kills))
  }

  lemma NumberedLength(fg: seq<Block>, list: seq<IC>, opt: Options, kills: seq<set<nat>>)
    requires IsNumbered(fg, list, opt, kills)
    ensures |list| == |Instructions(fg)|
  {}

  lemma NumberedPlace(fg: seq<Block>, list: seq<IC>, opt: Options, kills: seq<set<nat>>, i: nat, j: nat)
    requires IsNumbered(fg, list, opt, kills) && i < |fg| && j < |fg[i].ics|
    ensures Becomes(fg[i].ics[j], Cut(fg, list)[i].ics[j], opt) && KillsOperands(Cut(fg, list)[i].ics[j], kills)
  {
    hide Becomes, KillsOperands;
    var k := CutAt(fg, list, i, j);
  }

  ghost predicate AllWellFormed(fg: seq<Block>) {
    forall b, p :: b in fg && p in b.ics ==> WellFormed(p)
  }

  lemma NumberedKnown(fg: seq<Block>, list: seq<IC>, opt: Options, kills: seq<set<nat>>, vcount: nat)
    requires IsNumbered(fg, list, opt, kills) && AllCovered(fg, vcount) && AllWellFormed(fg) && |kills| == vcount
    ensures AllKnown(Cut(fg, list), kills, vcount) && forall b, p :: b in Cut(fg, list) && p in b.ics ==> IsKnown(p)
  {
    hide IsNumbered, Instructions, Covered, WellFormed, Becomes, KillsOperands;
    NumberedLength(fg, list, opt, kills);
    var fg' := Cut(fg, list);
    forall b, p | b in fg' && p in b.ics
      ensures Covered(p, vcount) && KillsOperands(p, kills) && IsKnown(p)
    {
      var i :| 0 <= i < |fg'| && fg'[i] == b;
      var j :| 0 <= j < |fg'[i].ics| && fg'[i].ics[j] == p;
      NumberedPlace(fg, list, opt, kills, i, j);
      assert fg[i] in fg && fg[i].ics[j] in fg[i].ics;
      BecomesKnown(fg[i].ics[j], p, opt, vcount);
    }
    forall b | b in fg'
      ensures KillsKnow(kills, b.ics, vcount)
    {
      forall p | p in b.ics
        ensures Covered(p, vcount) && KillsOperands(p, kills) && IsKnown(p)
      {}
    }
  }

  lemma NumberedSame(fg: seq<Block>, list: seq<IC>, opt: Options, kills: seq<set<nat>>, preds: seq<seq<nat>>)
    requires IsNumbered(fg, list, opt, kills) && Lists(fg, preds)
    ensures Lists(Cut(fg, list), preds)
  {
    var fg' := Cut(fg, list);
    forall i, p: nat | 0 <= i < |fg'| && Edge(fg', p, i)
      ensures p in preds[i]
    {
      assert Edge(fg, p, i);
    }
  }

  /** No instruction reads two volatile variables, whose order num_exp might exchange. */
  ghost predicate OneVolatile(fg: seq<Block>, sem: Sem) {
    forall b, p :: b in fg && p in b.ics ==> !(IsVolatile(p.q1, sem) && IsVolatile(p.q2, sem))
  }

  lemma NumberedRuns(fg: seq<Block>, list: seq<IC>, opt: Options, kills: seq<set<nat>>, sem: Sem, c: Conf, n: nat)
    requires IsNumbered(fg, list, opt, kills) && Commuting(sem, opt) && OneVolatile(fg, sem)
    ensures Run(Cut(fg, list), sem, c, n) == Run(fg, sem, c, n)
  {
    hide IsNumbered, Exec, Becomes, Instructions, Commuting, KillsOperands;
    NumberedLength(fg, list, opt, kills);
    var fg' := Cut(fg, list);
    forall i, j, s | 0 <= i < |fg| && 0 <= j < |fg[i].ics|
      ensures Exec(fg'[i].ics[j], sem, s) == Exec(fg[i].ics[j], sem, s)
    {
      NumberedPlace(fg, list, opt, kills, i, j);
      assert fg[i] in fg && fg[i].ics[j] in fg[i].ics;
      BecomesExec(fg[i].ics[j], fg'[i].ics[j], opt, sem, s);
    }
    SameRuns(fg, fg', sem, c, n);
  }

  /** p has the number of some instruction of code, and computes now what that one computed. */
  ghost predicate WasComputed(code: seq<IC>, p: IC, sem: Sem, s: Store) {
    exists k :: ComputedBefore(code, p, k, sem, s)
  }

  /** bs leads from the entry to a block at whose start the number of p is available. */
  ghost predicate LeadsTo(fg: seq<Block>, ins: seq<set<nat>>, bs: seq<nat>, p: IC) {
    && |ins| == |fg| && Path(fg, bs) && bs[|bs| - 1] < |fg|
    && p in Instructions(fg) && p.expindex >= 0 && p.expindex in ins[bs[|bs| - 1]]
  }

  /** What p computes after code is what instruction k of code, with the same number, computed there. */
  ghost predicate ComputedBefore(code: seq<IC>, p: IC, k: nat, sem: Sem, s: Store) {
    && k < |code| && code[k].expindex == p.expindex
    && Computed(p, sem, ExecAll(code, sem, s)) == Computed(code[k], sem, ExecAll(code[..k], sem, s))
  }

  lemma {:induction false} PathCodeInside(fg: seq<Block>, bs: seq<nat>, p: IC)
    requires p in PathCode(fg, bs)
    ensures p in Instructions(fg)
  {
    var b := bs[|bs| - 2];
    if p in PathCode(fg, bs[..|bs| - 1]) {
      PathCodeInside(fg, bs[..|bs| - 1], p);
    } else {
      assert fg[b] in fg && p in fg[b].ics;
      ListHas(fg, fg[b], p);
    }
  }

  lemma SameNumberSameValue(list: seq<IC>, p: IC, q: IC, sem: Sem, s: Store)
    requires AllEqualNumbers(ExpIndex, list) && p in list && q in list && p.expindex == q.expindex >= 0 && IsKnown(p)
    ensures Computed(p, sem, s) == Computed(q, sem, s)
  {
    hide CompareExp, IsKnown;
    var i :| 0 <= i < |list| && list[i] == p;
    var j :| 0 <= j < |list| && list[j] == q;
    assert Get(ExpIndex, list[i]) >= 0 && Get(ExpIndex, list[j]) >= 0;
    assert EqualNumbers(ExpIndex, list, i, j);
    assert !p.code.Call? by { NotCall(p); }
    CompareExpEqual(p, q);
  }

  lemma NotCall(p: IC)
    requires IsKnown(p) && p.expindex >= 0
    ensures !p.code.Call?
  {}

  /** An available number stands for a value that has been computed. */
  lemma AvailableWasComputed(fg: seq<Block>, kills: seq<set<nat>>, f: Flow, ins: seq<set<nat>>, outs: seq<set<nat>>,
                             bs: seq<nat>, p: IC, sem: Sem, s: Store)
    requires FlowOf(fg, kills, f) && Solution(fg, f, ins, outs) && LeadsTo(fg, ins, bs, p)
    requires AllKnown(fg, kills, |s.vals|) && |kills| == |s.vals|
    requires AllEqualNumbers(ExpIndex, Instructions(fg)) && IsKnown(p)
    ensures WasComputed(PathCode(fg, bs), p, sem, s)
  {
    hide FlowOf, Solution, AllKnown, AllEqualNumbers, IsKnown, Computed, ExecAll, PathCode;
    AvailableExpressionsAreSound(fg, kills, f, ins, outs, bs, p.expindex, sem, s);
    var code := PathCode(fg, bs);
    var k: nat :| StillWorth(code, p.expindex, k, sem, s);
    PathCodeInside(fg, bs, code[k]);
    SameNumberSameValue(Instructions(fg), p, code[k], sem, ExecAll(code, sem, s));
    assert ComputedBefore(code, p, k, sem, s);
  }

  lemma LeadsKnown(fg: seq<Block>, ins: seq<set<nat>>, bs: seq<nat>, p: IC)
    requires LeadsTo(fg, ins, bs, p) && forall b, q :: b in fg && q in b.ics ==> IsKnown(q)
    ensures IsKnown(p)
  {
    HasBlock(fg, p);
    var b :| b in fg && p in b.ics;
  }

  lemma CoveredBelow(fg: seq<Block>, vcount: nat)
    requires AllCovered(fg, vcount)
    ensures forall p :: p in Instructions(fg) ==> OperandsBelow(p, vcount)
  {
    forall p | p in Instructions(fg)
      ensures OperandsBelow(p, vcount)
    {
      HasBlock(fg, p);
      var b :| b in fg && p in b.ics;
      assert Covered(p, vcount);
    }
  }

  lemma InUniverse(fg: seq<Block>, ecount: nat)
    requires Numbering.Below(ExpIndex, Instructions(fg), ecount)
    ensures forall b, p :: b in fg && p in b.ics && p.expindex >= 0 ==> p.expindex in NumbersBelow(ecount)
  {
    forall b, p | b in fg && p in b.ics && p.expindex >= 0
      ensures p.expindex in NumbersBelow(ecount)
    {
      ListHas(fg, b, p);
      var k :| 0 <= k < |Instructions(fg)| && Instructions(fg)[k] == p;
      assert Get(ExpIndex, Instructions(fg)[k]) < ecount;
    }
  }

  /** num_exp on the instructions of all blocks. */
  method NumberGraph(fg: array<Block>, opt: Options, vcount: nat)
    returns (ecount: nat, kills: array<set<nat>>, ghost list: seq<IC>)
    requires AllCovered(fg[..], vcount)
    modifies fg
    ensures kills.Length == vcount && |list| == |Instructions(old(fg[..]))|
    ensures IsNumbered(old(fg[..]), list, opt, kills[..]) && fg[..] == Cut(old(fg[..]), list)
    ensures AllEqualNumbers(ExpIndex, list) && Numbering.Below(ExpIndex, list, ecount)
  {
    hide AllCovered, Becomes, AllEqualNumbers, Numbering.Below, Ordered, IsExpression, KillsOperands, SameBut;
    ghost var was := fg[..];
    var given := Instructions(fg[..]);
    var ics := new IC[|given|](k requires 0 <= k < |given| => given[k]);
    CoveredBelow(was, vcount);
    assert ics[..] == given;
    var elist;
    elist, kills := NumExp(ics, opt, vcount);
    ecount := elist.Length;
    var numbered := ics[..];
    list := numbered;
    forall k | 0 <= k < |list|
      ensures Becomes(given[k], list[k], opt)
    {
      IsBecome(given[k], list[k], opt);
    }
    ghost var rows := kills[..];
    var cut := Cut(fg[..], numbered);
    forall i | 0 <= i < fg.Length {
      fg[i] := cut[i];
    }
    assert fg[..] == cut && kills[..] == rows;
  }

  lemma IsBecome(p: IC, p': IC, opt: Options)
    requires SameBut(ExpIndex, Ordered(p, opt), p') && (p'.expindex >= 0 <==> IsExpression(p, opt))
    ensures Becomes(p, p', opt)
  {}

  /** Expressions are numbered and the available ones found. The numbering changes no run, where the operators do
      commute and no instruction reads two volatile variables; and where an instruction p has its number in ae_in(B),
      every way from the entry to B has computed the value that p would compute at the start of B. */
  method NumberAndAnalyse(fg: array<Block>, preds: seq<seq<nat>>, opt: Options, vcount: nat)
    returns (aeIn: array<set<nat>>, aeOut: array<set<nat>>, ghost list: seq<IC>, ghost rows: seq<set<nat>>, ghost f: Flow)
    requires Lists(fg[..], preds) && AllCovered(fg[..], vcount) && AllWellFormed(fg[..])
    modifies fg
    ensures |list| == |Instructions(old(fg[..]))| && IsNumbered(old(fg[..]), list, opt, rows) && fg[..] == Cut(old(fg[..]), list)
    ensures AllKnown(fg[..], rows, vcount) && FlowOf(fg[..], rows, f) && Solution(fg[..], f, aeIn[..], aeOut[..])
    ensures forall y :: Supported(fg[..], f, y) ==> Available.Below(y, aeOut[..])
    ensures forall sem: Sem, c: Conf, n: nat {:trigger Run(fg[..], sem, c, n)} ::
      Commuting(sem, opt) && OneVolatile(old(fg[..]), sem) ==> Run(fg[..], sem, c, n) == Run(old(fg[..]), sem, c, n)
    ensures aeIn.Length == aeOut.Length == fg.Length
    ensures forall bs: seq<nat>, p: IC, sem: Sem, s: Store ::
      LeadsTo(fg[..], aeIn[..], bs, p) && |s.vals| == vcount ==> WasComputed(PathCode(fg[..], bs), p, sem, s)
  {
    hide Lists, AllCovered, AllWellFormed, IsNumbered, AllEqualNumbers, Numbering.Below, AllKnown, IsKnown, Run,
         FlowOf, Solution, Supported, LeadsTo, PathCode, Commuting, OneVolatile, WasComputed, Instructions;
    ghost var was := fg[..];
    var ecount, kills;
    ecount, kills, list := NumberGraph(fg, opt, vcount);
    rows := kills[..];
    ghost var now := fg[..];
    NumberedKnown(was, list, opt, rows, vcount);
    NumberedSame(was, list, opt, rows, preds);
    InUniverse(now, ecount);
    aeIn, aeOut, f := AvailableExpressions(fg[..], preds, kills[..], NumbersBelow(ecount));
    assert fg[..] == now;
    forall sem: Sem, c: Conf, n: nat | Commuting(sem, opt) && OneVolatile(was, sem)
      ensures Run(now, sem, c, n) == Run(was, sem, c, n)
    {
      NumberedRuns(was, list, opt, rows, sem, c, n);
    }
    ghost var ins, outs := aeIn[..], aeOut[..];
    forall bs: seq<nat>, p: IC, sem: Sem, s: Store | LeadsTo(now, ins, bs, p) && |s.vals| == vcount
      ensures WasComputed(PathCode(now, bs), p, sem, s)
    {
      LeadsKnown(now, ins, bs, p);
      AvailableWasComputed(now, rows, f, ins, outs, bs, p, sem, s);
    }
  }
}
