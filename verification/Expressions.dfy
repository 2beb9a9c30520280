/** The numbering of expressions in cse.c: equal expressions get equal numbers. */
module Expressions {
  import opened FlowGraph
  import opened Numbering

  // ----- which instructions are numbered -----

  /** What decides about commuting operands and about static variables as expressions. */
  datatype Options = Options(commutes: set<nat>, useq2asz: bool, statics: set<nat>)

  predicate IsExpression(p: IC, opt: Options) {
    && p.z.Var? && !p.q1.NoObj? && !p.code.Call?
    && (p.code.Assign? ==> p.q1.Var? && p.q1.v in opt.statics)
  }

  /** Operands of a commuting operator are put in order, so that a+b and b+a are found equal. */
  function Ordered(p: IC, opt: Options): IC {
    if && IsExpression(p, opt) && p.code.Arith? && p.code.op in opt.commutes && !p.q2.NoObj?
       && CompareObjs(p.q1, p.q2) < 0 && (opt.useq2asz || CompareObjs(p.q1, p.z) != 0)
    then p.(q1 := p.q2, q2 := p.q1) else p
  }

  ghost predicate Commuting(sem: Sem, opt: Options) {
    forall op, x, y :: op in opt.commutes ==> sem.arith(op, x, y) == sem.arith(op, y, x)
  }

  /** Putting operands in order changes neither what an instruction computes nor, if it reads nothing
      volatile, anything else it does. */
  lemma OrderedExec(p: IC, opt: Options, sem: Sem, s: Store)
    requires Commuting(sem, opt) && !(IsVolatile(p.q1, sem) && IsVolatile(p.q2, sem))
    ensures Exec(Ordered(p, opt), sem, s) == Exec(p, sem, s)
  {
    var p' := Ordered(p, opt);
    if p' != p {
      assert Computed(p', sem, s) == Computed(p, sem, s);
      assert Seen(p'.q1, sem, s.vals) + Seen(p'.q2, sem, s.vals) == Seen(p.q1, sem, s.vals) + Seen(p.q2, sem, s.vals);
      assert s.events + Seen(p'.q1, sem, s.vals) + Seen(p'.q2, sem, s.vals)
          == s.events + Seen(p.q1, sem, s.vals) + Seen(p.q2, sem, s.vals);
    }
  }

  lemma OrderedIfExpression(p: IC, opt: Options)
    ensures !IsExpression(p, opt) ==> Ordered(p, opt) == p
  {}

  /** The first loop of num_exp: every expression gets a number of its own. */
  method Enumerate(ics: array<IC>, opt: Options) returns (ecount: nat, ghost places: seq<nat>)
    modifies ics
    ensures forall k :: 0 <= k < ics.Length ==> SameBut(ExpIndex, Ordered(old(ics[k]), opt), ics[k])
    ensures forall k :: 0 <= k < ics.Length ==> (ics[k].expindex >= 0 <==> IsExpression(old(ics[k]), opt))
    ensures |places| == ecount && Inverse(ExpIndex, ics[..], places)
  {
    hide Ordered, IsExpression, Enumerated, Inverse;
    ecount := 0;
    places := [];
    assert Enumerated(ExpIndex, ics[..], places, 0) by { NothingEnumerated(ExpIndex, ics[..]); }
    for i := 0 to ics.Length
      invariant |places| == ecount && Enumerated(ExpIndex, ics[..], places, i)
      invariant forall k :: i <= k < ics.Length ==> ics[k] == old(ics[k])
      invariant forall k :: 0 <= k < i ==> SameBut(ExpIndex, Ordered(old(ics[k]), opt), ics[k])
      invariant forall k :: 0 <= k < i ==> (ics[k].expindex >= 0 <==> IsExpression(old(ics[k]), opt))
    {
      ghost var list := ics[..];
      OrderedIfExpression(ics[i], opt);
      EnumeratedOn(ExpIndex, list, places, i, Ordered(ics[i], opt), IsExpression(ics[i], opt));
      if IsExpression(ics[i], opt) {
        ics[i] := Ordered(ics[i], opt).(expindex := ecount);
        assert ics[..] == list[i := Put(ExpIndex, Ordered(list[i], opt), |places|)];
        places := places + [i];
        ecount := ecount + 1;
      } else {
        ics[i] := ics[i].(expindex := -1);
        assert ics[..] == list[i := Put(ExpIndex, Ordered(list[i], opt), -1)];
      }
    }
    EnumeratedAll(ExpIndex, ics[..], places);
  }

  // ----- which changes end which expressions -----

  /** An expression that a change of v ends: v is an operand; addresses do not change. */
  predicate Reads(p: IC, v: nat) {
    !p.code.Address? && (p.q1 == Var(v) || p.q2 == Var(v))
  }

  /** ae_kills has, for every number in use, exactly the operands of the expressions with that number. */
  ghost predicate KillsOperands(p: IC, kills: seq<set<nat>>) {
    p.expindex >= 0 ==> forall v :: 0 <= v < |kills| ==> (p.expindex in kills[v] <==> Reads(p, v))
  }

  /** The last loop: note at the operands of the expression in elist[c] that they end number c. */
  method Kills(ics: array<IC>, elist: array<nat>, vcount: nat) returns (kills: array<set<nat>>)
    requires forall c :: 0 <= c < elist.Length ==> elist[c] < ics.Length
    requires forall k :: 0 <= k < ics.Length ==> OperandsBelow(ics[k], vcount)
    ensures fresh(kills) && kills.Length == vcount
    ensures forall v, c :: 0 <= v < vcount && 0 <= c < elist.Length ==> (c in kills[v] <==> Reads(ics[elist[c]], v))
  {
    kills := new set<nat>[vcount](_ => {});
    for c := 0 to elist.Length
      invariant forall v, d :: 0 <= v < vcount && c <= d ==> d !in kills[v]
      invariant forall v, d :: 0 <= v < vcount && 0 <= d < c ==> (d in kills[v] <==> Reads(ics[elist[d]], v))
      modifies kills
    {
      var p := ics[elist[c]];
      if !p.code.Address? {
        if p.q1.Var? {
          kills[p.q1.v] := kills[p.q1.v] + {c};
        }
        if p.q2.Var? {
          kills[p.q2.v] := kills[p.q2.v] + {c};
        }
      }
    }
  }

  lemma EqualReads(p: IC, q: IC, v: nat)
    requires CompareExp(p, q) == 0 && !p.code.Call?
    ensures Reads(p, v) <==> Reads(q, v)
  {}

  ghost predicate OperandsBelow(p: IC, vcount: nat) {
    (p.q1.Var? ==> p.q1.v < vcount) && (p.q2.Var? ==> p.q2.v < vcount)
  }

  lemma NumberedFacts(p: IC, p': IC, opt: Options, vcount: nat)
    requires SameBut(ExpIndex, Ordered(p, opt), p')
    ensures OperandsBelow(p, vcount) ==> OperandsBelow(p', vcount)
    ensures IsExpression(p, opt) ==> !p'.code.Call?
  {}

  lemma OperatorsAreExpressions(p: IC, opt: Options)
    ensures p.z.Var? && !p.q1.NoObj? && (p.code.Arith? || p.code.Address?) ==> IsExpression(p, opt)
  {}

  /** What the order is for: an operator that commutes, on the same operands the other way round, is found equal,
      unless an operand is the target and the machine does not take its target for a second operand. */
  lemma SwappedFoundEqual(p: IC, opt: Options)
    requires p.z.Var? && p.code.Arith? && p.code.op in opt.commutes && !p.q1.NoObj? && !p.q2.NoObj?
    ensures opt.useq2asz || (p.q1 != p.z && p.q2 != p.z) ==>
              CompareExp(Ordered(p, opt), Ordered(p.(q1 := p.q2, q2 := p.q1), opt)) == 0
    ensures p.q1 == p.z && !opt.useq2asz ==>
              (CompareExp(Ordered(p, opt), Ordered(p.(q1 := p.q2, q2 := p.q1), opt)) == 0 <==> CompareObjs(p.q1, p.q2) >= 0)
  {
    hide CompareExp;
    CompareExpEqual(Ordered(p, opt), Ordered(p.(q1 := p.q2, q2 := p.q1), opt));
  }

  /** num_exp: two instructions get the same number exactly when compare_exp calls them equal, and ae_kills
      knows for each number what ends it. */
  method NumExp(ics: array<IC>, opt: Options, vcount: nat) returns (elist: array<nat>, kills: array<set<nat>>)
    requires forall k :: 0 <= k < ics.Length ==> OperandsBelow(ics[k], vcount)
    modifies ics
    ensures forall k :: 0 <= k < ics.Length ==> SameBut(ExpIndex, Ordered(old(ics[k]), opt), ics[k])
    ensures forall k :: 0 <= k < ics.Length ==> (ics[k].expindex >= 0 <==> IsExpression(old(ics[k]), opt))
    ensures forall k :: 0 <= k < ics.Length && old(ics[k].z.Var? && !ics[k].q1.NoObj? && (ics[k].code.Arith? || ics[k].code.Address?))
              ==> ics[k].expindex >= 0
    ensures AllEqualNumbers(ExpIndex, ics[..]) && Represents(ExpIndex, ics[..], elist[..])
    ensures kills.Length == vcount
    ensures forall k :: 0 <= k < ics.Length ==> KillsOperands(ics[k], kills[..])
  {
    hide Ordered, IsExpression, CompareExp, KillsOperands, AllEqualNumbers, Reads;
    var ecount;
    ghost var places;
    ecount, places := Enumerate(ics, opt);
    ghost var list := ics[..];
    elist := new nat[ecount];
    ShareNumbers(ics, elist, ExpIndex, places);
    forall k | 0 <= k < ics.Length
      ensures SameBut(ExpIndex, Ordered(old(ics[k]), opt), ics[k]) && OperandsBelow(ics[k], vcount)
      ensures ics[k].expindex >= 0 ==> !ics[k].code.Call?
    {
      assert SameBut(ExpIndex, list[k], ics[..][k]);
      NumberedFacts(old(ics[k]), ics[k], opt, vcount);
    }
    kills := Kills(ics, elist, vcount);
    forall k | 0 <= k < ics.Length
      ensures old(ics[k].z.Var? && !ics[k].q1.NoObj? && (ics[k].code.Arith? || ics[k].code.Address?)) ==> ics[k].expindex >= 0
    {
      OperatorsAreExpressions(old(ics[k]), opt);
    }
    forall k | 0 <= k < ics.Length
      ensures KillsOperands(ics[k], kills[..])
    {
      KillsKnown(ics[..], elist[..], kills[..], k);
    }
  }

  lemma KillsKnown(list: seq<IC>, elist: seq<nat>, kills: seq<set<nat>>, k: nat)
    requires k < |list| && (list[k].expindex >= 0 ==> !list[k].code.Call?)
    requires Represents(ExpIndex, list, elist) && AllEqualNumbers(ExpIndex, list)
    requires forall c :: 0 <= c < |elist| ==> elist[c] < |list|
    requires forall v, c :: 0 <= v < |kills| && 0 <= c < |elist| ==> (c in kills[v] <==> Reads(list[elist[c]], v))
    ensures KillsOperands(list[k], kills)
  {
    hide CompareExp, Reads;
    if list[k].expindex >= 0 {
      var c := Get(ExpIndex, list[k]);
      var e := elist[c];
      assert Get(ExpIndex, list[e]) == c;
      assert EqualNumbers(ExpIndex, list, k, e);
      forall v | 0 <= v < |kills|
        ensures c in kills[v] <==> Reads(list[k], v)
      {
        EqualReads(list[k], list[e], v);
      }
    }
  }
}
