/** Available copies and copy propagation: cp.c. */
module CopyProp {
  import opened FlowGraph
  import opened Available

  /** A copy z = y, as its copyindex identifies it. */
  datatype Copy = Copy(z: nat, y: nat)

  /** The indices that num_copies gives out name the copies in table. */
  ghost predicate Numbered(p: IC, table: map<nat, Copy>) {
    p.copyindex >= 0 ==>
      && p.copyindex in table && p.code.Assign? && p.q1.Var? && p.z.Var?
      && table[p.copyindex] == Copy(p.z.v, p.q1.v)
  }

  /** cp.c's copies[v]: the copies that a change of v destroys. */
  function CopiesOf(table: map<nat, Copy>, v: nat): set<nat> {
    set i | i in table && (table[i].z == v || table[i].y == v)
  }

  function Killed(table: map<nat, Copy>, changes: seq<nat>): set<nat> {
    if changes == [] then {} else Killed(table, changes[..|changes| - 1]) + CopiesOf(table, changes[|changes| - 1])
  }

  function Own(p: IC): set<nat> {
    if p.copyindex >= 0 then {p.copyindex} else {}
  }

  /** An instruction ends the copies of what it changes and is itself one afterwards. */
  function CopyEffect(table: map<nat, Copy>, p: IC): Effect {
    Effect(Killed(table, p.changes), Own(p))
  }

  function CopyEffects(table: map<nat, Copy>, ics: seq<IC>): (r: seq<Effect>)
    ensures |r| == |ics|
  {
    seq(|ics|, k requires 0 <= k < |ics| => CopyEffect(table, ics[k]))
  }

  /** cp_gen and cp_kill of a block, computed from its end. */
  function GenKill(table: map<nat, Copy>, ics: seq<IC>): (set<nat>, set<nat>) {
    if ics == [] then ({}, {}) else
      var (gen, kill) := GenKill(table, ics[1..]);
      var gen' := gen + (Own(ics[0]) - kill);
      (gen', kill + (Killed(table, ics[0].changes) - gen'))
  }

  lemma {:induction false} GenKillSums(table: map<nat, Copy>, ics: seq<IC>, act: set<nat>)
    ensures var (gen, kill) := GenKill(table, ics);
            gen !! kill && Walk(CopyEffects(table, ics), act) == gen + (act - kill)
  {
    if ics != [] {
      var e := CopyEffect(table, ics[0]);
      assert CopyEffects(table, ics) == [e] + CopyEffects(table, ics[1..]);
      WalkAppend([e], CopyEffects(table, ics[1..]), act);
      assert [e][..0] == [];
      GenKillSums(table, ics[1..], Apply(e, act));
    }
  }

  // ----- available copies hold -----

  /** Every copy in act has equal variables. */
  ghost predicate CopiesHold(table: map<nat, Copy>, act: set<nat>, vals: seq<int>) {
    forall i :: i in act && i in table && table[i].z < |vals| && table[i].y < |vals| ==>
      vals[table[i].z] == vals[table[i].y]
  }

  lemma {:induction false} KilledHas(table: map<nat, Copy>, changes: seq<nat>, i: nat)
    ensures i in Killed(table, changes) <==> i in table && (table[i].z in changes || table[i].y in changes)
  {
    if changes != [] {
      var k := |changes| - 1;
      KilledHas(table, changes[..k], i);
      assert changes == changes[..k] + [changes[k]];
    }
  }

  lemma ExecKeepsCopies(table: map<nat, Copy>, p: IC, sem: Sem, s: Store, act: set<nat>)
    requires Covered(p, |s.vals|) && Numbered(p, table) && CopiesHold(table, act, s.vals)
    ensures CopiesHold(table, Apply(CopyEffect(table, p), act), Exec(p, sem, s).vals)
  {
    var t := Exec(p, sem, s);
    forall v: nat | v < |s.vals| && v !in p.changes
      ensures t.vals[v] == s.vals[v]
    {}
    forall i | i in Apply(CopyEffect(table, p), act) && i in table
               && table[i].z < |t.vals| && table[i].y < |t.vals|
      ensures t.vals[table[i].z] == t.vals[table[i].y]
    {
      KilledHas(table, p.changes, i);
    }
  }

  lemma {:induction false} BlockKeepsCopies(table: map<nat, Copy>, ics: seq<IC>, sem: Sem, s: Store, act: set<nat>)
    requires forall p :: p in ics ==> Covered(p, |s.vals|) && Numbered(p, table)
    requires CopiesHold(table, act, s.vals)
    ensures CopiesHold(table, Walk(CopyEffects(table, ics), act), ExecAll(ics, sem, s).vals)
  {
    if ics != [] {
      var k := |ics| - 1;
      assert CopyEffects(table, ics)[..k] == CopyEffects(table, ics[..k]);
      ExecKeepsSize(ics[..k], sem, s);
      BlockKeepsCopies(table, ics[..k], sem, s, act);
      ExecKeepsCopies(table, ics[k], sem, ExecAll(ics[..k], sem, s), Walk(CopyEffects(table, ics[..k]), act));
    }
  }

  // ----- what copy propagation may do -----

  /** An operand stays, or is replaced through a copy in act. */
  ghost predicate Substituted(table: map<nat, Copy>, act: set<nat>, q: Obj, q': Obj) {
    q' == q || (q.Var? && q'.Var? && exists i :: i in act && i in table && table[i] == Copy(q.v, q'.v))
  }

  ghost predicate Propagated(table: map<nat, Copy>, act: set<nat>, p: IC, p': IC) {
    && p' == p.(q1 := p'.q1, q2 := p'.q2)
    && Substituted(table, act, p.q1, p'.q1) && Substituted(table, act, p.q2, p'.q2)
    && (p.code.Address? || p.code.Nop? ==> p' == p)
  }

  ghost predicate PropagatedBlock(table: map<nat, Copy>, act: set<nat>, ics: seq<IC>, ics': seq<IC>) {
    && |ics'| == |ics|
    && forall k :: 0 <= k < |ics| ==> Propagated(table, Walk(CopyEffects(table, ics[..k]), act), ics[k], ics'[k])
  }

  ghost predicate PropagatedGraph(table: map<nat, Copy>, acts: seq<set<nat>>, fg: seq<Block>, fg': seq<Block>) {
    && |fg| == |fg'| == |acts|
    && forall i :: 0 <= i < |fg| ==>
         fg'[i] == fg[i].(ics := fg'[i].ics) && PropagatedBlock(table, acts[i], fg[i].ics, fg'[i].ics)
  }

  // ----- what a propagated instruction shows -----

  function OneRead(q: Obj, volatile: set<nat>): seq<nat> {
    if q.Var? && q.v in volatile then [q.v] else []
  }

  /** The volatile variables that p reads as operands, in order. */
  function VolatileReads(p: IC, volatile: set<nat>): seq<nat> {
    match p.code
    case Nop => []
    case Address => []
    case Call(_) => []
    case SetReturn => OneRead(p.q1, volatile)
    case _ => OneRead(p.q1, volatile) + OneRead(p.q2, volatile)
  }

  function ReadEvents(vs: seq<nat>, vals: seq<int>): (r: seq<Event>)
    ensures |r| == |vs|
  {
    seq(|vs|, i requires 0 <= i < |vs| => Read(vs[i], Value(Var(vs[i]), vals)))
  }

  /** What p shows besides the reading of its operands. */
  function OtherEvents(p: IC, sem: Sem, s: Store): seq<Event> {
    match p.code
    case Nop => []
    case Compare => []
    case SetReturn => [Returned(Value(p.q1, s.vals))]
    case Call(f) => [Called(f, Values(p.uses, s.vals))]
    case _ => if p.z.Var? && p.z.v < |s.vals| && IsVolatile(p.z, sem) then [Written(p.z.v, Computed(p, sem, s))] else []
  }

  lemma SeenIs(q: Obj, sem: Sem, vals: seq<int>)
    ensures Seen(q, sem, vals) == ReadEvents(OneRead(q, sem.volatile), vals)
  {}

  lemma ReadsAppend(x: seq<nat>, y: seq<nat>, vals: seq<int>)
    ensures ReadEvents(x + y, vals) == ReadEvents(x, vals) + ReadEvents(y, vals)
  {}

  lemma EventsOf(p: IC, sem: Sem, s: Store)
    ensures Exec(p, sem, s).events
            == s.events + ReadEvents(VolatileReads(p, sem.volatile), s.vals) + OtherEvents(p, sem, s)
  {
    hide Computed, Seen;
    SeenIs(p.q1, sem, s.vals);
    SeenIs(p.q2, sem, s.vals);
    ReadsAppend(OneRead(p.q1, sem.volatile), OneRead(p.q2, sem.volatile), s.vals);
    var a, b := Seen(p.q1, sem, s.vals), Seen(p.q2, sem, s.vals);
    assert s.events + a + b == s.events + (a + b);
    assert ReadEvents([], s.vals) == [];
  }

  lemma SubstitutedValue(table: map<nat, Copy>, act: set<nat>, q: Obj, q': Obj, vals: seq<int>)
    requires Substituted(table, act, q, q') && CopiesHold(table, act, vals)
    requires forall i :: i in table ==> table[i].z < |vals| && table[i].y < |vals|
    ensures Value(q', vals) == Value(q, vals)
  {}

  /** A propagated instruction stores, tests, returns and calls the same; what it reads may differ. */
  lemma PropagatedSame(table: map<nat, Copy>, act: set<nat>, p: IC, p': IC, sem: Sem, s: Store)
    requires Propagated(table, act, p, p') && CopiesHold(table, act, s.vals)
    requires forall i :: i in table ==> table[i].z < |s.vals| && table[i].y < |s.vals|
    ensures Exec(p', sem, s).(events := []) == Exec(p, sem, s).(events := [])
    ensures OtherEvents(p', sem, s) == OtherEvents(p, sem, s)
  {
    hide Substituted, Seen;
    SubstitutedValue(table, act, p.q1, p'.q1, s.vals);
    SubstitutedValue(table, act, p.q2, p'.q2, s.vals);
  }

  /** The instruction after propagation does the same, all that it shows included, if and only if it reads the same
      volatile variables in the same order. */
  lemma ReplacementIsUnseen(table: map<nat, Copy>, act: set<nat>, p: IC, p': IC, sem: Sem, s: Store)
    requires Propagated(table, act, p, p') && CopiesHold(table, act, s.vals)
    requires forall i :: i in table ==> table[i].z < |s.vals| && table[i].y < |s.vals|
    ensures Exec(p', sem, s).(events := []) == Exec(p, sem, s).(events := [])
    ensures Exec(p', sem, s) == Exec(p, sem, s)
            <==> VolatileReads(p', sem.volatile) == VolatileReads(p, sem.volatile)
  {
    hide Propagated, CopiesHold, Exec, VolatileReads, OtherEvents, ReadEvents;
    PropagatedSame(table, act, p, p', sem, s);
    EventsOf(p, sem, s);
    EventsOf(p', sem, s);
    var x, x' := VolatileReads(p, sem.volatile), VolatileReads(p', sem.volatile);
    var t, t' := Exec(p, sem, s), Exec(p', sem, s);
    SameStores(t, t');
    SameMiddle(s.events, ReadEvents(x, s.vals), ReadEvents(x', s.vals), OtherEvents(p, sem, s));
    SameReadEvents(x, x', s.vals);
  }

  lemma SameStores(t: Store, t': Store)
    requires t'.(events := []) == t.(events := [])
    ensures t' == t <==> t'.events == t.events
  {}

  lemma SameMiddle<T>(e: seq<T>, x: seq<T>, y: seq<T>, o: seq<T>)
    ensures e + x + o == e + y + o <==> x == y
  {
    if e + x + o == e + y + o {
      assert |x| == |y|;
      forall i | 0 <= i < |x|
        ensures x[i] == y[i]
      {
        assert (e + x + o)[|e| + i] == x[i] && (e + y + o)[|e| + i] == y[i];
      }
    }
  }

  lemma SameReadEvents(x: seq<nat>, y: seq<nat>, vals: seq<int>)
    ensures ReadEvents(x, vals) == ReadEvents(y, vals) <==> x == y
  {
    if ReadEvents(x, vals) == ReadEvents(y, vals) {
      forall i | 0 <= i < |x|
        ensures |x| == |y| && x[i] == y[i]
      {
        assert ReadEvents(x, vals)[i].v == ReadEvents(y, vals)[i].v;
      }
    }
  }

  // ----- blocks -----

  /** The events without the reading of volatile operands. */
  function Unread(es: seq<Event>): seq<Event> {
    if es == [] then [] else Unread(es[..|es| - 1]) + if es[|es| - 1].Read? then [] else [es[|es| - 1]]
  }

  lemma {:induction false} UnreadAppend(x: seq<Event>, y: seq<Event>)
    ensures Unread(x + y) == Unread(x) + Unread(y)
    decreases |y|
  {
    if y == [] {
      assert x + y == x;
    } else {
      assert (x + y)[..|x + y| - 1] == x + y[..|y| - 1];
      UnreadAppend(x, y[..|y| - 1]);
    }
  }

  lemma {:induction false} UnreadReads(vs: seq<nat>, vals: seq<int>)
    ensures Unread(ReadEvents(vs, vals)) == []
  {
    if vs != [] {
      var k := |vs| - 1;
      UnreadReads(vs[..k], vals);
      assert ReadEvents(vs, vals)[..k] == ReadEvents(vs[..k], vals);
    }
  }

  /** Two stores that differ at most in what has been read. */
  predicate Alike(s: Store, t: Store) {
    t.(events := []) == s.(events := []) && Unread(t.events) == Unread(s.events)
  }

  lemma ExecFrom(p: IC, sem: Sem, s: Store, t: Store)
    requires t.(events := []) == s.(events := [])
    ensures Exec(p, sem, t).(events := []) == Exec(p, sem, s).(events := [])
    ensures OtherEvents(p, sem, t) == OtherEvents(p, sem, s)
  {
    hide Seen;
  }

  lemma PropagatedExec(table: map<nat, Copy>, act: set<nat>, p: IC, p': IC, sem: Sem, s: Store, t: Store)
    requires Propagated(table, act, p, p') && CopiesHold(table, act, s.vals) && Alike(s, t)
    requires forall i :: i in table ==> table[i].z < |s.vals| && table[i].y < |s.vals|
    ensures Alike(Exec(p, sem, s), Exec(p', sem, t))
    ensures t == s && VolatileReads(p', sem.volatile) == VolatileReads(p, sem.volatile) ==> Exec(p', sem, t) == Exec(p, sem, s)
  {
    hide Propagated, CopiesHold, Exec, VolatileReads, OtherEvents, ReadEvents, Unread;
    PropagatedSame(table, act, p, p', sem, s);
    ReplacementIsUnseen(table, act, p, p', sem, s);
    ExecFrom(p', sem, s, t);
    EventsOf(p, sem, s);
    EventsOf(p', sem, t);
    UnreadExec(s.events, VolatileReads(p, sem.volatile), s.vals, OtherEvents(p, sem, s));
    UnreadExec(t.events, VolatileReads(p', sem.volatile), t.vals, OtherEvents(p', sem, t));
  }

  lemma UnreadExec(e: seq<Event>, vs: seq<nat>, vals: seq<int>, o: seq<Event>)
    ensures Unread(e + ReadEvents(vs, vals) + o) == Unread(e) + Unread(o)
  {
    hide ReadEvents, Unread;
    UnreadAppend(e + ReadEvents(vs, vals), o);
    UnreadAppend(e, ReadEvents(vs, vals));
    UnreadReads(vs, vals);
  }

  /** Every instruction reads the same volatile variables as before. */
  predicate SameReads(ics: seq<IC>, ics': seq<IC>, volatile: set<nat>) {
    |ics'| == |ics| && forall k :: 0 <= k < |ics| ==> VolatileReads(ics'[k], volatile) == VolatileReads(ics[k], volatile)
  }

  lemma {:induction false} PropagatedBlockExec(table: map<nat, Copy>, act: set<nat>, ics: seq<IC>, ics': seq<IC>,
                                              sem: Sem, s: Store, t: Store)
    requires PropagatedBlock(table, act, ics, ics') && CopiesHold(table, act, s.vals) && Alike(s, t)
    requires forall p :: p in ics ==> Covered(p, |s.vals|) && Numbered(p, table)
    requires forall i :: i in table ==> table[i].z < |s.vals| && table[i].y < |s.vals|
    ensures Alike(ExecAll(ics, sem, s), ExecAll(ics', sem, t))
    ensures t == s && SameReads(ics, ics', sem.volatile) ==> ExecAll(ics', sem, t) == ExecAll(ics, sem, s)
  {
    hide Propagated, CopiesHold, Numbered, Covered, Exec, Walk, Alike, VolatileReads;
    if ics != [] {
      var k := |ics| - 1;
      forall j | 0 <= j < k
        ensures Propagated(table, Walk(CopyEffects(table, ics[..k][..j]), act), ics[..k][j], ics'[..k][j])
      {
        assert ics[..k][..j] == ics[..j];
      }
      PropagatedBlockExec(table, act, ics[..k], ics'[..k], sem, s, t);
      ExecKeepsSize(ics[..k], sem, s);
      BlockKeepsCopies(table, ics[..k], sem, s, act);
      PropagatedExec(table, Walk(CopyEffects(table, ics[..k]), act), ics[k], ics'[k], sem,
                     ExecAll(ics[..k], sem, s), ExecAll(ics'[..k], sem, t));
      if SameReads(ics, ics', sem.volatile) {
        assert SameReads(ics[..k], ics'[..k], sem.volatile);
      }
    }
  }

  ghost predicate AllNumbered(fg: seq<Block>, table: map<nat, Copy>, vcount: nat) {
    && (forall b, p :: b in fg && p in b.ics ==> Numbered(p, table))
    && (forall i :: i in table ==> table[i].z < vcount && table[i].y < vcount)
  }

  /** f holds the blocks' cp_gen and cp_kill. */
  ghost predicate FlowOf(fg: seq<Block>, table: map<nat, Copy>, f: Flow) {
    && Fits(fg, f)
    && forall i :: 0 <= i < |fg| ==> (f.gen[i], f.kill[i]) == GenKill(table, fg[i].ics)
  }

  /** In every block the same volatile variables are read. */
  predicate SameReadsAll(fg: seq<Block>, fg': seq<Block>, volatile: set<nat>) {
    |fg'| == |fg| && forall i :: 0 <= i < |fg| ==> SameReads(fg[i].ics, fg'[i].ics, volatile)
  }

  /** Two configurations that differ at most in what has been read. */
  predicate AlikeConf(c: Conf, d: Conf) {
    d.pos == c.pos && Alike(c.store, d.store)
  }

  /** Where p' differs from p, neither the old nor the new operand is volatile. */
  predicate Quiet(p: IC, p': IC, volatile: set<nat>) {
    && (p'.q1 != p.q1 ==> OneRead(p.q1, volatile) == [] == OneRead(p'.q1, volatile))
    && (p'.q2 != p.q2 ==> OneRead(p.q2, volatile) == [] == OneRead(p'.q2, volatile))
  }

  lemma QuietReads(p: IC, p': IC, volatile: set<nat>)
    requires p' == p.(q1 := p'.q1, q2 := p'.q2) && Quiet(p, p', volatile)
    ensures VolatileReads(p', volatile) == VolatileReads(p, volatile)
  {}

  /** It is enough that no operand that differs is volatile, before or after. */
  lemma QuietReplacements(fg: seq<Block>, fg': seq<Block>, table: map<nat, Copy>, acts: seq<set<nat>>, volatile: set<nat>)
    requires PropagatedGraph(table, acts, fg, fg')
    requires forall i, k :: 0 <= i < |fg| && 0 <= k < |fg[i].ics| ==> Quiet(fg[i].ics[k], fg'[i].ics[k], volatile)
    ensures SameReadsAll(fg, fg', volatile)
  {
    hide Substituted, Walk, Quiet, VolatileReads;
    forall i, k | 0 <= i < |fg| && 0 <= k < |fg[i].ics|
      ensures VolatileReads(fg'[i].ics[k], volatile) == VolatileReads(fg[i].ics[k], volatile)
    {
      assert Propagated(table, Walk(CopyEffects(table, fg[i].ics[..k]), acts[i]), fg[i].ics[k], fg'[i].ics[k]);
      QuietReads(fg[i].ics[k], fg'[i].ics[k], volatile);
    }
  }

  lemma StepPropagated(fg: seq<Block>, fg': seq<Block>, table: map<nat, Copy>, f: Flow,
                       ins: seq<set<nat>>, outs: seq<set<nat>>, acts: seq<set<nat>>, sem: Sem, c: Conf, c': Conf)
    requires FlowOf(fg, table, f) && Solution(fg, f, ins, outs) && PropagatedGraph(table, acts, fg, fg')
    requires |acts| == |fg| && forall i :: 0 <= i < |fg| ==> acts[i] <= ins[i]
    requires BranchesInside(fg) && AllCovered(fg, |c.store.vals|) && AllNumbered(fg, table, |c.store.vals|)
    requires c.pos < |fg| && CopiesHold(table, ins[c.pos], c.store.vals) && AlikeConf(c, c')
    ensures AlikeConf(Step(fg, sem, c), Step(fg', sem, c'))
    ensures c' == c && SameReads(fg[c.pos].ics, fg'[c.pos].ics, sem.volatile) ==> Step(fg', sem, c') == Step(fg, sem, c)
    ensures var d := Step(fg, sem, c);
            |d.store.vals| == |c.store.vals| && d.pos <= |fg|
            && (d.pos < |fg| ==> CopiesHold(table, ins[d.pos], d.store.vals))
  {
    hide Unread, SameReads;
    var i := c.pos;
    var b := fg[i];
    assert b in fg;
    forall p | p in b.ics
      ensures Covered(p, |c.store.vals|) && Numbered(p, table)
    {}
    ExecKeepsSize(b.ics, sem, c.store);
    PropagatedBlockExec(table, acts[i], b.ics, fg'[i].ics, sem, c.store, c'.store);
    BlockKeepsCopies(table, b.ics, sem, c.store, ins[i]);
    GenKillSums(table, b.ics, ins[i]);
    var d := Step(fg, sem, c);
    if d.pos < |fg| {
      assert Edge(fg, i, d.pos);
    }
  }

  /** At the entry no copy is available. */
  lemma NothingCopied(fg: seq<Block>, table: map<nat, Copy>, f: Flow, ins: seq<set<nat>>, outs: seq<set<nat>>, vals: seq<int>)
    requires FlowOf(fg, table, f) && Solution(fg, f, ins, outs)
    ensures 0 < |fg| ==> CopiesHold(table, ins[0], vals)
  {}

  /** Copy propagation on every run from the entry: the same blocks, the same stores and the same events but for
      the reading of volatile operands; and these too, if every instruction reads the same volatile variables. */
  lemma {:induction false} CopyPropagationPreservesRuns(fg: seq<Block>, fg': seq<Block>, table: map<nat, Copy>, f: Flow,
      ins: seq<set<nat>>, outs: seq<set<nat>>, acts: seq<set<nat>>, sem: Sem, c: Conf, n: nat)
    requires FlowOf(fg, table, f) && Solution(fg, f, ins, outs) && PropagatedGraph(table, acts, fg, fg')
    requires |acts| == |fg| && forall i :: 0 <= i < |fg| ==> acts[i] <= ins[i]
    requires BranchesInside(fg) && AllCovered(fg, |c.store.vals|) && AllNumbered(fg, table, |c.store.vals|)
    requires c.pos == 0
    ensures var d := Run(fg, sem, c, n);
      && AlikeConf(d, Run(fg', sem, c, n))
      && (SameReadsAll(fg, fg', sem.volatile) ==> Run(fg', sem, c, n) == d)
      && |d.store.vals| == |c.store.vals| && d.pos <= |fg|
      && (d.pos < |fg| ==> CopiesHold(table, ins[d.pos], d.store.vals))
  {
    hide FlowOf, Solution, CopiesHold, AllCovered, AllNumbered, BranchesInside, ExecAll, Unread, SameReads;
    if n == 0 {
      NothingCopied(fg, table, f, ins, outs, c.store.vals);
    } else {
      CopyPropagationPreservesRuns(fg, fg', table, f, ins, outs, acts, sem, c, n - 1);
      var d := Run(fg, sem, c, n - 1);
      if d.pos < |fg| {
        StepPropagated(fg, fg', table, f, ins, outs, acts, sem, d, Run(fg', sem, c, n - 1));
      }
    }
  }

  // ----- the analysis and the transformation as vbcc performs them -----

  /** cp.c's bit matrix: row v holds the copies of v. */
  ghost predicate IsMatrix(copies: seq<set<nat>>, table: map<nat, Copy>, vcount: nat) {
    |copies| == vcount && forall v :: 0 <= v < vcount ==> copies[v] == CopiesOf(table, v)
  }

  lemma KilledSnoc(table: map<nat, Copy>, changes: seq<nat>, v: nat)
    ensures Killed(table, changes + [v]) == Killed(table, changes) + CopiesOf(table, v)
  {
    assert (changes + [v])[..|changes|] == changes;
  }

  /** The copies that the change list of p destroys. */
  method Destroyed(p: IC, copies: seq<set<nat>>, ghost table: map<nat, Copy>) returns (tmp: set<nat>)
    requires IsMatrix(copies, table, |copies|) && Covered(p, |copies|)
    ensures tmp == Killed(table, p.changes)
  {
    tmp := {};
    var j := 0;
    while j < |p.changes|
      invariant 0 <= j <= |p.changes| && tmp == Killed(table, p.changes[..j])
    {
      assert p.changes[j] in p.changes;
      assert p.changes[..j + 1] == p.changes[..j] + [p.changes[j]];
      KilledSnoc(table, p.changes[..j], p.changes[j]);
      tmp := tmp + copies[p.changes[j]];
      j := j + 1;
    }
    assert p.changes[..j] == p.changes;
  }

  /** cp_gen and cp_kill of one block, from its end to its start. */
  method BlockSets(ics: seq<IC>, copies: seq<set<nat>>, ghost table: map<nat, Copy>)
    returns (gen: set<nat>, kill: set<nat>)
    requires IsMatrix(copies, table, |copies|) && forall p :: p in ics ==> Covered(p, |copies|)
    ensures (gen, kill) == GenKill(table, ics)
  {
    gen, kill := {}, {};
    var k := |ics|;
    while k > 0
      invariant 0 <= k <= |ics| && (gen, kill) == GenKill(table, ics[k..])
    {
      k := k - 1;
      assert ics[k..][1..] == ics[k + 1..];
      var p := ics[k];
      ghost var gen0 := gen;
      var tmp := Destroyed(p, copies, table);
      if p.copyindex >= 0 && p.copyindex !in kill {
        gen := gen + {p.copyindex};
      }
      assert gen == gen0 + (Own(p) - kill);
      tmp := tmp - gen;
      kill := kill + tmp;
    }
    assert ics[0..] == ics;
  }

  lemma {:induction false} GenWithin(table: map<nat, Copy>, ics: seq<IC>)
    requires forall p :: p in ics ==> Numbered(p, table)
    ensures GenKill(table, ics).0 <= table.Keys
  {
    if ics != [] {
      assert ics[0] in ics;
      GenWithin(table, ics[1..]);
    }
  }

  /** available_copies: the greatest solution, for every graph. */
  method AvailableCopies(fg: seq<Block>, preds: seq<seq<nat>>, copies: seq<set<nat>>, ghost table: map<nat, Copy>,
                         universe: set<nat>)
    returns (cpIn: array<set<nat>>, cpOut: array<set<nat>>, ghost f: Flow)
    requires Lists(fg, preds) && AllCovered(fg, |copies|) && AllNumbered(fg, table, |copies|)
    requires IsMatrix(copies, table, |copies|) && table.Keys <= universe
    ensures fresh(cpIn) && fresh(cpOut) && cpIn.Length == cpOut.Length == |fg|
    ensures FlowOf(fg, table, f) && f.universe == universe && Solution(fg, f, cpIn[..], cpOut[..])
    ensures forall y :: Supported(fg, f, y) ==> Below(y, cpOut[..])
  {
    var gens, kills := [], [];
    for g := 0 to |fg|
      invariant |gens| == |kills| == g
      invariant forall i :: 0 <= i < g ==>
                  (gens[i], kills[i]) == GenKill(table, fg[i].ics) && gens[i] <= universe && gens[i] !! kills[i]
    {
      assert fg[g] in fg;
      forall p | p in fg[g].ics
        ensures Covered(p, |copies|) && Numbered(p, table)
      {}
      var gen, kill := BlockSets(fg[g].ics, copies, table);
      GenKillSums(table, fg[g].ics, {});
      GenWithin(table, fg[g].ics);
      gens, kills := gens + [gen], kills + [kill];
    }
    var flow := Flow(gens, kills, universe);
    f := flow;
    cpIn, cpOut := Solve(fg, preds, flow);
  }

  /** clist: for each copy index the place of one instruction that carries it. */
  ghost predicate Listed(fg: seq<Block>, clist: map<nat, (nat, nat)>, table: map<nat, Copy>) {
    && clist.Keys == table.Keys
    && forall i :: i in clist ==>
         && clist[i].0 < |fg| && clist[i].1 < |fg[clist[i].0].ics|
         && fg[clist[i].0].ics[clist[i].1].copyindex == i
  }

  /** The listed instructions outside dest still are the copies that their index names. */
  ghost predicate StillCopies(fg: seq<Block>, clist: map<nat, (nat, nat)>, table: map<nat, Copy>, dest: set<nat>) {
    && Listed(fg, clist, table)
    && forall i :: i in clist && i !in dest ==>
         var p := fg[clist[i].0].ics[clist[i].1];
         p.q1 == Var(table[i].y) && p.z == Var(table[i].z)
  }

  /** The entries of clist point into the graph. */
  predicate HasPlaces(fg: seq<Block>, clist: map<nat, (nat, nat)>) {
    forall i :: i in clist ==> clist[i].0 < |fg| && clist[i].1 < |fg[clist[i].0].ics|
  }

  lemma PlacesOfCopies(fg: seq<Block>, clist: map<nat, (nat, nat)>, table: map<nat, Copy>, dest: set<nat>)
    requires StillCopies(fg, clist, table, dest)
    ensures HasPlaces(fg, clist)
  {}

  /** What the instructions can be replaced by: the graph as it now is, clist, and cprop's tests on types and storage. */
  datatype Listing = Listing(fg: seq<Block>, clist: map<nat, (nat, nat)>, ccount: nat, mayReplace: (IC, Obj) -> bool)

  /** Copy i is listed, has o as its target and may replace it. */
  predicate Serves(l: Listing, i: nat, o: Obj)
    requires HasPlaces(l.fg, l.clist)
  {
    && i in l.clist
    && var p := l.fg[l.clist[i].0].ics[l.clist[i].1];
       p.z == o && p.q1 != o && l.mayReplace(p, o)
  }

  /** The source of the first copy from number i on that is in act and serves o, or else o. */
  function Choice(l: Listing, i: nat, o: Obj, act: set<nat>): Obj
    requires HasPlaces(l.fg, l.clist)
    decreases l.ccount - i
  {
    if i >= l.ccount then o
    else if i in act && Serves(l, i, o) then l.fg[l.clist[i].0].ics[l.clist[i].1].q1
    else Choice(l, i + 1, o, act)
  }

  /** cprop for a plain operand o: the first active copy of o that was not itself rewritten in this pass
      and passes the remaining tests on types and storage. */
  method Cprop(o: Obj, act: set<nat>, dest: set<nat>, fg: array<Block>, clist: map<nat, (nat, nat)>, ccount: nat,
               copies: seq<set<nat>>, mayReplace: (IC, Obj) -> bool, ghost table: map<nat, Copy>)
    returns (o': Obj, r: bool)
    requires o.Var? && o.v < |copies| && IsMatrix(copies, table, |copies|)
    requires StillCopies(fg[..], clist, table, dest)
    ensures Substituted(table, act, o, o') && (r <==> o' != o)
    ensures HasPlaces(fg[..], clist) && o' == Choice(Listing(fg[..], clist, ccount, mayReplace), 0, o, act - dest)
  {
    PlacesOfCopies(fg[..], clist, table, dest);
    ghost var l := Listing(fg[..], clist, ccount, mayReplace);
    var tmp := act * copies[o.v] - dest;
    for i := 0 to ccount
      invariant Choice(l, 0, o, act - dest) == Choice(l, i, o, act - dest)
    {
      assert i in act - dest && Serves(l, i, o) ==> i in tmp;
      if i in tmp {
        assert i in clist;
        var p := fg[..][clist[i].0].ics[clist[i].1];
        if p.z == o && p.q1 != o && mayReplace(p, o) {
          return p.q1, true;
        }
      }
    }
    return o, false;
  }

  /** p with its operands as copy_propagation chooses them. */
  function Chosen(l: Listing, p: IC, act: set<nat>, useq2asz: bool): IC
    requires HasPlaces(l.fg, l.clist)
  {
    if p.code.Address? || p.code.Nop? then p else
      var q1 := if p.q1.Var? then Choice(l, 0, p.q1, act) else p.q1;
      var q2 := if p.q2.Var? then Choice(l, 0, p.q2, act) else p.q2;
      p.(q1 := q1, q2 := if useq2asz || q2 != p.z then q2 else p.q2)
  }

  /** The operands of p as copy_propagation rewrites them. */
  method RewriteOperands(p: IC, act: set<nat>, dest: set<nat>, fg: array<Block>, clist: map<nat, (nat, nat)>,
                         ccount: nat, copies: seq<set<nat>>, mayReplace: (IC, Obj) -> bool, useq2asz: bool,
                         ghost table: map<nat, Copy>)
    returns (p': IC, r: bool)
    requires Covered(p, |copies|) && IsMatrix(copies, table, |copies|) && StillCopies(fg[..], clist, table, dest)
    ensures Propagated(table, act, p, p') && (r <==> p' != p) && p'.copyindex == p.copyindex
    ensures HasPlaces(fg[..], clist)
    ensures p' == Chosen(Listing(fg[..], clist, ccount, mayReplace), p, act - dest, useq2asz)
  {
    PlacesOfCopies(fg[..], clist, table, dest);
    p', r := p, false;
    if !p.code.Address? && !p.code.Nop? {
      if p.q1.Var? {
        var q, c := Cprop(p.q1, act, dest, fg, clist, ccount, copies, mayReplace, table);
        p', r := p'.(q1 := q), c;
      }
      if p.q2.Var? {
        var q, c := Cprop(p.q2, act, dest, fg, clist, ccount, copies, mayReplace, table);
        // the rewrite of q2 is taken back where the target may not also be the second operand
        if useq2asz || q != p.z {
          p', r := p'.(q2 := q), r || c;
        }
      }
    }
  }

  /** The graph with instruction k of block g replaced. */
  function Replaced(fg: seq<Block>, g: nat, k: nat, p': IC): (r: seq<Block>)
    requires g < |fg| && k < |fg[g].ics|
    ensures |r| == |fg| && |r[g].ics| == |fg[g].ics|
  {
    fg[g := fg[g].(ics := fg[g].ics[k := p'])]
  }

  lemma ReplacedHasPlaces(fg: seq<Block>, clist: map<nat, (nat, nat)>, g: nat, k: nat, p': IC)
    requires g < |fg| && k < |fg[g].ics| && HasPlaces(fg, clist)
    ensures HasPlaces(Replaced(fg, g, k, p'), clist)
  {}

  /** The rewritten copies, after p has become p'. */
  function Rewrote(dest: set<nat>, p: IC, p': IC): set<nat> {
    if p' != p && p.copyindex >= 0 then dest + {p.copyindex} else dest
  }

  /** The graph and the set of rewritten copies after copy_propagation has gone over block g from instruction k on. */
  function Rewriting(l: Listing, g: nat, k: nat, act: set<nat>, dest: set<nat>, table: map<nat, Copy>, useq2asz: bool)
    : (seq<Block>, set<nat>)
    requires g < |l.fg| && k <= |l.fg[g].ics| && HasPlaces(l.fg, l.clist)
    decreases |l.fg[g].ics| - k
  {
    if k == |l.fg[g].ics| then (l.fg, dest) else
      var p := l.fg[g].ics[k];
      var p' := Chosen(l, p, act - dest, useq2asz);
      ReplacedHasPlaces(l.fg, l.clist, g, k, p');
      Rewriting(l.(fg := Replaced(l.fg, g, k, p')), g, k + 1, act - Killed(table, p.changes) + Own(p),
                Rewrote(dest, p, p'), table, useq2asz)
  }

  lemma RewritingStep(l: Listing, g: nat, k: nat, act: set<nat>, dest: set<nat>, table: map<nat, Copy>, useq2asz: bool)
    requires g < |l.fg| && k < |l.fg[g].ics| && HasPlaces(l.fg, l.clist)
    ensures var p := l.fg[g].ics[k];
            var p' := Chosen(l, p, act - dest, useq2asz);
            var fg' := Replaced(l.fg, g, k, p');
            && HasPlaces(fg', l.clist)
            && Rewriting(l, g, k, act, dest, table, useq2asz)
               == Rewriting(l.(fg := fg'), g, k + 1, act - Killed(table, p.changes) + Own(p), Rewrote(dest, p, p'),
                            table, useq2asz)
  {
    hide Chosen, Killed, HasPlaces;
    ReplacedHasPlaces(l.fg, l.clist, g, k, Chosen(l, l.fg[g].ics[k], act - dest, useq2asz));
  }

  lemma RewritingEnd(l: Listing, g: nat, act: set<nat>, dest: set<nat>, table: map<nat, Copy>, useq2asz: bool)
    requires g < |l.fg| && HasPlaces(l.fg, l.clist)
    ensures Rewriting(l, g, |l.fg[g].ics|, act, dest, table, useq2asz) == (l.fg, dest)
  {}

  lemma ReplacedIs(fg: seq<Block>, fg': seq<Block>, g: nat, k: nat, p': IC)
    requires g < |fg| && k < |fg[g].ics| && fg' == Replaced(fg, g, k, p')
    ensures |fg'| == |fg| && forall i :: 0 <= i < |fg| && i != g ==> fg'[i] == fg[i]
    ensures fg'[g] == fg[g].(ics := fg'[g].ics) && |fg'[g].ics| == |fg[g].ics| && fg'[g].ics[k] == p'
    ensures forall j :: 0 <= j < |fg[g].ics| && j != k ==> fg'[g].ics[j] == fg[g].ics[j]
  {}

  lemma KeepsListed(fg: seq<Block>, clist: map<nat, (nat, nat)>, table: map<nat, Copy>, dest: set<nat>,
                    dest': set<nat>, g: nat, k: nat, p': IC)
    requires StillCopies(fg, clist, table, dest) && dest <= dest'
    requires g < |fg| && k < |fg[g].ics|
    requires p'.copyindex == fg[g].ics[k].copyindex
    requires p' != fg[g].ics[k] && p'.copyindex >= 0 ==> p'.copyindex in dest'
    ensures StillCopies(Replaced(fg, g, k, p'), clist, table, dest')
  {}

  lemma WalkSnoc(table: map<nat, Copy>, ics: seq<IC>, k: nat, start: set<nat>)
    requires k < |ics|
    ensures Walk(CopyEffects(table, ics[..k + 1]), start)
            == Walk(CopyEffects(table, ics[..k]), start) - Killed(table, ics[k].changes) + Own(ics[k])
  {
    var es := CopyEffects(table, ics[..k + 1]);
    assert es[..k] == CopyEffects(table, ics[..k]);
  }

  lemma WalkNone(table: map<nat, Copy>, ics: seq<IC>, start: set<nat>)
    ensures Walk(CopyEffects(table, ics[..0]), start) == start
  {}

  method AfterCopy(p: IC, act: set<nat>, copies: seq<set<nat>>, ghost table: map<nat, Copy>) returns (act': set<nat>)
    requires IsMatrix(copies, table, |copies|) && Covered(p, |copies|)
    ensures act' == act - Killed(table, p.changes) + Own(p)
  {
    var tmp := Destroyed(p, copies, table);
    act' := act - tmp;
    if p.copyindex >= 0 {
      act' := act' + {p.copyindex};
    }
  }

  method Overwrite(fg: array<Block>, g: nat, k: nat, p': IC, ghost clist: map<nat, (nat, nat)>,
                   ghost table: map<nat, Copy>, ghost dest: set<nat>, ghost dest': set<nat>)
    requires g < fg.Length && k < |fg[g].ics| && StillCopies(fg[..], clist, table, dest) && dest <= dest'
    requires p'.copyindex == fg[g].ics[k].copyindex
    requires p' != fg[g].ics[k] && p'.copyindex >= 0 ==> p'.copyindex in dest'
    modifies fg
    ensures fg[..] == Replaced(old(fg[..]), g, k, p') && StillCopies(fg[..], clist, table, dest')
  {
    ghost var before := fg[..];
    KeepsListed(before, clist, table, dest, dest', g, k, p');
    fg[g] := fg[g].(ics := fg[g].ics[k := p']);
    assert fg[..] == Replaced(before, g, k, p');
  }

  /** One instruction of copy_propagation. */
  method PropagateIC(fg: array<Block>, g: nat, k: nat, act: set<nat>, dest: set<nat>, clist: map<nat, (nat, nat)>,
                     ccount: nat, copies: seq<set<nat>>, mayReplace: (IC, Obj) -> bool, useq2asz: bool,
                     ghost table: map<nat, Copy>)
    returns (act': set<nat>, dest': set<nat>, r: bool)
    requires g < fg.Length && k < |fg[g].ics| && IsMatrix(copies, table, |copies|) && Covered(fg[g].ics[k], |copies|)
    requires StillCopies(fg[..], clist, table, dest)
    modifies fg
    ensures HasPlaces(old(fg[..]), clist)
    ensures var p := old(fg[g].ics[k]);
            var p' := Chosen(Listing(old(fg[..]), clist, ccount, mayReplace), p, act - dest, useq2asz);
            && fg[..] == Replaced(old(fg[..]), g, k, p')
            && Propagated(table, act, p, p') && (r <==> p' != p) && dest' == Rewrote(dest, p, p')
            && act' == act - Killed(table, p.changes) + Own(p)
    ensures StillCopies(fg[..], clist, table, dest')
  {
    hide Propagated, IsMatrix, Covered, StillCopies, Killed, Chosen, HasPlaces, Replaced;
    var p := fg[g].ics[k];
    var p';
    p', r := RewriteOperands(p, act, dest, fg, clist, ccount, copies, mayReplace, useq2asz, table);
    dest' := dest;
    if r && p.copyindex >= 0 {
      dest' := dest' + {p.copyindex};
    }
    Overwrite(fg, g, k, p', clist, table, dest, dest');
    act' := AfterCopy(p, act, copies, table);
  }

  /** One block of copy_propagation, rewritten in place; act starts as what is available at its start. */
  method PropagateBlock(fg: array<Block>, g: nat, start: set<nat>, dest: set<nat>, clist: map<nat, (nat, nat)>,
                        ccount: nat, copies: seq<set<nat>>, mayReplace: (IC, Obj) -> bool, useq2asz: bool,
                        ghost table: map<nat, Copy>)
    returns (dest': set<nat>, changed: bool)
    requires g < fg.Length && IsMatrix(copies, table, |copies|)
    requires forall p :: p in fg[g].ics ==> Covered(p, |copies|)
    requires StillCopies(fg[..], clist, table, dest)
    modifies fg
    ensures forall i :: 0 <= i < fg.Length && i != g ==> fg[i] == old(fg[i])
    ensures fg[g] == old(fg[g]).(ics := fg[g].ics)
    ensures PropagatedBlock(table, start, old(fg[g].ics), fg[g].ics)
    ensures StillCopies(fg[..], clist, table, dest')
    ensures !changed ==> fg[g] == old(fg[g])
    ensures HasPlaces(old(fg[..]), clist)
    ensures (fg[..], dest')
            == Rewriting(Listing(old(fg[..]), clist, ccount, mayReplace), g, 0, start, dest, table, useq2asz)
  {
    hide Propagated, IsMatrix, Covered, StillCopies, CopyEffects, Walk, Killed, Chosen, HasPlaces, Replaced, Rewriting,
         Rewrote;
    ghost var was := fg[g].ics;
    ghost var whole := fg[..];
    PlacesOfCopies(whole, clist, table, dest);
    var act, k := start, 0;
    WalkNone(table, was, start);
    dest', changed := dest, false;
    while k < |fg[g].ics|
      invariant 0 <= k <= |was| == |fg[g].ics| && fg[g] == whole[g].(ics := fg[g].ics)
      invariant forall i :: 0 <= i < fg.Length && i != g ==> fg[i] == whole[i]
      invariant forall j :: k <= j < |was| ==> fg[g].ics[j] == was[j]
      invariant forall j :: 0 <= j < k ==>
                  Propagated(table, Walk(CopyEffects(table, was[..j]), start), was[j], fg[g].ics[j])
      invariant act == Walk(CopyEffects(table, was[..k]), start)
      invariant StillCopies(fg[..], clist, table, dest')
      invariant !changed ==> fg[g].ics == was
      invariant HasPlaces(fg[..], clist)
      invariant Rewriting(Listing(whole, clist, ccount, mayReplace), g, 0, start, dest, table, useq2asz)
                == Rewriting(Listing(fg[..], clist, ccount, mayReplace), g, k, act, dest', table, useq2asz)
      decreases |was| - k
    {
      ghost var now := fg[..];
      assert now[g].ics[k] == was[k] && was[k] in was;
      WalkSnoc(table, was, k, start);
      ghost var l := Listing(now, clist, ccount, mayReplace);
      ghost var p' := Chosen(l, was[k], act - dest', useq2asz);
      RewritingStep(l, g, k, act, dest', table, useq2asz);
      var r;
      act, dest', r := PropagateIC(fg, g, k, act, dest', clist, ccount, copies, mayReplace, useq2asz, table);
      PlacesOfCopies(fg[..], clist, table, dest');
      ReplacedIs(now, fg[..], g, k, p');
      changed := changed || r;
      k := k + 1;
    }
    RewritingEnd(Listing(fg[..], clist, ccount, mayReplace), g, act, dest', table, useq2asz);
  }

  /** The two copies x1 = x0 and x2 = x1. */
  function TwoCopies(): (r: seq<IC>) {
    [IC(Assign, Var(0), NoObj, Var(1), [0], [1], 0, -1), IC(Assign, Var(1), NoObj, Var(2), [1], [2], 1, -1)]
  }

  function TwoCopiesListed(): Listing {
    Listing([Block(false, TwoCopies(), NoBranch)], map[0 := (0, 0), 1 := (0, 1)], 2, (_, _) => true)
  }

  function TwoCopiesTable(): map<nat, Copy> {
    map[0 := Copy(1, 0), 1 := Copy(2, 1)]
  }

  /** x0 may be volatile: copy propagation makes x2 = x0 of the second copy, and x0 is then read once more. */
  lemma VolatileCopyPropagated(sem: Sem, s: Store)
    requires sem.volatile == {0} && |s.vals| == 3
    ensures var l := TwoCopiesListed();
            var (fg', _) := Rewriting(l, 0, 0, {}, {}, TwoCopiesTable(), true);
            && StillCopies(l.fg, l.clist, TwoCopiesTable(), {})
            && |fg'| == 1 && fg'[0].ics == [TwoCopies()[0], TwoCopies()[1].(q1 := Var(0))]
            && ExecAll(TwoCopies(), sem, s).events == s.events + [Read(0, s.vals[0])]
            && ExecAll(fg'[0].ics, sem, s).events == s.events + [Read(0, s.vals[0]), Read(0, s.vals[0])]
  {
    hide Rewriting, ExecAll, Exec;
    FirstCopyStays();
    SecondCopyRewritten();
    TwoCopiesRead(sem, s);
  }

  lemma FirstCopyStays()
    ensures var l := TwoCopiesListed();
            Rewriting(l, 0, 0, {}, {}, TwoCopiesTable(), true) == Rewriting(l, 0, 1, {0}, {}, TwoCopiesTable(), true)
  {
    hide Chosen;
    var l, a := TwoCopiesListed(), TwoCopies()[0];
    TwoCopiesChosen();
    var none: set<nat> := {};
    assert none - none == none;
    RewritingStep(l, 0, 0, {}, {}, TwoCopiesTable(), true);
    hide Rewriting, Chosen;
    assert TwoCopies()[0 := a] == TwoCopies();
    assert l.fg[0 := l.fg[0]] == l.fg;
    assert Replaced(l.fg, 0, 0, a) == l.fg;
    assert {} - Killed(TwoCopiesTable(), a.changes) + Own(a) == {0};
  }

  lemma SecondCopyRewritten()
    ensures var l := TwoCopiesListed();
            var (fg', _) := Rewriting(l, 0, 1, {0}, {}, TwoCopiesTable(), true);
            |fg'| == 1 && fg'[0].ics == [TwoCopies()[0], TwoCopies()[1].(q1 := Var(0))]
  {
    hide Chosen, Rewriting, Killed;
    var l, b := TwoCopiesListed(), TwoCopies()[1];
    var b' := b.(q1 := Var(0));
    TwoCopiesChosen();
    assert {0} - {} == {0};
    RewritingStep(l, 0, 1, {0}, {}, TwoCopiesTable(), true);
    var fg' := Replaced(l.fg, 0, 1, b');
    assert fg'[0].ics == [TwoCopies()[0], b'];
    RewritingEnd(l.(fg := fg'), 0, {0} - Killed(TwoCopiesTable(), b.changes) + Own(b), Rewrote({}, b, b'),
                 TwoCopiesTable(), true);
  }

  lemma TwoCopiesChosen()
    ensures Chosen(TwoCopiesListed(), TwoCopies()[0], {}, true) == TwoCopies()[0]
    ensures Chosen(TwoCopiesListed(), TwoCopies()[1], {0}, true) == TwoCopies()[1].(q1 := Var(0))
  {
    assert Choice(TwoCopiesListed(), 0, Var(0), {}) == Var(0);
    assert Choice(TwoCopiesListed(), 0, Var(1), {0}) == Var(0);
  }

  lemma TwoCopiesRead(sem: Sem, s: Store)
    requires sem.volatile == {0} && |s.vals| == 3
    ensures var ics' := [TwoCopies()[0], TwoCopies()[1].(q1 := Var(0))];
            && ExecAll(TwoCopies(), sem, s).events == s.events + [Read(0, s.vals[0])]
            && ExecAll(ics', sem, s).events == s.events + [Read(0, s.vals[0]), Read(0, s.vals[0])]
  {
    var a, b := TwoCopies()[0], TwoCopies()[1];
    var b' := b.(q1 := Var(0));
    assert TwoCopies()[..1] == [a, b'][..1] == [a] && [a][..0] == [];
    var r := Read(0, s.vals[0]);
    var s1 := Exec(a, sem, s);
    assert s1.events == s.events + [r];
    assert ExecAll([a], sem, s) == s1;
    assert ExecAll(TwoCopies(), sem, s) == Exec(b, sem, s1);
    assert ExecAll([a, b'], sem, s) == Exec(b', sem, s1);
    assert s.events + [r] + [r] == s.events + [r, r];
  }

  lemma {:induction false} RewritingKeeps(l: Listing, g: nat, k: nat, act: set<nat>, dest: set<nat>, table: map<nat, Copy>,
                                         useq2asz: bool)
    requires g < |l.fg| && k <= |l.fg[g].ics| && HasPlaces(l.fg, l.clist)
    ensures var fg' := Rewriting(l, g, k, act, dest, table, useq2asz).0; |fg'| == |l.fg| && HasPlaces(fg', l.clist)
    decreases |l.fg[g].ics| - k
  {
    hide Chosen, Killed, HasPlaces;
    if k < |l.fg[g].ics| {
      var p' := Chosen(l, l.fg[g].ics[k], act - dest, useq2asz);
      ReplacedHasPlaces(l.fg, l.clist, g, k, p');
      RewritingKeeps(l.(fg := Replaced(l.fg, g, k, p')), g, k + 1, act - Killed(table, l.fg[g].ics[k].changes) + Own(l.fg[g].ics[k]),
                     Rewrote(dest, l.fg[g].ics[k], p'), table, useq2asz);
    }
  }

  /** The graph after copy_propagation has gone over the blocks from g on, each from its own starts. */
  function RewritingAll(l: Listing, starts: seq<set<nat>>, g: nat, dest: set<nat>, table: map<nat, Copy>, useq2asz: bool): seq<Block>
    requires g <= |l.fg| == |starts| && HasPlaces(l.fg, l.clist)
    decreases |starts| - g
  {
    if g == |l.fg| then l.fg else
      var (fg', dest') := Rewriting(l, g, 0, starts[g], dest, table, useq2asz);
      RewritingKeeps(l, g, 0, starts[g], dest, table, useq2asz);
      RewritingAll(l.(fg := fg'), starts, g + 1, dest', table, useq2asz)
  }

  function Starts(global: bool, ins: seq<set<nat>>): (s: seq<set<nat>>)
    ensures |s| == |ins|
  {
    seq(|ins|, i requires 0 <= i < |ins| => if global then ins[i] else {})
  }

  lemma RewritingOn(l: Listing, fg': seq<Block>, starts: seq<set<nat>>, g: nat, dest: set<nat>, dest': set<nat>,
                    table: map<nat, Copy>, useq2asz: bool)
    requires g < |l.fg| == |starts| && HasPlaces(l.fg, l.clist)
    requires (fg', dest') == Rewriting(l, g, 0, starts[g], dest, table, useq2asz)
    ensures |fg'| == |l.fg| && HasPlaces(fg', l.clist)
    ensures RewritingAll(l, starts, g, dest, table, useq2asz) == RewritingAll(l.(fg := fg'), starts, g + 1, dest', table, useq2asz)
  {
    RewritingKeeps(l, g, 0, starts[g], dest, table, useq2asz);
  }

  /** copy_propagation: with global set it starts each block from cp_in, otherwise from nothing. */
  method CopyPropagation(fg: array<Block>, global: bool, cpIn: array<set<nat>>, clist: map<nat, (nat, nat)>, ccount: nat,
                         copies: seq<set<nat>>, mayReplace: (IC, Obj) -> bool, useq2asz: bool,
                         ghost table: map<nat, Copy>)
    returns (changed: bool)
    requires fg.Length == cpIn.Length && IsMatrix(copies, table, |copies|)
    requires AllCovered(fg[..], |copies|) && StillCopies(fg[..], clist, table, {})
    modifies fg
    ensures PropagatedGraph(table, Starts(global, cpIn[..]), old(fg[..]), fg[..])
    ensures HasPlaces(old(fg[..]), clist)
    ensures fg[..] == RewritingAll(Listing(old(fg[..]), clist, ccount, mayReplace), Starts(global, cpIn[..]), 0, {}, table, useq2asz)
    ensures !changed ==> fg[..] == old(fg[..])
  {
    hide PropagatedBlock, StillCopies, IsMatrix, Rewriting, RewritingAll, HasPlaces;
    ghost var was := fg[..];
    ghost var starts := Starts(global, cpIn[..]);
    PlacesOfCopies(was, clist, table, {});
    var dest: set<nat>, g := {}, 0;
    changed := false;
    while g < fg.Length
      invariant 0 <= g <= fg.Length
      invariant forall i :: g <= i < fg.Length ==> fg[i] == was[i]
      invariant forall i :: 0 <= i < g ==>
                  fg[i] == was[i].(ics := fg[i].ics)
                  && PropagatedBlock(table, if global then cpIn[i] else {}, was[i].ics, fg[i].ics)
      invariant StillCopies(fg[..], clist, table, dest)
      invariant !changed ==> forall i :: 0 <= i < g ==> fg[i] == was[i]
      invariant HasPlaces(fg[..], clist)
      invariant RewritingAll(Listing(was, clist, ccount, mayReplace), starts, 0, {}, table, useq2asz)
                == RewritingAll(Listing(fg[..], clist, ccount, mayReplace), starts, g, dest, table, useq2asz)
    {
      assert fg[g] == was[g] && was[g] in was;
      ghost var l := Listing(fg[..], clist, ccount, mayReplace);
      ghost var before := dest;
      var r;
      dest, r := PropagateBlock(fg, g, if global then cpIn[g] else {}, dest, clist, ccount, copies,
                                mayReplace, useq2asz, table);
      RewritingOn(l, fg[..], starts, g, before, dest, table, useq2asz);
      changed := changed || r;
      g := g + 1;
    }
    RewritingEnds(Listing(fg[..], clist, ccount, mayReplace), starts, dest, table, useq2asz);
  }

  lemma RewritingEnds(l: Listing, starts: seq<set<nat>>, dest: set<nat>, table: map<nat, Copy>, useq2asz: bool)
    requires |l.fg| == |starts| && HasPlaces(l.fg, l.clist)
    ensures RewritingAll(l, starts, |l.fg|, dest, table, useq2asz) == l.fg
  {}

  /** The analysis followed by global propagation: every run from the entry stays the same, and each block is rewritten
      with the copies that the greatest solution has for it. */
  method PropagateCopies(fg: array<Block>, preds: seq<seq<nat>>, clist: map<nat, (nat, nat)>, ccount: nat,
                         universe: set<nat>, copies: seq<set<nat>>, mayReplace: (IC, Obj) -> bool, useq2asz: bool,
                         ghost table: map<nat, Copy>)
    returns (changed: bool, ghost f: Flow, ghost ins: seq<set<nat>>, ghost outs: seq<set<nat>>)
    requires BranchesInside(fg[..]) && Lists(fg[..], preds) && AllCovered(fg[..], |copies|)
    requires AllNumbered(fg[..], table, |copies|)
    requires IsMatrix(copies, table, |copies|) && table.Keys <= universe && Listed(fg[..], clist, table)
    modifies fg
    ensures FlowOf(old(fg[..]), table, f) && f.universe == universe && Solution(old(fg[..]), f, ins, outs)
    ensures forall y :: Supported(old(fg[..]), f, y) ==> Below(y, outs)
    ensures HasPlaces(old(fg[..]), clist) && |ins| == fg.Length
    ensures fg[..] == RewritingAll(Listing(old(fg[..]), clist, ccount, mayReplace), ins, 0, {}, table, useq2asz)
    ensures forall sem: Sem, c: Conf, n: nat {:trigger Run(old(fg[..]), sem, c, n)} {:trigger Run(fg[..], sem, c, n)} ::
      |c.store.vals| == |copies| && c.pos == 0 ==>
        && AlikeConf(Run(old(fg[..]), sem, c, n), Run(fg[..], sem, c, n))
        && (SameReadsAll(old(fg[..]), fg[..], sem.volatile) ==> Run(fg[..], sem, c, n) == Run(old(fg[..]), sem, c, n))
  {
    hide PropagatedGraph, Solution, FlowOf, Lists, AllCovered, Supported, IsMatrix;
    ghost var was := fg[..];
    ListedStillCopies(was, clist, table, |copies|);
    var cpIn, cpOut;
    cpIn, cpOut, f := AvailableCopies(fg[..], preds, copies, table, universe);
    ins, outs := cpIn[..], cpOut[..];
    changed := CopyPropagation(fg, true, cpIn, clist, ccount, copies, mayReplace, useq2asz, table);
    assert Starts(true, ins) == ins;
    forall sem: Sem, c: Conf, n: nat | |c.store.vals| == |copies| && c.pos == 0
      ensures AlikeConf(Run(was, sem, c, n), Run(fg[..], sem, c, n))
      ensures SameReadsAll(was, fg[..], sem.volatile) ==> Run(fg[..], sem, c, n) == Run(was, sem, c, n)
    {
      CopyPropagationPreservesRuns(was, fg[..], table, f, ins, outs, ins, sem, c, n);
    }
  }

  lemma ListedStillCopies(fg: seq<Block>, clist: map<nat, (nat, nat)>, table: map<nat, Copy>, vcount: nat)
    requires Listed(fg, clist, table) && AllNumbered(fg, table, vcount)
    ensures StillCopies(fg, clist, table, {})
  {
    forall i | i in clist
      ensures var p := fg[clist[i].0].ics[clist[i].1]; p.q1 == Var(table[i].y) && p.z == Var(table[i].z)
    {
      var b := fg[clist[i].0];
      assert b in fg && b.ics[clist[i].1] in b.ics;
      assert Numbered(b.ics[clist[i].1], table);
    }
  }
}
