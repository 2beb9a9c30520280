/** The intermediate code of vbcc, as far as av.c, cp.c, cse.c and flow.c look at it: scalar
    variables, basic blocks in program order, and what running them does. */
module FlowGraph {
  /** An operand: absent, a constant or a scalar variable, by its index. */
  datatype Obj = NoObj | Konst(val: int) | Var(v: nat)

  datatype Code = Assign | Arith(op: nat) | Address | Compare | Call(f: nat) | GetReturn | SetReturn | Nop

  /** An instruction z = q1 code q2 with its use list and change list. */
  datatype IC = IC(code: Code, q1: Obj, q2: Obj, z: Obj, uses: seq<nat>, changes: seq<nat>,
                   copyindex: int, expindex: int)

  datatype Cond = EQ | NE | LT | GE | GT | LE

  datatype Branch = NoBranch | Bcc(cond: Cond, target: nat) | Bra(target: nat)

  /** A basic block; its normalout is the next block of the graph, its branchout the branch's target. */
  datatype Block = Block(labelled: bool, ics: seq<IC>, branch: Branch)

  // ----- running the code -----

  /** What a run shows to the outside: calls with what they read, the returned value, volatile accesses. */
  datatype Event = Called(f: nat, args: seq<int>) | Returned(val: int) | Read(v: nat, val: int) | Written(v: nat, val: int)

  datatype Store = Store(vals: seq<int>, cc: int, ret: int, events: seq<Event>)

  /** The meaning of the opcodes, which the optimizer does not look into, and the volatile variables. */
  datatype Sem = Sem(
    arith: (nat, int, int) -> int,
    address: nat -> int,
    compare: (int, int) -> int,
    effect: (nat, seq<int>, nat, int) -> int,
    result: (nat, seq<int>) -> int,
    volatile: set<nat>)

  function Value(q: Obj, vals: seq<int>): int {
    match q
    case NoObj => 0
    case Konst(k) => k
    case Var(v) => if v < |vals| then vals[v] else 0
  }

  function Values(vs: seq<nat>, vals: seq<int>): (r: seq<int>)
    ensures |r| == |vs|
  {
    seq(|vs|, i requires 0 <= i < |vs| => Value(Var(vs[i]), vals))
  }

  predicate IsVolatile(q: Obj, sem: Sem) {
    q.Var? && q.v in sem.volatile
  }

  /** Reading a volatile operand is visible. */
  function Seen(q: Obj, sem: Sem, vals: seq<int>): seq<Event> {
    if IsVolatile(q, sem) then [Read(q.v, Value(q, vals))] else []
  }

  /** What z receives. */
  function Computed(p: IC, sem: Sem, s: Store): int {
    match p.code
    case Arith(op) => sem.arith(op, Value(p.q1, s.vals), Value(p.q2, s.vals))
    case Address => if p.q1.Var? then sem.address(p.q1.v) else 0
    case GetReturn => s.ret
    case _ => Value(p.q1, s.vals)
  }

  function Exec(p: IC, sem: Sem, s: Store): Store {
    match p.code
    case Nop => s
    case Compare =>
      s.(cc := sem.compare(Value(p.q1, s.vals), Value(p.q2, s.vals)),
         events := s.events + Seen(p.q1, sem, s.vals) + Seen(p.q2, sem, s.vals))
    case SetReturn => s.(events := s.events + Seen(p.q1, sem, s.vals) + [Returned(Value(p.q1, s.vals))])
    case Call(f) =>
      var args := Values(p.uses, s.vals);
      s.(vals := seq(|s.vals|, v requires 0 <= v < |s.vals| =>
                   if v in p.changes then sem.effect(f, args, v, s.vals[v]) else s.vals[v]),
         ret := sem.result(f, args),
         events := s.events + [Called(f, args)])
    case _ =>
      var x := Computed(p, sem, s);
      var seen := if p.code.Address? then [] else Seen(p.q1, sem, s.vals) + Seen(p.q2, sem, s.vals);
      if p.z.Var? && p.z.v < |s.vals| then
        s.(vals := s.vals[p.z.v := x],
           events := s.events + seen + if IsVolatile(p.z, sem) then [Written(p.z.v, x)] else [])
      else s.(events := s.events + seen)
  }

  function ExecAll(ics: seq<IC>, sem: Sem, s: Store): Store {
    if ics == [] then s else Exec(ics[|ics| - 1], sem, ExecAll(ics[..|ics| - 1], sem, s))
  }

  predicate Holds(cond: Cond, cc: int) {
    match cond
    case EQ => cc == 0
    case NE => cc != 0
    case LT => cc < 0
    case GE => cc >= 0
    case GT => cc > 0
    case LE => cc <= 0
  }

  /** The block run after block i; the number of blocks stands for leaving the function. */
  function Next(b: Block, i: nat, cc: int): nat {
    match b.branch
    case NoBranch => i + 1
    case Bra(t) => t
    case Bcc(c, t) => if Holds(c, cc) then t else i + 1
  }

  datatype Conf = Conf(pos: nat, store: Store)

  function Step(fg: seq<Block>, sem: Sem, c: Conf): Conf {
    if c.pos >= |fg| then c else
      var s := ExecAll(fg[c.pos].ics, sem, c.store);
      Conf(Next(fg[c.pos], c.pos, s.cc), s)
  }

  function Run(fg: seq<Block>, sem: Sem, c: Conf, n: nat): Conf {
    if n == 0 then c else Step(fg, sem, Run(fg, sem, c, n - 1))
  }

  // ----- well-formed graphs -----

  predicate BranchesInside(fg: seq<Block>) {
    forall b :: b in fg && !b.branch.NoBranch? ==> b.branch.target < |fg|
  }

  /** C's edge test: branchout, or normalout of a block that does not end in BRA. */
  predicate Edge(fg: seq<Block>, i: nat, j: nat) {
    && i < |fg| && j < |fg|
    && ((!fg[i].branch.NoBranch? && fg[i].branch.target == j) || (!fg[i].branch.Bra? && j == i + 1))
  }

  /** The lists cover what p reads and writes: the hypothesis under which the analyses work. */
  predicate Covered(p: IC, vcount: nat) {
    && (forall v :: v in p.uses ==> v < vcount)
    && (forall v :: v in p.changes ==> v < vcount)
    && (p.q1.Var? ==> p.q1.v < vcount && (p.code.Address? || p.code.Nop? || p.q1.v in p.uses))
    && (p.q2.Var? ==> p.q2.v < vcount && (p.code.Address? || p.code.Nop? || p.q2.v in p.uses))
    && (p.z.Var? ==> p.z.v < vcount && p.z.v in p.changes
                     && !p.code.Call? && !p.code.Compare? && !p.code.SetReturn? && !p.code.Nop?)
  }

  predicate AllCovered(fg: seq<Block>, vcount: nat) {
    forall b, p :: b in fg && p in b.ics ==> Covered(p, vcount)
  }

  lemma {:induction false} ExecKeepsSize(ics: seq<IC>, sem: Sem, s: Store)
    ensures |ExecAll(ics, sem, s).vals| == |s.vals|
  {
    if ics != [] {
      ExecKeepsSize(ics[..|ics| - 1], sem, s);
    }
  }
}
