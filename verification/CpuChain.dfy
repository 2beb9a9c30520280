/** Addition and subtraction of many words with ADD, ADDC, SUB, SUBC on the QNICE processor. */
module CpuChain {
  import opened Cpu
  import opened Nonlinear

  /** An instruction word op @Ra++, @Rb++. */
  predicate PostIncrement(w: Word, op: int, ra: int, rb: int) {
    Decode(w) == Instruction(op, 2, ra, 2, rb)
  }

  predicate Pointers(ra: int, rb: int) {
    0 <= ra < 14 && 0 <= rb < 14 && ra != rb
  }

  /** What one instruction op @Ra++, @Rb++ leaves: the result r in memory at pb, both pointers advanced, carry in C;
      apart from the program counter and the flags nothing else changes. */
  predicate Stepped(c: Machine, d: Machine, ra: int, rb: int, r: Word, carry: int)
    requires Pointers(ra, rb) && Reg(c, ra) < IO_AREA_START && Reg(c, rb) < IO_AREA_START
  {
    && d == c.(mem := c.mem[Reg(c, rb) := r], regs := d.regs)
    && Bank(d) == Bank(c) && FlagsOf(StatusOf(d)).c == carry
    && Reg(d, ra) == Reg(c, ra) + 1 && Reg(d, rb) == Reg(c, rb) + 1
    && forall k :: 0 <= k < REGMEM_SIZE && k != Slot(c, ra) && k != Slot(c, rb) && k != SR ==> d.regs[k] == c.regs[k]
  }

  /** ADD and ADDC add (s = 1), SUB and SUBC subtract (s = -1), the second of each with carry. */
  predicate Computes(op: int, s: int, with: bool) {
    (op == 1 && s == 1 && !with) || (op == 2 && s == 1 && with) || (op == 3 && s == -1 && !with) || (op == 4 && s == -1 && with)
  }

  lemma CombineValue(op: int, s: int, with: bool, source0: Word, source1: Word, carry: int)
    requires Computes(op, s, with) && 0 <= carry < 2
    ensures var destination := Combine(op, source0, source1, carry);
            Low(destination) + s * (0x1_0000 * (destination / 0x1_0000 % 2))
            == source0 + s * (source1 + if with then carry else 0)
  {
    if s == 1 {
      SumDigits(Combine(op, source0, source1, carry));
    } else {
      DifferenceDigits(source0 - source1 - if with then carry else 0);
    }
  }

  lemma SumDigits(x: nat)
    requires x < 0x2_0000
    ensures Low(x) + 0x1_0000 * (x / 0x1_0000 % 2) == x
  {}

  lemma DifferenceDigits(y: int)
    requires -0x1_0000 <= y < 0x1_0000
    ensures var x: nat := y % 0x1_0000_0000; Low(x) - 0x1_0000 * (x / 0x1_0000 % 2) == y
  {
    var x: nat := y % 0x1_0000_0000;
    if y < 0 {
      assert x == y + 0x1_0000_0000;
      assert x / 0x1_0000 == 0xffff;
    }
  }

  lemma SlotsDiffer(c: Machine, ra: int, rb: int)
    requires Pointers(ra, rb)
    ensures Slot(c, ra) != Slot(c, rb) && Slot(c, ra) != SR && Slot(c, rb) != SR
    ensures Reg(c, ra) == c.regs[Slot(c, ra)] && Reg(c, rb) == c.regs[Slot(c, rb)]
  {
    hide Bank, StatusOf;
  }

  lemma SlotsSame(c: Machine, d: Machine, a: int)
    requires 0 <= a < 16 && Bank(c) == Bank(d)
    ensures Slot(c, a) == Slot(d, a)
  {
    hide Bank;
  }

  lemma Incremented(x: Word)
    requires x < IO_AREA_START
    ensures Low(x + 1) == x + 1
  {}

  /** Reading @Ra++ and @Rb, then the flags. */
  lemma ArithmeticStepped(c: Machine, io: Devices, op: int, s: int, with: bool, ra: int, rb: int)
    requires Pointers(ra, rb) && Reg(c, ra) < IO_AREA_START && Reg(c, rb) < IO_AREA_START && Computes(op, s, with)
    ensures var destination := Combine(op, c.mem[Reg(c, rb)], c.mem[Reg(c, ra)], FlagsOf(StatusOf(c)).c);
            Stepped(c, Arithmetic(c, io, Instruction(op, 2, ra, 2, rb)), ra, rb, Low(destination), destination / 0x1_0000 % 2)
  {
    hide Combine, StatusOf, Low, Bank, Reg, SetReg, Stepped, UpdateStatus, FlagsOf, WriteDestination, Finish;
    var pa, pb := Reg(c, ra), Reg(c, rb);
    var c1 := SetReg(c, ra, pa + 1);
    assert ReadSource(c, io, 2, ra, false) == (c1, c.mem[pa]);
    SetRegReads(c, ra, pa + 1, rb);
    assert ReadSource(c1, io, 2, rb, true) == (c1, c.mem[pb]);
    var destination := Combine(op, c.mem[pb], c.mem[pa], FlagsOf(StatusOf(c)).c);
    CarryFlag(c1);
    var c3 := UpdateStatus(c1, destination, c.mem[pb], c.mem[pa], MODIFY_ALL, true);
    UpdateStatusFlags(c1, destination, c.mem[pb], c.mem[pa], MODIFY_ALL, true);
    Finished(c, c1, c3, ra, rb, destination, destination / 0x1_0000 % 2);
    WrittenThrough(c3, rb, destination);
  }

  lemma CarryFlag(c: Machine)
    ensures StatusOf(c) / 4 % 2 == FlagsOf(StatusOf(c)).c
  {}

  /** Writing @Rb++. */
  function Finish(c: Machine, rb: int, v: Long): Machine
    requires 0 <= rb < 14
  {
    var d := Store(c, Reg(c, rb), Low(v));
    SetReg(d, rb, Reg(d, rb) + 1)
  }

  lemma WrittenThrough(c: Machine, rb: int, v: Long)
    requires 0 <= rb < 14
    ensures WriteDestination(c, 2, rb, v, true) == Finish(c, rb, v)
  {}

  lemma Finished(c: Machine, c1: Machine, c3: Machine, ra: int, rb: int, v: Long, carry: int)
    requires Pointers(ra, rb) && Reg(c, ra) < IO_AREA_START && Reg(c, rb) < IO_AREA_START
    requires c1 == c.(regs := c.regs[Slot(c, ra) := Low(Reg(c, ra) + 1)]) && Bank(c1) == Bank(c)
    requires c3 == c1.(regs := c3.regs) && c3.regs == c1.regs[SR := c3.regs[SR]] && Bank(c3) == Bank(c1)
    requires FlagsOf(StatusOf(c3)).c == carry
    ensures Stepped(c, Finish(c3, rb, v), ra, rb, Low(v), carry)
  {
    hide FlagsOf, StatusOf, Bank, Low, Slot, Reg, SetReg;
    SlotsDiffer(c, ra, rb); SlotsDiffer(c3, ra, rb);
    SlotsSame(c, c3, ra); SlotsSame(c, c3, rb);
    Incremented(Reg(c, ra)); Incremented(Reg(c, rb));
    var d := Store(c3, Reg(c3, rb), Low(v));
    assert Reg(c3, rb) == Reg(c, rb);
    StoreReads(c3, Reg(c3, rb), Low(v), rb);
    var e := SetReg(d, rb, Reg(d, rb) + 1);
    SetRegReads(d, rb, Reg(d, rb) + 1, ra);
    SlotsSame(c, d, rb);
    SlotsSame(c, e, rb); SlotsSame(c, e, ra);
    SlotsDiffer(e, ra, rb);
  }

  lemma StoreReads(c: Machine, a: Word, v: Word, b: int)
    requires 0 <= b < 16
    ensures var d := Store(c, a, v);
            d.regs == c.regs && Reg(d, b) == Reg(c, b) && Bank(d) == Bank(c) && StatusOf(d) == StatusOf(c)
            && d == c.(mem := d.mem)
  {}

  // ----- numbers of several words -----

  ghost function Weight(n: nat): nat {
    if n == 0 then 1 else 0x1_0000 * Weight(n - 1)
  }

  /** The number whose words, least significant first, are ws. */
  ghost function Number(ws: seq<Word>): nat {
    if ws == [] then 0 else Number(ws[..|ws| - 1]) + Mul(ws[|ws| - 1], Weight(|ws| - 1))
  }

  ghost function NumberAt(mem: seq<Word>, a: nat, n: nat): nat
    requires a + n <= |mem|
  {
    Number(mem[a..a + n])
  }

  lemma NumberAtSnoc(mem: seq<Word>, a: nat, n: nat)
    requires a + n + 1 <= |mem|
    ensures NumberAt(mem, a, n + 1) == NumberAt(mem, a, n) + Mul(mem[a + n], Weight(n))
  {
    var ws := mem[a..a + n + 1];
    assert ws[..n] == mem[a..a + n] && ws[n] == mem[a + n];
  }

  lemma NumberAtSame(mem: seq<Word>, mem': seq<Word>, a: nat, n: nat)
    requires a + n <= |mem| == |mem'| && forall k :: a <= k < a + n ==> mem[k] == mem'[k]
    ensures NumberAt(mem, a, n) == NumberAt(mem', a, n)
  {
    assert mem[a..a + n] == mem'[a..a + n];
  }

  // ----- the chain -----

  /** ADD @Ra++, @Rb++ and then n-1 times ADDC @Ra++, @Rb++ (s = 1), or SUB and SUBC (s = -1), lie at the program
      counter; the n words at Rb overlap neither those at Ra nor the program; no interrupt is to be taken up. */
  predicate Ready(c: Machine, n: nat, s: int, ra: int, rb: int)
    requires Pointers(ra, rb)
  {
    var pc, pa, pb := Reg(c, PC), Reg(c, ra), Reg(c, rb);
    && (s == 1 || s == -1) && !(c.intRequest && !c.intActive)
    && pc + n <= IO_AREA_START && pa + n <= IO_AREA_START && pb + n <= IO_AREA_START
    && (pa + n <= pb || pb + n <= pa) && (pc + n <= pb || pb + n <= pc)
    && forall k :: pc <= k < pc + n ==> PostIncrement(c.mem[k], ChainOp(s, k == pc), ra, rb)
  }

  function ChainOp(s: int, first: bool): int {
    if s == 1 then if first then 1 else 2 else if first then 3 else 4
  }

  /** After n instructions of a chain: the n-word number at Rb has become its sum with, or difference to, the one at
      Ra, with the carry out in C; the pointers and the program counter have advanced by n; all other memory, all
      other registers and the interrupt state are as before. */
  predicate Chained(c: Machine, d: Machine, n: nat, ra: int, rb: int)
    requires Pointers(ra, rb) && Reg(c, rb) + n <= MEMORY_SIZE
  {
    && d == c.(mem := d.mem, regs := d.regs) && Bank(d) == Bank(c)
    && Reg(d, ra) == Reg(c, ra) + n && Reg(d, rb) == Reg(c, rb) + n && Reg(d, PC) == Reg(c, PC) + n
    && (forall k :: 0 <= k < MEMORY_SIZE && !(Reg(c, rb) <= k < Reg(c, rb) + n) ==> d.mem[k] == c.mem[k])
    && (forall k :: 0 <= k < REGMEM_SIZE && k != Slot(c, ra) && k != Slot(c, rb) && k != SR && k != PC ==>
          d.regs[k] == c.regs[k])
  }

  /** The value: with s = -1 a carry out is a borrow. */
  ghost predicate Total(c: Machine, d: Machine, n: nat, s: int, ra: int, rb: int)
    requires Pointers(ra, rb) && Reg(c, ra) + n <= MEMORY_SIZE && Reg(c, rb) + n <= MEMORY_SIZE
  {
    NumberAt(d.mem, Reg(c, rb), n) + s * Mul(FlagsOf(StatusOf(d)).c, Weight(n))
    == NumberAt(c.mem, Reg(c, rb), n) + s * NumberAt(c.mem, Reg(c, ra), n)
  }

  /** Fetching the instruction. */
  lemma Fetched(d: Machine, io: Devices, op: int, ra: int, rb: int)
    requires !(d.intRequest && !d.intActive) && Reg(d, PC) < IO_AREA_START
    requires PostIncrement(d.mem[Reg(d, PC)], op, ra, rb) && 1 <= op <= 4 && Pointers(ra, rb)
    ensures Step(d, io) == (Arithmetic(SetReg(d, PC, Reg(d, PC) + 1), io, Instruction(op, 2, ra, 2, rb)), false)
  {
    hide Arithmetic, Decode, SetReg;
  }

  lemma Weigh(x: int, w: nat)
    ensures Mul(x, 0x1_0000 * w) == Mul(0x1_0000 * x, w)
  {
    assert x * (0x1_0000 * w) == (0x1_0000 * x) * w;
  }

  /** One more word: r + s * 2^16 * carry' = b + s * (a + carry), weighted. */
  lemma WordAdded(r: Word, a: Word, b: Word, carry: int, carry': int, s: int, w: nat)
    requires s == 1 || s == -1
    requires r + s * (0x1_0000 * carry') == b + s * (a + carry)
    ensures Mul(r, w) + s * Mul(carry', 0x1_0000 * w) == Mul(b, w) + s * (Mul(a, w) + Mul(carry, w))
  {
    Weigh(carry', w);
    if s == 1 {
      assert (r + 0x1_0000 * carry') * w == r * w + (0x1_0000 * carry') * w;
      assert (b + (a + carry)) * w == b * w + (a * w + carry * w);
    } else {
      assert r + (a + carry) == b + 0x1_0000 * carry';
      assert (r + (a + carry)) * w == r * w + (a * w + carry * w);
      assert (b + 0x1_0000 * carry') * w == b * w + (0x1_0000 * carry') * w;
    }
  }

  lemma TotalOn(c: Machine, d: Machine, e: Machine, k: nat, s: int, ra: int, rb: int, carry: int, carry': int)
    requires Pointers(ra, rb) && Reg(c, ra) + k < MEMORY_SIZE && Reg(c, rb) + k < MEMORY_SIZE && (s == 1 || s == -1)
    requires NumberAt(d.mem, Reg(c, rb), k) + s * Mul(carry, Weight(k))
             == NumberAt(c.mem, Reg(c, rb), k) + s * NumberAt(c.mem, Reg(c, ra), k)
    requires var pb := Reg(c, rb) + k;
             && e.mem == d.mem[pb := e.mem[pb]]
             && e.mem[pb] + s * (0x1_0000 * carry') == c.mem[pb] + s * (c.mem[Reg(c, ra) + k] + carry)
    requires FlagsOf(StatusOf(e)).c == carry'
    ensures Total(c, e, k + 1, s, ra, rb)
  {
    hide FlagsOf, StatusOf, Reg, NumberAt, Mul, Weight;
    var pa, pb := Reg(c, ra), Reg(c, rb);
    NumberAtSnoc(c.mem, pa, k);
    NumberAtSnoc(c.mem, pb, k);
    NumberAtSnoc(e.mem, pb, k);
    NumberAtSame(e.mem, d.mem, pb, k);
    WordAdded(e.mem[pb + k], c.mem[pa + k], c.mem[pb + k], carry, carry', s, Weight(k));
    NextWeight(k);
  }

  lemma NextWeight(k: nat)
    ensures Weight(k + 1) == 0x1_0000 * Weight(k)
  {}

  lemma ChainedOn(c: Machine, d: Machine, d0: Machine, e: Machine, n: nat, k: nat, s: int, ra: int, rb: int, r: Word, carry: int)
    requires Pointers(ra, rb) && Ready(c, n, s, ra, rb) && k < n && Chained(c, d, k, ra, rb)
    requires d0 == d.(regs := d.regs[PC := Reg(d, PC) + 1]) && Bank(d0) == Bank(d)
    requires Reg(d0, ra) == Reg(d, ra) && Reg(d0, rb) == Reg(d, rb)
    requires Stepped(d0, e, ra, rb, r, carry)
    ensures Chained(c, e, k + 1, ra, rb)
  {
    hide Bank, StatusOf, FlagsOf;
    SlotsSame(c, d0, ra); SlotsSame(c, d0, rb);
    SlotsDiffer(c, ra, rb);
    assert e.regs[PC] == d0.regs[PC];
  }

  lemma ChainStep(c: Machine, d: Machine, io: Devices, n: nat, k: nat, s: int, ra: int, rb: int)
    requires Pointers(ra, rb) && Ready(c, n, s, ra, rb) && k < n && Chained(c, d, k, ra, rb)
    requires k > 0 ==> Total(c, d, k, s, ra, rb)
    ensures var (e, stopped) := Step(d, io);
            !stopped && Chained(c, e, k + 1, ra, rb) && Total(c, e, k + 1, s, ra, rb)
  {
    hide Reg, Bank, StatusOf, FlagsOf, Step, Arithmetic, Combine, Low, Decode, SetReg, NumberAt, Mul, Weight, Slot;
    var op, with := ChainOp(s, k == 0), k > 0;
    Fetched(d, io, op, ra, rb);
    var d0 := SetReg(d, PC, Reg(d, PC) + 1);
    SetRegReads(d, PC, Reg(d, PC) + 1, ra);
    SetRegReads(d, PC, Reg(d, PC) + 1, rb);
    Incremented(Reg(d, PC));
    ProgramCounterSlot(d);
    ArithmeticStepped(d0, io, op, s, with, ra, rb);
    var e := Arithmetic(d0, io, Instruction(op, 2, ra, 2, rb));
    var carry := FlagsOf(StatusOf(d0)).c;
    var destination := Combine(op, d0.mem[Reg(d0, rb)], d0.mem[Reg(d0, ra)], carry);
    ChainedOn(c, d, d0, e, n, k, s, ra, rb, Low(destination), destination / 0x1_0000 % 2);
    CombineValue(op, s, with, d0.mem[Reg(d0, rb)], d0.mem[Reg(d0, ra)], carry);
    if k == 0 { NoWords(c.mem, d.mem, Reg(c, ra), Reg(c, rb)); }
    TotalOn(c, d, e, k, s, ra, rb, if with then carry else 0, destination / 0x1_0000 % 2);
  }

  lemma ProgramCounterSlot(d: Machine)
    ensures Slot(d, PC) == PC
  {}

  lemma NoWords(mem: seq<Word>, mem': seq<Word>, pa: nat, pb: nat)
    requires pa <= |mem| && pb <= |mem| == |mem'|
    ensures NumberAt(mem', pb, 0) == 0 && NumberAt(mem, pb, 0) == 0 && NumberAt(mem, pa, 0) == 0
    ensures Mul(0, Weight(0)) == 0
  {}

  /** For every n, the chain of n instructions adds, or subtracts, the n-word numbers in place. */
  lemma {:induction false} MultiWord(c: Machine, io: nat -> Devices, n: nat, s: int, ra: int, rb: int, k: nat)
    requires Pointers(ra, rb) && Ready(c, n, s, ra, rb) && k <= n
    ensures var (d, stopped) := Run(c, io, k);
            !stopped && Chained(c, d, k, ra, rb) && (k > 0 ==> Total(c, d, k, s, ra, rb))
  {
    hide Step, Reg, Bank, Total;
    if k > 0 {
      MultiWord(c, io, n, s, ra, rb, k - 1);
      ChainStep(c, Run(c, io, k - 1).0, io(k - 1), n, k - 1, s, ra, rb);
    }
  }
}
