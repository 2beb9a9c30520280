/** What the two-operand instructions of the QNICE processor mean, for every operand mode: which cell is read, which one
    receives which value, how the registers step, which flags are set, and that nothing else changes. */
module CpuMeaning {
  import opened Bits
  import opened Cpu
  import opened CpuBanks
  import opened CpuShift
  import CpuCompare

  // ----- operands -----

  /** Where an operand is. */
  datatype Place = Register(r: int) | Memory(a: Word)

  function Get(c: Machine, io: Devices, p: Place): Word
    requires p.Register? ==> 0 <= p.r < 16
  {
    match p
    case Register(r) => Reg(c, r)
    case Memory(a) => Load(c, io, a)
  }

  /** R, @R and @R++ use the register as it is, @--R one less. */
  function PlaceOf(c: Machine, mode: int, a: int): (p: Place)
    requires 0 <= mode < 4 && 0 <= a < 16
    ensures p.Register? <==> mode == 0
    ensures p.Register? ==> p.r == a
  {
    if mode == 0 then Register(a) else Memory(Low(Reg(c, a) - if mode == 3 then 1 else 0))
  }

  function Moved(mode: int): int {
    if mode == 2 then 1 else if mode == 3 then -1 else 0
  }

  /** c with register a stepped by steps. */
  function Stepped(c: Machine, a: int, steps: int): Machine
    requires 0 <= a < 16
  {
    if steps == 0 then c else c.(regs := c.regs[Slot(c, a) := Low(Reg(c, a) + steps)])
  }

  /** Operands that do not step the status register. */
  predicate Steady(mode: int, a: int) {
    0 <= mode < 4 && 0 <= a < 16 && (a == SR ==> mode < 2)
  }

  lemma SteppedIs(c: Machine, a: int, steps: int)
    requires 0 <= a < 16 && a != SR && steps != 0
    ensures SetReg(c, a, Reg(c, a) + steps) == Stepped(c, a, steps)
  {
    SetRegReads(c, a, Reg(c, a) + steps, a);
  }

  lemma SteppedReads(c: Machine, a: int, steps: int, b: int)
    requires 0 <= a < 16 && a != SR && 0 <= b < 16
    ensures var d := Stepped(c, a, steps);
      && Reg(d, b) == (if a == b then Low(Reg(c, a) + steps) else Reg(c, b))
      && StatusOf(d) == StatusOf(c) && Bank(d) == Bank(c) && d == c.(regs := d.regs) && Slot(d, b) == Slot(c, b)
  {
    if steps == 0 {
      LowOfWord(Reg(c, a));
    } else {
      SetRegReads(c, a, Reg(c, a) + steps, b);
      SteppedIs(c, a, steps);
    }
  }

  /** Reading an operand gives what is at its place and steps its register once. */
  lemma ReadSays(c: Machine, io: Devices, mode: int, a: int, suppress: bool)
    requires Steady(mode, a)
    ensures ReadSource(c, io, mode, a, suppress)
            == (Stepped(c, a, if suppress && mode == 2 then 0 else Moved(mode)), Get(c, io, PlaceOf(c, mode, a)))
  {
    hide SetReg, Slot, StatusOf, Bank, Reg;
    LowOfWord(Reg(c, a));
    if mode == 2 {
      SteppedIs(c, a, 1);
    } else if mode == 3 {
      SteppedIs(c, a, -1);
      SteppedReads(c, a, -1, a);
    }
  }

  /** d is c with v at place p and flags g. */
  predicate Landed(c: Machine, d: Machine, p: Place, v: Word, g: Flags)
    requires p.Register? ==> 0 <= p.r < 16
  {
    && FlagsOf(StatusOf(d)) == g && StatusOf(d) / 64 == StatusOf(c) / 64
    && match p
       case Register(r) => d == c.(regs := c.regs[Slot(c, r) := v][SR := d.regs[SR]])
       case Memory(a) => d == c.(regs := c.regs[SR := d.regs[SR]], mem := if a < IO_AREA_START then c.mem[a := v] else c.mem)
  }

  lemma SameBank(c: Machine, d: Machine)
    requires StatusOf(d) / 64 == StatusOf(c) / 64
    ensures Bank(d) == Bank(c)
  {
    Shifts(StatusOf(c));
    Shifts(StatusOf(d));
  }

  /** What is written can be read back, devices apart, and every other register but SR is as before. */
  lemma LandedReads(c: Machine, d: Machine, io: Devices, p: Place, v: Word, g: Flags)
    requires p.Register? ==> 0 <= p.r < 16 && p.r != SR
    requires Landed(c, d, p, v, g)
    ensures p.Register? || p.a < IO_AREA_START ==> Get(d, io, p) == v
    ensures Bank(d) == Bank(c)
    ensures forall b :: 0 <= b < 16 && b != SR && p != Register(b) ==> Reg(d, b) == Reg(c, b)
  {
    SameBank(c, d);
    hide StatusOf, FlagsOf, Bank;
  }

  lemma LandedRegister(c: Machine, c3: Machine, a: int, v: Long, g: Flags)
    requires 0 <= a < 16 && a != SR && OnlyFlags(c, c3, g)
    ensures Landed(c, SetReg(c3, a, v), Register(a), Low(v), g)
  {
    SetRegReads(c3, a, v, a);
    hide StatusOf, FlagsOf, Bank;
  }

  lemma LandedMemory(c: Machine, c3: Machine, p: Word, v: Long, g: Flags)
    requires OnlyFlags(c, c3, g)
    ensures Landed(c, Store(c3, p, Low(v)), Memory(p), Low(v), g)
  {
    hide FlagsOf, Low;
  }

  /** Stepping a register and storing to memory commute. */
  lemma LandedThenStepped(c: Machine, d: Machine, p: Word, v: Word, g: Flags, a: int, steps: int)
    requires 0 <= a < 16 && a != SR && Landed(c, d, Memory(p), v, g)
    ensures Reg(d, a) == Reg(c, a) && Landed(Stepped(c, a, steps), Stepped(d, a, steps), Memory(p), v, g)
  {
    SameBank(c, d);
    SteppedReads(c, a, steps, a);
    SteppedReads(d, a, steps, a);
    hide FlagsOf, StatusOf, Bank, Low;
  }

  lemma FlagsKeepRegister(c: Machine, d: Machine, g: Flags, a: int)
    requires OnlyFlags(c, d, g) && 0 <= a < 16 && a != SR
    ensures Reg(d, a) == Reg(c, a)
  {
    hide FlagsOf, StatusOf, Bank;
  }

  /** The end of an instruction that has read its destination as an operand before. */
  lemma WrittenBack(c: Machine, c3: Machine, mode: int, a: int, v: Long, g: Flags)
    requires 0 <= mode < 4 && 0 <= a < 16 && a != SR
    requires OnlyFlags(Stepped(c, a, if mode == 2 then 0 else Moved(mode)), c3, g)
    ensures Landed(Stepped(c, a, Moved(mode)), WriteDestination(c3, mode, a, v, true), PlaceOf(c, mode, a), Low(v), g)
  {
    hide FlagsOf, StatusOf, Bank, OnlyFlags, Landed, SetReg, Slot, Reg, Store;
    LowOfWord(Reg(c, a));
    var c2 := Stepped(c, a, if mode == 2 then 0 else Moved(mode));
    FlagsKeepRegister(c2, c3, g, a);
    SteppedReads(c, a, Moved(mode), a);
    if mode == 0 {
      LandedRegister(c, c3, a, v, g);
    } else {
      LandedMemory(c2, c3, Reg(c3, a), v, g);
      if mode == 2 {
        var d := Store(c3, Reg(c3, a), Low(v));
        LandedThenStepped(c, d, Reg(c, a), Low(v), g, a, 1);
        SteppedIs(d, a, 1);
      }
    }
  }

  /** The end of an instruction that has not read its destination. */
  lemma WrittenFirst(c: Machine, c3: Machine, mode: int, a: int, v: Long, g: Flags)
    requires 0 <= mode < 4 && 0 <= a < 16 && a != SR && OnlyFlags(c, c3, g)
    ensures Landed(Stepped(c, a, Moved(mode)), WriteDestination(c3, mode, a, v, false), PlaceOf(c, mode, a), Low(v), g)
  {
    hide FlagsOf, StatusOf, Bank, OnlyFlags, Landed, SetReg, Slot, Reg, Store;
    LowOfWord(Reg(c, a));
    FlagsKeepRegister(c, c3, g, a);
    if mode == 0 {
      LandedRegister(c, c3, a, v, g);
    } else if mode < 3 {
      LandedMemory(c, c3, Reg(c3, a), v, g);
      if mode == 2 {
        var d := Store(c3, Reg(c3, a), Low(v));
        LandedThenStepped(c, d, Reg(c, a), Low(v), g, a, 1);
        SteppedIs(d, a, 1);
      }
    } else {
      SteppedIs(c3, a, -1);
      FlagsThenStepped(c, c3, g, a, -1);
      SteppedReads(c, a, -1, a);
      SteppedReads(c3, a, -1, a);
      LandedMemory(Stepped(c, a, -1), Stepped(c3, a, -1), Reg(Stepped(c3, a, -1), a), v, g);
    }
  }

  lemma FlagsThenStepped(c: Machine, d: Machine, g: Flags, a: int, steps: int)
    requires OnlyFlags(c, d, g) && 0 <= a < 16 && a != SR
    ensures OnlyFlags(Stepped(c, a, steps), Stepped(d, a, steps), g)
  {
    FlagsKeepRegister(c, d, g, a);
    SteppedReads(c, a, steps, a);
    SteppedReads(d, a, steps, a);
    hide FlagsOf, StatusOf, Bank, Reg, Low;
  }

  // ----- what is computed -----

  /** Z, N and X tell whether the result is 0, is negative as a signed word, and is 0xFFFF. */
  predicate Tells(v: Word, g: Flags) {
    (g.z == 1 <==> v == 0) && (g.n == 1 <==> v >= 0x8000) && (g.x == 1 <==> v == 0xffff)
  }

  predicate FitsSigned(x: int) {
    -0x8000 <= x < 0x8000
  }

  /** The sum modulo 2^16 with its carry in C, and V exactly if the signed sum does not fit. */
  predicate IsSum(y: Word, x: Word, carry: int, v: Word, g: Flags) {
    && v + 0x1_0000 * g.c == y + x + carry && 0 <= g.c < 2 && Tells(v, g)
    && (g.v == 1 <==> !FitsSigned(Signed(y) + Signed(x) + carry))
  }

  /** The difference modulo 2^16 with its borrow in C. V is set if both operands have the same sign and the difference
      has the other one. */
  predicate IsDifference(y: Word, x: Word, borrow: int, v: Word, g: Flags) {
    && v - 0x1_0000 * g.c == y - x - borrow && 0 <= g.c < 2 && Tells(v, g)
    && (g.v == 1 <==> (Signed(y) < 0 <==> Signed(x) < 0) && (Signed(v) < 0 <==> Signed(y) >= 0))
  }

  /** V after a subtraction is never set when the signed difference does not fit: it is not an overflow flag. */
  lemma DifferenceOverflow(y: Word, x: Word, borrow: int, v: Word, g: Flags)
    requires IsDifference(y, x, borrow, v, g) && 0 <= borrow < 2
    ensures !FitsSigned(Signed(y) - Signed(x) - borrow) ==> g.v != 1
  {}

  /** C and V stay. */
  predicate Keeps(f: Flags, v: Word, g: Flags) {
    g.c == f.c && g.v == f.v && Tells(v, g)
  }

  predicate IsSwap(x: Word, v: Word) {
    v / 256 == x % 256 && v % 256 == x / 256
  }

  predicate IsComplement(x: Word, v: Word) {
    forall k :: 0 <= k < 16 ==> Bit(v, k) == 1 - Bit(x, k)
  }

  predicate IsAnd(y: Word, x: Word, v: Word) {
    forall k :: 0 <= k < 16 ==> (Bit(v, k) == 1 <==> Bit(y, k) == 1 && Bit(x, k) == 1)
  }

  predicate IsOr(y: Word, x: Word, v: Word) {
    forall k :: 0 <= k < 16 ==> (Bit(v, k) == 1 <==> Bit(y, k) == 1 || Bit(x, k) == 1)
  }

  predicate IsXor(y: Word, x: Word, v: Word) {
    forall k :: 0 <= k < 16 ==> (Bit(v, k) == 1 <==> Bit(y, k) != Bit(x, k))
  }

  /** MOVE, ADD, ADDC, SUB, SUBC, SWAP, NOT, AND, OR and XOR, by their opcodes: from the destination operand y, the
      source operand x and the flags f before, the result v and the flags g. */
  predicate Means(op: int, y: Word, x: Word, f: Flags, v: Word, g: Flags) {
    match op
    case 0 => v == x && Keeps(f, v, g)
    case 1 => IsSum(y, x, 0, v, g)
    case 2 => IsSum(y, x, f.c, v, g)
    case 3 => IsDifference(y, x, 0, v, g)
    case 4 => IsDifference(y, x, f.c, v, g)
    case 7 => IsSwap(x, v) && Keeps(f, v, g)
    case 8 => IsComplement(x, v) && Keeps(f, v, g)
    case 9 => IsAnd(y, x, v) && Keeps(f, v, g)
    case 10 => IsOr(y, x, v) && Keeps(f, v, g)
    case 11 => IsXor(y, x, v) && Keeps(f, v, g)
    case _ => false
  }

  lemma {:induction false} BitwiseBit(op: int, x: nat, y: nat, n: nat, k: nat)
    requires k < n <= 16
    ensures Bit(Bitwise(op, x, y, n), k) == BitOf(op, Bit(x, k), Bit(y, k))
  {
    var b := BitOf(op, x % 2, y % 2);
    var rest := Bitwise(op, x / 2, y / 2, n - 1);
    Halves(rest, b);
    if k > 0 {
      BitwiseBit(op, x / 2, y / 2, n - 1, k - 1);
    }
  }

  lemma LogicMeans(op: int, y: Word, x: Word)
    requires 9 <= op < 12
    ensures op == 9 ==> IsAnd(y, x, Logic(op, y, x))
    ensures op == 10 ==> IsOr(y, x, Logic(op, y, x))
    ensures op == 11 ==> IsXor(y, x, Logic(op, y, x))
  {
    hide Bit, Bitwise;
    forall k | 0 <= k < 16
      ensures Bit(Logic(op, y, x), k) == BitOf(op, Bit(y, k), Bit(x, k))
    {
      BitwiseBit(op, y, x, 16, k);
    }
  }

  lemma {:induction false} ComplementBit(x: nat, n: nat, k: nat)
    requires x < Exp2(n) && k < n <= 16
    ensures Bit(Exp2(n) - 1 - x, k) == 1 - Bit(x, k)
  {
    var y := Exp2(n) - 1 - x;
    assert y % 2 == 1 - x % 2 && y / 2 == Exp2(n - 1) - 1 - x / 2;
    if k > 0 {
      ComplementBit(x / 2, n - 1, k - 1);
    }
  }

  lemma NotMeans(x: Word)
    ensures IsComplement(x, 0xffff - x)
  {
    hide Bit;
    Exp2Is(16);
    forall k | 0 <= k < 16
      ensures Bit(0xffff - x, k) == 1 - Bit(x, k)
    {
      ComplementBit(x, 16, k);
    }
  }

  lemma SumMeans(y: Word, x: Word, carry: int, f: Flags)
    requires 0 <= carry < 2 && AreFlags(f)
    ensures IsSum(y, x, carry, Low(y + x + carry), NewFlags(f, y + x + carry, y, x, MODIFY_ALL, true))
  {
    var t: Long := y + x + carry;
    assert t / 0x8000 % 2 == 1 <==> Low(t) >= 0x8000 by { TopOfLow(t); }
    assert Low(t) + 0x1_0000 * (t / 0x1_0000 % 2) == t;
  }

  lemma DifferenceMeans(y: Word, x: Word, borrow: int, f: Flags)
    requires 0 <= borrow < 2 && AreFlags(f)
    ensures var t: Long := (y as int - x - borrow) % 0x1_0000_0000;
            IsDifference(y, x, borrow, Low(t), NewFlags(f, t, y, x, MODIFY_ALL, true))
  {
    var t: Long := (y as int - x - borrow) % 0x1_0000_0000;
    TopOfLow(t);
    if y < x + borrow {
      assert t == 0x1_0000_0000 + y - x - borrow && t / 0x1_0000 == 0xffff;
    }
  }

  lemma KeptMeans(v: Word, s0: Long, s1: Long, addSub: bool, f: Flags)
    requires AreFlags(f)
    ensures Low(v) == v && Keeps(f, v, NewFlags(f, v, s0, s1, KEEP_CV, addSub))
  {
    TopOfLow(v);
  }

  lemma CombineMeans(op: int, y: Word, x: Word, f: Flags)
    requires 1 <= op < 12 && op !in {5, 6, 7, 8} && AreFlags(f)
    ensures var t := Combine(op, y, x, f.c);
            Means(op, y, x, f, Low(t), NewFlags(f, t, y, x, if op < 9 then MODIFY_ALL else KEEP_CV, op < 9))
  {
    hide Logic, NewFlags, IsSum, IsDifference, IsAnd, IsOr, IsXor, Keeps, Low;
    if op < 3 {
      SumMeans(y, x, if op == 2 then f.c else 0, f);
    } else if op < 5 {
      DifferenceMeans(y, x, if op == 4 then f.c else 0, f);
    } else {
      LogicMeans(op, y, x);
      KeptMeans(Logic(op, y, x), y, x, false, f);
    }
  }

  lemma MovingMeans(op: int, y: Word, x: Word, f: Flags)
    requires op in {0, 7, 8} && AreFlags(f)
    ensures var t: Word := if op == 0 then x else if op == 7 then x / 256 + x % 256 * 256 else 0xffff - x;
            Low(t) == t && Means(op, y, x, f, t, NewFlags(f, t, x, x, KEEP_CV, false))
  {
    hide NewFlags, IsComplement, Keeps, Low;
    var t: Word := if op == 0 then x else if op == 7 then x / 256 + x % 256 * 256 else 0xffff - x;
    KeptMeans(t, x, x, false, f);
    NotMeans(x);
  }

  // ----- whole instructions -----

  predicate Computing(op: int) {
    0 <= op < 12 && op != 5 && op != 6
  }

  /** Neither operand steps SR and the result does not go there. */
  predicate Ordinary(i: Instruction) {
    Steady(i.sm, i.sa) && 0 <= i.dm < 4 && 0 <= i.da < 16 && i.da != SR
  }

  /** d is what instruction i makes of c: the source operand is read and its register stepped, then the destination's
      place is found and its register stepped, the result of the operation is put there, and nothing else changes. */
  ghost predicate Carried(c: Machine, d: Machine, io: Devices, i: Instruction)
    requires Ordinary(i)
  {
    var c1 := Stepped(c, i.sa, Moved(i.sm));
    var place := PlaceOf(c1, i.dm, i.da);
    exists v: Word, g :: Landed(Stepped(c1, i.da, Moved(i.dm)), d, place, v, g)
                         && Means(i.op, Get(c1, io, place), Get(c, io, PlaceOf(c, i.sm, i.sa)), FlagsOf(StatusOf(c)), v, g)
  }

  lemma ArithmeticCarried(c: Machine, io: Devices, i: Instruction)
    requires Ordinary(i) && Computing(i.op) && i.op !in {0, 7, 8}
    ensures Carried(c, Arithmetic(c, io, i), io, i)
  {
    hide Combine, NewFlags, FlagsOf, StatusOf, Bank, Landed, OnlyFlags, Means, Get, PlaceOf, Stepped, ReadSource,
         WriteDestination, UpdateStatus, Low;
    var f := FlagsOf(StatusOf(c));
    var c1 := Stepped(c, i.sa, Moved(i.sm));
    var place := PlaceOf(c1, i.dm, i.da);
    ReadSays(c, io, i.sm, i.sa, false);
    ReadSays(c1, io, i.dm, i.da, true);
    var x, y := Get(c, io, PlaceOf(c, i.sm, i.sa)), Get(c1, io, place);
    var c2 := Stepped(c1, i.da, if i.dm == 2 then 0 else Moved(i.dm));
    StatusStays(c, i.sm, i.sa);
    StatusStays(c1, if i.dm == 2 then 0 else i.dm, i.da);
    CarryIs(StatusOf(c2));
    var t := Combine(i.op, y, x, f.c);
    var keep := if i.op < 9 then MODIFY_ALL else KEEP_CV;
    var g := NewFlags(f, t, y, x, keep, i.op < 9);
    var c3 := UpdateStatus(c2, t, y, x, keep, i.op < 9);
    UpdateStatusFlags(c2, t, y, x, keep, i.op < 9);
    WrittenBack(c1, c3, i.dm, i.da, t, g);
    CombineMeans(i.op, y, x, f);
  }

  lemma StatusStays(c: Machine, mode: int, a: int)
    requires Steady(mode, a)
    ensures StatusOf(Stepped(c, a, Moved(mode))) == StatusOf(c)
  {
    if Moved(mode) != 0 { SteppedReads(c, a, Moved(mode), a); }
  }

  lemma CarryIs(sr: Word)
    ensures sr / 4 % 2 == FlagsOf(sr).c
  {}

  lemma MovingCarried(c: Machine, io: Devices, i: Instruction)
    requires Ordinary(i) && i.op in {0, 7, 8}
    ensures Carried(c, Moving(c, io, i), io, i)
  {
    hide NewFlags, FlagsOf, StatusOf, Bank, Landed, OnlyFlags, Means, Get, PlaceOf, Stepped, ReadSource,
         WriteDestination, UpdateStatus, Low;
    var f := FlagsOf(StatusOf(c));
    var c1 := Stepped(c, i.sa, Moved(i.sm));
    var place := PlaceOf(c1, i.dm, i.da);
    ReadSays(c, io, i.sm, i.sa, false);
    var x := Get(c, io, PlaceOf(c, i.sm, i.sa));
    StatusStays(c, i.sm, i.sa);
    var t: Word := if i.op == 0 then x else if i.op == 7 then x / 256 + x % 256 * 256 else 0xffff - x;
    var g := NewFlags(f, t, x, x, KEEP_CV, false);
    var c2 := UpdateStatus(c1, t, x, x, KEEP_CV, false);
    UpdateStatusFlags(c1, t, x, x, KEEP_CV, false);
    WrittenFirst(c1, c2, i.dm, i.da, t, g);
    MovingMeans(i.op, Get(c1, io, place), x, f);
  }

  /** A whole step of any two-operand instruction but CMP, SHL and SHR, in all operand modes, with any registers but
      SR where one is stepped or written. */
  lemma InstructionMeans(c: Machine, io: Devices)
    requires var i := Decode(Fetched(c, io)); Computing(i.op) && Ordinary(i)
    requires !(c.intRequest && !c.intActive)
    ensures var (d, stopped) := Step(c, io);
            !stopped && Carried(Stepped(c, PC, 1), d, io, Decode(Fetched(c, io)))
  {
    hide Carried, Fetched, Arithmetic, Moving, Decode, Stepped, SetReg, Reg;
    StepIs(c, io);
    assert AfterFetch(c) == Stepped(c, PC, 1) by { SteppedIs(c, PC, 1); }
    var c1, i := Stepped(c, PC, 1), Decode(Fetched(c, io));
    if i.op in {0, 7, 8} { MovingCarried(c1, io, i); } else { ArithmeticCarried(c1, io, i); }
  }

  // ----- shifts -----

  /** Z and N as the result has them; X, C and V as given. */
  predicate ShiftTells(v: Word, x: int, carry: int, overflow: int, g: Flags) {
    g == Flags(x, carry, Ones(v == 0), Ones(v >= 0x8000), overflow)
  }

  /** SHL of y by n: the result v and the flags g from the flags f before. X fills, C takes the last bit shifted out. */
  predicate IsShiftLeft(y: Word, n: Word, f: Flags, v: Word, g: Flags)
    requires AreFlags(f)
  {
    if n == 0 then v == y && ShiftTells(v, f.x, f.c, f.v, g)
    else v == Low(y * Exp2(n) + f.x * (Exp2(n) - 1)) && ShiftTells(v, f.x, if n <= 16 then Bit(y, 16 - n) else f.x, f.v, g)
  }

  /** SHR of y by n: C fills, X takes the last bit shifted out. */
  predicate IsShiftRight(y: Word, n: Word, f: Flags, v: Word, g: Flags)
    requires AreFlags(f)
  {
    if n == 0 then v == y && ShiftTells(v, f.x, f.c, f.v, g)
    else
      && (forall k :: 0 <= k < 16 ==> Bit(v, k) == if k + n < 16 then Bit(y, k + n) else f.c)
      && ShiftTells(v, if n <= 16 then Bit(y, n - 1) else f.c, f.c, f.v, g)
  }

  predicate IsShift(op: int, y: Word, n: Word, f: Flags, v: Word, g: Flags)
    requires AreFlags(f)
  {
    if op == 5 then IsShiftLeft(y, n, f, v, g) else IsShiftRight(y, n, f, v, g)
  }

  lemma ShiftedMeans(op: int, y: Word, n: Word, f: Flags)
    requires (op == 5 || op == 6) && AreFlags(f)
    ensures var (e, bit) := Shifted(op, y, f, n);
            IsShift(op, y, n, f, Low(e), (if n == 0 then f else ShiftFlags(op, f, bit)).(z := Ones(Low(e) == 0), n := Ones(Top(e))))
  {
    hide Bit, Exp2, Low, Top;
    var (e, bit) := Shifted(op, y, f, n);
    TopOfLow(e);
    if n == 0 {
      LowOfWord(y);
    } else if op == 5 {
      ShiftLeftOut(y, f.x, n);
      ShiftLeftValue(y, f.x, n);
      assert Low(e) == Low(y * Exp2(n) + f.x * (Exp2(n) - 1)) by { LowSame(e, y * Exp2(n) + f.x * (Exp2(n) - 1)); }
    } else {
      LowOfWord(e);
      ShiftRightOut(y, f.c, n);
      forall k | 0 <= k < 16
        ensures Bit(e, k) == if k + n < 16 then Bit(y, k + n) else f.c
      {
        ShiftRightBits(y, f.c, n, k);
      }
    }
  }

  lemma LowSame(a: int, b: int)
    requires a % 0x1_0000 == b % 0x1_0000
    ensures Low(a) == Low(b)
  {}

  lemma LandedFlags(c: Machine, d0: Machine, d: Machine, p: Place, v: Word, f: Flags, g: Flags)
    requires p.Register? ==> 0 <= p.r < 16 && p.r != SR
    requires Landed(c, d0, p, v, f) && OnlyFlags(d0, d, g)
    ensures Landed(c, d, p, v, g)
  {
    hide FlagsOf, StatusOf, Bank;
  }

  /** What SHL and SHR by n leave: with n = 0 the flags alone change, and only @--R steps; with n > 0 the result goes back
      to where the operand was, except that @--R steps twice and puts it one cell below. */
  ghost predicate ShiftLeaves(c1: Machine, d: Machine, mode: int, a: int, n: Word, v: Word, g: Flags)
    requires 0 <= mode < 4 && 0 <= a < 16
  {
    if n == 0 then OnlyFlags(Stepped(c1, a, if mode == 3 then -1 else 0), d, g)
    else if mode == 3 then Landed(Stepped(c1, a, -2), d, Memory(Low(Reg(c1, a) - 2)), v, g)
    else Landed(Stepped(c1, a, Moved(mode)), d, PlaceOf(c1, mode, a), v, g)
  }

  ghost predicate ShiftCarried(c: Machine, d: Machine, io: Devices, i: Instruction)
    requires Ordinary(i)
  {
    var c1 := Stepped(c, i.sa, Moved(i.sm));
    var n, y, f := Get(c, io, PlaceOf(c, i.sm, i.sa)), Get(c1, io, PlaceOf(c1, i.dm, i.da)), FlagsOf(StatusOf(c));
    exists v: Word, g :: IsShift(i.op, y, n, f, v, g) && ShiftLeaves(c1, d, i.dm, i.da, n, v, g)
  }

  lemma TwiceStepped(c: Machine, a: int)
    requires 0 <= a < 16 && a != SR
    ensures Stepped(Stepped(c, a, -1), a, -1) == Stepped(c, a, -2)
    ensures Low(Reg(Stepped(c, a, -1), a) - 1) == Low(Reg(c, a) - 2)
  {
    SteppedReads(c, a, -1, a);
    SteppedReads(c, a, -2, a);
    hide StatusOf, Bank;
  }

  lemma ShiftWritten(c1: Machine, mode: int, a: int, n: Word, e: Long, f': Flags, c': Machine)
    requires 0 <= mode < 4 && 0 <= a < 16 && a != SR && n > 0
    requires OnlyFlags(Stepped(c1, a, if mode == 3 then -1 else 0), c', f')
    ensures ShiftLeaves(c1, WriteDestination(c', mode, a, e, false), mode, a, n, Low(e), f')
  {
    hide FlagsOf, StatusOf, Bank, OnlyFlags, Landed, WriteDestination, Low, Reg;
    var c2 := Stepped(c1, a, if mode == 3 then -1 else 0);
    WrittenFirst(c2, c', mode, a, e, f');
    if mode == 3 { TwiceStepped(c1, a); }
  }

  lemma ShiftingCarried(c: Machine, io: Devices, i: Instruction)
    requires Ordinary(i) && (i.op == 5 || i.op == 6)
    ensures ShiftCarried(c, Shifting(c, io, i), io, i)
  {
    hide FlagsOf, StatusOf, Bank, Landed, OnlyFlags, Get, PlaceOf, Stepped, ReadSource, WriteDestination, UpdateStatus,
         Low, Top, SetReg, WithFlags, Shifted, ShiftFlags, ShiftLeaves, IsShift;
    var f := FlagsOf(StatusOf(c));
    var c1 := Stepped(c, i.sa, Moved(i.sm));
    ReadSays(c, io, i.sm, i.sa, false);
    ReadSays(c1, io, i.dm, i.da, true);
    var n, y := Get(c, io, PlaceOf(c, i.sm, i.sa)), Get(c1, io, PlaceOf(c1, i.dm, i.da));
    var c2 := Stepped(c1, i.da, if i.dm == 3 then -1 else 0);
    StatusStays(c, i.sm, i.sa);
    StatusStays(c1, if i.dm == 3 then 3 else 0, i.da);
    var (e, bit) := Shifted(i.op, y, f, n);
    ShiftedMeans(i.op, y, n, f);
    if n == 0 {
      UpdateStatusFlags(c2, e, n, 0, KEEP_CXV, false);
      NoShift(i.op, y, f);
      ShiftEnds(c1, c2, UpdateStatus(c2, e, n, 0, KEEP_CXV, false), i.dm, i.da, n, Low(e), f,
                NewFlags(f, e, n, 0, KEEP_CXV, false));
    } else {
      var f' := ShiftFlags(i.op, f, bit);
      ShiftFlagsAre(i.op, f, bit);
      var c' := SetReg(c2, SR, WithFlags(StatusOf(c2), f'));
      SetFlags(c2, f');
      ShiftWritten(c1, i.dm, i.da, n, e, f', c');
      var c3 := WriteDestination(c', i.dm, i.da, e, false);
      FlagsAfterShift(c1, c3, i.dm, i.da, n, Low(e), f');
      UpdateStatusFlags(c3, e, n, 0, KEEP_CXV, false);
      ShiftEnds(c1, c3, UpdateStatus(c3, e, n, 0, KEEP_CXV, false), i.dm, i.da, n, Low(e), f',
                NewFlags(f', e, n, 0, KEEP_CXV, false));
    }
  }

  lemma NoShift(op: int, y: Word, f: Flags)
    requires AreFlags(f)
    ensures Shifted(op, y, f, 0).0 == y
  {}

  lemma FlagsAfterShift(c1: Machine, d: Machine, mode: int, a: int, n: Word, v: Word, f: Flags)
    requires 0 <= mode < 4 && 0 <= a < 16 && n > 0 && ShiftLeaves(c1, d, mode, a, n, v, f)
    ensures FlagsOf(StatusOf(d)) == f
  {
    hide FlagsOf;
  }

  lemma ShiftEnds(c1: Machine, d0: Machine, d: Machine, mode: int, a: int, n: Word, v: Word, f: Flags, g: Flags)
    requires 0 <= mode < 4 && 0 <= a < 16 && a != SR && OnlyFlags(d0, d, g)
    requires if n == 0 then d0 == Stepped(c1, a, if mode == 3 then -1 else 0) else ShiftLeaves(c1, d0, mode, a, n, v, f)
    ensures ShiftLeaves(c1, d, mode, a, n, v, g)
  {
    hide FlagsOf, StatusOf, Landed, OnlyFlags, Low, Reg, Stepped;
    if n > 0 {
      if mode == 3 {
        LandedFlags(Stepped(c1, a, -2), d0, d, Memory(Low(Reg(c1, a) - 2)), v, f, g);
      } else {
        LandedFlags(Stepped(c1, a, Moved(mode)), d0, d, PlaceOf(c1, mode, a), v, f, g);
      }
    }
  }

  /** A whole step of SHL or SHR. */
  lemma ShiftMeans(c: Machine, io: Devices)
    requires var i := Decode(Fetched(c, io)); (i.op == 5 || i.op == 6) && Ordinary(i)
    requires !(c.intRequest && !c.intActive)
    ensures var (d, stopped) := Step(c, io);
            !stopped && ShiftCarried(Stepped(c, PC, 1), d, io, Decode(Fetched(c, io)))
  {
    hide ShiftCarried, Fetched, Shifting, Decode, Stepped, SetReg, Reg;
    StepIs(c, io);
    assert AfterFetch(c) == Stepped(c, PC, 1) by { SteppedIs(c, PC, 1); }
    ShiftingCarried(Stepped(c, PC, 1), io, Decode(Fetched(c, io)));
  }

  /** A shift by n > 0 leaves its register as every other instruction would if and only if the operand is not @--R. */
  lemma ShiftGoesBack(c1: Machine, d: Machine, mode: int, a: int, n: Word, v: Word, g: Flags)
    requires 0 <= mode < 4 && 0 <= a < 16 && a != SR && n > 0 && ShiftLeaves(c1, d, mode, a, n, v, g)
    ensures Landed(Stepped(c1, a, Moved(mode)), d, PlaceOf(c1, mode, a), v, g) <==> mode != 3
  {
    hide FlagsOf, StatusOf, Bank, Landed;
    if mode == 3 {
      var p := PlaceOf(c1, mode, a);
      var q := Memory(Low(Reg(c1, a) - 2));
      LandedRegisterReads(Stepped(c1, a, -2), d, q, v, g, a);
      SteppedReads(c1, a, -2, a);
      SteppedReads(c1, a, -1, a);
      if Landed(Stepped(c1, a, -1), d, p, v, g) {
        LandedRegisterReads(Stepped(c1, a, -1), d, p, v, g, a);
      }
    }
  }

  lemma LandedRegisterReads(c: Machine, d: Machine, p: Place, v: Word, g: Flags, a: int)
    requires p.Memory? && Landed(c, d, p, v, g) && 0 <= a < 16 && a != SR
    ensures Reg(d, a) == Reg(c, a)
  {
    SameBank(c, d);
    hide FlagsOf, StatusOf, Bank;
  }

  // ----- comparing -----

  /** CMP of two operands that do not step SR: both registers step, Z, N and V tell how the first operand compares with
      the second, X and C stay, and nothing else changes. */
  ghost predicate Compared(c: Machine, d: Machine, io: Devices, i: Instruction)
    requires Steady(i.sm, i.sa) && Steady(i.dm, i.da)
  {
    var c1 := Stepped(c, i.sa, Moved(i.sm));
    var x, y := Get(c, io, PlaceOf(c, i.sm, i.sa)), Get(c1, io, PlaceOf(c1, i.dm, i.da));
    var f, g := FlagsOf(StatusOf(c)), FlagsOf(StatusOf(d));
    && OnlyFlags(Stepped(c1, i.da, Moved(i.dm)), d, g) && g.x == f.x && g.c == f.c
    && (g.z == 1 <==> x == y) && (g.n == 1 <==> x > y) && (g.v == 1 <==> Signed(x) > Signed(y))
  }

  lemma CompareMeans(c: Machine, io: Devices)
    requires var i := Decode(Fetched(c, io)); i.op == 12 && Steady(i.sm, i.sa) && Steady(i.dm, i.da)
    requires !(c.intRequest && !c.intActive)
    ensures var (d, stopped) := Step(c, io);
            !stopped && Compared(Stepped(c, PC, 1), d, io, Decode(Fetched(c, io)))
  {
    hide Fetched, Decode, Stepped, SetReg, Reg, Get, PlaceOf, FlagsOf, OnlyFlags, StatusOf, Signed, ReadSource, Perform;
    StepIs(c, io);
    assert AfterFetch(c) == Stepped(c, PC, 1) by { SteppedIs(c, PC, 1); }
    var c0, i := Stepped(c, PC, 1), Decode(Fetched(c, io));
    var c1 := Stepped(c0, i.sa, Moved(i.sm));
    ReadSays(c0, io, i.sm, i.sa, false);
    ReadSays(c1, io, i.dm, i.da, false);
    StatusStays(c0, i.sm, i.sa);
    StatusStays(c1, i.dm, i.da);
    CpuCompare.ComparePerformed(c0, io, Fetched(c, io));
  }

  // ----- control instructions -----

  /** INT with an operand that does not step SR, outside of a service: the interrupt address is the operand, a request is
      pending, and the operand's register steps once. */
  lemma IntMeans(c: Machine, io: Devices)
    requires IsControl(Fetched(c, io), 2) && !c.intActive && !c.intRequest
    requires var i := Decode(Fetched(c, io)); Steady(i.dm, i.da) && i.da != SR
    ensures var (d, stopped) := Step(c, io);
            var i, c0 := Decode(Fetched(c, io)), Stepped(c, PC, 1);
            !stopped && d == Stepped(c0, i.da, Moved(i.dm)).(intAddress := Get(c0, io, PlaceOf(c0, i.dm, i.da)), intRequest := true)
  {
    hide Fetched, Decode, StatusOf, Bank, Perform, IsControl, Step;
    StepIs(c, io);
    assert AfterFetch(c) == Stepped(c, PC, 1) by { SteppedIs(c, PC, 1); }
    var c0, w := Stepped(c, PC, 1), Fetched(c, io);
    IsControlOp(w, 2);
    ControlPerformed(c0, io, w);
    IntControl(c0, io, w);
  }

  lemma IntControl(c0: Machine, io: Devices, w: Word)
    requires IsControl(w, 2) && !c0.intActive
    requires var i := Decode(w); Steady(i.dm, i.da) && i.da != SR
    ensures var i := Decode(w);
            Control(c0, io, w)
            == (Stepped(c0, i.da, Moved(i.dm)).(intAddress := Get(c0, io, PlaceOf(c0, i.dm, i.da)), intRequest := true), false)
  {
    hide Decode, StatusOf, Bank, Get, PlaceOf, Stepped, Moved, ReadSource, WriteDestination, Steady;
    var i := Decode(w);
    var a := Get(c0, io, PlaceOf(c0, i.dm, i.da));
    ReadSays(c0, io, i.dm, i.da, true);
    OperandRewritten(c0, io, i.dm, i.da, a);
  }

  /** Writing an operand back to where it was read leaves the step of its register. */
  lemma OperandRewritten(c: Machine, io: Devices, mode: int, a: int, x: Word)
    requires 0 <= mode < 4 && 0 <= a < 16 && a != SR
    ensures var v := Get(c, io, PlaceOf(c, mode, a));
            var c1 := Stepped(c, a, if mode == 2 then 0 else Moved(mode));
            WriteDestination(c1.(intAddress := x), mode, a, v, true) == Stepped(c, a, Moved(mode)).(intAddress := x)
  {
    var v := Get(c, io, PlaceOf(c, mode, a));
    var c1 := Stepped(c, a, if mode == 2 then 0 else Moved(mode));
    LowOfWord(v);
    LowOfWord(Reg(c, a));
    if mode == 3 { SteppedReads(c, a, -1, a); }
    hide StatusOf, Bank, Low;
    var c2 := c1.(intAddress := x);
    assert Reg(c2, a) == Reg(c1, a) && Slot(c2, a) == Slot(c1, a) by { SameRegisters(c1, c2, a); }
    if mode == 0 {
      assert c.regs[Slot(c, a) := v] == c.regs;
    } else {
      RestoreMemory(c2, Reg(c2, a), v);
    }
  }

  lemma SameRegisters(c: Machine, d: Machine, a: int)
    requires d.regs == c.regs && 0 <= a < 16
    ensures Reg(d, a) == Reg(c, a) && Slot(d, a) == Slot(c, a)
  {}

  lemma RestoreMemory(c: Machine, a: Word, v: Word)
    requires a < IO_AREA_START ==> c.mem[a] == v
    ensures Store(c, a, v) == c
  {
    if a < IO_AREA_START {
      assert c.mem[a := v] == c.mem;
    }
  }

  /** HALT stops, and changes nothing but the program counter. */
  lemma HaltMeans(c: Machine, io: Devices)
    requires IsControl(Fetched(c, io), 0) && !(c.intRequest && !c.intActive)
    ensures Step(c, io) == (Stepped(c, PC, 1), true)
  {
    hide Fetched, Perform, IsControl, Step;
    StepIs(c, io);
    assert AfterFetch(c) == Stepped(c, PC, 1) by { SteppedIs(c, PC, 1); }
    IsControlOp(Fetched(c, io), 0);
    ControlPerformed(Stepped(c, PC, 1), io, Fetched(c, io));
    Halts(Stepped(c, PC, 1), io, Fetched(c, io));
  }

  lemma Halts(c: Machine, io: Devices, w: Word)
    requires IsControl(w, 0)
    ensures Control(c, io, w) == (c, true)
  {}

  /** c in the given bank. */
  function InBank(c: Machine, bank: int): Machine
    requires 0 <= bank < 256
  {
    c.(regs := c.regs[SR := 256 * bank + StatusOf(c) % 256])
  }

  /** INCRB and DECRB go to the neighbouring bank; of SR the low byte stays, and nothing else changes. */
  lemma NestMeans(c: Machine, io: Devices, up: bool)
    requires IsControl(Fetched(c, io), if up then 3 else 4) && !(c.intRequest && !c.intActive)
    ensures Step(c, io) == (InBank(Stepped(c, PC, 1), (Bank(c) + if up then 1 else -1) % 256), false)
  {
    hide Fetched, Perform, IsControl, Step, Control, Bank, StatusOf, InBank;
    StepIs(c, io);
    assert AfterFetch(c) == Stepped(c, PC, 1) by { SteppedIs(c, PC, 1); }
    SteppedReads(c, PC, 1, PC);
    IsControlOp(Fetched(c, io), if up then 3 else 4);
    ControlPerformed(Stepped(c, PC, 1), io, Fetched(c, io));
    Nests(Stepped(c, PC, 1), io, Fetched(c, io), up);
  }

  lemma Nests(c: Machine, io: Devices, w: Word, up: bool)
    requires IsControl(w, if up then 3 else 4)
    ensures Control(c, io, w) == (InBank(c, (Bank(c) + if up then 1 else -1) % 256), false)
  {
    hide Bank, StatusOf, Decode, ReadSource, WriteDestination;
    Neighbour(Bank(c));
    StaysOdd(c, (Bank(c) + if up then 1 else -1) % 256);
  }

  lemma Neighbour(b: int)
    ensures (b + 255) % 256 == (b - 1) % 256
  {}

  lemma StaysOdd(c: Machine, bank: int)
    requires 0 <= bank < 256
    ensures SetLsb(Low(WithBank(StatusOf(c), bank))) == 256 * bank + StatusOf(c) % 256
  {
    StatusOdd(c);
    var low := StatusOf(c) % 256;
    assert StatusOf(c) == 256 * (StatusOf(c) / 256) + low;
    assert low % 2 == 1;
    assert (256 * bank + low) % 2 == 1;
  }

  /** Which flag a branch tests. */
  lemma ConditionMeans(c: Machine, w: Word)
    ensures var f, straight := FlagsOf(StatusOf(c)), w / 8 % 2 == 0;
      && (w % 8 == 0 ==> (Condition(c, w) <==> straight))
      && (w % 8 == 1 ==> (Condition(c, w) <==> (f.x == 1) == straight))
      && (w % 8 == 2 ==> (Condition(c, w) <==> (f.c == 1) == straight))
      && (w % 8 == 3 ==> (Condition(c, w) <==> (f.z == 1) == straight))
      && (w % 8 == 4 ==> (Condition(c, w) <==> (f.n == 1) == straight))
      && (w % 8 == 5 ==> (Condition(c, w) <==> (f.v == 1) == straight))
  {
    BitsAreFlags(StatusOf(c));
    StatusOdd(c);
    hide Bit, FlagsOf, StatusOf;
  }

  lemma BitsAreFlags(sr: Word)
    ensures var f := FlagsOf(sr);
      && Bit(sr, 0) == sr % 2 && Bit(sr, 1) == f.x && Bit(sr, 2) == f.c && Bit(sr, 3) == f.z && Bit(sr, 4) == f.n
      && Bit(sr, 5) == f.v
  {
    var s1 := sr / 2; var s2 := s1 / 2; var s3 := s2 / 2; var s4 := s3 / 2; var s5 := s4 / 2;
    Shifts(sr);
    assert s2 == sr / 4 && s3 == sr / 8 && s4 == sr / 16 && s5 == sr / 32;
    assert Bit(sr, 1) == Bit(s1, 0) && Bit(sr, 2) == Bit(s1, 1) && Bit(s1, 1) == Bit(s2, 0);
    BitOn(sr, 3); BitOn(s1, 2); BitOn(s2, 1);
    BitOn(sr, 4); BitOn(s1, 3); BitOn(s2, 2); BitOn(s3, 1);
    BitOn(sr, 5); BitOn(s1, 4); BitOn(s2, 3); BitOn(s3, 2); BitOn(s4, 1);
  }

  /** What a branch or call leaves when it is taken: kinds 0 and 1 go to x, kinds 2 and 3 x words on; kinds 1 and 3
      push the address behind the instruction. */
  function Jumped(c: Machine, kind: int, x: Word): Machine {
    var next := Reg(c, PC);
    var sp := Low(Reg(c, SP) - 1);
    var called := if kind % 2 == 0 then c
                  else c.(regs := c.regs[SP := sp], mem := if sp < IO_AREA_START then c.mem[sp := next] else c.mem);
    called.(regs := called.regs[PC := if kind < 2 then x else Low(next + x)])
  }

  /** A whole step of a branch or call, with any operand that does not step SR. */
  lemma BranchMeans(c: Machine, io: Devices)
    requires var i := Decode(Fetched(c, io)); i.op == 15 && Steady(i.sm, i.sa)
    requires !(c.intRequest && !c.intActive)
    ensures var (d, stopped) := Step(c, io);
            var w, c0 := Fetched(c, io), Stepped(c, PC, 1);
            var i := Decode(w);
            var c1 := Stepped(c0, i.sa, Moved(i.sm));
            !stopped && d == if Condition(c, w) then Jumped(c1, w / 16 % 4, Get(c0, io, PlaceOf(c0, i.sm, i.sa))) else c1
  {
    hide Fetched, Decode, Stepped, SetReg, Get, PlaceOf, StatusOf, ReadSource, Bit, Branching;
    StepIs(c, io);
    assert AfterFetch(c) == Stepped(c, PC, 1) by { SteppedIs(c, PC, 1); }
    var c0, w := Stepped(c, PC, 1), Fetched(c, io);
    var i := Decode(w);
    SteppedReads(c, PC, 1, PC);
    BranchJumps(c0, io, w);
  }

  lemma BranchJumps(c0: Machine, io: Devices, w: Word)
    requires Steady(Decode(w).sm, Decode(w).sa)
    ensures var i := Decode(w);
            var c1 := Stepped(c0, i.sa, Moved(i.sm));
            Branching(c0, io, w) == if Condition(c0, w) then Jumped(c1, w / 16 % 4, Get(c0, io, PlaceOf(c0, i.sm, i.sa))) else c1
  {
    hide Decode, Get, PlaceOf, StatusOf, Bit, ReadSource, Bank;
    var i := Decode(w);
    ReadSays(c0, io, i.sm, i.sa, false);
    StatusStays(c0, i.sm, i.sa);
    var c1 := Stepped(c0, i.sa, Moved(i.sm));
    hide Stepped;
    LowOfWord(Get(c0, io, PlaceOf(c0, i.sm, i.sa)));
  }

  // ----- the status register as the destination -----

  /** The instructions that write SR itself: the result replaces the flags and the bank, its lowest bit set. */
  ghost predicate StatusCarried(c: Machine, d: Machine, io: Devices, i: Instruction)
    requires Steady(i.sm, i.sa)
  {
    var c1 := Stepped(c, i.sa, Moved(i.sm));
    exists v: Word, g :: Means(i.op, StatusOf(c), Get(c, io, PlaceOf(c, i.sm, i.sa)), FlagsOf(StatusOf(c)), v, g)
                         && d == c1.(regs := c1.regs[SR := SetLsb(v)])
  }

  predicate ToStatus(i: Instruction) {
    Computing(i.op) && Steady(i.sm, i.sa) && i.dm == 0 && i.da == SR
  }

  lemma StatusOverwritten(c: Machine, c3: Machine, v: Long, g: Flags)
    requires OnlyFlags(c, c3, g)
    ensures WriteDestination(c3, 0, SR, v, true) == WriteDestination(c3, 0, SR, v, false)
            == c.(regs := c.regs[SR := SetLsb(Low(v))])
  {
    hide FlagsOf, StatusOf, SetLsb, Low;
  }

  lemma ToStatusPerformed(c: Machine, io: Devices, i: Instruction)
    requires ToStatus(i)
    ensures StatusCarried(c, if i.op in {0, 7, 8} then Moving(c, io, i) else Arithmetic(c, io, i), io, i)
  {
    hide Combine, NewFlags, FlagsOf, StatusOf, OnlyFlags, Means, Get, PlaceOf, Stepped, WriteDestination, UpdateStatus, Low;
    var f := FlagsOf(StatusOf(c));
    var c1 := Stepped(c, i.sa, Moved(i.sm));
    ReadSays(c, io, i.sm, i.sa, false);
    StatusStays(c, i.sm, i.sa);
    var x, y := Get(c, io, PlaceOf(c, i.sm, i.sa)), StatusOf(c);
    hide ReadSource;
    if i.op in {0, 7, 8} {
      var t: Word := if i.op == 0 then x else if i.op == 7 then x / 256 + x % 256 * 256 else 0xffff - x;
      UpdateStatusFlags(c1, t, x, x, KEEP_CV, false);
      StatusOverwritten(c1, UpdateStatus(c1, t, x, x, KEEP_CV, false), t, NewFlags(f, t, x, x, KEEP_CV, false));
      MovingMeans(i.op, y, x, f);
    } else {
      StatusRead(c1, io);
      CarryIs(StatusOf(c1));
      var t := Combine(i.op, y, x, f.c);
      var keep := if i.op < 9 then MODIFY_ALL else KEEP_CV;
      UpdateStatusFlags(c1, t, y, x, keep, i.op < 9);
      StatusOverwritten(c1, UpdateStatus(c1, t, y, x, keep, i.op < 9), t, NewFlags(f, t, y, x, keep, i.op < 9));
      CombineMeans(i.op, y, x, f);
    }
  }

  lemma StatusRead(c: Machine, io: Devices)
    ensures ReadSource(c, io, 0, SR, true) == (c, StatusOf(c))
  {}

  lemma ToStatusMeans(c: Machine, io: Devices)
    requires ToStatus(Decode(Fetched(c, io))) && !(c.intRequest && !c.intActive)
    ensures var (d, stopped) := Step(c, io);
            !stopped && StatusCarried(Stepped(c, PC, 1), d, io, Decode(Fetched(c, io)))
  {
    hide StatusCarried, Fetched, Arithmetic, Moving, Decode, Stepped, SetReg, Reg;
    StepIs(c, io);
    assert AfterFetch(c) == Stepped(c, PC, 1) by { SteppedIs(c, PC, 1); }
    ToStatusPerformed(Stepped(c, PC, 1), io, Decode(Fetched(c, io)));
  }

  // ----- masks for the status register -----

  lemma {:induction false} BitsDetermine(x: nat, y: nat, n: nat)
    requires x < Exp2(n) && y < Exp2(n) && n <= 16 && forall k :: 0 <= k < n ==> Bit(x, k) == Bit(y, k)
    ensures x == y
  {
    if n > 0 {
      assert Bit(x, 0) == Bit(y, 0);
      forall k | 0 <= k < n - 1
        ensures Bit(x / 2, k) == Bit(y / 2, k)
      {
        assert Bit(x, k + 1) == Bit(y, k + 1);
      }
      BitsDetermine(x / 2, y / 2, n - 1);
    }
  }

  lemma HighBits(x: Word, k: nat)
    requires k < 8
    ensures Bit(x / 256, k) == Bit(x, k + 8)
  {
    assert x / 256 == x / 2 / 2 / 2 / 2 / 2 / 2 / 2 / 2;
    BitOn(x, k + 8); BitOn(x / 2, k + 7); BitOn(x / 2 / 2, k + 6); BitOn(x / 2 / 2 / 2, k + 5);
    BitOn(x / 2 / 2 / 2 / 2, k + 4); BitOn(x / 2 / 2 / 2 / 2 / 2, k + 3);
    BitOn(x / 2 / 2 / 2 / 2 / 2 / 2, k + 2); BitOn(x / 2 / 2 / 2 / 2 / 2 / 2 / 2, k + 1);
  }

  lemma BitOn(x: nat, k: nat)
    requires 0 < k < 17
    ensures Bit(x, k) == Bit(x / 2, k - 1)
  {}

  lemma {:induction false} BitOfOnes(n: nat, k: nat)
    requires k < n <= 16
    ensures Bit(Exp2(n) - 1, k) == 1 && Bit(0, k) == 0
  {
    assert (Exp2(n) - 1) % 2 == 1 && (Exp2(n) - 1) / 2 == Exp2(n - 1) - 1;
    if k > 0 { BitOfOnes(n - 1, k - 1); }
  }

  /** AND with a mask whose upper byte is 0xFF, and OR and XOR with one whose upper byte is 0, keep the upper byte. */
  lemma MaskKeepsHighByte(y: Word, x: Word, v: Word)
    requires (IsAnd(y, x, v) && x / 256 == 0xff) || ((IsOr(y, x, v) || IsXor(y, x, v)) && x / 256 == 0)
    ensures v / 256 == y / 256
  {
    hide Bit;
    assert Exp2(8) == 256 by { assert Exp2(4) == 16; }
    forall k | 0 <= k < 8
      ensures Bit(v / 256, k) == Bit(y / 256, k)
    {
      HighBits(v, k); HighBits(y, k); HighBits(x, k);
      BitOfOnes(8, k);
      assert 0 <= k + 8 < 16;
      assert Bit(x, k + 8) == if x / 256 == 0xff then 1 else 0;
    }
    BitsDetermine(v / 256, y / 256, 8);
  }

  /** An instruction such as AND 0xFFFD, SR or OR 0x0002, SR, with its mask in any operand, stays in its bank. */
  lemma MaskedStatusKeepsBank(c: Machine, io: Devices)
    requires var i := Decode(Fetched(c, io)); ToStatus(i) && 9 <= i.op < 12
    requires !(c.intRequest && !c.intActive)
    requires var i, c0 := Decode(Fetched(c, io)), Stepped(c, PC, 1);
             Get(c0, io, PlaceOf(c0, i.sm, i.sa)) / 256 == if i.op == 9 then 0xff else 0
    ensures Bank(Step(c, io).0) == Bank(c)
  {
    hide Step, Fetched, FlagsOf, Get, PlaceOf, IsAnd, IsOr, IsXor, Keeps, Decode, Stepped;
    ToStatusMeans(c, io);
    var i, c0, d := Decode(Fetched(c, io)), Stepped(c, PC, 1), Step(c, io).0;
    SteppedReads(c, PC, 1, PC);
    var x := Get(c0, io, PlaceOf(c0, i.sm, i.sa));
    var v: Word, g :| Means(i.op, StatusOf(c0), x, FlagsOf(StatusOf(c0)), v, g)
                      && d == Stepped(c0, i.sa, Moved(i.sm)).(regs := Stepped(c0, i.sa, Moved(i.sm)).regs[SR := SetLsb(v)]);
    MaskKeepsHighByte(StatusOf(c0), x, v);
    assert d.regs[SR] == SetLsb(v);
    LsbKeepsHighByte(v);
  }

  lemma LsbKeepsHighByte(v: Word)
    ensures SetLsb(SetLsb(v)) / 256 == v / 256
  {}

  /** After a reset every register is zero but for the bit of SR that is always set, the memory is zero, and no interrupt
      is requested or served. */
  lemma ResetMeans(c: Machine)
    ensures var d := Reset(c);
      && (forall r :: 0 <= r < 16 ==> Reg(d, r) == if r == SR then 1 else 0)
      && (forall a :: 0 <= a < IO_AREA_START ==> d.mem[a] == 0) && !d.intRequest && !d.intActive
  {
    assert Bank(Reset(c)) == 0;
  }
}
