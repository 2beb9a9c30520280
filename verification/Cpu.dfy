/** The QNICE processor as qnice.c emulates it: its state and what one instruction does to it. */
module Cpu {
  import opened Bits

  const MEMORY_SIZE := 65536
  const REGMEM_SIZE := 4096
  /** Addresses from here on belong to devices, which are not part of this model. */
  const IO_AREA_START := 0xFF00

  const SP := 13
  const SR := 14
  const PC := 15

  type Word = x: int | 0 <= x < 0x1_0000
  /** A C unsigned int. */
  type Long = x: int | 0 <= x < 0x1_0000_0000

  datatype State = State(
    regs: seq<Word>, mem: seq<Word>,
    intRequest: bool, intAddress: Word, intActive: bool,
    int14: Word, int15: Word)

  /** What the devices answer when they are read. */
  type Devices = int -> Word

  predicate Sized(c: State) {
    |c.regs| == REGMEM_SIZE && |c.mem| == MEMORY_SIZE
  }

  type Machine = c: State | Sized(c)
    witness State(seq(REGMEM_SIZE, _ => 0), seq(MEMORY_SIZE, _ => 0), false, 0, false, 0, 0)

  // ----- registers and memory -----

  /** The least significant bit of the status register is always set. */
  function SetLsb(v: Word): (r: Word)
    ensures r % 2 == 1 && r / 2 == v / 2
  {
    v - v % 2 + 1
  }

  function StatusOf(c: Machine): Word {
    SetLsb(c.regs[SR])
  }

  /** The bank of the lower eight registers. */
  function Bank(c: Machine): (b: int)
    ensures 0 <= b < 256
  {
    StatusOf(c) / 256
  }

  /** The place of register a in the register file. */
  function Slot(c: Machine, a: int): (k: int)
    requires 0 <= a < 16
    ensures 0 <= k < REGMEM_SIZE
  {
    if a >= 8 then a else a + 16 * Bank(c)
  }

  function Reg(c: Machine, a: int): Word
    requires 0 <= a < 16
  {
    if a == SR then StatusOf(c) else c.regs[Slot(c, a)]
  }

  function Low(v: int): Word {
    v % 0x1_0000
  }

  function SetReg(c: Machine, a: int, v: int): Machine
    requires 0 <= a < 16
  {
    c.(regs := c.regs[Slot(c, a) := if a == SR then SetLsb(Low(v)) else Low(v)])
  }

  function Load(c: Machine, io: Devices, a: Word): Word {
    if a < IO_AREA_START then c.mem[a] else io(a)
  }

  function Store(c: Machine, a: Word, v: Word): Machine {
    if a < IO_AREA_START then c.(mem := c.mem[a := v]) else c
  }

  /** The machine after a reset. */
  function Reset(c: Machine): Machine {
    c.(regs := seq(REGMEM_SIZE, _ => 0),
       mem := seq(MEMORY_SIZE, a requires 0 <= a < MEMORY_SIZE => if a < IO_AREA_START then 0 else c.mem[a]),
       intRequest := false, intActive := false)
  }

  // ----- operands -----

  function ReadSource(c: Machine, io: Devices, mode: int, a: int, suppressIncrement: bool): (Machine, Word)
    requires 0 <= mode < 4 && 0 <= a < 16
  {
    if mode == 0 then (c, Reg(c, a))
    else if mode == 3 then
      var d := SetReg(c, a, Reg(c, a) as int - 1);
      (d, Load(d, io, Reg(d, a)))
    else
      var v := Load(c, io, Reg(c, a));
      (if mode == 2 && !suppressIncrement then SetReg(c, a, Reg(c, a) + 1) else c, v)
  }

  function WriteDestination(c: Machine, mode: int, a: int, v: Long, suppressDecrement: bool): Machine
    requires 0 <= mode < 4 && 0 <= a < 16
  {
    if mode == 0 then SetReg(c, a, v)
    else if mode == 1 then Store(c, Reg(c, a), Low(v))
    else if mode == 2 then
      var d := Store(c, Reg(c, a), Low(v));
      SetReg(d, a, Reg(d, a) + 1)
    else
      var d := if suppressDecrement then c else SetReg(c, a, Reg(c, a) as int - 1);
      Store(d, Reg(d, a), Low(v))
  }

  // ----- the status register -----

  /** Bit k of a word. */
  function Bit(v: int, k: int): (b: int)
    requires 0 <= v && 0 <= k < 17
    ensures b == 0 || b == 1
  {
    if k == 0 then v % 2 else Bit(v / 2, k - 1)
  }

  function Ones(b: bool): int {
    if b then 1 else 0
  }

  datatype Flags = Flags(x: int, c: int, z: int, n: int, v: int)

  function FlagsOf(sr: Word): (f: Flags)
    ensures AreFlags(f)
  {
    Flags(sr / 2 % 2, sr / 4 % 2, sr / 8 % 2, sr / 16 % 2, sr / 32 % 2)
  }

  predicate AreFlags(f: Flags) {
    0 <= f.x < 2 && 0 <= f.c < 2 && 0 <= f.z < 2 && 0 <= f.n < 2 && 0 <= f.v < 2
  }

  /** sr with its flags replaced; the upper ten bits and the lowest one stay. */
  function WithFlags(sr: Word, f: Flags): Word
    requires AreFlags(f)
  {
    64 * (sr / 64) + FlagBits(sr % 2, f)
  }

  function FlagBits(one: int, f: Flags): (r: int)
    requires AreFlags(f) && 0 <= one < 2
    ensures 0 <= r < 64
  {
    one + 2 * (f.x + 2 * (f.c + 2 * (f.z + 2 * (f.n + 2 * f.v))))
  }

  lemma Halves(q: int, b: int)
    requires 0 <= b < 2
    ensures (b + 2 * q) / 2 == q && (b + 2 * q) % 2 == b
  {}

  lemma Sixtyfourths(q: int, r: int)
    requires 0 <= r < 64
    ensures (64 * q + r) / 64 == q
  {}

  lemma Shifts(r: int)
    requires 0 <= r
    ensures r / 4 == r / 2 / 2 && r / 8 == r / 4 / 2 && r / 16 == r / 8 / 2 && r / 32 == r / 16 / 2
    ensures r / 256 == r / 64 / 4
  {}

  lemma FlagBitsRead(one: int, f: Flags, q: int)
    requires AreFlags(f) && 0 <= one < 2 && 0 <= q
    ensures var r := 64 * q + FlagBits(one, f);
            r % 2 == one && r / 2 % 2 == f.x && r / 4 % 2 == f.c && r / 8 % 2 == f.z && r / 16 % 2 == f.n && r / 32 % 2 == f.v
  {
    var r := 64 * q + FlagBits(one, f);
    var r5 := f.v + 2 * q;
    var r4 := f.n + 2 * r5;
    var r3 := f.z + 2 * r4;
    var r2 := f.c + 2 * r3;
    var r1 := f.x + 2 * r2;
    assert r == one + 2 * r1;
    Shifts(r);
    Halves(r1, one); Halves(r2, f.x); Halves(r3, f.c); Halves(r4, f.z); Halves(r5, f.n); Halves(q, f.v);
  }

  lemma WithFlagsReads(sr: Word, f: Flags)
    requires AreFlags(f)
    ensures FlagsOf(WithFlags(sr, f)) == f
    ensures WithFlags(sr, f) % 2 == sr % 2 && WithFlags(sr, f) / 256 == sr / 256 && WithFlags(sr, f) / 64 == sr / 64
  {
    hide FlagBits;
    var r := WithFlags(sr, f);
    FlagBitsRead(sr % 2, f, sr / 64);
    Sixtyfourths(sr / 64, FlagBits(sr % 2, f));
    Shifts(sr);
    Shifts(r);
  }

  datatype Keep = Keep(carry: bool, x: bool, overflow: bool)

  const MODIFY_ALL := Keep(false, false, false)
  const KEEP_CV := Keep(true, false, true)
  const KEEP_CXV := Keep(true, true, true)

  function Top(v: Long): bool {
    v / 0x8000 % 2 == 1
  }

  function NewFlags(was: Flags, destination: Long, source0: Long, source1: Long, keep: Keep, addSub: bool): (f: Flags)
    requires AreFlags(was)
    ensures AreFlags(f)
  {
    Flags(
      if keep.x then was.x else Ones(Low(destination) == 0xffff),
      if keep.carry then was.c else destination / 0x1_0000 % 2,
      Ones(Low(destination) == 0),
      Ones(Top(destination)),
      if keep.overflow || !addSub then was.v
      else Ones((!Top(source0) && !Top(source1) && Top(destination)) || (Top(source0) && Top(source1) && !Top(destination))))
  }

  function UpdateStatus(c: Machine, destination: Long, source0: Long, source1: Long, keep: Keep, addSub: bool): Machine {
    var sr := StatusOf(c);
    SetReg(c, SR, WithFlags(sr, NewFlags(FlagsOf(sr), destination, source0, source1, keep, addSub)))
  }

  // ----- the instructions -----

  /** One bit of x & y, x | y and x ^ y. */
  function BitOf(op: int, a: int, b: int): (r: int)
    requires 0 <= a < 2 && 0 <= b < 2
    ensures 0 <= r < 2
  {
    if op == 9 then a * b else if op == 10 then a + b - a * b else (a + b) % 2
  }

  /** C's operators on the lower n bits of x and y. */
  function Bitwise(op: int, x: nat, y: nat, n: nat): (r: nat)
    ensures r < Exp2(n)
  {
    if n == 0 then 0 else BitOf(op, x % 2, y % 2) + 2 * Bitwise(op, x / 2, y / 2, n - 1)
  }

  /** AND, OR and XOR. */
  function Logic(op: int, x: Word, y: Word): Word {
    assert Exp2(16) == 0x1_0000 by { assert Exp2(4) == 16; assert Exp2(8) == 256; assert Exp2(12) == 4096; }
    Bitwise(op, x, y, 16)
  }

  /** n shifts to the left that fill with x: the value in an unsigned int, and the last bit that left the word. */
  function ShiftLeft(d: Long, x: int, n: nat): (r: (Long, int))
    requires 0 <= x < 2
    ensures 0 <= r.1 < 2
  {
    if n == 0 then (d, 0) else
      var (e, _) := ShiftLeft(d, x, n - 1);
      ((2 * e + x) % 0x1_0000_0000, e / 0x8000 % 2)
  }

  /** n shifts to the right that fill with c. */
  function ShiftRight(d: Word, c: int, n: nat): (r: (Word, int))
    requires 0 <= c < 2
    ensures 0 <= r.1 < 2
  {
    if n == 0 then (d, 0) else
      var (e, _) := ShiftRight(d, c, n - 1);
      (e / 2 + 0x8000 * c, e % 2)
  }

  /** What a two-operand instruction computes from its destination and source operand and the carry; the result
      of a subtraction wraps as an unsigned int does. */
  function Combine(op: int, source0: Word, source1: Word, carry: int): Long
    requires 0 <= carry < 2
  {
    if op == 1 then source0 + source1
    else if op == 2 then source0 + source1 + carry
    else if op == 3 then (source0 as int - source1) % 0x1_0000_0000
    else if op == 4 then (source0 as int - source1 - carry) % 0x1_0000_0000
    else Logic(op, source0, source1)
  }

  datatype Instruction = Instruction(op: int, sm: int, sa: int, dm: int, da: int)

  function Decode(w: Word): (i: Instruction)
    ensures 0 <= i.op < 16 && 0 <= i.sm < 4 && 0 <= i.sa < 16 && 0 <= i.dm < 4 && 0 <= i.da < 16
  {
    Instruction(w / 4096, w / 64 % 4, w / 256 % 16, w % 4, w / 4 % 16)
  }

  /** ADD, ADDC, SUB, SUBC, AND, OR, XOR. */
  function Arithmetic(c: Machine, io: Devices, i: Instruction): Machine
    requires Fields(i)
  {
    var (c1, source1) := ReadSource(c, io, i.sm, i.sa, false);
    var (c2, source0) := ReadSource(c1, io, i.dm, i.da, true);
    var destination := Combine(i.op, source0, source1, StatusOf(c2) / 4 % 2);
    var c3 := UpdateStatus(c2, destination, source0, source1, if i.op < 9 then MODIFY_ALL else KEEP_CV, i.op < 9);
    WriteDestination(c3, i.dm, i.da, destination, true)
  }

  predicate Fields(i: Instruction) {
    0 <= i.op < 16 && 0 <= i.sm < 4 && 0 <= i.sa < 16 && 0 <= i.dm < 4 && 0 <= i.da < 16
  }

  /** MOVE, SWAP, NOT. */
  function Moving(c: Machine, io: Devices, i: Instruction): Machine
    requires Fields(i)
  {
    var (c1, source0) := ReadSource(c, io, i.sm, i.sa, false);
    var destination: Word := if i.op == 0 then source0
                             else if i.op == 7 then source0 / 256 + source0 % 256 * 256
                             else 0xffff - source0;
    var c2 := UpdateStatus(c1, destination, source0, source0, KEEP_CV, false);
    WriteDestination(c2, i.dm, i.da, destination, false)
  }

  /** SHL fills with X, SHR with C. */
  function Shifted(op: int, d: Word, f: Flags, n: nat): (r: (Long, int))
    requires AreFlags(f)
    ensures 0 <= r.1 < 2
  {
    if op == 5 then ShiftLeft(d, f.x, n) else var (e, bit) := ShiftRight(d, f.c, n); (e, bit)
  }

  /** SHL shifts out into C, SHR into X. */
  function ShiftFlags(op: int, f: Flags, bit: int): Flags {
    if op == 5 then f.(c := bit) else f.(x := bit)
  }

  /** SHL and SHR. */
  function Shifting(c: Machine, io: Devices, i: Instruction): Machine
    requires Fields(i)
  {
    var (c1, n) := ReadSource(c, io, i.sm, i.sa, false);
    var (c2, d) := ReadSource(c1, io, i.dm, i.da, true);
    var f := FlagsOf(StatusOf(c2));
    var (e, bit) := Shifted(i.op, d, f, n);
    var c3 := if n == 0 then c2 else
      var c' := SetReg(c2, SR, WithFlags(StatusOf(c2), ShiftFlags(i.op, f, bit)));
      WriteDestination(c', i.dm, i.da, e, false);
    UpdateStatus(c3, e, n, 0, KEEP_CXV, false)
  }

  function Comparing(c: Machine, io: Devices, i: Instruction): Machine
    requires Fields(i)
  {
    var (c1, source0) := ReadSource(c, io, i.sm, i.sa, false);
    var (c2, source1) := ReadSource(c1, io, i.dm, i.da, false);
    var f := FlagsOf(StatusOf(c2));
    SetReg(c2, SR, WithFlags(StatusOf(c2),
      Flags(f.x, f.c, Ones(source0 == source1), Ones(source0 > source1), Ones(Signed(source0) > Signed(source1)))))
  }

  function Signed(v: Word): int {
    if v < 0x8000 then v else v - 0x1_0000
  }

  function WithBank(sr: Word, bank: int): Word
    requires 0 <= bank < 256
  {
    256 * bank + sr % 256
  }

  /** HALT, RTI, INT, INCRB, DECRB; unknown control instructions do nothing. The second result is set when the
      processor stops. */
  function Control(c: Machine, io: Devices, w: Word): (Machine, bool) {
    var command := w / 64 % 64;
    if command == 0 then (c, true)
    else if command == 1 then
      if !c.intActive then (c, true)
      else (SetReg(SetReg(c.(intActive := false), SR, c.int14), PC, c.int15), false)
    else if command == 2 then
      if c.intActive then (c, true) else
        var i := Decode(w);
        var (c1, a) := ReadSource(c, io, i.dm, i.da, true);
        (WriteDestination(c1.(intAddress := a), i.dm, i.da, a, true).(intRequest := true), false)
    else if command == 3 then (SetReg(c, SR, WithBank(StatusOf(c), (Bank(c) + 1) % 256)), false)
    else if command == 4 then (SetReg(c, SR, WithBank(StatusOf(c), (Bank(c) + 255) % 256)), false)
    else (c, false)
  }

  /** The bit of the status register that a branch tests, inverted if the instruction says so. */
  predicate Condition(c: Machine, w: Word) {
    (Bit(StatusOf(c), w % 8) == 1) != (w / 8 % 2 == 1)
  }

  function Push(c: Machine, v: Word): Machine {
    var d := SetReg(c, SP, Reg(c, SP) as int - 1);
    Store(d, Reg(d, SP), v)
  }

  function Branching(c: Machine, io: Devices, w: Word): Machine {
    var i := Decode(w);
    var (c1, destination) := ReadSource(c, io, i.sm, i.sa, false);
    if !Condition(c1, w) then c1 else
      var kind := w / 16 % 4;
      var c2 := if kind % 2 == 1 then Push(c1, Reg(c1, PC)) else c1;
      SetReg(c2, PC, if kind < 2 then destination else Reg(c2, PC) + destination)
  }

  /** One instruction word w that has been fetched. */
  function Perform(c: Machine, io: Devices, w: Word): (Machine, bool) {
    var i := Decode(w);
    if i.op == 0 || i.op == 7 || i.op == 8 then (Moving(c, io, i), false)
    else if i.op == 5 || i.op == 6 then (Shifting(c, io, i), false)
    else if i.op < 12 then (Arithmetic(c, io, i), false)
    else if i.op == 12 then (Comparing(c, io, i), false)
    else if i.op == 13 then (c, true)
    else if i.op == 14 then Control(c, io, w)
    else (Branching(c, io, w), false)
  }

  /** A request is taken up unless an interrupt is being serviced. */
  function Interrupt(c: Machine): Machine {
    if c.intRequest && !c.intActive then
      SetReg(c.(intActive := true, intRequest := false, int14 := StatusOf(c), int15 := Reg(c, PC)), PC, c.intAddress)
    else c
  }

  /** One call of execute: the new state, and whether the processor stops. */
  function Step(c: Machine, io: Devices): (Machine, bool) {
    var c1 := Interrupt(c);
    var pc := Reg(c1, PC);
    Perform(SetReg(c1, PC, pc + 1), io, Load(c1, io, pc))
  }

  /** n calls of execute, or fewer if the processor stops; io(k) is what devices answer during call k. */
  function Run(c: Machine, io: nat -> Devices, n: nat): (Machine, bool) {
    if n == 0 then (c, false) else
      var (d, stopped) := Run(c, io, n - 1);
      if stopped then (d, true) else Step(d, io(n - 1))
  }

  // ----- how registers and flags are read back -----

  /** d is c with other flags: the rest of the status register with the bank, the other registers and everything else
      are as before. */
  predicate OnlyFlags(c: Machine, d: Machine, f: Flags) {
    && FlagsOf(StatusOf(d)) == f && Bank(d) == Bank(c) && StatusOf(d) / 64 == StatusOf(c) / 64
    && d == c.(regs := d.regs) && d.regs == c.regs[SR := d.regs[SR]]
  }

  lemma SetFlags(c: Machine, f: Flags)
    requires AreFlags(f)
    ensures OnlyFlags(c, SetReg(c, SR, WithFlags(StatusOf(c), f)), f)
  {
    hide WithFlags, FlagsOf, SetLsb, Low;
    var r := WithFlags(StatusOf(c), f);
    WithFlagsReads(StatusOf(c), f);
    StatusOdd(c);
    StatusWritten(c, r);
  }

  lemma StatusOdd(c: Machine)
    ensures StatusOf(c) % 2 == 1
  {}

  /** An odd word written to the status register is read back as it is. */
  lemma StatusWritten(c: Machine, r: Word)
    requires r % 2 == 1
    ensures var d := SetReg(c, SR, r);
            StatusOf(d) == r && d == c.(regs := c.regs[SR := r]) && Bank(d) == r / 256
  {}

  lemma UpdateStatusFlags(c: Machine, destination: Long, source0: Long, source1: Long, keep: Keep, addSub: bool)
    ensures OnlyFlags(c, UpdateStatus(c, destination, source0, source1, keep, addSub),
                      NewFlags(FlagsOf(StatusOf(c)), destination, source0, source1, keep, addSub))
  {
    hide OnlyFlags, WithFlags, NewFlags;
    SetFlags(c, NewFlags(FlagsOf(StatusOf(c)), destination, source0, source1, keep, addSub));
  }

  /** Writing an ordinary register changes that register of the current bank and nothing else. */
  lemma SetRegReads(c: Machine, a: int, v: int, b: int)
    requires 0 <= a < 16 && 0 <= b < 16 && a != SR
    ensures var d := SetReg(c, a, v);
      && StatusOf(d) == StatusOf(c) && Bank(d) == Bank(c)
      && Reg(d, b) == (if a == b then Low(v) else Reg(c, b))
      && d == c.(regs := c.regs[Slot(c, a) := Low(v)])
  {}
}
