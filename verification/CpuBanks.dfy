/** Register banks and interrupts of the QNICE processor over whole runs. */
module CpuBanks {
  import opened Cpu

  // ----- banks -----

  /** The current bank is the same and R0-R7 of all other banks are unchanged. */
  predicate Quiet(c: Machine, d: Machine) {
    Bank(d) == Bank(c) && OtherBanksKept(c, d)
  }

  /** Register r of R0-R7 in bank b. */
  function Banked(c: Machine, b: int, r: int): Word
    requires 0 <= b < 256 && 0 <= r < 8
  {
    c.regs[16 * b + r]
  }

  predicate OtherBanksKept(c: Machine, d: Machine) {
    forall b, r :: 0 <= b < 256 && 0 <= r < 8 && b != Bank(c) ==> Banked(d, b, r) == Banked(c, b, r)
  }

  lemma QuietOn(c: Machine, d: Machine, e: Machine)
    requires Quiet(c, d) && Quiet(d, e)
    ensures Quiet(c, e)
  {
    hide Bank;
    forall b, r | 0 <= b < 256 && 0 <= r < 8 && b != Bank(c)
      ensures Banked(e, b, r) == Banked(c, b, r)
    {
      assert Banked(d, b, r) == Banked(c, b, r);
    }
  }

  /** A write to any register but SR stays within the current bank. */
  lemma SetRegQuiet(c: Machine, a: int, v: int)
    requires 0 <= a < 16 && a != SR
    ensures Quiet(c, SetReg(c, a, v))
  {
    SetRegReads(c, a, v, a);
  }

  lemma StoreQuiet(c: Machine, a: Word, v: Word)
    ensures Quiet(c, Store(c, a, v))
  {}

  lemma FlagsQuiet(c: Machine, d: Machine, f: Flags)
    requires OnlyFlags(c, d, f)
    ensures Quiet(c, d)
  {
    hide FlagsOf, StatusOf, Bank;
  }

  /** Operands whose evaluation or writing does not change SR itself. */
  predicate SourceQuiet(mode: int, a: int) {
    a != SR || mode == 0 || mode == 1
  }

  predicate TargetQuiet(mode: int, a: int) {
    a != SR || mode == 1
  }

  lemma ReadQuiet(c: Machine, io: Devices, mode: int, a: int, suppress: bool)
    requires 0 <= mode < 4 && 0 <= a < 16 && SourceQuiet(mode, a)
    ensures Quiet(c, ReadSource(c, io, mode, a, suppress).0)
  {
    hide Bank, SetReg, Quiet;
    SelfQuiet(c);
    if a != SR {
      SetRegQuiet(c, a, Reg(c, a) as int - 1);
      SetRegQuiet(c, a, Reg(c, a) + 1);
    }
  }

  lemma SelfQuiet(c: Machine)
    ensures Quiet(c, c)
  {}

  lemma WriteQuiet(c: Machine, mode: int, a: int, v: Long, suppress: bool)
    requires 0 <= mode < 4 && 0 <= a < 16 && TargetQuiet(mode, a)
    ensures Quiet(c, WriteDestination(c, mode, a, v, suppress))
  {
    hide Bank, SetReg, Quiet, Store, Low;
    SelfQuiet(c);
    if mode == 1 {
      StoreQuiet(c, Reg(c, a), Low(v));
    } else if mode == 0 {
      SetRegQuiet(c, a, v);
    } else if mode == 2 {
      var d := Store(c, Reg(c, a), Low(v));
      StoreQuiet(c, Reg(c, a), Low(v));
      SetRegQuiet(d, a, Reg(d, a) + 1);
      QuietOn(c, d, SetReg(d, a, Reg(d, a) + 1));
    } else {
      var d := if suppress then c else SetReg(c, a, Reg(c, a) as int - 1);
      SetRegQuiet(c, a, Reg(c, a) as int - 1);
      StoreQuiet(d, Reg(d, a), Low(v));
      QuietOn(c, d, Store(d, Reg(d, a), Low(v)));
    }
  }

  lemma UpdateQuiet(c: Machine, destination: Long, source0: Long, source1: Long, keep: Keep, addSub: bool)
    ensures Quiet(c, UpdateStatus(c, destination, source0, source1, keep, addSub))
  {
    hide UpdateStatus, NewFlags, FlagsOf, Quiet;
    UpdateStatusFlags(c, destination, source0, source1, keep, addSub);
    FlagsQuiet(c, UpdateStatus(c, destination, source0, source1, keep, addSub),
               NewFlags(FlagsOf(StatusOf(c)), destination, source0, source1, keep, addSub));
  }

  predicate OperandsQuiet(i: Instruction) {
    Fields(i) && SourceQuiet(i.sm, i.sa) && TargetQuiet(i.dm, i.da)
  }

  lemma MovingQuiet(c: Machine, io: Devices, i: Instruction)
    requires OperandsQuiet(i)
    ensures Quiet(c, Moving(c, io, i))
  {
    hide Quiet, ReadSource, WriteDestination, UpdateStatus;
    var (c1, source0) := ReadSource(c, io, i.sm, i.sa, false);
    var destination: Word := if i.op == 0 then source0
                             else if i.op == 7 then source0 / 256 + source0 % 256 * 256
                             else 0xffff - source0;
    ReadQuiet(c, io, i.sm, i.sa, false);
    var c2 := UpdateStatus(c1, destination, source0, source0, KEEP_CV, false);
    UpdateQuiet(c1, destination, source0, source0, KEEP_CV, false);
    WriteQuiet(c2, i.dm, i.da, destination, false);
    QuietOn(c, c1, c2);
    QuietOn(c, c2, Moving(c, io, i));
  }

  lemma ArithmeticQuiet(c: Machine, io: Devices, i: Instruction)
    requires OperandsQuiet(i)
    ensures Quiet(c, Arithmetic(c, io, i))
  {
    hide Quiet, ReadSource, WriteDestination, UpdateStatus, Combine;
    var (c1, source1) := ReadSource(c, io, i.sm, i.sa, false);
    ReadQuiet(c, io, i.sm, i.sa, false);
    var (c2, source0) := ReadSource(c1, io, i.dm, i.da, true);
    ReadQuiet(c1, io, i.dm, i.da, true);
    var destination := Combine(i.op, source0, source1, StatusOf(c2) / 4 % 2);
    var c3 := UpdateStatus(c2, destination, source0, source1, if i.op < 9 then MODIFY_ALL else KEEP_CV, i.op < 9);
    UpdateQuiet(c2, destination, source0, source1, if i.op < 9 then MODIFY_ALL else KEEP_CV, i.op < 9);
    WriteQuiet(c3, i.dm, i.da, destination, true);
    QuietOn(c, c1, c2);
    QuietOn(c, c2, c3);
    QuietOn(c, c3, Arithmetic(c, io, i));
  }

  lemma ShiftingQuiet(c: Machine, io: Devices, i: Instruction)
    requires OperandsQuiet(i)
    ensures Quiet(c, Shifting(c, io, i))
  {
    hide Quiet, ReadSource, WriteDestination, UpdateStatus, Shifted, ShiftFlags, FlagsOf, WithFlags, SetReg, OnlyFlags;
    var (c1, n) := ReadSource(c, io, i.sm, i.sa, false);
    ReadQuiet(c, io, i.sm, i.sa, false);
    var (c2, d) := ReadSource(c1, io, i.dm, i.da, true);
    ReadQuiet(c1, io, i.dm, i.da, true);
    QuietOn(c, c1, c2);
    var f := FlagsOf(StatusOf(c2));
    var (e, bit) := Shifted(i.op, d, f, n);
    var c3 := c2;
    if n > 0 {
      var f' := ShiftFlags(i.op, f, bit);
      assert AreFlags(f') by { ShiftFlagsAre(i.op, f, bit); }
      var c' := SetReg(c2, SR, WithFlags(StatusOf(c2), f'));
      SetFlags(c2, f');
      FlagsQuiet(c2, c', f');
      c3 := WriteDestination(c', i.dm, i.da, e, false);
      WriteQuiet(c', i.dm, i.da, e, false);
      QuietOn(c, c2, c');
      QuietOn(c, c', c3);
    }
    UpdateQuiet(c3, e, n, 0, KEEP_CXV, false);
    QuietOn(c, c3, UpdateStatus(c3, e, n, 0, KEEP_CXV, false));
  }

  lemma ShiftFlagsAre(op: int, f: Flags, bit: int)
    requires AreFlags(f) && 0 <= bit < 2
    ensures AreFlags(ShiftFlags(op, f, bit))
  {}

  lemma ComparingQuiet(c: Machine, io: Devices, i: Instruction)
    requires Fields(i) && SourceQuiet(i.sm, i.sa) && SourceQuiet(i.dm, i.da)
    ensures Quiet(c, Comparing(c, io, i))
  {
    hide Quiet, ReadSource, FlagsOf, WithFlags, SetReg, OnlyFlags, Signed;
    var (c1, source0) := ReadSource(c, io, i.sm, i.sa, false);
    ReadQuiet(c, io, i.sm, i.sa, false);
    var (c2, source1) := ReadSource(c1, io, i.dm, i.da, false);
    ReadQuiet(c1, io, i.dm, i.da, false);
    var f := FlagsOf(StatusOf(c2));
    var f' := Flags(f.x, f.c, Ones(source0 == source1), Ones(source0 > source1), Ones(Signed(source0) > Signed(source1)));
    SetFlags(c2, f');
    FlagsQuiet(c2, SetReg(c2, SR, WithFlags(StatusOf(c2), f')), f');
    QuietOn(c, c1, c2);
    QuietOn(c, c2, Comparing(c, io, i));
  }

  lemma PushQuiet(c: Machine, v: Word)
    ensures Quiet(c, Push(c, v))
  {
    hide Quiet, SetReg, Store;
    var d := SetReg(c, SP, Reg(c, SP) as int - 1);
    SetRegQuiet(c, SP, Reg(c, SP) as int - 1);
    StoreQuiet(d, Reg(d, SP), v);
    QuietOn(c, d, Push(c, v));
  }

  lemma BranchingQuiet(c: Machine, io: Devices, w: Word)
    requires SourceQuiet(Decode(w).sm, Decode(w).sa)
    ensures Quiet(c, Branching(c, io, w))
  {
    hide Quiet, ReadSource, SetReg, Push, Condition;
    var i := Decode(w);
    var (c1, destination) := ReadSource(c, io, i.sm, i.sa, false);
    ReadQuiet(c, io, i.sm, i.sa, false);
    if Condition(c1, w) {
      var kind := w / 16 % 4;
      var c2 := if kind % 2 == 1 then Push(c1, Reg(c1, PC)) else c1;
      PushQuiet(c1, Reg(c1, PC));
      SelfQuiet(c1);
      var to: int := if kind < 2 then destination else Reg(c2, PC) + destination;
      SetRegQuiet(c2, PC, to);
      QuietOn(c, c1, c2);
      QuietOn(c, c2, SetReg(c2, PC, to));
    }
  }

  predicate IsControl(w: Word, command: int) {
    w / 4096 == 14 && w / 64 % 64 == command
  }

  /** Instructions that cannot change the bank. */
  predicate KeepsBank(w: Word) {
    var i := Decode(w);
    if i.op < 12 then OperandsQuiet(i)
    else if i.op == 12 then SourceQuiet(i.sm, i.sa) && SourceQuiet(i.dm, i.da)
    else if i.op == 13 then true
    else if i.op == 14 then
      !IsControl(w, 1) && !IsControl(w, 3) && !IsControl(w, 4) && (IsControl(w, 2) ==> TargetQuiet(i.dm, i.da))
    else SourceQuiet(i.sm, i.sa)
  }

  lemma ControlQuiet(c: Machine, io: Devices, w: Word)
    requires IsControl(w, w / 64 % 64) && KeepsBank(w)
    ensures Quiet(c, Control(c, io, w).0)
  {
    hide Quiet, ReadSource, WriteDestination, SetReg, Bank;
    SelfQuiet(c);
    if w / 64 % 64 == 2 && !c.intActive {
      var i := Decode(w);
      var (c1, a) := ReadSource(c, io, i.dm, i.da, true);
      ReadQuiet(c, io, i.dm, i.da, true);
      var c2 := c1.(intAddress := a);
      assert Quiet(c1, c2) by { SameRegistersQuiet(c1, c2); }
      var c3 := WriteDestination(c2, i.dm, i.da, a, true);
      WriteQuiet(c2, i.dm, i.da, a, true);
      var c4 := c3.(intRequest := true);
      assert Quiet(c3, c4) by { SameRegistersQuiet(c3, c4); }
      QuietOn(c, c1, c2);
      QuietOn(c, c2, c3);
      QuietOn(c, c3, c4);
    }
  }

  lemma SameRegistersQuiet(c: Machine, d: Machine)
    requires c.regs == d.regs
    ensures Quiet(c, d)
  {}

  lemma PerformQuiet(c: Machine, io: Devices, w: Word)
    requires KeepsBank(w)
    ensures Quiet(c, Perform(c, io, w).0)
  {
    hide Quiet, Moving, Shifting, Arithmetic, Comparing, Control, Branching, OperandsQuiet, SourceQuiet, TargetQuiet, IsControl;
    var i := Decode(w);
    SelfQuiet(c);
    if i.op == 0 || i.op == 7 || i.op == 8 { MovingQuiet(c, io, i); }
    else if i.op == 5 || i.op == 6 { ShiftingQuiet(c, io, i); }
    else if i.op < 12 { ArithmeticQuiet(c, io, i); }
    else if i.op == 12 { ComparingQuiet(c, io, i); }
    else if i.op == 14 { assert IsControl(w, w / 64 % 64) by { ControlIs(w); } ControlQuiet(c, io, w); }
    else if i.op == 15 { BranchingQuiet(c, io, w); }
  }

  lemma ControlIs(w: Word)
    requires w / 4096 == 14
    ensures IsControl(w, w / 64 % 64)
  {}

  /** The instruction that Step executes. */
  function Fetched(c: Machine, io: Devices): Word {
    var c1 := Interrupt(c);
    Load(c1, io, Reg(c1, PC))
  }

  /** The state in which the fetched instruction is performed. */
  function AfterFetch(c: Machine): Machine {
    var c1 := Interrupt(c);
    SetReg(c1, PC, Reg(c1, PC) + 1)
  }

  lemma FetchQuiet(c: Machine)
    ensures Quiet(c, AfterFetch(c))
  {
    hide Quiet, SetReg;
    var c1 := Interrupt(c);
    SelfQuiet(c);
    if c.intRequest && !c.intActive {
      var c0 := c.(intActive := true, intRequest := false, int14 := StatusOf(c), int15 := Reg(c, PC));
      SameRegistersQuiet(c, c0);
      SetRegQuiet(c0, PC, c.intAddress);
      QuietOn(c, c0, c1);
    }
    SetRegQuiet(c1, PC, Reg(c1, PC) + 1);
    QuietOn(c, c1, AfterFetch(c));
  }

  lemma StepIs(c: Machine, io: Devices)
    ensures Step(c, io) == Perform(AfterFetch(c), io, Fetched(c, io))
  {
    hide Perform;
  }

  /** An instruction that by its word cannot change the bank keeps it and leaves R0-R7 of every other bank alone. */
  lemma StepQuiet(c: Machine, io: Devices)
    requires KeepsBank(Fetched(c, io))
    ensures Quiet(c, Step(c, io).0)
  {
    hide Quiet, Perform, AfterFetch, Fetched, KeepsBank;
    StepIs(c, io);
    FetchQuiet(c);
    PerformQuiet(AfterFetch(c), io, Fetched(c, io));
    QuietOn(c, AfterFetch(c), Step(c, io).0);
  }

  // ----- instructions that may change the bank -----

  /** R0-R7 of all banks are unchanged. */
  predicate Frozen(c: Machine, d: Machine) {
    forall b, r :: 0 <= b < 256 && 0 <= r < 8 ==> Banked(d, b, r) == Banked(c, b, r)
  }

  /** R0-R7 of all banks but the one before and the one afterwards are unchanged. */
  predicate Around(c: Machine, d: Machine) {
    forall b, r :: 0 <= b < 256 && 0 <= r < 8 && b != Bank(c) && b != Bank(d) ==> Banked(d, b, r) == Banked(c, b, r)
  }

  /** A part of an instruction: it stays within its bank, or does not touch R0-R7 at all. */
  predicate Stage(c: Machine, d: Machine) {
    Quiet(c, d) || Frozen(c, d)
  }

  lemma FrozenOn(c: Machine, d: Machine, e: Machine)
    requires Frozen(c, d) && Frozen(d, e)
    ensures Frozen(c, e)
  {
    forall b, r | 0 <= b < 256 && 0 <= r < 8
      ensures Banked(e, b, r) == Banked(c, b, r)
    {
      assert Banked(d, b, r) == Banked(c, b, r);
    }
  }

  lemma TwoStages(c: Machine, d: Machine, e: Machine)
    requires Stage(c, d) && Stage(d, e)
    ensures Around(c, e)
  {
    hide Bank;
    forall b, r | 0 <= b < 256 && 0 <= r < 8 && b != Bank(c) && b != Bank(e)
      ensures Banked(e, b, r) == Banked(c, b, r)
    {
      assert Banked(d, b, r) == Banked(c, b, r);
    }
  }

  lemma OneStage(c: Machine, d: Machine)
    requires Stage(c, d)
    ensures Around(c, d)
  {
    hide Quiet, Frozen, Around;
    SelfQuiet(c);
    TwoStages(c, c, d);
  }

  /** Registers from R8 on are not banked. */
  lemma SetRegFrozen(c: Machine, a: int, v: int)
    requires 8 <= a < 16
    ensures Frozen(c, SetReg(c, a, v))
  {
    hide Bank, SetLsb;
    forall b, r | 0 <= b < 256 && 0 <= r < 8
      ensures Banked(SetReg(c, a, v), b, r) == Banked(c, b, r)
    {
      assert 16 * b + r != a;
    }
  }

  lemma SameRegistersFrozen(c: Machine, d: Machine)
    requires c.regs == d.regs
    ensures Frozen(c, d)
  {}

  lemma FlagsFrozen(c: Machine, d: Machine, f: Flags)
    requires OnlyFlags(c, d, f)
    ensures Frozen(c, d)
  {
    hide FlagsOf, StatusOf, Bank;
    forall b, r | 0 <= b < 256 && 0 <= r < 8
      ensures Banked(d, b, r) == Banked(c, b, r)
    {
      assert 16 * b + r != SR;
    }
  }

  lemma ReadStage(c: Machine, io: Devices, mode: int, a: int, suppress: bool)
    requires 0 <= mode < 4 && 0 <= a < 16
    ensures a == SR ==> Frozen(c, ReadSource(c, io, mode, a, suppress).0)
    ensures a != SR ==> Quiet(c, ReadSource(c, io, mode, a, suppress).0)
    ensures Stage(c, ReadSource(c, io, mode, a, suppress).0)
  {
    hide Bank, SetReg, Quiet, Frozen;
    if a != SR {
      ReadQuiet(c, io, mode, a, suppress);
    } else {
      SameRegistersFrozen(c, c);
      SetRegFrozen(c, a, Reg(c, a) as int - 1);
      SetRegFrozen(c, a, Reg(c, a) + 1);
    }
  }

  lemma WriteFrozen(c: Machine, mode: int, v: Long, suppress: bool)
    requires 0 <= mode < 4
    ensures Frozen(c, WriteDestination(c, mode, SR, v, suppress))
  {
    hide Bank, SetReg, Frozen, Store, Low;
    SameRegistersFrozen(c, c);
    StoreFrozen(c, Reg(c, SR), Low(v));
    if mode == 0 {
      SetRegFrozen(c, SR, v);
    } else if mode == 2 {
      var d := Store(c, Reg(c, SR), Low(v));
      SetRegFrozen(d, SR, Reg(d, SR) + 1);
      FrozenOn(c, d, SetReg(d, SR, Reg(d, SR) + 1));
    } else if mode == 3 {
      var d := if suppress then c else SetReg(c, SR, Reg(c, SR) as int - 1);
      SetRegFrozen(c, SR, Reg(c, SR) as int - 1);
      StoreFrozen(d, Reg(d, SR), Low(v));
      FrozenOn(c, d, Store(d, Reg(d, SR), Low(v)));
    }
  }

  lemma StoreFrozen(c: Machine, a: Word, v: Word)
    ensures Frozen(c, Store(c, a, v))
  {}

  lemma UpdateFrozen(c: Machine, destination: Long, source0: Long, source1: Long, keep: Keep, addSub: bool)
    ensures Frozen(c, UpdateStatus(c, destination, source0, source1, keep, addSub))
  {
    hide UpdateStatus, NewFlags, FlagsOf, Frozen;
    UpdateStatusFlags(c, destination, source0, source1, keep, addSub);
    FlagsFrozen(c, UpdateStatus(c, destination, source0, source1, keep, addSub),
                NewFlags(FlagsOf(StatusOf(c)), destination, source0, source1, keep, addSub));
  }

  /** A new status register value and a result, in either bank of the target. */
  lemma ResultStage(c: Machine, c1: Machine, c2: Machine, mode: int, a: int, v: Long, suppress: bool)
    requires 0 <= mode < 4 && 0 <= a < 16
    requires if a == SR then Frozen(c, c1) else Quiet(c, c1)
    requires Quiet(c1, c2) && Frozen(c1, c2)
    ensures var d := WriteDestination(c2, mode, a, v, suppress);
            if a == SR then Frozen(c, d) else Quiet(c, d)
  {
    hide Quiet, Frozen, WriteDestination;
    var d := WriteDestination(c2, mode, a, v, suppress);
    if a == SR {
      WriteFrozen(c2, mode, v, suppress);
      FrozenOn(c, c1, c2);
      FrozenOn(c, c2, d);
    } else {
      WriteQuiet(c2, mode, a, v, suppress);
      QuietOn(c, c1, c2);
      QuietOn(c, c2, d);
    }
  }

  lemma MovingAround(c: Machine, io: Devices, i: Instruction)
    requires Fields(i)
    ensures Around(c, Moving(c, io, i))
  {
    hide Quiet, Frozen, Around, ReadSource, WriteDestination, UpdateStatus;
    var (c1, source0) := ReadSource(c, io, i.sm, i.sa, false);
    var destination: Word := if i.op == 0 then source0
                             else if i.op == 7 then source0 / 256 + source0 % 256 * 256
                             else 0xffff - source0;
    ReadStage(c, io, i.sm, i.sa, false);
    var c2 := UpdateStatus(c1, destination, source0, source0, KEEP_CV, false);
    UpdateQuiet(c1, destination, source0, source0, KEEP_CV, false);
    UpdateFrozen(c1, destination, source0, source0, KEEP_CV, false);
    SelfQuiet(c1);
    SameRegistersFrozen(c1, c1);
    ResultStage(c1, c1, c2, i.dm, i.da, destination, false);
    TwoStages(c, c1, Moving(c, io, i));
  }

  lemma ArithmeticAround(c: Machine, io: Devices, i: Instruction)
    requires Fields(i)
    ensures Around(c, Arithmetic(c, io, i))
  {
    hide Quiet, Frozen, Around, ReadSource, WriteDestination, UpdateStatus, Combine;
    var (c1, source1) := ReadSource(c, io, i.sm, i.sa, false);
    ReadStage(c, io, i.sm, i.sa, false);
    var (c2, source0) := ReadSource(c1, io, i.dm, i.da, true);
    ReadStage(c1, io, i.dm, i.da, true);
    var destination := Combine(i.op, source0, source1, StatusOf(c2) / 4 % 2);
    var keep := if i.op < 9 then MODIFY_ALL else KEEP_CV;
    var c3 := UpdateStatus(c2, destination, source0, source1, keep, i.op < 9);
    UpdateQuiet(c2, destination, source0, source1, keep, i.op < 9);
    UpdateFrozen(c2, destination, source0, source1, keep, i.op < 9);
    ResultStage(c1, c2, c3, i.dm, i.da, destination, true);
    TwoStages(c, c1, Arithmetic(c, io, i));
  }

  lemma ShiftingAround(c: Machine, io: Devices, i: Instruction)
    requires Fields(i)
    ensures Around(c, Shifting(c, io, i))
  {
    hide Quiet, Frozen, Around, ReadSource, WriteDestination, UpdateStatus, Shifted, ShiftFlags, FlagsOf, WithFlags, SetReg, OnlyFlags;
    var (c1, n) := ReadSource(c, io, i.sm, i.sa, false);
    ReadStage(c, io, i.sm, i.sa, false);
    var (c2, d) := ReadSource(c1, io, i.dm, i.da, true);
    ReadStage(c1, io, i.dm, i.da, true);
    var f := FlagsOf(StatusOf(c2));
    var (e, bit) := Shifted(i.op, d, f, n);
    var c3 := c2;
    if n > 0 {
      var f' := ShiftFlags(i.op, f, bit);
      assert AreFlags(f') by { ShiftFlagsAre(i.op, f, bit); }
      var c' := SetReg(c2, SR, WithFlags(StatusOf(c2), f'));
      SetFlags(c2, f');
      FlagsQuiet(c2, c', f');
      FlagsFrozen(c2, c', f');
      c3 := WriteDestination(c', i.dm, i.da, e, false);
      ResultStage(c1, c2, c', i.dm, i.da, e, false);
    }
    var c4 := UpdateStatus(c3, e, n, 0, KEEP_CXV, false);
    UpdateQuiet(c3, e, n, 0, KEEP_CXV, false);
    UpdateFrozen(c3, e, n, 0, KEEP_CXV, false);
    if i.da == SR { FrozenOn(c1, c3, c4); } else { QuietOn(c1, c3, c4); }
    TwoStages(c, c1, Shifting(c, io, i));
  }

  lemma ComparingAround(c: Machine, io: Devices, i: Instruction)
    requires Fields(i)
    ensures Around(c, Comparing(c, io, i))
  {
    hide Quiet, Frozen, Around, ReadSource, FlagsOf, WithFlags, SetReg, OnlyFlags, Signed;
    var (c1, source0) := ReadSource(c, io, i.sm, i.sa, false);
    ReadStage(c, io, i.sm, i.sa, false);
    var (c2, source1) := ReadSource(c1, io, i.dm, i.da, false);
    ReadStage(c1, io, i.dm, i.da, false);
    var f := FlagsOf(StatusOf(c2));
    var f' := Flags(f.x, f.c, Ones(source0 == source1), Ones(source0 > source1), Ones(Signed(source0) > Signed(source1)));
    var c3 := SetReg(c2, SR, WithFlags(StatusOf(c2), f'));
    SetFlags(c2, f');
    FlagsQuiet(c2, c3, f');
    FlagsFrozen(c2, c3, f');
    if i.da == SR { FrozenOn(c1, c2, c3); } else { QuietOn(c1, c2, c3); }
    TwoStages(c, c1, Comparing(c, io, i));
  }

  lemma BranchingAround(c: Machine, io: Devices, w: Word)
    ensures Around(c, Branching(c, io, w))
  {
    hide Quiet, Frozen, Around, ReadSource, SetReg, Push, Condition;
    var i := Decode(w);
    var (c1, destination) := ReadSource(c, io, i.sm, i.sa, false);
    ReadStage(c, io, i.sm, i.sa, false);
    SelfQuiet(c1);
    if Condition(c1, w) {
      var kind := w / 16 % 4;
      var c2 := if kind % 2 == 1 then Push(c1, Reg(c1, PC)) else c1;
      PushQuiet(c1, Reg(c1, PC));
      var to: int := if kind < 2 then destination else Reg(c2, PC) + destination;
      SetRegQuiet(c2, PC, to);
      QuietOn(c1, c2, SetReg(c2, PC, to));
    }
    TwoStages(c, c1, Branching(c, io, w));
  }

  lemma ControlAround(c: Machine, io: Devices, w: Word)
    ensures Around(c, Control(c, io, w).0)
  {
    hide Quiet, Frozen, Around, ReadSource, WriteDestination, SetReg, Bank;
    SameRegistersFrozen(c, c);
    var command := w / 64 % 64;
    if command == 1 && c.intActive {
      var c0 := c.(intActive := false);
      SameRegistersFrozen(c, c0);
      SetRegFrozen(c0, SR, c.int14);
      var c1 := SetReg(c0, SR, c.int14);
      SetRegFrozen(c1, PC, c.int15);
      FrozenOn(c, c0, c1);
      FrozenOn(c, c1, SetReg(c1, PC, c.int15));
    } else if command == 2 && !c.intActive {
      var i := Decode(w);
      var (c1, a) := ReadSource(c, io, i.dm, i.da, true);
      ReadStage(c, io, i.dm, i.da, true);
      var c2 := c1.(intAddress := a);
      SameRegistersQuiet(c1, c2);
      SameRegistersFrozen(c1, c2);
      var c3 := WriteDestination(c2, i.dm, i.da, a, true);
      ResultStage(c, c1, c2, i.dm, i.da, a, true);
      var c4 := c3.(intRequest := true);
      SameRegistersQuiet(c3, c4);
      SameRegistersFrozen(c3, c4);
      if i.da == SR { FrozenOn(c, c3, c4); } else { QuietOn(c, c3, c4); }
    } else if command == 3 {
      SetRegFrozen(c, SR, WithBank(StatusOf(c), (Bank(c) + 1) % 256));
    } else if command == 4 {
      SetRegFrozen(c, SR, WithBank(StatusOf(c), (Bank(c) + 255) % 256));
    }
    OneStage(c, Control(c, io, w).0);
  }

  lemma PerformAround(c: Machine, io: Devices, w: Word)
    ensures Around(c, Perform(c, io, w).0)
  {
    hide Around, Moving, Shifting, Arithmetic, Comparing, Control, Branching;
    var i := Decode(w);
    assert Around(c, c) by { SelfQuiet(c); OneStage(c, c); }
    MovingAround(c, io, i);
    ShiftingAround(c, io, i);
    ArithmeticAround(c, io, i);
    ComparingAround(c, io, i);
    ControlAround(c, io, w);
    BranchingAround(c, io, w);
  }

  /** Whatever the instruction, also one that writes or steps SR, and whether or not an interrupt is taken up:
      R0-R7 of every bank but the one before and the one after the step are unchanged. */
  lemma StepAround(c: Machine, io: Devices)
    ensures Around(c, Step(c, io).0)
  {
    hide Perform, AfterFetch, Fetched, Bank;
    StepIs(c, io);
    FetchKeeps(c);
    var c1, d := AfterFetch(c), Step(c, io).0;
    PerformAround(c1, io, Fetched(c, io));
    forall b, r | 0 <= b < 256 && 0 <= r < 8 && b != Bank(c) && b != Bank(d)
      ensures Banked(d, b, r) == Banked(c, b, r)
    {
      assert Banked(c1, b, r) == Banked(c, b, r);
    }
  }

  /** In every run, R0-R7 of a bank are unchanged as long as that bank is not the current one. */
  lemma {:induction false} RunAround(c: Machine, io: nat -> Devices, n: nat, b: int, r: int)
    requires 0 <= b < 256 && 0 <= r < 8
    requires forall k: nat :: k <= n ==> Bank(Run(c, io, k).0) != b
    ensures Banked(Run(c, io, n).0, b, r) == Banked(c, b, r)
  {
    hide Step, Bank, Banked;
    if n > 0 {
      RunAround(c, io, n - 1, b, r);
      var (d, stopped) := Run(c, io, n - 1);
      if !stopped {
        StepAround(d, io(n - 1));
        assert Bank(d) != b && Bank(Run(c, io, n).0) != b;
      }
    }
  }

  // ----- nested banks -----

  function Nesting(w: Word): int {
    if IsControl(w, 3) then 1 else if IsControl(w, 4) then -1 else 0
  }

  lemma ControlNests(c: Machine, io: Devices, w: Word)
    requires IsControl(w, 3) || IsControl(w, 4)
    ensures var (d, stopped) := Control(c, io, w);
            !stopped && Bank(d) == (Bank(c) + Nesting(w)) % 256 && d == c.(regs := c.regs[SR := d.regs[SR]])
  {
    hide SetReg, Bank, StatusOf, WithBank;
    PreviousBank(Bank(c));
    BankWritten(c, (Bank(c) + 1) % 256);
    BankWritten(c, (Bank(c) + 255) % 256);
  }

  lemma PreviousBank(b: int)
    ensures (b + 255) % 256 == (b - 1) % 256
  {}

  lemma IsControlOp(w: Word, command: int)
    requires IsControl(w, command)
    ensures w / 4096 == 14
  {}

  /** INCRB and DECRB go to the next and the previous bank and write no register but SR. */
  lemma NestingStep(c: Machine, io: Devices)
    requires Nesting(Fetched(c, io)) != 0
    ensures var d := Step(c, io).0;
            !Step(c, io).1 && Bank(d) == (Bank(c) + Nesting(Fetched(c, io))) % 256
            && forall b, r :: 0 <= b < 256 && 0 <= r < 8 ==> Banked(d, b, r) == Banked(c, b, r)
  {
    hide Fetched, Control, AfterFetch, Bank, Perform, Step, IsControl;
    StepIs(c, io);
    FetchKeeps(c);
    var c1, w := AfterFetch(c), Fetched(c, io);
    IsControlOp(w, if IsControl(w, 3) then 3 else 4);
    ControlNests(c1, io, w);
    ControlPerformed(c1, io, w);
  }

  lemma ControlPerformed(c: Machine, io: Devices, w: Word)
    requires w / 4096 == 14
    ensures Perform(c, io, w) == Control(c, io, w)
  {
    hide Control;
  }

  lemma BankWritten(c: Machine, bank: int)
    requires 0 <= bank < 256
    ensures var d := SetReg(c, SR, WithBank(StatusOf(c), bank));
            Bank(d) == bank && d == c.(regs := c.regs[SR := d.regs[SR]])
  {
    hide SetLsb;
    StatusOdd(c);
    var r := WithBank(StatusOf(c), bank);
    WithBankOdd(StatusOf(c), bank);
    StatusWritten(c, r);
  }

  lemma WithBankOdd(v: Word, bank: int)
    requires 0 <= bank < 256 && v % 2 == 1
    ensures WithBank(v, bank) % 2 == 1 && WithBank(v, bank) / 256 == bank
  {}

  /** Fetching writes PC only. */
  lemma FetchKeeps(c: Machine)
    ensures Bank(AfterFetch(c)) == Bank(c)
    ensures forall k :: 0 <= k < REGMEM_SIZE && k != PC ==> AfterFetch(c).regs[k] == c.regs[k]
    ensures !c.intRequest || c.intActive ==>
              AfterFetch(c) == c.(regs := AfterFetch(c).regs)
  {
    hide SetLsb;
  }

  lemma Returned(c: Machine)
    ensures var d := SetReg(SetReg(c.(intActive := false), SR, c.int14), PC, c.int15);
            StatusOf(d) == SetLsb(c.int14) && Reg(d, PC) == c.int15
            && d == c.(intActive := false, regs := c.regs[SR := d.regs[SR]][PC := d.regs[PC]])
  {
    SetLsbTwice(c.int14);
    hide SetLsb;
  }

  lemma SetLsbTwice(v: Word)
    ensures SetLsb(SetLsb(v)) == SetLsb(v) && Low(v) == v
  {}

  /** RTI ends the service: SR and PC are as they were saved, a request made meanwhile is still there. */
  lemma ReturnStep(c: Machine, io: Devices)
    requires c.intActive && IsControl(Fetched(c, io), 1)
    ensures var d := Step(c, io).0;
      && !Step(c, io).1 && StatusOf(d) == SetLsb(c.int14) && Reg(d, PC) == c.int15
      && d == c.(intActive := false, regs := c.regs[SR := d.regs[SR]][PC := d.regs[PC]])
  {
    hide Fetched, SetReg, Perform, AfterFetch, Step, StatusOf, SetLsb;
    StepIs(c, io);
    FetchKeeps(c);
    var c1, w := AfterFetch(c), Fetched(c, io);
    IsControlOp(w, 1);
    ControlPerformed(c1, io, w);
    Returned(c1);
    RegsButPC(c.regs, c1.regs, Step(c, io).0.regs);
  }

  lemma RegsButPC(r: seq<Word>, s: seq<Word>, t: seq<Word>)
    requires |r| == |s| == REGMEM_SIZE && forall k :: 0 <= k < REGMEM_SIZE && k != PC ==> s[k] == r[k]
    requires |t| == |s| && t == s[SR := t[SR]][PC := t[PC]]
    ensures t == r[SR := t[SR]][PC := t[PC]]
  {}

  /** INCRBs minus DECRBs among the first n instructions. */
  function Depth(c: Machine, io: nat -> Devices, n: nat): int {
    if n == 0 then 0 else Depth(c, io, n - 1) + Nesting(Fetched(Run(c, io, n - 1).0, io(n - 1)))
  }

  /** n instructions of which the first is INCRB and the last returns to its level, with fewer than 256 levels
      between them; every other instruction, also one that writes SR, an interrupt taken up or RTI, leaves the bank as
      it finds it. */
  ghost predicate Balanced(c: Machine, io: nat -> Devices, n: nat) {
    && n > 1 && Depth(c, io, n) == 0 && !Run(c, io, n).1
    && (forall k: nat :: 0 < k < n ==> 0 < Depth(c, io, k) < 256)
    && (forall k: nat :: k < n ==>
          var d := Run(c, io, k).0;
          Nesting(Fetched(d, io(k))) != 0 || Bank(Step(d, io(k)).0) == Bank(d))
  }

  lemma {:induction false} StoppedBefore(c: Machine, io: nat -> Devices, k: nat, n: nat)
    requires k <= n && !Run(c, io, n).1
    ensures !Run(c, io, k).1
    decreases n - k
  {
    hide Step;
    if k < n { StoppedBefore(c, io, k + 1, n); }
  }

  predicate LevelKept(c: Machine, d: Machine, depth: int) {
    Bank(d) == (Bank(c) + depth) % 256 && forall r :: 0 <= r < 8 ==> Banked(d, Bank(c), r) == Banked(c, Bank(c), r)
  }

  lemma OtherLevel(bank: int, depth: int)
    requires 0 <= bank < 256 && 0 < depth < 256
    ensures (bank + depth) % 256 != bank
  {}

  lemma LevelStep(c: Machine, d: Machine, io: Devices, depth: int)
    requires LevelKept(c, d, depth) && 0 <= depth < 256
    requires var w := Fetched(d, io);
             (Nesting(w) != 0 || Bank(Step(d, io).0) == Bank(d)) && (depth == 0 ==> Nesting(w) != 0)
    ensures LevelKept(c, Step(d, io).0, depth + Nesting(Fetched(d, io)))
  {
    hide Step, Fetched, Bank, IsControl;
    if Nesting(Fetched(d, io)) != 0 {
      NestingStep(d, io);
    } else {
      OtherLevel(Bank(c), depth);
      StepAround(d, io);
    }
  }

  lemma SameLevel(c: Machine)
    ensures LevelKept(c, c, 0)
  {}

  lemma RunNext(c: Machine, io: nat -> Devices, k: nat)
    requires !Run(c, io, k).1
    ensures Run(c, io, k + 1) == Step(Run(c, io, k).0, io(k))
    ensures Depth(c, io, k + 1) == Depth(c, io, k) + Nesting(Fetched(Run(c, io, k).0, io(k)))
    ensures Run(c, io, 0) == (c, false) && Depth(c, io, 0) == 0
  {
    hide Step, Fetched, Nesting;
  }

  /** What being balanced says about instruction k. */
  lemma BalancedAt(c: Machine, io: nat -> Devices, n: nat, k: nat)
    requires Balanced(c, io, n) && k < n
    ensures var d := Run(c, io, k).0;
            var w := Fetched(d, io(k));
            && !Run(c, io, k).1 && 0 <= Depth(c, io, k) < 256 && (Depth(c, io, k) == 0 ==> Nesting(w) != 0)
            && (Nesting(w) != 0 || Bank(Step(d, io(k)).0) == Bank(d))
  {
    hide Run, Step, Fetched, Bank, Nesting, Depth;
    StoppedBefore(c, io, k, n);
    RunNext(c, io, k);
    if k == 0 { assert Depth(c, io, 1) != 0; }
  }

  lemma {:induction false} BalancedLevels(c: Machine, io: nat -> Devices, n: nat, k: nat)
    requires Balanced(c, io, n) && k <= n
    ensures LevelKept(c, Run(c, io, k).0, Depth(c, io, k))
  {
    hide Run, Step, Fetched, Bank, Nesting, LevelKept, Depth, Balanced;
    if k == 0 {
      SameLevel(c);
      RunStart(c, io);
    } else {
      BalancedLevels(c, io, n, k - 1);
      BalancedAt(c, io, n, k - 1);
      RunNext(c, io, k - 1);
      LevelStep(c, Run(c, io, k - 1).0, io(k - 1), Depth(c, io, k - 1));
    }
  }

  lemma RunStart(c: Machine, io: nat -> Devices)
    ensures Run(c, io, 0) == (c, false) && Depth(c, io, 0) == 0
  {}

  /** A balanced INCRB .. DECRB segment ends in the bank it began in, with R0-R7 as they were. */
  lemma BalancedRestores(c: Machine, io: nat -> Devices, n: nat)
    requires Balanced(c, io, n)
    ensures var d := Run(c, io, n).0;
            Bank(d) == Bank(c) && forall r :: 0 <= r < 8 ==> Reg(d, r) == Reg(c, r)
  {
    hide Run, Depth;
    BalancedLevels(c, io, n, n);
    LevelZero(c, Run(c, io, n).0);
  }

  lemma LevelZero(c: Machine, d: Machine)
    requires LevelKept(c, d, 0)
    ensures Bank(d) == Bank(c) && forall r :: 0 <= r < 8 ==> Reg(d, r) == Reg(c, r)
  {
    hide StatusOf;
    forall r | 0 <= r < 8
      ensures Reg(d, r) == Reg(c, r)
    {
      assert Banked(d, Bank(c), r) == Banked(c, Bank(c), r);
    }
  }
}
