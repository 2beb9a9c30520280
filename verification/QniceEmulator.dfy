/** qnice.c's global machine and the procedures that change it, each proved to do what the functions of Cpu say. */
module QniceEmulator {
  import C = Cpu

  class Emulator {
    const registers: array<C.Word>
    const memory: array<C.Word>
    var interruptRequest: bool
    var interruptAddress: C.Word
    var interruptActive: bool
    var interruptR14: C.Word
    var interruptR15: C.Word

    ghost predicate Valid()
    {
      registers.Length == C.REGMEM_SIZE && memory.Length == C.MEMORY_SIZE
    }

    ghost function State(): C.Machine
      requires Valid()
      reads this, registers, memory
    {
      C.State(registers[..], memory[..], interruptRequest, interruptAddress, interruptActive, interruptR14, interruptR15)
    }

    /** The emulator's globals when it starts. */
    constructor ()
      ensures Valid() && fresh(registers) && fresh(memory)
      ensures State() == C.State(seq(C.REGMEM_SIZE, _ => 0), seq(C.MEMORY_SIZE, _ => 0), false, 0, false, 0, 0)
    {
      registers := new C.Word[C.REGMEM_SIZE](_ => 0);
      memory := new C.Word[C.MEMORY_SIZE](_ => 0);
      interruptRequest, interruptAddress, interruptActive, interruptR14, interruptR15 := false, 0, false, 0, 0;
      new;
      assert registers[..] == seq(C.REGMEM_SIZE, _ => 0);
      assert memory[..] == seq(C.MEMORY_SIZE, _ => 0);
    }

    /** reset_machine: registers, memory below the I/O area and the interrupt flags; the rest stays as it is. */
    method Reset()
      requires Valid()
      modifies this, registers, memory
      ensures State() == C.Reset(old(State()))
      ensures forall a :: 0 <= a < 16 ==> C.Reg(State(), a) == if a == C.SR then 1 else 0
      ensures forall k :: 0 <= k < C.MEMORY_SIZE ==> memory[k] == if k < C.IO_AREA_START then 0 else old(memory[k])
    {
      for i := 0 to C.IO_AREA_START
        invariant forall k :: 0 <= k < C.MEMORY_SIZE ==> memory[k] == if k < i then 0 else old(memory[k])
        modifies memory
      {
        memory[i] := 0;
      }
      for i := 0 to C.REGMEM_SIZE
        invariant forall k :: 0 <= k < i ==> registers[k] == 0
        modifies registers
      {
        registers[i] := 0;
      }
      interruptRequest, interruptActive := false, false;
      assert registers[..] == C.Reset(old(State())).regs;
      assert memory[..] == C.Reset(old(State())).mem;
    }

    method ReadRegister(a: int) returns (v: C.Word)
      requires Valid() && 0 <= a < 16
      ensures v == C.Reg(State(), a)
    {
      if a >= 8 {
        v := registers[a];
        if a == C.SR {
          v := C.SetLsb(v);
        }
      } else {
        v := registers[a + 16 * (C.SetLsb(registers[C.SR]) / 256)];
      }
    }

    method WriteRegister(a: int, value: int)
      requires Valid() && 0 <= a < 16
      modifies registers
      ensures State() == C.SetReg(old(State()), a, value)
    {
      var v: C.Word := C.Low(value);
      if a >= 8 {
        registers[a] := if a == C.SR then C.SetLsb(v) else v;
      } else {
        registers[a + 16 * (C.SetLsb(registers[C.SR]) / 256)] := v;
      }
    }

    method ReadMemory(a: C.Word, io: C.Devices) returns (v: C.Word)
      requires Valid()
      ensures v == C.Load(State(), io, a)
    {
      v := if a < C.IO_AREA_START then memory[a] else io(a);
    }

    method WriteMemory(a: C.Word, v: C.Word)
      requires Valid()
      modifies memory
      ensures State() == C.Store(old(State()), a, v)
    {
      if a < C.IO_AREA_START {
        memory[a] := v;
      }
    }

    method ReadSourceOperand(io: C.Devices, mode: int, a: int, suppressIncrement: bool) returns (source: C.Word)
      requires Valid() && 0 <= mode < 4 && 0 <= a < 16
      modifies registers
      ensures (State(), source) == C.ReadSource(old(State()), io, mode, a, suppressIncrement)
    {
      hide C.SetReg, C.Reg, C.Load;
      if mode == 0 {
        source := ReadRegister(a);
      } else if mode == 3 {
        var r := ReadRegister(a);
        WriteRegister(a, r as int - 1);
        var p := ReadRegister(a);
        source := ReadMemory(p, io);
      } else {
        var p := ReadRegister(a);
        source := ReadMemory(p, io);
        if mode == 2 && !suppressIncrement {
          var r := ReadRegister(a);
          WriteRegister(a, r as int + 1);
        }
      }
    }

    method WriteDestination(mode: int, a: int, value: C.Long, suppressDecrement: bool)
      requires Valid() && 0 <= mode < 4 && 0 <= a < 16
      modifies registers, memory
      ensures State() == C.WriteDestination(old(State()), mode, a, value, suppressDecrement)
    {
      hide C.SetReg, C.Reg, C.Store, C.Low;
      if mode == 0 {
        WriteRegister(a, value);
      } else if mode == 1 {
        var p := ReadRegister(a);
        WriteMemory(p, C.Low(value));
      } else if mode == 2 {
        var p := ReadRegister(a);
        WriteMemory(p, C.Low(value));
        var r := ReadRegister(a);
        WriteRegister(a, r as int + 1);
      } else {
        if !suppressDecrement {
          var r := ReadRegister(a);
          WriteRegister(a, r as int - 1);
        }
        var p := ReadRegister(a);
        WriteMemory(p, C.Low(value));
      }
    }

    method UpdateStatusBits(destination: C.Long, source0: C.Long, source1: C.Long, keep: C.Keep, addSub: bool)
      requires Valid()
      modifies registers
      ensures State() == C.UpdateStatus(old(State()), destination, source0, source1, keep, addSub)
    {
      hide C.SetReg, C.FlagsOf, C.WithFlags, C.StatusOf;
      StatusIsRegister(State());
      var sr := ReadRegister(C.SR);
      var f := C.FlagsOf(sr);
      var x := if keep.x then f.x else if C.Low(destination) == 0xffff then 1 else 0;
      var c := if keep.carry then f.c else destination / 0x1_0000 % 2;
      var z := if C.Low(destination) == 0 then 1 else 0;
      var n := if C.Top(destination) then 1 else 0;
      var v := f.v;
      if !keep.overflow && addSub {
        v := if (!C.Top(source0) && !C.Top(source1) && C.Top(destination))
                || (C.Top(source0) && C.Top(source1) && !C.Top(destination)) then 1 else 0;
      }
      WriteRegister(C.SR, C.WithFlags(sr, C.Flags(x, c, z, n, v)));
    }

    static lemma StatusIsRegister(c: C.Machine)
      ensures C.Reg(c, C.SR) == C.StatusOf(c)
    {}

    /** SHL and SHR: the loop shifts one bit at a time. */
    method Shift(io: C.Devices, i: C.Instruction)
      requires Valid() && C.Fields(i) && (i.op == 5 || i.op == 6)
      modifies registers, memory
      ensures State() == C.Shifting(old(State()), io, i)
    {
      hide C.ReadSource, C.WriteDestination, C.SetReg, C.FlagsOf, C.WithFlags, C.StatusOf, C.UpdateStatus, C.Reg;
      var n := ReadSourceOperand(io, i.sm, i.sa, false);
      var d := ReadSourceOperand(io, i.dm, i.da, true);
      StatusIsRegister(State());
      var sr := ReadRegister(C.SR);
      var f := C.FlagsOf(sr);
      var destination: C.Long := d;
      if n > 0 {
        var bit := 0;
        for k := 0 to n
          invariant (destination, bit) == C.Shifted(i.op, d, f, k)
          invariant i.op == 6 ==> destination < 0x1_0000
          modifies {}
        {
          if i.op == 5 {
            bit := destination / 0x8000 % 2;
            destination := (2 * destination + f.x) % 0x1_0000_0000;
          } else {
            bit := destination % 2;
            destination := destination / 2 + 0x8000 * f.c;
          }
        }
        WriteRegister(C.SR, C.WithFlags(sr, C.ShiftFlags(i.op, f, bit)));
        WriteDestination(i.dm, i.da, destination, false);
      }
      UpdateStatusBits(destination, n, 0, C.KEEP_CXV, false);
    }

    /** MOVE, SWAP and NOT. */
    method Move(io: C.Devices, i: C.Instruction)
      requires Valid() && C.Fields(i)
      modifies registers, memory
      ensures State() == C.Moving(old(State()), io, i)
    {
      hide C.ReadSource, C.WriteDestination, C.UpdateStatus;
      var source := ReadSourceOperand(io, i.sm, i.sa, false);
      var destination: C.Word := source;
      if i.op == 7 {
        destination := source / 256 + source % 256 * 256;
      } else if i.op != 0 {
        destination := 0xffff - source;
      }
      UpdateStatusBits(destination, source, source, C.KEEP_CV, false);
      WriteDestination(i.dm, i.da, destination, false);
    }

    /** ADD, ADDC, SUB, SUBC, AND, OR, XOR. */
    method Calculate(io: C.Devices, i: C.Instruction)
      requires Valid() && C.Fields(i)
      modifies registers, memory
      ensures State() == C.Arithmetic(old(State()), io, i)
    {
      hide C.ReadSource, C.WriteDestination, C.UpdateStatus, C.Combine, C.StatusOf, C.Reg;
      var source1 := ReadSourceOperand(io, i.sm, i.sa, false);
      var source0 := ReadSourceOperand(io, i.dm, i.da, true);
      StatusIsRegister(State());
      var sr := ReadRegister(C.SR);
      var destination := C.Combine(i.op, source0, source1, sr / 4 % 2);
      UpdateStatusBits(destination, source0, source1, if i.op < 9 then C.MODIFY_ALL else C.KEEP_CV, i.op < 9);
      WriteDestination(i.dm, i.da, destination, true);
    }

    method CompareOperands(io: C.Devices, i: C.Instruction)
      requires Valid() && C.Fields(i)
      modifies registers
      ensures State() == C.Comparing(old(State()), io, i)
    {
      hide C.ReadSource, C.SetReg, C.FlagsOf, C.WithFlags, C.StatusOf, C.Reg, C.Signed;
      var source0 := ReadSourceOperand(io, i.sm, i.sa, false);
      var source1 := ReadSourceOperand(io, i.dm, i.da, false);
      StatusIsRegister(State());
      var sr := ReadRegister(C.SR);
      var f := C.FlagsOf(sr);
      WriteRegister(C.SR, C.WithFlags(sr, C.Flags(f.x, f.c, C.Ones(source0 == source1), C.Ones(source0 > source1),
                                                 C.Ones(C.Signed(source0) > C.Signed(source1)))));
    }

    /** The control instructions; the result tells whether the processor stops. */
    method ControlCommand(io: C.Devices, w: C.Word) returns (stop: bool)
      requires Valid()
      modifies this, registers, memory
      ensures (State(), stop) == C.Control(old(State()), io, w)
    {
      hide C.ReadSource, C.WriteDestination, C.SetReg, C.StatusOf, C.Reg, C.WithBank, C.Bank;
      var command := w / 64 % 64;
      stop := false;
      if command == 0 {
        stop := true;
      } else if command == 1 {
        if !interruptActive {
          stop := true;
        } else {
          interruptActive := false;
          WriteRegister(C.SR, interruptR14);
          WriteRegister(C.PC, interruptR15);
        }
      } else if command == 2 {
        if interruptActive {
          stop := true;
        } else {
          var i := C.Decode(w);
          interruptAddress := ReadSourceOperand(io, i.dm, i.da, true);
          WriteDestination(i.dm, i.da, interruptAddress, true);
          interruptRequest := true;
        }
      } else if command == 3 || command == 4 {
        BankOfStatus(State());
        StatusIsRegister(State());
        var sr := ReadRegister(C.SR);
        var rb := if command == 3 then (sr / 256 + 1) % 256 else (sr / 256 + 255) % 256;
        WriteRegister(C.SR, C.WithBank(sr, rb));
      }
    }

    static lemma BankOfStatus(c: C.Machine)
      ensures C.Bank(c) == C.StatusOf(c) / 256
    {}

    method BranchOrCall(io: C.Devices, w: C.Word)
      requires Valid()
      modifies registers, memory
      ensures State() == C.Branching(old(State()), io, w)
    {
      hide C.ReadSource, C.SetReg, C.Reg, C.Store, C.StatusOf, C.Bit;
      var i := C.Decode(w);
      var destination := ReadSourceOperand(io, i.sm, i.sa, false);
      StatusIsRegister(State());
      var sr := ReadRegister(C.SR);
      var condition := C.Bit(sr, w % 8) == 1;
      if w / 8 % 2 == 1 {
        condition := !condition;
      }
      if condition {
        var kind := w / 16 % 4;
        if kind % 2 == 1 {
          var pc := ReadRegister(C.PC);
          var sp := ReadRegister(C.SP);
          WriteRegister(C.SP, sp as int - 1);
          var top := ReadRegister(C.SP);
          WriteMemory(top, pc);
        }
        if kind < 2 {
          WriteRegister(C.PC, destination);
        } else {
          var pc := ReadRegister(C.PC);
          WriteRegister(C.PC, pc as int + destination);
        }
      }
    }

    method TakeInterrupt()
      requires Valid()
      modifies this, registers
      ensures State() == C.Interrupt(old(State()))
    {
      hide C.SetReg, C.Reg, C.StatusOf;
      if interruptRequest && !interruptActive {
        interruptActive := true;
        interruptRequest := false;
        StatusIsRegister(State());
        OtherFields(old(State()), State());
        interruptR14 := ReadRegister(C.SR);
        OtherFields(old(State()), State());
        interruptR15 := ReadRegister(C.PC);
        WriteRegister(C.PC, interruptAddress);
      }
    }

    static lemma OtherFields(c: C.Machine, d: C.Machine)
      requires c.regs == d.regs
      ensures C.StatusOf(c) == C.StatusOf(d) && C.Reg(c, C.SR) == C.Reg(d, C.SR) && C.Reg(c, C.PC) == C.Reg(d, C.PC)
    {}

    /** One instruction. */
    method Execute(io: C.Devices) returns (stop: bool)
      requires Valid()
      modifies this, registers, memory
      ensures (State(), stop) == C.Step(old(State()), io)
    {
      hide C.SetReg, C.Reg, C.Load, C.Interrupt, C.Moving, C.Shifting, C.Arithmetic, C.Comparing, C.Control, C.Branching;
      TakeInterrupt();
      var address := ReadRegister(C.PC);
      var w := ReadMemory(address, io);
      WriteRegister(C.PC, address as int + 1);
      var i := C.Decode(w);
      stop := false;
      if i.op == 0 || i.op == 7 || i.op == 8 {
        Move(io, i);
      } else if i.op == 5 || i.op == 6 {
        Shift(io, i);
      } else if i.op < 12 {
        Calculate(io, i);
      } else if i.op == 12 {
        CompareOperands(io, i);
      } else if i.op == 13 {
        stop := true;
      } else if i.op == 14 {
        stop := ControlCommand(io, w);
      } else {
        BranchOrCall(io, w);
      }
    }
  }
}
