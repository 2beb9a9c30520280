/** Interrupts of the QNICE processor over whole runs: they never nest, what they save is given back, and no
    request is lost. */
module CpuInterrupts {
  import opened Cpu
  import opened CpuBanks

  /** What happens to the processor: a device requests an interrupt, or an instruction is executed while devices
      answer as io says. */
  datatype Event = Request(address: Word) | Execute(io: Devices)

  /** A stopped processor executes nothing more. */
  function After(c: Machine, events: seq<Event>): (Machine, bool) {
    if events == [] then (c, false) else
      var (d, stopped) := After(c, events[..|events| - 1]);
      match events[|events| - 1]
      case Request(a) => (d.(intRequest := true, intAddress := a), stopped)
      case Execute(io) => if stopped then (d, true) else Step(d, io)
  }

  predicate SameInterrupts(c: Machine, d: Machine) {
    && d.intActive == c.intActive && d.intRequest == c.intRequest && d.intAddress == c.intAddress
    && d.int14 == c.int14 && d.int15 == c.int15
  }

  lemma SetRegKeeps(c: Machine, a: int, v: int)
    requires 0 <= a < 16
    ensures SameInterrupts(c, SetReg(c, a, v))
  {
    hide Slot, SetLsb, Low;
  }

  lemma ReadKeeps(c: Machine, io: Devices, mode: int, a: int, suppress: bool)
    requires 0 <= mode < 4 && 0 <= a < 16
    ensures SameInterrupts(c, ReadSource(c, io, mode, a, suppress).0)
  {
    hide SetReg, Load;
    SetRegKeeps(c, a, Reg(c, a) as int - 1);
    SetRegKeeps(c, a, Reg(c, a) + 1);
  }

  lemma WriteKeeps(c: Machine, mode: int, a: int, v: Long, suppress: bool)
    requires 0 <= mode < 4 && 0 <= a < 16
    ensures SameInterrupts(c, WriteDestination(c, mode, a, v, suppress))
  {
    hide SetReg, Reg, Low;
    SetRegKeeps(c, a, v);
    SetRegKeeps(c, a, Reg(c, a) as int - 1);
    var d := Store(c, Reg(c, a), Low(v));
    SetRegKeeps(d, a, Reg(d, a) + 1);
  }

  lemma UpdateKeeps(c: Machine, destination: Long, source0: Long, source1: Long, keep: Keep, addSub: bool)
    ensures SameInterrupts(c, UpdateStatus(c, destination, source0, source1, keep, addSub))
  {
    hide WithFlags, NewFlags, FlagsOf, SetReg;
    var sr := StatusOf(c);
    SetRegKeeps(c, SR, WithFlags(sr, NewFlags(FlagsOf(sr), destination, source0, source1, keep, addSub)));
  }

  lemma MovingKeeps(c: Machine, io: Devices, i: Instruction)
    requires Fields(i)
    ensures SameInterrupts(c, Moving(c, io, i))
  {
    hide ReadSource, WriteDestination, UpdateStatus;
    var (c1, source0) := ReadSource(c, io, i.sm, i.sa, false);
    ReadKeeps(c, io, i.sm, i.sa, false);
    var destination: Word := if i.op == 0 then source0
                             else if i.op == 7 then source0 / 256 + source0 % 256 * 256
                             else 0xffff - source0;
    UpdateKeeps(c1, destination, source0, source0, KEEP_CV, false);
    WriteKeeps(UpdateStatus(c1, destination, source0, source0, KEEP_CV, false), i.dm, i.da, destination, false);
  }

  lemma ArithmeticKeeps(c: Machine, io: Devices, i: Instruction)
    requires Fields(i)
    ensures SameInterrupts(c, Arithmetic(c, io, i))
  {
    hide ReadSource, WriteDestination, UpdateStatus, Combine;
    var (c1, source1) := ReadSource(c, io, i.sm, i.sa, false);
    ReadKeeps(c, io, i.sm, i.sa, false);
    var (c2, source0) := ReadSource(c1, io, i.dm, i.da, true);
    ReadKeeps(c1, io, i.dm, i.da, true);
    var destination := Combine(i.op, source0, source1, StatusOf(c2) / 4 % 2);
    var keep := if i.op < 9 then MODIFY_ALL else KEEP_CV;
    UpdateKeeps(c2, destination, source0, source1, keep, i.op < 9);
    WriteKeeps(UpdateStatus(c2, destination, source0, source1, keep, i.op < 9), i.dm, i.da, destination, true);
  }

  lemma ShiftingKeeps(c: Machine, io: Devices, i: Instruction)
    requires Fields(i)
    ensures SameInterrupts(c, Shifting(c, io, i))
  {
    hide ReadSource, WriteDestination, UpdateStatus, Shifted, ShiftFlags, FlagsOf, WithFlags, SetReg;
    var (c1, n) := ReadSource(c, io, i.sm, i.sa, false);
    ReadKeeps(c, io, i.sm, i.sa, false);
    var (c2, d) := ReadSource(c1, io, i.dm, i.da, true);
    ReadKeeps(c1, io, i.dm, i.da, true);
    var f := FlagsOf(StatusOf(c2));
    var (e, bit) := Shifted(i.op, d, f, n);
    ShiftFlagsAre(i.op, f, bit);
    SetRegKeeps(c2, SR, WithFlags(StatusOf(c2), ShiftFlags(i.op, f, bit)));
    var c' := SetReg(c2, SR, WithFlags(StatusOf(c2), ShiftFlags(i.op, f, bit)));
    WriteKeeps(c', i.dm, i.da, e, false);
    UpdateKeeps(if n == 0 then c2 else WriteDestination(c', i.dm, i.da, e, false), e, n, 0, KEEP_CXV, false);
  }

  lemma ComparingKeeps(c: Machine, io: Devices, i: Instruction)
    requires Fields(i)
    ensures SameInterrupts(c, Comparing(c, io, i))
  {
    hide ReadSource, FlagsOf, WithFlags, SetReg, Signed;
    var (c1, source0) := ReadSource(c, io, i.sm, i.sa, false);
    ReadKeeps(c, io, i.sm, i.sa, false);
    var (c2, source1) := ReadSource(c1, io, i.dm, i.da, false);
    ReadKeeps(c1, io, i.dm, i.da, false);
    var f := FlagsOf(StatusOf(c2));
    SetRegKeeps(c2, SR, WithFlags(StatusOf(c2),
      Flags(f.x, f.c, Ones(source0 == source1), Ones(source0 > source1), Ones(Signed(source0) > Signed(source1)))));
  }

  lemma BranchingKeeps(c: Machine, io: Devices, w: Word)
    ensures SameInterrupts(c, Branching(c, io, w))
  {
    hide ReadSource, SetReg, Condition, Reg, Decode;
    var i := Decode(w);
    var (c1, destination) := ReadSource(c, io, i.sm, i.sa, false);
    ReadKeeps(c, io, i.sm, i.sa, false);
    var kind := w / 16 % 4;
    SetRegKeeps(c1, SP, Reg(c1, SP) as int - 1);
    var c2 := if kind % 2 == 1 then Push(c1, Reg(c1, PC)) else c1;
    var to: int := if kind < 2 then destination else Reg(c2, PC) + destination;
    SetRegKeeps(c2, PC, to);
  }

  /** Only control instructions touch the interrupt state. */
  lemma PerformKeepsInterrupts(c: Machine, io: Devices, w: Word)
    requires w / 4096 != 14
    ensures SameInterrupts(c, Perform(c, io, w).0)
  {
    hide Moving, Shifting, Arithmetic, Comparing, Branching;
    var i := Decode(w);
    MovingKeeps(c, io, i);
    ShiftingKeeps(c, io, i);
    ArithmeticKeeps(c, io, i);
    ComparingKeeps(c, io, i);
    BranchingKeeps(c, io, w);
  }

  /** While an interrupt is serviced: RTI restores SR and PC and ends the service; every other instruction leaves
      the saved SR and PC and a pending request as they are. INT stops the processor. */
  lemma ServiceStep(c: Machine, io: Devices)
    requires c.intActive
    ensures var (d, stopped) := Step(c, io);
            if IsControl(Fetched(c, io), 1) then
              && !stopped && !d.intActive && d.intRequest == c.intRequest && d.intAddress == c.intAddress
              && StatusOf(d) == SetLsb(c.int14) && Reg(d, PC) == c.int15
            else SameInterrupts(c, d) && (IsControl(Fetched(c, io), 2) ==> stopped)
  {
    hide Fetched, Perform, AfterFetch, Step;
    var c1, w := AfterFetch(c), Fetched(c, io);
    StepIs(c, io);
    FetchKeeps(c);
    if IsControl(w, 1) {
      ReturnStep(c, io);
    } else if w / 4096 == 14 {
      ControlPerformed(c1, io, w);
      ControlInService(c1, io, w);
    } else {
      PerformKeepsInterrupts(c1, io, w);
    }
  }

  lemma ControlInService(c: Machine, io: Devices, w: Word)
    requires c.intActive && w / 4096 == 14 && !IsControl(w, 1)
    ensures var (d, stopped) := Control(c, io, w);
            SameInterrupts(c, d) && (IsControl(w, 2) ==> stopped)
  {
    hide StatusOf, WithBank, Bank, SetLsb, Low;
  }

  /** A request is taken up by the next instruction when nothing is being serviced: SR and PC are saved, the
      request is cleared, and the instruction executed is the one at the interrupt address. */
  lemma TakenUp(c: Machine)
    requires c.intRequest && !c.intActive
    ensures var d := Interrupt(c);
            d.intActive && !d.intRequest && d.int14 == StatusOf(c) && d.int15 == Reg(c, PC) && Reg(d, PC) == c.intAddress
            && d.mem == c.mem && d.regs == c.regs[PC := c.intAddress]
  {}

  predicate Raised(events: seq<Event>) {
    exists k :: 0 <= k < |events| && events[k].Request?
  }

  /** None of the instructions that events execute is RTI. */
  ghost predicate NoReturn(c: Machine, events: seq<Event>) {
    forall k :: 0 <= k < |events| && events[k].Execute? && !After(c, events[..k]).1 ==>
      !IsControl(Fetched(After(c, events[..k]).0, events[k].io), 1)
  }

  lemma NoReturnPrefix(c: Machine, events: seq<Event>, m: nat)
    requires NoReturn(c, events) && m <= |events|
    ensures NoReturn(c, events[..m])
  {
    hide After, Fetched, IsControl;
    forall k | 0 <= k < m && events[..m][k].Execute? && !After(c, events[..m][..k]).1
      ensures !IsControl(Fetched(After(c, events[..m][..k]).0, events[..m][k].io), 1)
    {
      assert events[..m][..k] == events[..k];
    }
  }

  /** As long as RTI is not executed, the service goes on whatever happens, the saved SR and PC stay, and a request
      raised meanwhile is pending. */
  lemma {:induction false} ServiceGoesOn(c: Machine, events: seq<Event>)
    requires c.intActive && NoReturn(c, events)
    ensures var d := After(c, events).0;
            d.intActive && d.int14 == c.int14 && d.int15 == c.int15
            && (d.intRequest <==> c.intRequest || Raised(events))
  {
    hide Step, Fetched, IsControl;
    if events != [] {
      var m := |events| - 1;
      var before := events[..m];
      assert events == before + [events[m]];
      NoReturnPrefix(c, events, m);
      ServiceGoesOn(c, before);
      var (d, stopped) := After(c, before);
      if events[m].Execute? && !stopped {
        ServiceStep(d, events[m].io);
      }
      assert Raised(events) <==> Raised(before) || events[m].Request?;
    }
  }

  /** Interrupts taken up, and returns from interrupts, during events. */
  function TakenUps(c: Machine, events: seq<Event>): nat {
    if events == [] then 0 else
      var before := events[..|events| - 1];
      var (d, stopped) := After(c, before);
      TakenUps(c, before) +
      if events[|events| - 1].Execute? && !stopped && d.intRequest && !d.intActive then 1 else 0
  }

  function Returns(c: Machine, events: seq<Event>): nat {
    if events == [] then 0 else
      var before := events[..|events| - 1];
      var (d, stopped) := After(c, before);
      Returns(c, before) +
      if events[|events| - 1].Execute? && !stopped && IsControl(Fetched(d, events[|events| - 1].io), 1) && (d.intActive || d.intRequest)
      then 1 else 0
  }

  lemma CountsStep(d: Machine, io: Devices)
    ensures var e := Step(d, io).0;
            (if e.intActive then 1 else 0)
            == (if d.intActive then 1 else 0) + (if d.intRequest && !d.intActive then 1 else 0)
               - (if IsControl(Fetched(d, io), 1) && (d.intActive || d.intRequest) then 1 else 0)
  {
    hide Step, Perform, SetReg, StatusOf, Load, IsControl;
    var d1 := Interrupt(d);
    TakenUpOrNot(d, d1, io);
    if d1.intActive {
      ServiceStep(d1, io);
    } else {
      IdleStep(d1, io);
    }
  }

  /** Taking up a request first makes no difference to the step. */
  lemma TakenUpOrNot(d: Machine, d1: Machine, io: Devices)
    requires d1 == Interrupt(d)
    ensures Interrupt(d1) == d1 && Step(d1, io) == Step(d, io) && Fetched(d1, io) == Fetched(d, io)
    ensures d1.intActive == (d.intActive || d.intRequest)
  {
    hide Perform, SetReg, StatusOf, Load;
    SetRegInterrupts(d, d1);
  }

  lemma SetRegInterrupts(d: Machine, d1: Machine)
    requires d1 == Interrupt(d)
    ensures d1.intActive == (d.intActive || d.intRequest) && (d.intRequest && !d.intActive ==> !d1.intRequest)
    ensures !(d.intRequest && !d.intActive) ==> d1 == d
  {}

  lemma IdleStep(d: Machine, io: Devices)
    requires !d.intActive && !d.intRequest
    ensures !Step(d, io).0.intActive
  {
    hide Fetched, Perform, AfterFetch, Step;
    var c1, w := AfterFetch(d), Fetched(d, io);
    StepIs(d, io);
    FetchKeeps(d);
    if w / 4096 == 14 {
      ControlPerformed(c1, io, w);
      IdleControl(c1, io, w);
    } else {
      PerformKeepsInterrupts(c1, io, w);
    }
  }

  lemma IdleControl(c: Machine, io: Devices, w: Word)
    requires !c.intActive
    ensures !Control(c, io, w).0.intActive
  {
    hide StatusOf, WithBank, Bank, SetLsb, Low, Load;
  }

  /** Interrupts never nest: from an idle processor, at any time as many interrupts have been taken up as have been
      returned from, or one more, and then it is being serviced. */
  lemma {:induction false} NeverNested(c: Machine, events: seq<Event>)
    requires !c.intActive
    ensures TakenUps(c, events) == Returns(c, events) + if After(c, events).0.intActive then 1 else 0
  {
    hide Step, Fetched, IsControl;
    if events != [] {
      var m := |events| - 1;
      NeverNested(c, events[..m]);
      if events[m].Execute? {
        CountsStep(After(c, events[..m]).0, events[m].io);
      }
    }
  }

  /** An interrupted program goes on where it was: from the take-up to the RTI, whatever the service routine does
      and devices request, SR and PC come back. */
  lemma InterruptReturns(c: Machine, events: seq<Event>, io: Devices)
    requires c.intRequest && !c.intActive
    requires var d0 := Interrupt(c);
             NoReturn(d0, events) && !After(d0, events).1 && IsControl(Fetched(After(d0, events).0, io), 1)
    ensures var (d, stopped) := After(Interrupt(c), events + [Execute(io)]);
            !stopped && !d.intActive && StatusOf(d) == StatusOf(c) && Reg(d, PC) == Reg(c, PC)
            && (d.intRequest <==> Raised(events))
  {
    hide Step, Fetched, IsControl, After, NoReturn, StatusOf, Interrupt, Raised;
    var d0 := Interrupt(c);
    TakenUp(c);
    ServiceGoesOn(d0, events);
    ServiceStep(After(d0, events).0, io);
    AfterOne(d0, events, io);
    SavedOdd(c);
  }

  lemma SavedOdd(c: Machine)
    ensures SetLsb(StatusOf(c)) == StatusOf(c)
  {}

  lemma AfterOne(c: Machine, events: seq<Event>, io: Devices)
    requires !After(c, events).1
    ensures After(c, events + [Execute(io)]) == Step(After(c, events).0, io)
  {
    hide Step;
    assert (events + [Execute(io)])[..|events|] == events;
  }
}
