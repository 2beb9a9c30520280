/** What holds after every sequence of host accesses to the IDE device. */
module IdeSafety {
  import opened Ide
  import IdeTransfer

  datatype Access = Read(a: nat) | Write(a: nat, v: Word)

  function Perform(d: Device, x: Access): (e: Device)
    requires Built(d)
    ensures Built(e)
  {
    if x.Read? then HostRead(d, x.a).0 else HostWrite(d, x.a, x.v)
  }

  function PerformAll(d: Device, xs: seq<Access>): (e: Device)
    requires Built(d)
    ensures Built(e)
  {
    if xs == [] then d else
      var e := PerformAll(d, xs[..|xs| - 1]);
      if e.exit != Running then e else Perform(e, xs[|xs| - 1])
  }

  /** BSY is clear; when data is requested exactly one direction is active, the byte count is even and below 512,
      the address is on the disk, and a buffer to be read is filled. */
  predicate Settled(d: Device)
    requires Built(d)
  {
    && d.registers[STATUS] in {0x50, 0x51, 0x08}
    && (Requests(d) ==>
          && d.dataIn != d.dataOut && d.transferred % 2 == 0 && d.transferred < BYTES_PER_SECTOR
          && OnDisk(d.current) && (d.dataIn ==> d.filled))
  }

  lemma StatusValues(d: Device)
    requires Built(d)
    ensures d.registers[STATUS] in {0x50, 0x51} ==> !Requests(d) && !Busy(d)
    ensures d.registers[STATUS] == 0x08 ==> Requests(d) && !Busy(d)
  {}

  /** The host moves data only when the device requests it. */
  predicate Polite(d: Device, x: Access)
    requires Built(d)
  {
    x.a == 0 ==> Requests(d)
  }

  ghost predicate PoliteAll(d: Device, xs: seq<Access>)
    requires Built(d)
  {
    forall k :: 0 <= k < |xs| ==> PerformAll(d, xs[..k]).exit != Running || Polite(PerformAll(d, xs[..k]), xs[k])
  }

  // ----- one step -----

  /** The registers that SetRegister and ShowAddress leave alone. */
  lemma ShowKeeps(d: Device)
    requires Built(d)
    ensures var e := ShowAddress(d);
      && e == d.(registers := e.registers)
      && e.registers[STATUS] == d.registers[STATUS] && e.registers[ERROR] == d.registers[ERROR]
  {}

  lemma SetStatusIs(d: Device, v: int)
    requires Built(d) && 0 <= v < 256
    ensures var e := SetStatus(d, v); e == d.(registers := e.registers) && e.registers[STATUS] == v
  {}

  /** After a sector has been prepared for a transfer in one direction, the device is settled. */
  lemma PrepareSettles(d: Device, read: bool)
    requires Built(d) && d.exit == Running && OnDisk(d.current) && d.dataIn == read && d.dataOut == !read
    ensures var e := Prepare(d, read, false);
            e.exit == Running && Settled(e)
  {
    hide ShowAddress, SetStatus;
    if d.sectorCount < d.toAccess {
      var d1 := SetRegister(d, STATUS, 0x80);
      var d2 := if d.sectorCount > 0 then MoveTo(d1, NextChs(d1.current)) else d1;
      if d.sectorCount > 0 && RunsOff(d.current) {
        ShowKeeps(d2);
        SetStatusIs(SetRegister(ShowAddress(d2), ERROR, 4).(extendedError := 0x21), 0x51);
      } else {
        NextOnDiskOr(d.current);
        var d3 := if read then LoadBuffer(d2, d2.disk[Block(d2.current)], true) else LoadBuffer(d2, Zeros(), d2.filled);
        SetStatusIs(d3, 0x08);
      }
    } else {
      ShowKeeps(EndTransfer(d));
      SetStatusIs(ShowAddress(EndTransfer(d)), 0x50);
    }
  }

  lemma NextOnDiskOr(a: Chs)
    requires OnDisk(a)
    ensures RunsOff(a) || OnDisk(NextChs(a))
  {}

  /** Verifying always ends with BSY clear, whatever the sector count was left at by the command before. */
  lemma {:induction false} VerifySettles(d: Device)
    requires Built(d) && d.exit == Running && OnDisk(d.current)
    ensures var e := VerifyLoop(d);
            e.exit == Running && e.registers[STATUS] in {0x50, 0x51}
    decreases d.toAccess - d.sectorCount
  {
    hide ShowAddress, SetStatus;
    var d1 := SetRegister(d, STATUS, 0x80);
    var d2 := if d.sectorCount > 0 then MoveTo(d1, NextChs(d1.current)) else d1;
    if d.sectorCount < d.toAccess {
      if d.sectorCount > 0 && RunsOff(d.current) {
        ShowKeeps(d2);
        SetStatusIs(SetRegister(ShowAddress(d2), ERROR, 4).(extendedError := 0x21), 0x51);
      } else {
        NextOnDiskOr(d.current);
        VerifySettles(CountSector(Prepare(d, true, true)));
      }
    } else {
      ShowKeeps(EndTransfer(d));
      SetStatusIs(ShowAddress(EndTransfer(d)), 0x50);
    }
  }

  lemma AbortSettles(d: Device, extended: int)
    requires Built(d) && d.exit == Running
    ensures var e := Abort(d, extended); e.exit == Running && Settled(e)
  {
    hide SetStatus;
    SetStatusIs(SetRegister(d, ERROR, 4).(extendedError := extended), 0x51);
  }

  lemma HandleSettles(d: Device, read: bool, verify: bool)
    requires Built(d) && d.exit == Running && (verify ==> read)
    ensures var e := HandleReadWrite(d, read, verify);
            e.exit == Lba || (e.exit == Running && Settled(e))
  {
    hide Abort, VerifyLoop, Prepare, Settled;
    var d1 := SetRegister(d, ERROR, 0);
    if d1.registers[SDH] / 0x40 % 2 == 0 {
      var count := d1.registers[SECTOR_COUNT] % 256;
      var d2 := Aim(d1, if count == 0 then MAX_SECTORS_PER_ACCESS else count);
      if !OnDisk(d2.current) {
        AbortSettles(d2, 0x21);
      } else if read && verify {
        VerifySettles(d2);
        VerifiedSettled(VerifyLoop(d2));
      } else {
        PrepareSettles(BeginTransfer(d2, read), read);
      }
    }
  }

  lemma VerifiedSettled(d: Device)
    requires Built(d) && d.exit == Running && d.registers[STATUS] in {0x50, 0x51}
    ensures Settled(d)
    ensures forall v :: Settled(SetRegister(d, SECTOR_COUNT, v))
  {}

  lemma CommandSettles(d: Device)
    requires Built(d) && d.exit == Running
    ensures var e := ExecuteCommand(d);
            e.exit == Lba || (e.exit == Running && Settled(e))
  {
    hide HandleReadWrite, Abort, Settled, SetStatus;
    var d1 := if Requests(d) then d else
      SetRegister(SetRegister(d, STATUS, WithBusy(d.registers[STATUS])), ALTERNATE_STATUS, WithBusy(d.registers[ALTERNATE_STATUS]));
    HandleSettles(d1, true, false);
    HandleSettles(d1, false, false);
    HandleSettles(d1, true, true);
    AbortSettles(d1, 0x20);
    SenseSettles(SetRegister(d1, ERROR, d1.extendedError));
  }

  lemma SenseSettles(d: Device)
    requires Built(d) && d.exit == Running
    ensures SetStatus(d, 0x50).exit == Running && Settled(SetStatus(d, 0x50))
  {
    SetStatusIs(d, 0x50);
  }

  /** A register other than the status register does not matter. */
  lemma OtherRegisterSettled(d: Device, r: int, v: int)
    requires Built(d) && 0 <= r < 12 && r != STATUS && Settled(d)
    ensures Settled(SetRegister(d, r, v))
  {}

  lemma ReadSettles(d: Device)
    requires Built(d) && d.exit == Running && Settled(d) && Requests(d)
    ensures var e := ReadData(d).0; e.exit == Running && Settled(e)
  {
    hide Prepare;
    if d.dataIn {
      var v: Word := 256 * (d.buffer[d.transferred + 1] as int) + d.buffer[d.transferred] as int;
      var d1 := CountBytes(SetRegister(d, DATA, v));
      if d1.transferred == BYTES_PER_SECTOR {
        PrepareSettles(CountSector(d1), true);
      }
    }
  }

  lemma WriteSettles(d: Device, v: Word)
    requires Built(d) && d.exit == Running && Settled(d) && Requests(d)
    ensures var e := WriteData(d, v); e.exit == Running && Settled(e)
  {
    hide Prepare;
    if d.dataOut {
      var d1 := PutBytes(d, v);
      if d1.transferred == BYTES_PER_SECTOR {
        PrepareSettles(CountSector(WriteSector(d1)), false);
      }
    }
  }

  lemma InitializeSettles(d: Device)
    requires Built(d) && d.exit == Running
    ensures Initialize(d).exit == Running && Settled(Initialize(d))
  {}

  /** One polite access keeps the device settled, unless it is an LBA command or addresses no register. */
  lemma AccessSettles(d: Device, x: Access)
    requires Built(d) && d.exit == Running && Settled(d) && Polite(d, x)
    ensures var e := Perform(d, x);
            e.exit == Lba || e.exit == IllegalRegister || (e.exit == Running && Settled(e))
  {
    hide ReadData, WriteData, ExecuteCommand, Settled, Initialize;
    if x.Read? {
      if x.a == 0 { ReadSettles(d); }
    } else if x.a == 0 {
      WriteSettles(d, x.v);
    } else if x.a <= 5 {
      OtherRegisterSettled(d, x.a + 1, x.v);
    } else if x.a == 6 {
      OtherRegisterSettled(d, SDH, x.v % 32 + 32 + x.v / 64 % 2 * 64 + 128);
    } else if x.a == 7 {
      CommandSettles(SetRegister(d, COMMAND, x.v));
    } else if x.a == 8 {
      OtherRegisterSettled(d, DEVICE_CONTROL, x.v);
      InitializeSettles(SetRegister(d, DEVICE_CONTROL, x.v));
    }
  }

  /** Over every sequence of accesses by a host that moves data only when it is requested: the device never ends in
      the unexpected branches nor reads or writes outside of the disk, and as long as it runs it is settled. */
  lemma {:induction false} AlwaysSettled(d: Device, xs: seq<Access>)
    requires Built(d) && d.exit == Running && PoliteAll(Initialize(d), xs)
    ensures var e := PerformAll(Initialize(d), xs);
            e.exit == Lba || e.exit == IllegalRegister || (e.exit == Running && Settled(e) && !Busy(e))
  {
    hide Perform, Settled, Polite, Initialize;
    var d0 := Initialize(d);
    if xs == [] {
      InitializeSettles(d);
      NotBusy(d0);
    } else {
      var m := |xs| - 1;
      forall k | 0 <= k < m
        ensures PerformAll(d0, xs[..m][..k]).exit != Running || Polite(PerformAll(d0, xs[..m][..k]), xs[..m][k])
      {
        assert xs[..m][..k] == xs[..k];
      }
      AlwaysSettled(d, xs[..m]);
      var e := PerformAll(d0, xs[..m]);
      if e.exit == Running {
        AccessSettles(e, xs[m]);
        if Perform(e, xs[m]).exit == Running { NotBusy(Perform(e, xs[m])); }
      }
    }
  }

  lemma NotBusy(d: Device)
    requires Built(d) && Settled(d)
    ensures !Busy(d)
  {}

  // ----- hosts that do not wait for DRQ -----

  predicate IdleStatus(d: Device)
    requires Built(d)
  {
    d.exit == Running ==> d.registers[STATUS] in {0x50, 0x51, 0x08}
  }

  lemma PrepareStatus(d: Device, read: bool)
    requires Built(d)
    ensures IdleStatus(Prepare(d, read, false))
  {}

  lemma {:induction false} VerifyStatus(d: Device)
    requires Built(d)
    ensures IdleStatus(VerifyLoop(d))
    decreases d.toAccess - d.sectorCount
  {
    hide ShowAddress, NextChs;
    var d2 := CountSector(Prepare(d, true, true));
    ShowKeeps(EndTransfer(d));
    if d2.exit == Running && d2.sectorCount <= d2.toAccess && Busy(d2) {
      VerifyStatus(d2);
    }
  }

  lemma HandleStatus(d: Device, read: bool, verify: bool)
    requires Built(d)
    ensures IdleStatus(HandleReadWrite(d, read, verify))
  {
    hide VerifyLoop, Prepare;
    var d1 := SetRegister(d, ERROR, 0);
    var count := d1.registers[SECTOR_COUNT] % 256;
    var d2 := Aim(d1, if count == 0 then MAX_SECTORS_PER_ACCESS else count);
    VerifyStatus(d2);
    PrepareStatus(BeginTransfer(d2, read), read);
  }

  lemma AccessStatus(d: Device, x: Access)
    requires Built(d) && IdleStatus(d) && d.exit == Running
    ensures IdleStatus(Perform(d, x))
  {
    hide HandleReadWrite, Prepare;
    if x.Write? && x.a == 7 {
      var d0 := SetRegister(d, COMMAND, x.v);
      var d1 := if Requests(d0) then d0 else
        SetRegister(SetRegister(d0, STATUS, WithBusy(d0.registers[STATUS])), ALTERNATE_STATUS, WithBusy(d0.registers[ALTERNATE_STATUS]));
      HandleStatus(d1, true, false);
      HandleStatus(d1, false, false);
      HandleStatus(d1, true, true);
    } else if x.a == 0 {
      DataStatus(d, x);
    }
  }

  lemma DataStatus(d: Device, x: Access)
    requires Built(d) && IdleStatus(d) && d.exit == Running && x.a == 0
    ensures IdleStatus(Perform(d, x))
  {
    hide Prepare;
    if x.Read? && d.dataIn && d.transferred + 1 < BYTES_PER_SECTOR && d.filled {
      var v: Word := 256 * (d.buffer[d.transferred + 1] as int) + d.buffer[d.transferred] as int;
      PrepareStatus(CountSector(CountBytes(SetRegister(d, DATA, v))), true);
    } else if x.Write? && d.dataOut && d.transferred + 1 < BYTES_PER_SECTOR {
      var d1 := PutBytes(d, x.v);
      if OnDisk(d1.current) { PrepareStatus(CountSector(WriteSector(d1)), false); }
    }
  }

  /** BSY is clear between accesses whatever the host does. */
  lemma {:induction false} NeverBusy(d: Device, xs: seq<Access>)
    requires Built(d)
    ensures var e := PerformAll(Initialize(d), xs);
            e.exit == Running ==> !Busy(e) && IdleStatus(e)
  {
    hide Perform;
    if xs != [] {
      var m := |xs| - 1;
      NeverBusy(d, xs[..m]);
      var e := PerformAll(Initialize(d), xs[..m]);
      if e.exit == Running {
        AccessStatus(e, xs[m]);
      }
    }
  }

  // ----- exactly when a host makes the device go astray -----

  /** The access leads into the branches that the simulation calls unexpected. */
  predicate Surprises(d: Device, x: Access) {
    && x.a == 0
    && if x.Read? then d.dataIn && !(d.transferred + 1 < BYTES_PER_SECTOR && d.filled)
       else d.dataOut && d.transferred + 1 >= BYTES_PER_SECTOR
  }

  /** The access finishes a sector and what the device does next lies outside of its disk: the sector to be read
      after it, or the sector to be written. */
  predicate RunsAway(d: Device, x: Access) {
    && x.a == 0 && d.transferred + 2 == BYTES_PER_SECTOR
    && if x.Read? then
         d.dataIn && d.filled && d.sectorCount + 1 < d.toAccess && !RunsOff(d.current) && !OnDisk(NextChs(d.current))
       else d.dataOut && !OnDisk(d.current)
  }

  lemma DataAstray(d: Device, x: Access)
    requires Built(d) && d.exit == Running && !Busy(d) && x.a == 0
    ensures Perform(d, x).exit == Unexpected <==> Surprises(d, x)
    ensures Perform(d, x).exit == OffDisk <==> RunsAway(d, x)
  {}

  lemma CommandRuns(d: Device)
    requires Built(d) && d.exit == Running
    ensures ExecuteCommand(d).exit == Running || ExecuteCommand(d).exit == Lba
  {
    CommandSettles(d);
  }

  /** One access, in any state: which data accesses go astray, and that no other access does. */
  lemma AccessAstray(d: Device, x: Access)
    requires Built(d) && d.exit == Running && !Busy(d)
    ensures Perform(d, x).exit == Unexpected <==> Surprises(d, x)
    ensures Perform(d, x).exit == OffDisk <==> RunsAway(d, x)
  {
    hide ReadData, WriteData, ExecuteCommand, Initialize;
    if x.a == 0 {
      DataAstray(d, x);
    } else if x.Write? && x.a == 7 {
      CommandRuns(SetRegister(d, COMMAND, x.v));
    } else if x.Write? && x.a == 8 {
      InitializeSettles(SetRegister(d, DEVICE_CONTROL, x.v));
    }
  }

  /** Access k of the sequence finds the device running and makes it go astray. */
  ghost predicate AstrayAt(d: Device, xs: seq<Access>, k: nat)
    requires Built(d) && k < |xs|
  {
    var c := PerformAll(d, xs[..k]);
    c.exit == Running && (Surprises(c, xs[k]) || RunsAway(c, xs[k]))
  }

  /** Over every sequence of accesses by any host: the device ends in an unexpected branch or outside of its disk if
      and only if some access is of that kind when it comes. */
  lemma {:induction false} AstrayExactly(d: Device, xs: seq<Access>)
    requires Built(d) && d.exit == Running
    ensures PerformAll(Initialize(d), xs).exit in {Unexpected, OffDisk}
            <==> exists k :: 0 <= k < |xs| && AstrayAt(Initialize(d), xs, k)
  {
    hide Perform, Surprises, RunsAway, Initialize;
    var d0 := Initialize(d);
    if xs == [] {
      InitializeSettles(d);
    } else {
      var m := |xs| - 1;
      var e := PerformAll(d0, xs[..m]);
      AstrayExactly(d, xs[..m]);
      forall k | 0 <= k < m
        ensures AstrayAt(d0, xs[..m], k) <==> AstrayAt(d0, xs, k)
      {
        assert xs[..m][..k] == xs[..k];
      }
      if e.exit == Running {
        NeverBusy(d, xs[..m]);
        AccessAstray(e, xs[m]);
        assert AstrayAt(d0, xs, m) <==> Perform(e, xs[m]).exit in {Unexpected, OffDisk};
      }
    }
  }

  /** Whatever the host does, bytes move in pairs, a sector being read is in the buffer and at most one direction is
      active. */
  predicate Whole(d: Device) {
    d.exit == Running ==>
      d.transferred % 2 == 0 && d.transferred <= BYTES_PER_SECTOR && (d.dataIn ==> d.filled) && !(d.dataIn && d.dataOut)
  }

  lemma PrepareWhole(d: Device, read: bool, verify: bool)
    requires Built(d) && (Whole(d) || (read && d.sectorCount == 0 < d.toAccess && d.dataIn && !d.dataOut))
    requires d.dataIn || d.dataOut ==> (d.dataIn <==> read) || verify
    ensures Whole(Prepare(d, read, verify))
  {
    hide ShowAddress, SetStatus, OnDisk;
    if d.sectorCount < d.toAccess {
      var d1 := SetRegister(d, STATUS, 0x80);
      var d2 := if d.sectorCount > 0 then MoveTo(d1, NextChs(d1.current)) else d1;
      if d.sectorCount > 0 && RunsOff(d.current) {
        ShowKeeps(d2);
        SetStatusIs(SetRegister(ShowAddress(d2), ERROR, 4).(extendedError := 0x21), 0x51);
      } else if !read || OnDisk(d2.current) {
        var d3 := if read then LoadBuffer(d2, d2.disk[Block(d2.current)], true) else LoadBuffer(d2, Zeros(), d2.filled);
        SetStatusIs(d3, 0x08);
      }
    } else {
      ShowKeeps(EndTransfer(d));
      SetStatusIs(ShowAddress(EndTransfer(d)), 0x50);
    }
  }

  lemma {:induction false} VerifyWhole(d: Device)
    requires Built(d) && Whole(d)
    ensures Whole(VerifyLoop(d))
    decreases d.toAccess - d.sectorCount
  {
    hide Prepare;
    PrepareWhole(d, true, true);
    var d2 := CountSector(Prepare(d, true, true));
    if d2.exit == Running && d2.sectorCount <= d2.toAccess && Busy(d2) {
      VerifyWhole(d2);
    }
  }

  lemma HandleWhole(d: Device, read: bool, verify: bool)
    requires Built(d) && Whole(d)
    ensures Whole(HandleReadWrite(d, read, verify))
  {
    hide VerifyLoop, Prepare;
    var d1 := SetRegister(d, ERROR, 0);
    var count := d1.registers[SECTOR_COUNT] % 256;
    var d2 := Aim(d1, if count == 0 then MAX_SECTORS_PER_ACCESS else count);
    VerifyWhole(d2);
    PrepareWhole(BeginTransfer(d2, read), read, false);
  }

  lemma DataWhole(d: Device, x: Access)
    requires Built(d) && Whole(d) && d.exit == Running && x.a == 0
    ensures Whole(Perform(d, x))
  {
    hide Prepare;
    if x.Read? && d.dataIn && d.transferred + 1 < BYTES_PER_SECTOR && d.filled {
      var v: Word := 256 * (d.buffer[d.transferred + 1] as int) + d.buffer[d.transferred] as int;
      PrepareWhole(CountSector(CountBytes(SetRegister(d, DATA, v))), true, false);
    } else if x.Write? && d.dataOut && d.transferred + 1 < BYTES_PER_SECTOR {
      var d1 := PutBytes(d, x.v);
      if OnDisk(d1.current) { PrepareWhole(CountSector(WriteSector(d1)), false, false); }
    }
  }

  lemma AccessWhole(d: Device, x: Access)
    requires Built(d) && Whole(d) && d.exit == Running
    ensures Whole(Perform(d, x))
  {
    hide HandleReadWrite, Prepare;
    if x.Write? && x.a == 7 {
      var d0 := SetRegister(d, COMMAND, x.v);
      var d1 := if Requests(d0) then d0 else
        SetRegister(SetRegister(d0, STATUS, WithBusy(d0.registers[STATUS])), ALTERNATE_STATUS, WithBusy(d0.registers[ALTERNATE_STATUS]));
      HandleWhole(d1, true, false);
      HandleWhole(d1, false, false);
      HandleWhole(d1, true, true);
    } else if x.a == 0 {
      DataWhole(d, x);
    }
  }

  /** So over every sequence, an unexpected branch is entered exactly by a data access in the direction of a transfer
      whose sector is used up, the next one having been refused. */
  lemma {:induction false} SurprisedAfterAbort(d: Device, xs: seq<Access>, x: Access)
    requires Built(d)
    ensures var e := PerformAll(Initialize(d), xs);
      && Whole(e)
      && (e.exit == Running ==>
            (Surprises(e, x) <==>
             x.a == 0 && e.transferred == BYTES_PER_SECTOR && (if x.Read? then e.dataIn else e.dataOut)))
  {
    hide Perform;
    if xs != [] {
      var m := |xs| - 1;
      SurprisedAfterAbort(d, xs[..m], x);
      var e := PerformAll(Initialize(d), xs[..m]);
      if e.exit == Running {
        AccessWhole(e, xs[m]);
      }
    }
  }

  /** A transfer that was broken off by a command with an invalid address. */
  predicate BrokenOff(d: Device)
    requires Built(d)
  {
    && d.exit == Running && d.dataIn && d.filled && d.sectorCount == 0 && d.toAccess == 2 && d.current == Chs(0, 1, 1)
    && d.registers[STATUS] == 0x51
  }

  lemma {:induction false} DataReadOn(d: Device, k: nat)
    requires Built(d) && BrokenOff(d) && d.transferred == 0 && k < 256
    ensures var e := PerformAll(d, seq(k, _ => Read(0)));
            BrokenOff(e) && e.transferred == 2 * k
  {
    hide Prepare;
    if k > 0 {
      DataReadOn(d, k - 1);
      var xs := seq(k, _ => Read(0));
      assert xs[..|xs| - 1] == seq(k - 1, _ => Read(0));
    } else {
      assert seq(k, _ => Read(0)) == [];
    }
  }

  /** Without that politeness it is otherwise: a host that goes on reading 256 words after a command was refused
      makes the device read outside of its disk. */
  lemma ImpoliteRunsOff(d: Device)
    requires Built(d) && BrokenOff(d) && d.transferred == 0
    ensures PerformAll(d, seq(256, _ => Read(0))).exit == OffDisk
  {
    DataReadOn(d, 255);
    var xs := seq(256, _ => Read(0));
    assert xs[..|xs| - 1] == seq(255, _ => Read(0));
  }

  predicate Addressing(d: Device, low: int)
    requires Built(d)
  {
    && d.registers[SDH] == 0xa1 && d.registers[CYLINDER_LOW] == low && d.registers[CYLINDER_HIGH] == 0
    && d.registers[SECTOR_NUMBER] == 1 && d.registers[SECTOR_COUNT] == 2
  }

  lemma SetUp(d: Device)
    requires Built(d) && d.exit == Running
    ensures var e := Perform(Perform(Perform(Perform(Initialize(d), Write(6, 1)), Write(4, 1)), Write(3, 1)), Write(2, 2));
            Addressing(e, 1) && e.registers[STATUS] == 0x50 && e.exit == Running
  {
    hide Zeros;
  }

  lemma ReadBegins(d: Device)
    requires Built(d) && d.exit == Running && Addressing(d, 1) && d.registers[STATUS] == 0x50
    ensures var e := Perform(d, Write(7, 0x20));
      && Addressing(e, 1) && e.registers[STATUS] == 0x08 && e.exit == Running
      && e.dataIn && e.filled && e.sectorCount == 0 && e.transferred == 0
  {
    hide ExecuteCommand;
    IdeTransfer.CommandBegins(d, Chs(1, 1, 1), 2, true, 0x20);
  }

  lemma SecondRefused(d: Device)
    requires Built(d) && d.exit == Running && Addressing(d, 0) && d.registers[STATUS] == 0x08
    requires d.dataIn && d.filled && d.sectorCount == 0 && d.transferred == 0
    ensures var e := Perform(d, Write(7, 0x20)); BrokenOff(e) && e.transferred == 0
  {
    hide Prepare, VerifySectors;
    StatusValues(d);
  }

  /** And that state is reached: read two sectors at 1/1/1, then set the cylinder to 0 and command the same. */
  lemma BrokenOffReached(d: Device)
    requires Built(d) && d.exit == Running
    ensures var e := Perform(Perform(Perform(Perform(Initialize(d), Write(6, 1)), Write(4, 1)), Write(3, 1)), Write(2, 2));
            var f := Perform(Perform(Perform(e, Write(7, 0x20)), Write(4, 0)), Write(7, 0x20));
            BrokenOff(f) && f.transferred == 0
  {
    hide ExecuteCommand, Initialize;
    SetUp(d);
    var e := Perform(Perform(Perform(Perform(Initialize(d), Write(6, 1)), Write(4, 1)), Write(3, 1)), Write(2, 2));
    ReadBegins(e);
    var g := Perform(e, Write(7, 0x20));
    SecondRefused(Perform(g, Write(4, 0)));
  }
}
