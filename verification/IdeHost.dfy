/** What a host finds in the registers of the IDE device, stated by its own reads alone. */
module IdeHost {
  import opened Ide
  import opened IdeTransfer
  import IdeSafety

  function Sees(d: Device, a: nat): Word
    requires Built(d)
  {
    HostRead(d, a).1
  }

  predicate SeesAddress(d: Device, a: Chs)
    requires Built(d)
  {
    && Sees(d, 3) == a.s && Sees(d, 4) == a.c % 256 && Sees(d, 5) == a.c / 256
    && Sees(d, 6) % 16 == a.h
  }

  predicate SeesStatus(d: Device, v: int)
    requires Built(d)
  {
    Sees(d, 7) == v && Sees(d, 8) == v
  }

  /** The host finds the same in all registers from low to high, except perhaps in register a. */
  predicate SeesSame(d: Device, e: Device, low: nat, high: nat, a: nat)
    requires Built(d) && Built(e)
  {
    forall b :: low <= b <= high && b != a ==> Sees(e, b) == Sees(d, b)
  }

  /** The address as the host finds it. */
  function SeenAddress(d: Device): Chs
    requires Built(d)
  {
    Chs(Sees(d, 5) * 256 + Sees(d, 4), Sees(d, 6) % 16, Sees(d, 3))
  }

  /** Looking at a register other than the data register changes nothing. */
  lemma LookingIsQuiet(d: Device, a: nat)
    requires Built(d) && 1 <= a <= 8
    ensures HostRead(d, a).0 == d
  {}

  // ----- registers -----

  /** What the host writes to registers 2 to 5 it reads back, and no other register that it can read changes. */
  lemma WrittenIsRead(d: Device, a: nat, v: Word)
    requires Built(d) && Idle(d) && 2 <= a <= 5
    ensures var e := HostWrite(d, a, v);
            Idle(e) && e.disk == d.disk && Sees(e, a) == v % 256 && SeesSame(d, e, 1, 8, a)
  {
    PlainWrite(d, a, v);
  }

  /** Of register 6, bits 5 and 7 are always set and the others are those written. */
  lemma DriveAndHeadIsRead(d: Device, v: Word)
    requires Built(d) && Idle(d)
    ensures var e := HostWrite(d, 6, v);
            var w := Sees(e, 6);
      && Idle(e) && e.disk == d.disk && SeesSame(d, e, 1, 8, 6) && w < 256
      && w / 32 % 2 == 1 && w / 128 % 2 == 1
      && w % 32 == v % 32 && w / 64 % 2 == v / 64 % 2
  {
    PlainWrite(d, 6, v);
    var low, lba := v % 32, v / 64 % 2;
    var w := low + 32 + lba * 64 + 128;
    assert w / 32 == 5 + 2 * lba && w / 64 == 2 + lba;
  }

  /** Register 1 is the error register for reading and another one for writing. */
  lemma FeaturesAreUnseen(d: Device, v: Word)
    requires Built(d) && Idle(d)
    ensures var e := HostWrite(d, 1, v); Idle(e) && e.disk == d.disk && SeesSame(d, e, 1, 8, 0)
  {
    PlainWrite(d, 1, v);
  }

  /** Writing register 8 resets the device if bit 2 is set and shows nothing otherwise; also while it is busy. */
  lemma ResetIsSeen(d: Device, v: Word)
    requires Built(d)
    ensures var e := HostWrite(d, 8, v);
      && e.disk == d.disk && e.exit == d.exit
      && if v / 4 % 2 == 1 then
           (forall b :: 1 <= b <= 5 ==> Sees(e, b) == 0) && Sees(e, 6) == 0xa0 && SeesStatus(e, 0x50)
         else SeesSame(d, e, 1, 8, 0)
  {
    hide Zeros;
    assert v / 4 == 64 * (v / 256) + v % 256 / 4;
  }

  // ----- transfers -----

  lemma AddressIsSeen(d: Device, a: Chs)
    requires Built(d) && Addressed(d) == a && 0 <= a.c < 0x1_0000 && d.registers[SDH] / 0x10 == 0xa
    ensures SeesAddress(d, a) && SeenAddress(d) == a && Sees(d, 6) / 16 == 0xa
  {}

  /** What a host finds when a command on k sectors has succeeded: no error, and the address of the last sector. */
  predicate SeesSuccess(d: Device, last: Chs, k: nat)
    requires Built(d)
  {
    && SeesStatus(d, 0x50) && Sees(d, 1) == 0 && Sees(d, 2) == k % 256
    && SeesAddress(d, last) && Sees(d, 6) / 16 == 0xa
  }

  /** The address does not exist: error, and in the registers what they held, or the address behind the disk. */
  predicate SeesRefusal(d: Device)
    requires Built(d)
  {
    SeesStatus(d, 0x51) && Sees(d, 1) == 4
  }

  /** The address of block l. */
  function At(l: nat): Chs {
    Chs(l / (HEADS * SECTORS) + 1, l / SECTORS % HEADS + 1, l % SECTORS + 1)
  }

  lemma AtIsBlock(l: nat)
    requires l < TOTAL
    ensures OnDisk(At(l)) && Block(At(l)) == l
  {}

  lemma CompletedIsSeen(d: Device, l: int, k: nat)
    requires Built(d) && 0 <= l < TOTAL && Completed(d, l, k)
    ensures SeesSuccess(d, At(l), k)
  {
    hide At, Block, Addressed, Sees;
    AtIsBlock(l);
    BlockIsUnique(Addressed(d), At(l));
    AddressIsSeen(d, At(l));
    StatusIsSeen(d);
  }

  lemma StatusIsSeen(d: Device)
    requires Built(d)
    ensures Sees(d, 7) == d.registers[STATUS] % 256 && Sees(d, 8) == d.registers[ALTERNATE_STATUS] % 256
    ensures Sees(d, 1) == d.registers[ERROR] % 256 && Sees(d, 2) == d.registers[SECTOR_COUNT] % 256
  {}

  lemma OverrunIsSeen(d: Device, k: nat)
    requires Built(d) && Overrun(d, k)
    ensures SeesRefusal(d) && SeesAddress(d, Chs(CYLINDERS + 1, 1, 1)) && Sees(d, 2) == k % 256
  {
    AddressIsSeen(d, Chs(CYLINDERS + 1, 1, 1));
  }

  /** After writing, the host finds the address of the last sector written. */
  lemma WritingIsSeen(d: Device, a: Chs, data: seq<Words>, command: WriteCommand)
    requires Built(d) && Idle(d) && OnDisk(a) && 1 <= |data| <= 256 && Block(a) + |data| <= TOTAL
    ensures SeesSuccess(WriteSectors(d, a, data, command), At(Block(a) + |data| - 1), |data|)
  {
    hide WriteSectors, Idle, SeesSuccess, At;
    WritingStores(d, a, data, command);
    CompletedIsSeen(WriteSectors(d, a, data, command), Block(a) + |data| - 1, |data|);
  }

  /** A request for sense after that finds no reason. */
  lemma SuccessIsSensed(d: Device, l: int, k: nat, sense: Word)
    requires Built(d) && Completed(d, l, k) && Senses(sense)
    ensures Sees(HostWrite(d, 7, sense), 1) == 0 && SeesSame(d, HostWrite(d, 7, sense), 1, 8, 0)
  {
    hide HostWrite, Addressed;
    SenseIsSeen(d, sense);
  }

  lemma ReadingIsSeen(d: Device, a: Chs, k: nat, command: ReadCommand)
    requires Built(d) && Idle(d) && OnDisk(a) && 1 <= k <= 256 && Block(a) + k <= TOTAL
    ensures SeesSuccess(ReadSectors(d, a, k, command).0, At(Block(a) + k - 1), k)
  {
    hide ReadSectors, Idle, SeesSuccess, At;
    ReadingGives(d, a, k, command);
    CompletedIsSeen(ReadSectors(d, a, k, command).0, Block(a) + k - 1, k);
  }

  // ----- refused commands -----

  predicate Transfers(v: Word) {
    v % 256 in {0x20, 0x21, 0x30, 0x31, 0x3c, 0x40, 0x41}
  }

  predicate Senses(v: Word) {
    v % 256 == 0x03
  }

  lemma SameSeen(d: Device, e: Device)
    requires Built(d) && Built(e) && forall r :: SECTOR_COUNT <= r <= SDH ==> e.registers[r] == d.registers[r]
    ensures SeesSame(d, e, 2, 6, 0)
  {}

  /** What a command finds: the device has set BSY. */
  function Started(d: Device, v: Word): (e: Device)
    requires Built(d)
    ensures Built(e)
  {
    d.(registers := d.registers[COMMAND := v % 256][STATUS := (d.registers[STATUS] + 0x80) % 256]
                               [ALTERNATE_STATUS := WithBusy(d.registers[ALTERNATE_STATUS]) % 256])
  }

  lemma CommandStarts(d: Device, v: Word)
    requires Built(d) && Idle(d)
    ensures !Busy(d) && !Requests(SetRegister(d, COMMAND, v))
    ensures Started(d, v).registers[COMMAND] % 256 == v % 256 && Started(d, v).exit == Running
    ensures var d0 := SetRegister(d, COMMAND, v);
            SetRegister(SetRegister(d0, STATUS, WithBusy(d0.registers[STATUS])), ALTERNATE_STATUS, WithBusy(d0.registers[ALTERNATE_STATUS]))
            == Started(d, v)
  {}

  /** What a command does then: only its class matters, so 0x21 does what 0x20 does, 0x31 and 0x3c what 0x30 does. */
  lemma CommandDoes(d: Device, v: Word)
    requires Built(d) && Idle(d)
    ensures Transfers(v) ==> HostWrite(d, 7, v) == HandleReadWrite(Started(d, v), v % 256 !in {0x30, 0x31, 0x3c}, v % 256 in {0x40, 0x41})
    ensures Senses(v) ==> HostWrite(d, 7, v) == SetStatus(SetRegister(Started(d, v), ERROR, d.extendedError), 0x50)
    ensures !Transfers(v) && !Senses(v) ==> HostWrite(d, 7, v) == Abort(Started(d, v), 0x20)
  {
    hide Abort, HandleReadWrite, Idle, Busy, Requests, SetStatus;
    CommandStarts(d, v);
  }

  lemma HandleRefuses(d: Device, read: bool, verify: bool)
    requires Built(d) && d.exit == Running && d.registers[SDH] / 0x40 % 2 == 0 && !OnDisk(Addressed(d))
    ensures var e := HandleReadWrite(d, read, verify);
            Idle(e) && e.disk == d.disk && SeesRefusal(e) && SeesSame(d, e, 2, 6, 0) && e.extendedError == 0x21
  {
    hide Abort, Prepare, VerifySectors, OnDisk, Idle, SeesRefusal, Sees;
    var d1 := SetRegister(d, ERROR, 0);
    var count := d1.registers[SECTOR_COUNT] % 256;
    var d2 := Aim(d1, if count == 0 then MAX_SECTORS_PER_ACCESS else count);
    SameSeen(d, d2);
    AbortIsSeen(d2, 0x21);
  }

  lemma StartedSeen(d: Device, v: Word)
    requires Built(d) && Idle(d)
    ensures SeesSame(d, Started(d, v), 2, 6, 0)
    ensures Addressed(Started(d, v)) == SeenAddress(d) && Started(d, v).registers[SDH] / 0x40 % 2 == Sees(d, 6) / 64 % 2
  {
    hide Idle, Sees, Addressed;
    SameSeen(d, Started(d, v));
    AddressReads(d);
    AddressReads(Started(d, v));
  }

  lemma AddressReads(d: Device)
    requires Built(d)
    ensures Addressed(d) == SeenAddress(d) && d.registers[SDH] / 0x40 % 2 == Sees(d, 6) / 64 % 2
  {
    LowByte(d.registers[SDH]);
  }

  lemma LowByte(m: Word)
    ensures m / 64 % 2 == m % 256 / 64 % 2 && m % 16 == m % 256 % 16
  {
    var q, r := m / 256, m % 256;
    assert m / 64 == 4 * q + r / 64;
    assert m / 16 == 16 * q + r / 16;
  }

  /** A command on an address that is not on the disk, with LBA clear, is refused and changes no sector; the next
      request for sense gives the reason. */
  lemma RefusedIsSeen(d: Device, v: Word)
    requires Built(d) && Idle(d) && Transfers(v) && Sees(d, 6) / 64 % 2 == 0 && !OnDisk(SeenAddress(d))
    ensures var e := HostWrite(d, 7, v);
            Idle(e) && e.disk == d.disk && SeesRefusal(e) && SeesSame(d, e, 2, 6, 0) && e.extendedError == 0x21
  {
    hide HostWrite, HandleReadWrite, Idle, SeesRefusal, Sees, OnDisk;
    CommandDoes(d, v);
    StartedSeen(d, v);
    StartedRuns(d, v);
    HandleRefuses(Started(d, v), v % 256 !in {0x30, 0x31, 0x3c}, v % 256 in {0x40, 0x41});
  }

  lemma StartedRuns(d: Device, v: Word)
    requires Built(d) && Idle(d)
    ensures Started(d, v).exit == Running
  {}

  lemma AbortIsSeen(d: Device, extended: int)
    requires Built(d) && d.exit == Running
    ensures var e := Abort(d, extended);
            Idle(e) && e.disk == d.disk && SeesRefusal(e) && SeesSame(d, e, 2, 6, 0) && e.extendedError == extended
  {}

  /** So is a command that the device does not know. */
  lemma UnknownIsSeen(d: Device, v: Word)
    requires Built(d) && Idle(d) && !Transfers(v) && !Senses(v)
    ensures var e := HostWrite(d, 7, v);
            Idle(e) && e.disk == d.disk && SeesRefusal(e) && SeesSame(d, e, 2, 6, 0) && e.extendedError == 0x20
  {
    hide HostWrite, Abort, Idle, SeesRefusal, Sees, OnDisk;
    CommandDoes(d, v);
    StartedSeen(d, v);
    StartedRuns(d, v);
    AbortIsSeen(Started(d, v), 0x20);
  }

  /** A request for sense puts the reason into the error register and leaves it for the next such request. */
  lemma SenseIsSeen(d: Device, v: Word)
    requires Built(d) && Idle(d) && Senses(v)
    ensures var e := HostWrite(d, 7, v);
      && Idle(e) && e.disk == d.disk && SeesStatus(e, 0x50) && Sees(e, 1) == d.extendedError % 256
      && SeesSame(d, e, 2, 6, 0) && e.extendedError == d.extendedError
  {
    hide Abort, HandleReadWrite, Busy, Requests;
    CommandStarts(d, v);
  }

  /** The reason that the host finds after a refused address, an unknown command or a finished transfer. */
  lemma ReasonIsSeen(d: Device, v: Word, sense: Word)
    requires Built(d) && Idle(d) && Senses(sense) && !Senses(v)
    requires Transfers(v) ==> Sees(d, 6) / 64 % 2 == 0 && !OnDisk(SeenAddress(d))
    ensures var e := HostWrite(d, 7, v);
            var f := HostWrite(e, 7, sense);
            var g := HostWrite(f, 7, sense);
      && Sees(e, 1) == 4 && Sees(f, 1) == Sees(g, 1) == (if Transfers(v) then 0x21 else 0x20)
  {
    hide HostWrite, Idle, OnDisk, Sees;
    if Transfers(v) { RefusedIsSeen(d, v); } else { UnknownIsSeen(d, v); }
    SenseIsSeen(HostWrite(d, 7, v), sense);
    SenseIsSeen(HostWrite(HostWrite(d, 7, v), 7, sense), sense);
  }

  /** Only with LBA set does a command end the simulation. */
  lemma LbaEnds(d: Device, v: Word)
    requires Built(d) && Idle(d)
    ensures HostWrite(d, 7, v).exit == Lba <==> Transfers(v) && Sees(d, 6) / 64 % 2 == 1
  {
    hide HostWrite, HandleReadWrite, Abort, Idle, Sees, SetStatus;
    CommandDoes(d, v);
    StartedSeen(d, v);
    StartedRuns(d, v);
    HandleEnds(Started(d, v), v % 256 !in {0x30, 0x31, 0x3c}, v % 256 in {0x40, 0x41});
    IdeSafety.AbortSettles(Started(d, v), 0x20);
    IdeSafety.SenseSettles(SetRegister(Started(d, v), ERROR, d.extendedError));
  }

  lemma HandleEnds(d: Device, read: bool, verify: bool)
    requires Built(d) && d.exit == Running
    ensures HandleReadWrite(d, read, verify).exit == Lba <==> d.registers[SDH] / 0x40 % 2 == 1
  {
    hide Abort, Prepare, VerifyLoop, OnDisk;
    var d1 := SetRegister(d, ERROR, 0);
    var count := d1.registers[SECTOR_COUNT] % 256;
    var d2 := Aim(d1, if count == 0 then MAX_SECTORS_PER_ACCESS else count);
    if OnDisk(d2.current) {
      IdeSafety.VerifySettles(d2);
      IdeSafety.PrepareSettles(BeginTransfer(d2, read), read);
    }
    IdeSafety.AbortSettles(d2, 0x21);
  }

  // ----- commands of one class -----

  function Put(d: Device, v: Byte): (e: Device)
    requires Built(d)
    ensures Built(e)
  {
    d.(registers := d.registers[COMMAND := v])
  }

  lemma PutApart(d: Device, v: Byte, r: nat, w: int)
    requires Built(d) && r < 12 && r != COMMAND
    ensures SetRegister(Put(d, v), r, w) == Put(SetRegister(d, r, w), v)
  {
    assert d.registers[COMMAND := v][r := if r == DATA then w % 0x1_0000 else w % 256]
        == d.registers[r := if r == DATA then w % 0x1_0000 else w % 256][COMMAND := v];
  }

  lemma PutStatus(d: Device, v: Byte, w: int)
    requires Built(d)
    ensures SetStatus(Put(d, v), w) == Put(SetStatus(d, w), v)
  {
    hide SetRegister, Put;
    PutApart(d, v, STATUS, w);
    PutApart(SetRegister(d, STATUS, w), v, ALTERNATE_STATUS, w);
  }

  lemma PutShown(d: Device, v: Byte)
    requires Built(d)
    ensures ShowAddress(Put(d, v)) == Put(ShowAddress(d), v)
  {
    hide SetRegister;
    var head := d.current.h % 16 + d.registers[SDH] % 256 / 16 * 16;
    PutApart(d, v, SDH, head);
    var d1 := SetRegister(d, SDH, head);
    PutApart(d1, v, SECTOR_NUMBER, d.current.s);
    var d2 := SetRegister(d1, SECTOR_NUMBER, d.current.s);
    PutApart(d2, v, CYLINDER_HIGH, d.current.c / 256);
    PutApart(SetRegister(d2, CYLINDER_HIGH, d.current.c / 256), v, CYLINDER_LOW, d.current.c);
    ShowsWhere(d);
    ShowsWhere(Put(d, v));
  }

  /** What the address registers are set from. */
  lemma ShowsWhere(d: Device)
    requires Built(d)
    ensures forall r: nat, w :: r < 12 ==> SetRegister(d, r, w).current == d.current
  {}

  lemma PutAborted(d: Device, v: Byte, extended: int)
    requires Built(d)
    ensures Abort(Put(d, v), extended) == Put(Abort(d, extended), v)
  {
    hide SetStatus, SetRegister;
    PutApart(d, v, ERROR, 4);
    var d1 := SetRegister(d, ERROR, 4).(extendedError := extended);
    PutStatus(d1, v, 0x51);
  }

  lemma PutPrepared(d: Device, v: Byte, read: bool, verify: bool)
    requires Built(d)
    ensures Prepare(Put(d, v), read, verify) == Put(Prepare(d, read, verify), v)
  {
    hide SetStatus, SetRegister, ShowAddress, Abort, OnDisk, NextChs, RunsOff;
    if d.sectorCount < d.toAccess {
      PutApart(d, v, STATUS, 0x80);
      ShowsWhere(d);
      var d1 := SetRegister(d, STATUS, 0x80);
      var d2 := if d.sectorCount > 0 then MoveTo(d1, NextChs(d1.current)) else d1;
      if d.sectorCount > 0 && RunsOff(d.current) {
        PutShown(d2, v);
        PutAborted(ShowAddress(d2), v, 0x21);
      } else if !read || OnDisk(d2.current) {
        var d3 := if read then LoadBuffer(d2, d2.disk[Block(d2.current)], true) else LoadBuffer(d2, Zeros(), d2.filled);
        PutStatus(d3, v, 0x08);
        assert !verify ==> Prepare(d, read, verify) == SetStatus(d3, 0x08);
      }
    } else {
      PutShown(EndTransfer(d), v);
      PutStatus(ShowAddress(EndTransfer(d)), v, 0x50);
    }
  }

  lemma {:induction false} PutVerified(d: Device, v: Byte)
    requires Built(d)
    ensures VerifyLoop(Put(d, v)) == Put(VerifyLoop(d), v)
    decreases d.toAccess - d.sectorCount
  {
    hide Prepare;
    PutPrepared(d, v, true, true);
    var d2 := CountSector(Prepare(d, true, true));
    if d2.exit == Running && d2.sectorCount <= d2.toAccess && Busy(d2) {
      PutVerified(d2, v);
    }
  }

  lemma PutSectorsVerified(d: Device, v: Byte)
    requires Built(d)
    ensures VerifySectors(Put(d, v)) == Put(VerifySectors(d), v)
  {
    hide VerifyLoop, SetRegister;
    PutVerified(d, v);
    var d1 := VerifyLoop(d);
    var unverified := d1.toAccess - d1.sectorCount;
    PutApart(d1, v, SECTOR_COUNT, if unverified == MAX_SECTORS_PER_ACCESS then 0 else unverified);
  }

  lemma PutHandled(d: Device, v: Byte, read: bool, verify: bool)
    requires Built(d)
    ensures HandleReadWrite(Put(d, v), read, verify) == Put(HandleReadWrite(d, read, verify), v)
  {
    hide Prepare, VerifySectors, Abort, OnDisk, SetRegister;
    PutApart(d, v, ERROR, 0);
    var d1 := SetRegister(d, ERROR, 0);
    var count := d1.registers[SECTOR_COUNT] % 256;
    var d2 := Aim(d1, if count == 0 then MAX_SECTORS_PER_ACCESS else count);
    PutAborted(d2, v, 0x21);
    PutSectorsVerified(d2, v);
    PutPrepared(BeginTransfer(d2, read), v, read, false);
  }

  /** Commands that differ only in retries and in verifying what was written do the same in every state; nothing but
      the command register, which no host can read, tells them apart. */
  lemma CommandsAlike(d: Device, v: Word, w: Word)
    requires Built(d) && Idle(d)
    requires {v, w} <= {0x20, 0x21} || {v, w} <= {0x30, 0x31, 0x3c} || {v, w} <= {0x40, 0x41}
    ensures HostWrite(d, 7, v) == Put(HostWrite(d, 7, w), v)
  {
    hide HostWrite, HandleReadWrite, Abort, Idle, SetStatus, Put;
    CommandDoes(d, v);
    CommandDoes(d, w);
    StartedPut(d, v, w);
    PutHandled(Started(d, w), v, v !in {0x30, 0x31, 0x3c}, v in {0x40, 0x41});
  }

  lemma StartedPut(d: Device, v: Byte, w: Byte)
    requires Built(d)
    ensures Started(d, v) == Put(Started(d, w), v)
  {
    assert Started(d, v).registers == Put(Started(d, w), v).registers;
  }

  // ----- verifying -----

  /** The loop of the verify commands, entered with c sectors counted, moves k - c times and stops there, or at the
      end of the disk; not to have counted and to have counted one is the same. */
  lemma {:induction false} VerifyMoves(d: Device, l: int, k: nat)
    requires Built(d) && d.exit == Running && OnDisk(d.current) && Block(d.current) == l && d.toAccess == k
    requires 1 <= k <= 256 && Counted(d, k) && d.registers[ERROR] == 0
    ensures var e := VerifyLoop(d);
            var c := if d.sectorCount == 0 then 1 else d.sectorCount;
            var n := if c < k then k - c else 0;
      && e.disk == d.disk && e.toAccess == k
      && if l + n < TOTAL then Completed(e, l + n, k) else Overrun(e, k) && e.sectorCount == c + TOTAL - l
    decreases k - d.sectorCount
  {
    hide Prepare, Addressed, Counted, Completed, Overrun;
    if d.sectorCount >= k {
      EndPrepared(d, true, true, k);
      CompletedStays(Prepare(d, true, true), l, k);
    } else if d.sectorCount > 0 && l + 1 == TOTAL {
      OverrunPrepared(d, true, true, k);
      OverrunStays(Prepare(d, true, true), k);
    } else {
      SectorVerified(d, l, k);
      VerifyMoves(CountSector(Prepare(d, true, true)), if d.sectorCount > 0 then l + 1 else l, k);
    }
  }

  lemma SectorVerified(d: Device, l: int, k: nat)
    requires Built(d) && d.exit == Running && OnDisk(d.current) && Block(d.current) == l && d.sectorCount < d.toAccess
    requires Counted(d, k) && d.registers[ERROR] == 0 && (d.sectorCount > 0 ==> l + 1 < TOTAL)
    ensures var e := Prepare(d, true, true);
      && e.exit == Running && Busy(e) && OnDisk(e.current) && Block(e.current) == (if d.sectorCount > 0 then l + 1 else l)
      && e.disk == d.disk && Counted(CountSector(e), k) && e.registers[ERROR] == 0
  {
    if d.sectorCount > 0 { NextBlock(d.current); }
  }

  lemma CompletedStays(d: Device, l: int, k: nat)
    requires Built(d) && Completed(d, l, k)
    ensures !Busy(d) && Completed(CountSector(d), l, k)
  {}

  lemma OverrunStays(d: Device, k: nat)
    requires Built(d) && Overrun(d, k)
    ensures !Busy(d) && Overrun(CountSector(d), k)
  {}

  /** What a verify command leaves: how far it got from block l on when c sectors were counted before, and, where the
      disk ended first, how many sectors the sector count register says are not verified. */
  predicate SeesVerified(e: Device, l: nat, k: nat, c: nat)
    requires Built(e)
  {
    var n := if c < k then k - c else 0;
    if l + n < TOTAL then SeesSuccess(e, At(l + n), k)
    else SeesRefusal(e) && SeesAddress(e, Chs(CYLINDERS + 1, 1, 1)) && Sees(e, 2) == k - c - (TOTAL - l)
  }

  function Verify(d: Device, a: Chs, k: nat, command: Word): (e: Device)
    requires Built(d) && OnDisk(a) && 1 <= k <= 256
    ensures Built(e)
  {
    HostWrite(SetAddress(d, a, k), 7, command)
  }

  lemma HandleVerifies(d: Device, a: Chs, k: nat)
    requires Built(d) && d.exit == Running && OnDisk(a) && 1 <= k <= 256 && Aimed(d, a, k)
    ensures var e := HandleReadWrite(d, true, true);
      && Idle(e) && e.disk == d.disk
      && SeesVerified(e, Block(a), k, if d.sectorCount == 0 then 1 else d.sectorCount)
  {
    hide Addressed, Prepare, VerifySectors, SeesVerified, Idle;
    var d1 := SetRegister(d, ERROR, 0);
    SameAddressBut(d, d1);
    var count := d1.registers[SECTOR_COUNT] % 256;
    SectorsVerified(Aim(d1, if count == 0 then MAX_SECTORS_PER_ACCESS else count), a, k);
  }

  lemma SectorsVerified(d: Device, a: Chs, k: nat)
    requires Built(d) && d.exit == Running && OnDisk(a) && d.current == a && d.toAccess == k
    requires 1 <= k <= 256 && Counted(d, k) && d.registers[ERROR] == 0
    ensures var e := VerifySectors(d);
      && Idle(e) && e.disk == d.disk
      && SeesVerified(e, Block(a), k, if d.sectorCount == 0 then 1 else d.sectorCount)
  {
    hide Addressed, VerifyLoop, At, Sees, SeesSuccess;
    VerifyMoves(d, Block(a), k);
    var e := VerifyLoop(d);
    var c := if d.sectorCount == 0 then 1 else d.sectorCount;
    if c >= k || Block(a) + k - c < TOTAL {
      CompletedIsSeen(e, if c < k then Block(a) + k - c else Block(a), k);
    } else {
      UnverifiedIsSeen(e, k, k - c - (TOTAL - Block(a)));
    }
  }

  lemma UnverifiedIsSeen(d: Device, k: nat, unverified: nat)
    requires Built(d) && Overrun(d, k) && unverified < 256
    ensures var e := SetRegister(d, SECTOR_COUNT, unverified);
            Idle(e) && SeesRefusal(e) && SeesAddress(e, Chs(CYLINDERS + 1, 1, 1)) && Sees(e, 2) == unverified
  {
    OverrunIsSeen(d, k);
  }

  /** Verifying leaves the disk and an idle device; its count goes on from the one the command before has left. */
  lemma VerifyIsSeen(d: Device, a: Chs, k: nat, command: Word)
    requires Built(d) && Idle(d) && OnDisk(a) && 1 <= k <= 256 && command in {0x40, 0x41}
    ensures var e := Verify(d, a, k, command);
      && Idle(e) && e.disk == d.disk
      && SeesVerified(e, Block(a), k, if d.sectorCount == 0 then 1 else d.sectorCount)
  {
    hide HostWrite, HandleReadWrite, Idle, SetAddress, SeesVerified, Aimed;
    AddressSet(d, a, k);
    var d1 := SetAddress(d, a, k);
    CommandDoes(d1, command);
    StartedRuns(d1, command);
    StartedAims(d1, a, k, command);
    HandleVerifies(Started(d1, command), a, k);
  }

  lemma StartedAims(d: Device, a: Chs, k: nat, command: Word)
    requires Built(d) && Aimed(d, a, k)
    ensures Aimed(Started(d, command), a, k)
  {
    SameAddress(d, Started(d, command));
  }

  /** So the host finds the last address if and only if the command before has moved one sector at most, or there is
      only one to verify. */
  lemma VerifyShowsLast(d: Device, a: Chs, k: nat, command: Word)
    requires Built(d) && Idle(d) && OnDisk(a) && 1 <= k <= 256 && command in {0x40, 0x41} && Block(a) + k <= TOTAL
    ensures SeesAddress(Verify(d, a, k, command), At(Block(a) + k - 1)) <==> d.sectorCount <= 1 || k == 1
  {
    hide Verify, Idle, At, Sees;
    VerifyIsSeen(d, a, k, command);
    var c := if d.sectorCount == 0 then 1 else d.sectorCount;
    var l := if c < k then Block(a) + k - c else Block(a);
    AtIsBlock(l);
    AtIsBlock(Block(a) + k - 1);
  }

  /** In particular, verifying what has just been written shows the first address and not the last. */
  lemma WrittenThenVerified(d: Device, a: Chs, data: seq<Words>, write: WriteCommand, command: Word)
    requires Built(d) && Idle(d) && OnDisk(a) && 1 <= |data| <= 256 && Block(a) + |data| <= TOTAL
    requires command in {0x40, 0x41}
    ensures var e := Verify(WriteSectors(d, a, data, write), a, |data|, command);
            SeesSuccess(e, a, |data|) && e.disk == WriteSectors(d, a, data, write).disk
  {
    hide Verify, WriteSectors, At, Sees, SeesSuccess, Idle;
    WritingStores(d, a, data, write);
    var e := WriteSectors(d, a, data, write);
    VerifyIsSeen(e, a, |data|, command);
    AtIsBlock(Block(a));
    BlockIsUnique(At(Block(a)), a);
  }
}
