/** The IDE device that the QNICE emulator simulates: its registers, its disk and what one host access does. */
module Ide {
  const CYLINDERS := 490
  const HEADS := 4
  const SECTORS := 32
  const BYTES_PER_SECTOR := 512
  const MAX_SECTORS_PER_ACCESS := 256

  const DATA := 0
  const ERROR := 1
  const FEATURES := 2
  const SECTOR_COUNT := 3
  const SECTOR_NUMBER := 4
  const CYLINDER_LOW := 5
  const CYLINDER_HIGH := 6
  const SDH := 7
  const STATUS := 8
  const COMMAND := 9
  const ALTERNATE_STATUS := 10
  const DEVICE_CONTROL := 11

  type Byte = x: int | 0 <= x < 256
  type Word = x: int | 0 <= x < 0x1_0000
  type Sector = s: seq<Byte> | |s| == BYTES_PER_SECTOR witness seq(BYTES_PER_SECTOR, _ => 0)

  /** A disk address; cylinders, heads and sectors all count from 1. */
  datatype Chs = Chs(c: int, h: int, s: int)

  predicate OnDisk(a: Chs) {
    1 <= a.c <= CYLINDERS && 1 <= a.h <= HEADS && 1 <= a.s <= SECTORS
  }

  const TOTAL := CYLINDERS * HEADS * SECTORS

  /** The place of a sector in the disk array, which C stores row by row. */
  function Block(a: Chs): (l: int)
    ensures OnDisk(a) ==> 0 <= l < TOTAL
  {
    ((a.c - 1) * HEADS + a.h - 1) * SECTORS + a.s - 1
  }

  /** Why the emulator has ended itself: an LBA command, a data transfer the device did not expect, an access to a
      register that does not exist, or, without a message, an access outside of the disk. */
  datatype Exit = Running | Lba | Unexpected | IllegalRegister | OffDisk

  datatype Device = Device(
    registers: seq<Word>, disk: seq<Sector>, buffer: Sector, current: Chs,
    toAccess: int, sectorCount: nat, dataIn: bool, dataOut: bool, transferred: nat, filled: bool,
    extendedError: int, exit: Exit)

  predicate Built(d: Device) {
    |d.registers| == 12 && |d.disk| == TOTAL
  }

  /** writeRegister: only the data register has 16 bits. */
  function SetRegister(d: Device, r: int, v: int): (e: Device)
    requires Built(d) && 0 <= r < 12
    ensures Built(e)
  {
    d.(registers := d.registers[r := if r == DATA then v % 0x1_0000 else v % 256])
  }

  function SetStatus(d: Device, v: int): (e: Device)
    requires Built(d)
    ensures Built(e)
  {
    SetRegister(SetRegister(d, STATUS, v), ALTERNATE_STATUS, v)
  }

  predicate Busy(d: Device)
    requires Built(d)
  {
    d.registers[STATUS] / 0x80 % 2 == 1
  }

  /** DRQ: the device wants to send or receive data. */
  predicate Requests(d: Device)
    requires Built(d)
  {
    d.registers[STATUS] / 8 % 2 == 1
  }

  /** Put the current address into the registers. */
  function ShowAddress(d: Device): (e: Device)
    requires Built(d)
    ensures Built(e)
  {
    var d1 := SetRegister(d, SDH, d.current.h % 16 + d.registers[SDH] % 256 / 16 * 16);
    var d2 := SetRegister(d1, SECTOR_NUMBER, d.current.s);
    var d3 := SetRegister(d2, CYLINDER_HIGH, d.current.c / 256);
    SetRegister(d3, CYLINDER_LOW, d.current.c)
  }

  /** Command aborted: invalid address. */
  function Abort(d: Device, extended: int): (e: Device)
    requires Built(d)
    ensures Built(e)
  {
    SetStatus(SetRegister(d, ERROR, 4).(extendedError := extended), 0x51)
  }

  /** The address of the next sector; behind the last one it is in a cylinder beyond the disk. */
  function NextChs(a: Chs): Chs {
    if a.s + 1 <= SECTORS then a.(s := a.s + 1)
    else if a.h + 1 <= HEADS then Chs(a.c, a.h + 1, 1)
    else Chs(a.c + 1, 1, 1)
  }

  /** Does going on to the next sector begin a cylinder beyond the disk? */
  predicate RunsOff(a: Chs) {
    a.s + 1 > SECTORS && a.h + 1 > HEADS && a.c + 1 > CYLINDERS
  }

  function Zeros(): Sector {
    seq(BYTES_PER_SECTOR, _ => 0)
  }

  /** A fresh buffer for the next sector. */
  function LoadBuffer(d: Device, buffer: Sector, filled: bool): (e: Device)
    requires Built(d)
    ensures Built(e)
  {
    d.(buffer := buffer, transferred := 0, filled := filled)
  }

  function MoveTo(d: Device, a: Chs): (e: Device)
    requires Built(d)
    ensures Built(e)
  {
    d.(current := a)
  }

  function EndTransfer(d: Device): (e: Device)
    requires Built(d)
    ensures Built(e)
  {
    d.(extendedError := 0, filled := false, dataIn := false, dataOut := false)
  }

  function Leave(d: Device, exit: Exit): (e: Device)
    requires Built(d)
    ensures Built(e)
  {
    d.(exit := exit)
  }

  function CountSector(d: Device): (e: Device)
    requires Built(d)
    ensures Built(e) && e.sectorCount == d.sectorCount + 1 && e.toAccess == d.toAccess
  {
    d.(sectorCount := d.sectorCount + 1)
  }

  /** prepareNextSectorForPIO. */
  function Prepare(d: Device, read: bool, verify: bool): (e: Device)
    requires Built(d)
    ensures Built(e) && e.sectorCount == d.sectorCount && e.toAccess == d.toAccess
  {
    if d.sectorCount < d.toAccess then
      var d1 := SetRegister(d, STATUS, 0x80);
      var d2 := if d.sectorCount > 0 then MoveTo(d1, NextChs(d1.current)) else d1;
      if d.sectorCount > 0 && RunsOff(d.current) then
        Abort(ShowAddress(d2), 0x21)
      else if read && !OnDisk(d2.current) then Leave(d2, OffDisk)
      else
        var d3 := if read then LoadBuffer(d2, d2.disk[Block(d2.current)], true) else LoadBuffer(d2, Zeros(), d2.filled);
        if verify then d3 else SetStatus(d3, 0x08)
    else
      SetStatus(ShowAddress(EndTransfer(d)), 0x50)
  }

  /** The loop of verifyReadSectors. */
  function VerifyLoop(d: Device): (e: Device)
    requires Built(d)
    ensures Built(e)
    decreases d.toAccess - d.sectorCount
  {
    var d1 := Prepare(d, true, true);
    var d2 := CountSector(d1);
    if d2.exit == Running && d2.sectorCount <= d2.toAccess && Busy(d2) then VerifyLoop(d2) else d2
  }

  function VerifySectors(d: Device): (e: Device)
    requires Built(d)
    ensures Built(e)
  {
    var d1 := VerifyLoop(d);
    if d1.registers[STATUS] % 2 == 1 then
      var unverified := d1.toAccess - d1.sectorCount;
      SetRegister(d1, SECTOR_COUNT, if unverified == MAX_SECTORS_PER_ACCESS then 0 else unverified)
    else d1
  }

  function Addressed(d: Device): Chs
    requires Built(d)
  {
    Chs(d.registers[CYLINDER_HIGH] % 256 * 256 + d.registers[CYLINDER_LOW] % 256, d.registers[SDH] % 16,
        d.registers[SECTOR_NUMBER] % 256)
  }

  function Aim(d: Device, count: int): (e: Device)
    requires Built(d)
    ensures Built(e)
  {
    d.(current := Addressed(d), toAccess := count)
  }

  function BeginTransfer(d: Device, read: bool): (e: Device)
    requires Built(d)
    ensures Built(e)
  {
    d.(dataIn := read, dataOut := !read, sectorCount := 0)
  }

  /** handleReadWriteSectors. */
  function HandleReadWrite(d: Device, read: bool, verify: bool): (e: Device)
    requires Built(d)
    ensures Built(e)
  {
    var d1 := SetRegister(d, ERROR, 0);
    if d1.registers[SDH] / 0x40 % 2 == 1 then Leave(d1, Lba)
    else
      var count := d1.registers[SECTOR_COUNT] % 256;
      var d2 := Aim(d1, if count == 0 then MAX_SECTORS_PER_ACCESS else count);
      if !OnDisk(d2.current) then Abort(d2, 0x21)
      else if read && verify then VerifySectors(d2)
      else Prepare(BeginTransfer(d2, read), read, false)
  }

  /** executeCommand. */
  function ExecuteCommand(d: Device): (e: Device)
    requires Built(d)
    ensures Built(e)
  {
    var d1 := if Requests(d) then d else
      SetRegister(SetRegister(d, STATUS, WithBusy(d.registers[STATUS])), ALTERNATE_STATUS, WithBusy(d.registers[ALTERNATE_STATUS]));
    var command := d1.registers[COMMAND] % 256;
    if command == 0x03 then SetStatus(SetRegister(d1, ERROR, d1.extendedError), 0x50)
    else if command == 0x20 || command == 0x21 then HandleReadWrite(d1, true, false)
    else if command == 0x30 || command == 0x31 || command == 0x3c then HandleReadWrite(d1, false, false)
    else if command == 0x40 || command == 0x41 then HandleReadWrite(d1, true, true)
    else Abort(d1, 0x20)
  }

  function WithBusy(v: Word): int {
    if v / 0x80 % 2 == 1 then v else v + 0x80
  }

  /** initializeIDEDevice; the disk stays. */
  function Initialize(d: Device): (e: Device)
    requires Built(d)
    ensures Built(e)
  {
    d.(registers := [0, 0, 0, 0, 0, 0, 0, 0xa0, 0x50, 0, 0x50, 2], buffer := Zeros(), current := Chs(0, 0, 0),
       toAccess := 0, sectorCount := 0, dataIn := false, dataOut := false, transferred := 0, filled := false,
       extendedError := 0)
  }

  function CountBytes(d: Device): (e: Device)
    requires Built(d)
    ensures Built(e)
  {
    d.(transferred := d.transferred + 2)
  }

  /** readDataRegister. */
  function ReadData(d: Device): (r: (Device, Word))
    requires Built(d)
    ensures Built(r.0)
  {
    if !d.dataIn then (d, d.registers[DATA])
    else if d.transferred + 1 < BYTES_PER_SECTOR && d.filled then
      var v: Word := 256 * (d.buffer[d.transferred + 1] as int) + d.buffer[d.transferred] as int;
      var d1 := CountBytes(SetRegister(d, DATA, v));
      (if d1.transferred == BYTES_PER_SECTOR then Prepare(CountSector(d1), true, false) else d1, v)
    else (Leave(d, Unexpected), 0)
  }

  function PutBytes(d: Device, v: Word): (e: Device)
    requires Built(d) && d.transferred + 1 < BYTES_PER_SECTOR
    ensures Built(e)
  {
    d.(buffer := d.buffer[d.transferred := v % 256][d.transferred + 1 := v / 256], transferred := d.transferred + 2)
  }

  function WriteSector(d: Device): (e: Device)
    requires Built(d) && OnDisk(d.current)
    ensures Built(e)
  {
    d.(disk := d.disk[Block(d.current) := d.buffer])
  }

  /** writeDataRegister. */
  function WriteData(d: Device, v: Word): (e: Device)
    requires Built(d)
    ensures Built(e)
  {
    if !d.dataOut then SetRegister(d, DATA, v)
    else if d.transferred + 1 < BYTES_PER_SECTOR then
      var d1 := PutBytes(d, v);
      if d1.transferred != BYTES_PER_SECTOR then d1
      else if !OnDisk(d1.current) then Leave(d1, OffDisk)
      else Prepare(CountSector(WriteSector(d1)), false, false)
    else Leave(d, Unexpected)
  }

  /** writeIDEDeviceRegister. */
  function HostWrite(d: Device, a: nat, v: Word): (e: Device)
    requires Built(d)
    ensures Built(e)
  {
    if Busy(d) && a != 8 then d
    else if a == 0 then WriteData(d, v)
    else if a <= 5 then SetRegister(d, a + 1, v)
    else if a == 6 then SetRegister(d, SDH, v % 32 + 32 + v / 64 % 2 * 64 + 128)
    else if a == 7 then ExecuteCommand(SetRegister(d, COMMAND, v))
    else if a == 8 then
      var d1 := SetRegister(d, DEVICE_CONTROL, v);
      if d1.registers[DEVICE_CONTROL] / 4 % 2 == 1 then Initialize(d1) else d1
    else Leave(d, IllegalRegister)
  }

  /** readIDEDeviceRegister. */
  function HostRead(d: Device, a: nat): (r: (Device, Word))
    requires Built(d)
    ensures Built(r.0)
  {
    if a == 0 then ReadData(d)
    else if a == 1 then (d, d.registers[ERROR] % 256)
    else if a <= 5 then (d, d.registers[a + 1] % 256)
    else if a == 6 then (d, d.registers[SDH] % 256)
    else if a == 7 then (d, d.registers[STATUS] % 256)
    else if a == 8 then (d, d.registers[ALTERNATE_STATUS] % 256)
    else (Leave(d, IllegalRegister), 0)
  }
}
