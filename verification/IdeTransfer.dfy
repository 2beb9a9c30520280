/** Writing and reading whole sectors: the IDE device behaves like a flat disk. */
module IdeTransfer {
  import opened Ide

  const WORDS_PER_SECTOR := 256

  type Words = s: seq<Word> | |s| == WORDS_PER_SECTOR witness seq(WORDS_PER_SECTOR, _ => 0)

  // ----- what the host does -----

  /** The host puts address and count of a command into the registers; 256 sectors count as 0. */
  function SetAddress(d: Device, a: Chs, k: nat): (e: Device)
    requires Built(d) && OnDisk(a) && 1 <= k <= 256
    ensures Built(e)
  {
    var d1 := HostWrite(d, 6, a.h);
    var d2 := HostWrite(d1, 5, a.c / 256);
    var d3 := HostWrite(d2, 4, a.c % 256);
    var d4 := HostWrite(d3, 3, a.s);
    HostWrite(d4, 2, k % 256)
  }

  function SendWords(d: Device, ws: seq<Word>): (e: Device)
    requires Built(d)
    ensures Built(e)
  {
    if ws == [] then d else HostWrite(SendWords(d, ws[..|ws| - 1]), 0, ws[|ws| - 1])
  }

  function SendSectors(d: Device, data: seq<Words>): (e: Device)
    requires Built(d)
    ensures Built(e)
    decreases |data|
  {
    if data == [] then d else SendSectors(SendWords(d, data[0]), data[1..])
  }

  /** With and without retries, and write with verify. */
  type ReadCommand = c: Word | c == 0x20 || c == 0x21 witness 0x20
  type WriteCommand = c: Word | c == 0x30 || c == 0x31 || c == 0x3c witness 0x30

  /** Write data to the sectors from a on. */
  function WriteSectors(d: Device, a: Chs, data: seq<Words>, command: WriteCommand): (e: Device)
    requires Built(d) && OnDisk(a) && 1 <= |data| <= 256
    ensures Built(e)
  {
    SendSectors(HostWrite(SetAddress(d, a, |data|), 7, command), data)
  }

  function ReceiveWords(d: Device, n: nat): (r: (Device, seq<Word>))
    requires Built(d)
    ensures Built(r.0) && |r.1| == n
  {
    if n == 0 then (d, []) else
      var (d1, ws) := ReceiveWords(d, n - 1);
      var (d2, w) := HostRead(d1, 0);
      (d2, ws + [w])
  }

  function ReceiveSectors(d: Device, k: nat): (r: (Device, seq<Words>))
    requires Built(d)
    ensures Built(r.0) && |r.1| == k
    decreases k
  {
    if k == 0 then (d, []) else
      var (d1, ws) := ReceiveWords(d, WORDS_PER_SECTOR);
      var (d2, data) := ReceiveSectors(d1, k - 1);
      (d2, [ws] + data)
  }

  /** Read k sectors from a on. */
  function ReadSectors(d: Device, a: Chs, k: nat, command: ReadCommand): (r: (Device, seq<Words>))
    requires Built(d) && OnDisk(a) && 1 <= k <= 256
    ensures Built(r.0) && |r.1| == k
  {
    ReceiveSectors(HostWrite(SetAddress(d, a, k), 7, command), k)
  }

  // ----- the linear numbering -----

  lemma BlockIsUnique(a: Chs, b: Chs)
    requires OnDisk(a) && OnDisk(b)
    ensures Block(a) == Block(b) <==> a == b
  {}

  lemma NextBlock(a: Chs)
    requires OnDisk(a) && Block(a) + 1 < TOTAL
    ensures !RunsOff(a) && OnDisk(NextChs(a)) && Block(NextChs(a)) == Block(a) + 1
  {}

  lemma AddressShown(d: Device)
    requires Built(d) && OnDisk(d.current)
    ensures Addressed(ShowAddress(d)) == d.current
  {}

  // ----- commands -----

  /** No data is requested and a command will be accepted. */
  predicate Idle(d: Device)
    requires Built(d)
  {
    d.exit == Running && d.registers[STATUS] in {0x50, 0x51}
  }

  predicate Aimed(d: Device, a: Chs, k: nat)
    requires Built(d)
  {
    && Addressed(d) == a && Counted(d, k)
  }

  /** The register for drive and head says CHS, drive 0, and the sector count register says k. */
  predicate Counted(d: Device, k: nat)
    requires Built(d)
  {
    d.registers[SDH] / 0x10 == 0xa && d.registers[SECTOR_COUNT] == k % 256
  }

  lemma PlainWrite(d: Device, r: nat, v: Word)
    requires Built(d) && Idle(d) && 1 <= r <= 6
    ensures HostWrite(d, r, v) == SetRegister(d, r + 1, if r == 6 then v % 32 + 32 + v / 64 % 2 * 64 + 128 else v)
    ensures Idle(HostWrite(d, r, v))
  {}

  lemma AddressSet(d: Device, a: Chs, k: nat)
    requires Built(d) && Idle(d) && OnDisk(a) && 1 <= k <= 256
    ensures var e := SetAddress(d, a, k);
            Idle(e) && Aimed(e, a, k) && e == d.(registers := e.registers)
  {
    hide HostWrite, Idle, Aimed, Addressed;
    PlainWrite(d, 6, a.h);
    var d1 := HostWrite(d, 6, a.h);
    PlainWrite(d1, 5, a.c / 256);
    var d2 := HostWrite(d1, 5, a.c / 256);
    PlainWrite(d2, 4, a.c % 256);
    var d3 := HostWrite(d2, 4, a.c % 256);
    PlainWrite(d3, 3, a.s);
    var d4 := HostWrite(d3, 3, a.s);
    PlainWrite(d4, 2, k % 256);
    AimedAt(SetAddress(d, a, k), a, k);
  }

  lemma AimedAt(e: Device, a: Chs, k: nat)
    requires Built(e) && OnDisk(a)
    requires e.registers[SDH] == a.h + 32 + 128 && e.registers[CYLINDER_HIGH] == a.c / 256
    requires e.registers[CYLINDER_LOW] == a.c % 256 && e.registers[SECTOR_NUMBER] == a.s && e.registers[SECTOR_COUNT] == k % 256
    ensures Aimed(e, a, k)
  {}

  /** A transfer of k sectors from block l0 on that has come to the beginning of sector j. */
  predicate Transferring(d: Device, read: bool, l0: int, k: nat, j: nat)
    requires Built(d)
  {
    && d.exit == Running && d.registers[STATUS] == 0x08 && d.dataIn == read && d.dataOut == !read
    && d.sectorCount == j < k == d.toAccess && d.transferred == 0
    && OnDisk(d.current) && Block(d.current) == l0 + j
    && (read ==> d.filled && d.buffer == d.disk[Block(d.current)])
    && Counted(d, k) && d.registers[ERROR] == 0
  }

  /** A command on k sectors has succeeded; the address of block l is in the registers. */
  predicate Completed(d: Device, l: int, k: nat)
    requires Built(d)
  {
    && Idle(d) && d.registers[STATUS] == 0x50 && d.registers[ALTERNATE_STATUS] == 0x50
    && OnDisk(Addressed(d)) && Block(Addressed(d)) == l
    && Counted(d, k) && d.registers[ERROR] == 0 && d.extendedError == 0
  }

  /** The transfer is over: its last address is in the registers. */
  predicate Ended(d: Device, l0: int, k: nat)
    requires Built(d)
  {
    Completed(d, l0 + k - 1, k) && d.sectorCount == k
  }

  /** The transfer has come to the end of the disk with sectors left to do: the device says so and shows the address
      behind the last cylinder. */
  predicate Overrun(d: Device, k: nat)
    requires Built(d)
  {
    && Idle(d) && d.registers[STATUS] == 0x51 && d.registers[ALTERNATE_STATUS] == 0x51
    && Addressed(d) == Chs(CYLINDERS + 1, 1, 1)
    && Counted(d, k) && d.registers[ERROR] == 4 && d.extendedError == 0x21
  }

  lemma SetStatusReads(d: Device, v: int)
    requires Built(d) && 0 <= v < 256
    ensures var e := SetStatus(d, v);
      && e == d.(registers := e.registers) && e.registers[STATUS] == v && e.registers[ALTERNATE_STATUS] == v
      && Addressed(e) == Addressed(d) && SameSettings(d, e) && e.registers[ERROR] == d.registers[ERROR]
  {}

  /** The registers that the host sets for a command. */
  predicate SameSettings(d: Device, e: Device)
    requires Built(d) && Built(e)
  {
    forall r :: SECTOR_COUNT <= r <= SDH ==> e.registers[r] == d.registers[r]
  }

  lemma FirstPrepared(d: Device, read: bool, k: nat)
    requires Built(d) && d.exit == Running && OnDisk(d.current) && d.sectorCount == 0 && d.toAccess == k > 0
    requires d.dataIn == read && d.dataOut == !read && Counted(d, k) && d.registers[ERROR] == 0
    ensures var e := Prepare(d, read, false);
            Transferring(e, read, Block(d.current), k, 0) && e.disk == d.disk && SameSettings(d, e)
  {
    hide SetStatus, Addressed;
    var d1 := SetRegister(d, STATUS, 0x80);
    var d3 := if read then LoadBuffer(d1, d1.disk[Block(d1.current)], true) else LoadBuffer(d1, Zeros(), d1.filled);
    SetStatusReads(d3, 0x08);
  }

  lemma CommandBegins(d: Device, a: Chs, k: nat, read: bool, command: Word)
    requires Built(d) && Idle(d) && OnDisk(a) && 1 <= k <= 256 && Aimed(d, a, k)
    requires if read then command in {0x20, 0x21} else command in {0x30, 0x31, 0x3c}
    ensures var e := HostWrite(d, 7, command);
            Transferring(e, read, Block(a), k, 0) && e.disk == d.disk && SameSettings(d, e)
  {
    hide Prepare, Addressed, SetStatus, Abort, Transferring;
    var d0 := SetRegister(d, COMMAND, command);
    var d1 := SetRegister(SetRegister(d0, STATUS, WithBusy(d0.registers[STATUS])), ALTERNATE_STATUS, WithBusy(d0.registers[ALTERNATE_STATUS]));
    StatusIdle(d);
    assert !Requests(d0) && d1.registers[COMMAND] == command;
    SameAddress(d, d1);
    HandleBegins(d1, a, k, read);
  }

  lemma StatusIdle(d: Device)
    requires Built(d) && Idle(d)
    ensures !Requests(d) && !Busy(d)
  {}

  lemma SameAddress(d: Device, e: Device)
    requires Built(d) && Built(e) && forall r :: 0 < r < STATUS ==> e.registers[r] == d.registers[r]
    ensures Addressed(e) == Addressed(d)
  {}

  lemma HandleBegins(d: Device, a: Chs, k: nat, read: bool)
    requires Built(d) && d.exit == Running && OnDisk(a) && 1 <= k <= 256 && Aimed(d, a, k)
    ensures var e := HandleReadWrite(d, read, false);
            Transferring(e, read, Block(a), k, 0) && e.disk == d.disk && SameSettings(d, e)
  {
    hide Prepare, Addressed, Transferring;
    var d1 := SetRegister(d, ERROR, 0);
    SameAddressBut(d, d1);
    var count := d1.registers[SECTOR_COUNT] % 256;
    var d2 := Aim(d1, if count == 0 then MAX_SECTORS_PER_ACCESS else count);
    FirstPrepared(BeginTransfer(d2, read), read, k);
  }

  lemma SameAddressBut(d: Device, e: Device)
    requires Built(d) && Built(e) && e.registers == d.registers[ERROR := e.registers[ERROR]]
    ensures Addressed(e) == Addressed(d)
  {}

  // ----- between sectors -----

  /** What follows when sector j has been transferred: the next sector, the end of the disk or of the transfer. */
  predicate Continues(d: Device, read: bool, l0: int, k: nat, j: nat)
    requires Built(d)
  {
    if j >= k then Ended(d, l0, k) else if l0 + j < TOTAL then Transferring(d, read, l0, k, j) else Overrun(d, k)
  }

  /** All sectors are done. */
  lemma EndPrepared(d: Device, read: bool, verify: bool, k: nat)
    requires Built(d) && d.exit == Running && OnDisk(d.current) && d.sectorCount >= d.toAccess
    requires Counted(d, k) && d.registers[ERROR] == 0
    ensures var e := Prepare(d, read, verify);
            Completed(e, Block(d.current), k) && e.disk == d.disk && e.sectorCount == d.sectorCount
  {
    hide SetStatus, Addressed, ShowAddress, Counted;
    var d1 := EndTransfer(d);
    AddressShown(d1);
    ShowsOnly(d1);
    SetStatusReads(ShowAddress(d1), 0x50);
    StillCounted(d, Prepare(d, read, verify), k);
  }

  /** There is no next sector. */
  lemma OverrunPrepared(d: Device, read: bool, verify: bool, k: nat)
    requires Built(d) && d.exit == Running && OnDisk(d.current) && 0 < d.sectorCount < d.toAccess
    requires Block(d.current) + 1 == TOTAL && Counted(d, k)
    ensures var e := Prepare(d, read, verify);
            Overrun(e, k) && e.disk == d.disk && e.sectorCount == d.sectorCount
  {
    hide SetStatus, Addressed, ShowAddress, Counted;
    var d2 := MoveTo(SetRegister(d, STATUS, 0x80), NextChs(d.current));
    LastBlock(d.current);
    BehindShown(d2);
    ShowsOnly(d2);
    var d3 := SetRegister(ShowAddress(d2), ERROR, 4).(extendedError := 0x21);
    SameAddressBut(ShowAddress(d2), d3);
    SetStatusReads(d3, 0x51);
    StillCounted(d, Prepare(d, read, verify), k);
  }

  lemma NextPrepared(d: Device, read: bool, l0: int, k: nat, j: nat)
    requires Built(d) && d.exit == Running && d.dataIn == read && d.dataOut == !read
    requires d.sectorCount == j + 1 <= k == d.toAccess && OnDisk(d.current) && Block(d.current) == l0 + j
    requires Counted(d, k) && d.registers[ERROR] == 0
    ensures var e := Prepare(d, read, false);
            Continues(e, read, l0, k, j + 1) && e.disk == d.disk
  {
    hide SetStatus, Addressed, ShowAddress, Counted, Completed, Overrun;
    if j + 1 == k {
      EndPrepared(d, read, false, k);
    } else if l0 + j + 1 == TOTAL {
      OverrunPrepared(d, read, false, k);
    } else {
      NextBlock(d.current);
      var d2 := MoveTo(SetRegister(d, STATUS, 0x80), NextChs(d.current));
      var d3 := if read then LoadBuffer(d2, d2.disk[Block(d2.current)], true) else LoadBuffer(d2, Zeros(), d2.filled);
      SetStatusReads(d3, 0x08);
      StillCounted(d, Prepare(d, read, false), k);
    }
  }

  lemma ShowsOnly(d: Device)
    requires Built(d)
    ensures ShowAddress(d) == d.(registers := ShowAddress(d).registers)
    ensures forall r :: 0 <= r < 12 && !(SECTOR_NUMBER <= r <= SDH) ==> ShowAddress(d).registers[r] == d.registers[r]
    ensures ShowAddress(d).registers[SDH] / 16 == d.registers[SDH] % 256 / 16
  {}

  lemma StillCounted(d: Device, e: Device, k: nat)
    requires Built(d) && Built(e) && Counted(d, k) && e.registers[SECTOR_COUNT] == d.registers[SECTOR_COUNT]
    requires e.registers[SDH] / 16 == d.registers[SDH] % 256 / 16 || e.registers[SDH] == d.registers[SDH]
    ensures Counted(e, k)
  {}

  lemma LastBlock(a: Chs)
    requires OnDisk(a) && Block(a) + 1 == TOTAL
    ensures RunsOff(a) && NextChs(a) == Chs(CYLINDERS + 1, 1, 1)
  {}

  lemma BehindShown(d: Device)
    requires Built(d) && d.current == Chs(CYLINDERS + 1, 1, 1)
    ensures Addressed(ShowAddress(d)) == d.current
  {}

  // ----- writing -----

  /** The bytes of a sector of words, low byte first. */
  function SectorOf(ws: Words): Sector {
    seq(BYTES_PER_SECTOR, b requires 0 <= b < BYTES_PER_SECTOR => if b % 2 == 0 then ws[b / 2] % 256 else ws[b / 2] / 256)
  }

  lemma {:induction false} SomeSent(d: Device, l0: int, k: nat, j: nat, ws: seq<Word>)
    requires Built(d) && Transferring(d, false, l0, k, j) && |ws| < 256
    ensures var e := SendWords(d, ws);
      && e == d.(buffer := e.buffer, transferred := 2 * |ws|)
      && forall i :: 0 <= i < |ws| ==> e.buffer[2 * i] == ws[i] % 256 && e.buffer[2 * i + 1] == ws[i] / 256
  {
    hide Prepare;
    if ws != [] {
      var m := |ws| - 1;
      SomeSent(d, l0, k, j, ws[..m]);
      var e := SendWords(d, ws[..m]);
      assert forall i :: 0 <= i < m ==> ws[..m][i] == ws[i];
    }
  }

  /** The buffer after the last of 256 words. */
  lemma BufferFull(before: Sector, after: Sector, ws: Words)
    requires forall i :: 0 <= i < 255 ==> before[2 * i] == ws[i] % 256 && before[2 * i + 1] == ws[i] / 256
    requires after == before[510 := ws[255] % 256][511 := ws[255] / 256]
    ensures after == SectorOf(ws)
  {
    forall b | 0 <= b < BYTES_PER_SECTOR
      ensures after[b] == SectorOf(ws)[b]
    {
      var i := b / 2;
      if i < 255 { assert before[2 * i] == ws[i] % 256; }
    }
  }

  lemma SectorSent(d: Device, l0: int, k: nat, j: nat, ws: Words)
    requires Built(d) && Transferring(d, false, l0, k, j)
    ensures var e := SendWords(d, ws);
            Continues(e, false, l0, k, j + 1) && e.disk == d.disk[l0 + j := SectorOf(ws)]
  {
    hide Prepare, Continues, SectorOf;
    SomeSent(d, l0, k, j, ws[..255]);
    assert forall i :: 0 <= i < 255 ==> ws[..255][i] == ws[i];
    var e := SendWords(d, ws[..255]);
    var d1 := PutBytes(e, ws[255]);
    BufferFull(e.buffer, d1.buffer, ws);
    NextPrepared(CountSector(WriteSector(d1)), false, l0, k, j);
    assert SendWords(d, ws) == HostWrite(e, 0, ws[255]);
  }

  lemma {:induction false} SectorsSent(d: Device, l0: int, k: nat, j: nat, data: seq<Words>)
    requires Built(d) && Continues(d, false, l0, k, j) && 0 <= l0 && j + |data| <= k && l0 + j + |data| <= TOTAL
    ensures var e := SendSectors(d, data);
      && Continues(e, false, l0, k, j + |data|)
      && (forall b :: 0 <= b < TOTAL && !(l0 + j <= b < l0 + j + |data|) ==> e.disk[b] == d.disk[b])
      && (forall i :: 0 <= i < |data| ==> e.disk[l0 + j + i] == SectorOf(data[i]))
    decreases |data|
  {
    hide SendWords, Transferring, Ended, Overrun, SectorOf;
    if data != [] {
      SectorSent(d, l0, k, j, data[0]);
      var d1 := SendWords(d, data[0]);
      SectorsSent(d1, l0, k, j + 1, data[1..]);
      var e := SendSectors(d, data);
      forall i | 0 <= i < |data|
        ensures e.disk[l0 + j + i] == SectorOf(data[i])
      {
        if i > 0 { assert e.disk[l0 + j + 1 + (i - 1)] == SectorOf(data[1..][i - 1]); }
      }
    }
  }

  /** Writing |data| sectors from a on stores exactly those blocks of the linear numbering and leaves the last
      address in the registers. When more sectors were announced than the disk has from there on, the device stores
      all that fit and then refuses. */
  lemma WritingProceeds(d: Device, a: Chs, k: nat, data: seq<Words>, command: WriteCommand)
    requires Built(d) && Idle(d) && OnDisk(a) && |data| <= k && 1 <= k <= 256 && Block(a) + |data| <= TOTAL
    ensures var e := SendSectors(HostWrite(SetAddress(d, a, k), 7, command), data);
      && Continues(e, false, Block(a), k, |data|)
      && (forall b :: 0 <= b < TOTAL && !(Block(a) <= b < Block(a) + |data|) ==> e.disk[b] == d.disk[b])
      && (forall i :: 0 <= i < |data| ==> e.disk[Block(a) + i] == SectorOf(data[i]))
  {
    hide Idle, Ended, Overrun, SetAddress, Aimed, Transferring, HostWrite, SendSectors;
    AddressSet(d, a, k);
    CommandBegins(SetAddress(d, a, k), a, k, false, command);
    SectorsSent(HostWrite(SetAddress(d, a, k), 7, command), Block(a), k, 0, data);
  }

  lemma WritingStores(d: Device, a: Chs, data: seq<Words>, command: WriteCommand)
    requires Built(d) && Idle(d) && OnDisk(a) && 1 <= |data| <= 256 && Block(a) + |data| <= TOTAL
    ensures var e := WriteSectors(d, a, data, command);
      && Ended(e, Block(a), |data|)
      && (forall b :: 0 <= b < TOTAL && !(Block(a) <= b < Block(a) + |data|) ==> e.disk[b] == d.disk[b])
      && (forall i :: 0 <= i < |data| ==> e.disk[Block(a) + i] == SectorOf(data[i]))
  {
    hide Idle, Ended, Overrun, SetAddress, HostWrite, SendSectors, SectorOf;
    WritingProceeds(d, a, |data|, data, command);
  }

  lemma WritingOverruns(d: Device, a: Chs, k: nat, data: seq<Words>, command: WriteCommand)
    requires Built(d) && Idle(d) && OnDisk(a) && |data| < k <= 256 && Block(a) + |data| == TOTAL
    ensures var e := SendSectors(HostWrite(SetAddress(d, a, k), 7, command), data);
      && Overrun(e, k)
      && (forall b :: 0 <= b < Block(a) ==> e.disk[b] == d.disk[b])
      && (forall i :: 0 <= i < |data| ==> e.disk[Block(a) + i] == SectorOf(data[i]))
  {
    hide Idle, Ended, Overrun, SetAddress, HostWrite, SendSectors, SectorOf;
    WritingProceeds(d, a, k, data, command);
  }

  // ----- reading -----

  function WordsOf(s: Sector): Words {
    seq(WORDS_PER_SECTOR, i requires 0 <= i < WORDS_PER_SECTOR => 256 * (s[2 * i + 1] as int) + s[2 * i] as int)
  }

  lemma WordsAndBytes(ws: Words)
    ensures WordsOf(SectorOf(ws)) == ws
  {
    forall i | 0 <= i < WORDS_PER_SECTOR
      ensures WordsOf(SectorOf(ws))[i] == ws[i]
    {
      assert (2 * i) / 2 == i && (2 * i + 1) / 2 == i;
    }
  }

  /** One word inside a sector. */
  lemma OneReceived(d: Device, i: nat)
    requires Built(d) && d.dataIn && d.filled && d.transferred == 2 * i && i < 255
    ensures var (e, w) := HostRead(d, 0);
            e == CountBytes(SetRegister(d, DATA, w)) && w == WordsOf(d.buffer)[i]
  {
    hide Prepare;
  }

  /** The last word of a sector. */
  lemma LastReceived(d: Device)
    requires Built(d) && d.dataIn && d.filled && d.transferred == 510
    ensures var (e, w) := HostRead(d, 0);
            e == Prepare(CountSector(CountBytes(SetRegister(d, DATA, w))), true, false) && w == WordsOf(d.buffer)[255]
  {
    hide Prepare;
  }

  lemma {:induction false} SomeReceived(d: Device, l0: int, k: nat, j: nat, n: nat)
    requires Built(d) && Transferring(d, true, l0, k, j) && n < 256
    ensures var (e, ws) := ReceiveWords(d, n);
      && e == d.(registers := d.registers[DATA := e.registers[DATA]], transferred := 2 * n)
      && ws == WordsOf(d.buffer)[..n]
  {
    hide HostRead, WordsOf;
    if n > 0 {
      SomeReceived(d, l0, k, j, n - 1);
      var (e, ws) := ReceiveWords(d, n - 1);
      OneReceived(e, n - 1);
      assert WordsOf(d.buffer)[..n] == WordsOf(d.buffer)[..n - 1] + [WordsOf(d.buffer)[n - 1]];
    }
  }

  lemma SectorReceived(d: Device, l0: int, k: nat, j: nat)
    requires Built(d) && Transferring(d, true, l0, k, j)
    ensures var (e, ws) := ReceiveWords(d, WORDS_PER_SECTOR);
            Continues(e, true, l0, k, j + 1) && e.disk == d.disk && ws == WordsOf(d.disk[l0 + j])
  {
    hide Prepare, Continues, HostRead, WordsOf;
    SomeReceived(d, l0, k, j, 255);
    var (e, ws) := ReceiveWords(d, 255);
    LastReceived(e);
    NextPrepared(CountSector(CountBytes(SetRegister(e, DATA, HostRead(e, 0).1))), true, l0, k, j);
    assert WordsOf(d.buffer) == WordsOf(d.buffer)[..255] + [WordsOf(d.buffer)[255]];
  }

  lemma {:induction false} SectorsReceived(d: Device, l0: int, k: nat, j: nat, m: nat)
    requires Built(d) && Continues(d, true, l0, k, j) && 0 <= l0 && j + m <= k && l0 + j + m <= TOTAL
    ensures var (e, data) := ReceiveSectors(d, m);
      && Continues(e, true, l0, k, j + m) && e.disk == d.disk
      && forall i :: 0 <= i < m ==> data[i] == WordsOf(d.disk[l0 + j + i])
    decreases m
  {
    hide ReceiveWords, Transferring, Ended, Overrun, WordsOf;
    if m > 0 {
      SectorReceived(d, l0, k, j);
      SectorsReceived(ReceiveWords(d, WORDS_PER_SECTOR).0, l0, k, j + 1, m - 1);
    }
  }

  /** Reading m of k sectors from a on gives exactly those blocks and changes none; a transfer beyond the end of the
      disk is refused there. */
  lemma ReadingProceeds(d: Device, a: Chs, k: nat, m: nat, command: ReadCommand)
    requires Built(d) && Idle(d) && OnDisk(a) && m <= k && 1 <= k <= 256 && Block(a) + m <= TOTAL
    ensures var (e, data) := ReceiveSectors(HostWrite(SetAddress(d, a, k), 7, command), m);
      && Continues(e, true, Block(a), k, m) && e.disk == d.disk
      && forall i :: 0 <= i < m ==> data[i] == WordsOf(d.disk[Block(a) + i])
  {
    hide Idle, Ended, Overrun, SetAddress, Aimed, Transferring, HostWrite, ReceiveSectors;
    AddressSet(d, a, k);
    CommandBegins(SetAddress(d, a, k), a, k, true, command);
    SectorsReceived(HostWrite(SetAddress(d, a, k), 7, command), Block(a), k, 0, m);
  }

  lemma ReadingGives(d: Device, a: Chs, k: nat, command: ReadCommand)
    requires Built(d) && Idle(d) && OnDisk(a) && 1 <= k <= 256 && Block(a) + k <= TOTAL
    ensures var (e, data) := ReadSectors(d, a, k, command);
      && Ended(e, Block(a), k) && e.disk == d.disk
      && forall i :: 0 <= i < k ==> data[i] == WordsOf(d.disk[Block(a) + i])
  {
    hide Idle, Ended, Overrun, SetAddress, HostWrite, ReceiveSectors, WordsOf;
    ReadingProceeds(d, a, k, k, command);
  }

  lemma ReadingOverruns(d: Device, a: Chs, k: nat, m: nat, command: ReadCommand)
    requires Built(d) && Idle(d) && OnDisk(a) && m < k <= 256 && Block(a) + m == TOTAL
    ensures var (e, data) := ReceiveSectors(HostWrite(SetAddress(d, a, k), 7, command), m);
      && Overrun(e, k) && e.disk == d.disk
      && forall i :: 0 <= i < m ==> data[i] == WordsOf(d.disk[Block(a) + i])
  {
    hide Idle, Ended, Overrun, SetAddress, HostWrite, ReceiveSectors, WordsOf;
    ReadingProceeds(d, a, k, m, command);
  }

  /** The device refines a flat disk: what was written to k sectors is what the same read gives back, whichever of
      the commands were used. */
  lemma WriteThenRead(d: Device, a: Chs, data: seq<Words>, write: WriteCommand, read: ReadCommand)
    requires Built(d) && Idle(d) && OnDisk(a) && 1 <= |data| <= 256 && Block(a) + |data| <= TOTAL
    ensures var e := WriteSectors(d, a, data, write);
            var (f, back) := ReadSectors(e, a, |data|, read);
            back == data && f.disk == e.disk && Ended(f, Block(a), |data|)
  {
    hide WriteSectors, ReadSectors, SectorOf, WordsOf, Idle;
    WritingStores(d, a, data, write);
    var e := WriteSectors(d, a, data, write);
    ReadingGives(e, a, |data|, read);
    forall i | 0 <= i < |data|
      ensures ReadSectors(e, a, |data|, read).1[i] == data[i]
    {
      WordsAndBytes(data[i]);
    }
  }
}
