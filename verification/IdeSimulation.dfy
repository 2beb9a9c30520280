/** The global device of ide_simulation.c and the procedures that change it, each proved to do what the functions
    of Ide say. */
module IdeSimulation {
  import I = Ide

  class IdeDevice {
    const registers: array<I.Word>
    const device: array<I.Sector>
    const buffer: array<I.Byte>
    var current: I.Chs
    var toAccess: int
    var sectorCount: nat
    var dataIn: bool
    var dataOut: bool
    var transferred: nat
    var filled: bool
    var extendedError: int
    var exit: I.Exit

    ghost predicate Valid() {
      registers.Length == 12 && device.Length == I.TOTAL && buffer.Length == I.BYTES_PER_SECTOR
    }

    ghost function State(): (d: I.Device)
      requires Valid()
      reads this, registers, device, buffer
      ensures I.Built(d)
    {
      I.Device(registers[..], device[..], buffer[..], current, toAccess, sectorCount, dataIn, dataOut, transferred,
               filled, extendedError, exit)
    }

    method SetRegister(r: int, v: int)
      requires Valid() && 0 <= r < 12
      modifies registers
      ensures State() == I.SetRegister(old(State()), r, v)
    {
      registers[r] := if r == I.DATA then v % 0x1_0000 else v % 256;
    }

    method SetStatus(v: int)
      requires Valid()
      modifies registers
      ensures State() == I.SetStatus(old(State()), v)
    {
      hide I.SetRegister;
      SetRegister(I.STATUS, v);
      SetRegister(I.ALTERNATE_STATUS, v);
    }

    method ShowAddress()
      requires Valid()
      modifies registers
      ensures State() == I.ShowAddress(old(State()))
    {
      hide I.SetRegister;
      SetRegister(I.SDH, current.h % 16 + registers[I.SDH] % 256 / 16 * 16);
      SetRegister(I.SECTOR_NUMBER, current.s);
      SetRegister(I.CYLINDER_HIGH, current.c / 256);
      SetRegister(I.CYLINDER_LOW, current.c);
    }

    method Abort(extended: int)
      requires Valid()
      modifies this, registers
      ensures State() == I.Abort(old(State()), extended)
    {
      SetRegister(I.ERROR, 4);
      extendedError := extended;
      SetStatus(0x51);
    }

    /** Fill the buffer, byte by byte, from the current sector or with zeros. */
    method FillBuffer(read: bool)
      requires Valid() && (read ==> I.OnDisk(current))
      modifies this`transferred, this`filled, buffer
      ensures State() == I.LoadBuffer(old(State()), if read then old(State()).disk[I.Block(current)] else I.Zeros(),
                                      if read then true else old(State()).filled)
    {
      ghost var source: I.Sector := if read then device[I.Block(current)] else I.Zeros();
      for i := 0 to I.BYTES_PER_SECTOR
        invariant forall b :: 0 <= b < i ==> buffer[b] == source[b]
        modifies buffer
      {
        buffer[i] := if read then device[I.Block(current)][i] else 0;
      }
      assert buffer[..] == source;
      transferred := 0;
      if read {
        filled := true;
      }
    }

    method Prepare(read: bool, verify: bool)
      requires Valid()
      modifies this, registers, buffer
      ensures State() == I.Prepare(old(State()), read, verify)
    {
      hide I.SetRegister, I.SetStatus, I.ShowAddress, I.Abort, I.OnDisk, I.Block, I.Zeros;
      if sectorCount < toAccess {
        SetRegister(I.STATUS, 0x80);
        var off := sectorCount > 0 && I.RunsOff(current);
        if sectorCount > 0 {
          current := I.NextChs(current);
        }
        if off {
          ShowAddress();
          Abort(0x21);
        } else if read && !I.OnDisk(current) {
          exit := I.OffDisk;
        } else {
          FillBuffer(read);
          if !verify {
            SetStatus(0x08);
          }
        }
      } else {
        extendedError, filled, dataIn, dataOut := 0, false, false, false;
        ShowAddress();
        SetStatus(0x50);
      }
    }

    method VerifySectors()
      requires Valid()
      modifies this, registers, buffer
      ensures State() == I.VerifySectors(old(State()))
    {
      hide I.Prepare, I.SetRegister;
      ghost var d := State();
      var go := true;
      while go
        invariant if go then I.VerifyLoop(State()) == I.VerifyLoop(d) else State() == I.VerifyLoop(d)
        decreases go, toAccess - sectorCount
      {
        Prepare(true, true);
        sectorCount := sectorCount + 1;
        go := exit == I.Running && sectorCount <= toAccess && registers[I.STATUS] / 0x80 % 2 == 1;
      }
      if registers[I.STATUS] % 2 == 1 {
        var unverified := toAccess - sectorCount;
        if unverified == I.MAX_SECTORS_PER_ACCESS {
          unverified := 0;
        }
        SetRegister(I.SECTOR_COUNT, unverified);
      }
    }

    method HandleReadWrite(read: bool, verify: bool)
      requires Valid()
      modifies this, registers, buffer
      ensures State() == I.HandleReadWrite(old(State()), read, verify)
    {
      hide I.Prepare, I.VerifySectors, I.Abort, I.SetRegister, I.OnDisk;
      SetRegister(I.ERROR, 0);
      if registers[I.SDH] / 0x40 % 2 == 1 {
        exit := I.Lba;
      } else {
        current := I.Chs(registers[I.CYLINDER_HIGH] % 256 * 256 + registers[I.CYLINDER_LOW] % 256,
                         registers[I.SDH] % 16, registers[I.SECTOR_NUMBER] % 256);
        toAccess := registers[I.SECTOR_COUNT] % 256;
        if toAccess == 0 {
          toAccess := I.MAX_SECTORS_PER_ACCESS;
        }
        if !I.OnDisk(current) {
          Abort(0x21);
        } else if read && verify {
          VerifySectors();
        } else {
          dataIn, dataOut, sectorCount := read, !read, 0;
          Prepare(read, false);
        }
      }
    }

    method ExecuteCommand()
      requires Valid()
      modifies this, registers, buffer
      ensures State() == I.ExecuteCommand(old(State()))
    {
      hide I.HandleReadWrite, I.SetRegister, I.SetStatus, I.Abort, I.WithBusy;
      if registers[I.STATUS] / 8 % 2 == 0 {
        var alternate := registers[I.ALTERNATE_STATUS];
        SetRegister(I.STATUS, I.WithBusy(registers[I.STATUS]));
        SetRegister(I.ALTERNATE_STATUS, I.WithBusy(alternate));
      }
      var command := registers[I.COMMAND] % 256;
      if command == 0x03 {
        SetRegister(I.ERROR, extendedError);
        SetStatus(0x50);
      } else if command == 0x20 || command == 0x21 {
        HandleReadWrite(true, false);
      } else if command == 0x30 || command == 0x31 || command == 0x3c {
        HandleReadWrite(false, false);
      } else if command == 0x40 || command == 0x41 {
        HandleReadWrite(true, true);
      } else {
        Abort(0x20);
      }
    }

    method ClearBuffer()
      requires Valid()
      modifies buffer
      ensures buffer[..] == I.Zeros()
    {
      for i := 0 to I.BYTES_PER_SECTOR
        invariant forall b :: 0 <= b < i ==> buffer[b] == 0
      {
        buffer[i] := 0;
      }
    }

    method ResetRegisters()
      requires Valid()
      modifies registers
      ensures registers[..] == [0, 0, 0, 0, 0, 0, 0, 0xa0, 0x50, 0, 0x50, 2]
    {
      for r := 0 to 12
        invariant forall k :: 0 <= k < r ==> registers[k] == 0
      {
        registers[r] := 0;
      }
      registers[I.SDH] := 0xa0;
      registers[I.STATUS] := 0x50;
      registers[I.ALTERNATE_STATUS] := 0x50;
      registers[I.DEVICE_CONTROL] := 2;
    }

    method Initialize()
      requires Valid()
      modifies this, registers, buffer
      ensures State() == I.Initialize(old(State()))
    {
      hide I.Zeros;
      extendedError, filled, dataIn, dataOut := 0, false, false, false;
      ClearBuffer();
      current := I.Chs(0, 0, 0);
      toAccess, sectorCount, transferred := 0, 0, 0;
      ResetRegisters();
    }

    method ReadData() returns (v: I.Word)
      requires Valid()
      modifies this, registers, buffer
      ensures (State(), v) == I.ReadData(old(State()))
    {
      hide I.Prepare, I.SetRegister;
      if !dataIn {
        v := registers[I.DATA];
      } else if transferred + 1 < I.BYTES_PER_SECTOR && filled {
        v := 256 * (buffer[transferred + 1] as int) + buffer[transferred] as int;
        SetRegister(I.DATA, v);
        transferred := transferred + 2;
        if transferred == I.BYTES_PER_SECTOR {
          sectorCount := sectorCount + 1;
          Prepare(true, false);
        }
      } else {
        exit := I.Unexpected;
        v := 0;
      }
    }

    method WriteData(v: I.Word)
      requires Valid()
      modifies this, registers, buffer, device
      ensures State() == I.WriteData(old(State()), v)
    {
      hide I.Prepare, I.SetRegister;
      if !dataOut {
        SetRegister(I.DATA, v);
      } else if transferred + 1 < I.BYTES_PER_SECTOR {
        buffer[transferred] := v % 256;
        buffer[transferred + 1] := v / 256;
        transferred := transferred + 2;
        if transferred == I.BYTES_PER_SECTOR {
          if !I.OnDisk(current) {
            exit := I.OffDisk;
          } else {
            device[I.Block(current)] := buffer[..];
            sectorCount := sectorCount + 1;
            Prepare(false, false);
          }
        }
      } else {
        exit := I.Unexpected;
      }
    }

    method HostWrite(a: nat, v: I.Word)
      requires Valid()
      modifies this, registers, buffer, device
      ensures State() == I.HostWrite(old(State()), a, v)
    {
      hide I.WriteData, I.ExecuteCommand, I.Initialize, I.SetRegister;
      if registers[I.STATUS] / 0x80 % 2 == 0 || a == 8 {
        if a == 0 {
          WriteData(v);
        } else if a <= 5 {
          SetRegister(a + 1, v);
        } else if a == 6 {
          SetRegister(I.SDH, v % 32 + 32 + v / 64 % 2 * 64 + 128);
        } else if a == 7 {
          SetRegister(I.COMMAND, v);
          ExecuteCommand();
        } else if a == 8 {
          SetRegister(I.DEVICE_CONTROL, v);
          if registers[I.DEVICE_CONTROL] / 4 % 2 == 1 {
            Initialize();
          }
        } else {
          exit := I.IllegalRegister;
        }
      }
    }

    method HostRead(a: nat) returns (v: I.Word)
      requires Valid()
      modifies this, registers, buffer
      ensures (State(), v) == I.HostRead(old(State()), a)
    {
      hide I.ReadData;
      v := 0;
      if a == 0 {
        v := ReadData();
      } else if a == 1 {
        v := registers[I.ERROR] % 256;
      } else if a <= 5 {
        v := registers[a + 1] % 256;
      } else if a == 6 {
        v := registers[I.SDH] % 256;
      } else if a == 7 {
        v := registers[I.STATUS] % 256;
      } else if a == 8 {
        v := registers[I.ALTERNATE_STATUS] % 256;
      } else {
        exit := I.IllegalRegister;
      }
    }
  }
}
