/**
  selectrix.c as the program runs it, for one open port: the flags, the shadow of the bus, and the bytes to the
  interface. Its methods do to this state what SelectrixBus says of a central.
 */
module Selectrix {
  import opened SelectrixBus

  class Bus {
    const busData: array<Word>
    var sxFlags: Word
    var written: seq<int>

    ghost predicate Valid()
      reads this
    {
      busData.Length == MAX_ADDRESS
    }

    ghost function State(): (c: Central)
      reads this, busData
    {
      Central(sxFlags, busData[..], written)
    }

    /** The part of readconfig_Selectrix that clears the shadow; the rest of the array is as the memory was. */
    constructor (flags: Word)
      ensures Valid() && fresh(busData)
      ensures sxFlags == flags && written == []
      ensures forall a :: 0 <= a < 112 ==> busData[a] == 0
    {
      busData := new Word[MAX_ADDRESS];
      sxFlags := flags;
      written := [];
      new;
      for i := 0 to 112
        invariant sxFlags == flags && written == []
        invariant forall a :: 0 <= a < i ==> busData[a] == 0
      {
        busData[i] := 0;
      }
    }

    method WritePort(data: Word)
      modifies `written
      ensures State() == SelectrixBus.WritePort(old(State()), Low(data))
    {
      written := written + [Low(data)];
    }

    /** selRautenhaus. */
    method SelRautenhaus(adres: nat)
      modifies `sxFlags, `written
      ensures State() == Select(old(State()), adres)
    {
      hide Has, WithBus0, WithBus1;
      LowConstants();
      if TwoBuses(sxFlags) {
        if adres > 127 {
          if !Has(sxFlags, RAUTENHAUS_RTBS) {
            WritePort(0x80 + 126);
            WritePort(0x02);
            sxFlags := WithBus1(sxFlags);
          }
        } else {
          if Has(sxFlags, RAUTENHAUS_RTBS) {
            WritePort(0x80 + 126);
            WritePort(0x00);
            sxFlags := WithBus0(sxFlags);
          }
        }
      }
    }

    /** confRautenhaus. */
    method ConfRautenhaus()
      modifies `sxFlags, `written
      ensures State() == Configure(old(State()))
    {
      hide Has, WithBus0, WithBus1, Low;
      ConfigurationBytes(sxFlags);
      LowConstants();
      if Has(sxFlags, RAUTENHAUS_MODE) {
        var configuration := Parts(sxFlags);
        if !Has(sxFlags, RAUTENHAUS_DBL + RAUTENHAUS_RTBS) {
          sxFlags := WithBus0(sxFlags);
        }
        WritePort(0x80 + 126);
        WritePort(configuration);
      }
    }

    /** commandreadSXbus. */
    method CommandReadSXbus(adres: nat)
      modifies `sxFlags, `written
      ensures State() == ReadBus(old(State()), adres)
    {
      SelRautenhaus(adres);
      written := written + [SX_READ + adres % 128];
      written := written + [SX_EMPTY];
    }

    /** writeSXbus. */
    method WriteSXbus(adres: nat, data: Word)
      modifies `sxFlags, `written
      ensures State() == WriteBus(old(State()), adres, Low(data))
    {
      hide Low;
      SelRautenhaus(adres);
      written := written + [SX_WRITE + adres % 128];
      WritePort(data);
    }

    /** The locomotive commands of thr_commandSelectrix. */
    method CommandLoco(addr: nat, removed: bool, direction: int, speed: Word, funcs: Word)
      requires Valid()
      modifies this, busData
      ensures State() == Do(old(State()), Loco(addr, removed, direction, speed, funcs))
    {
      hide WriteBus, Low, LocoData, SwitchData;
      if MAX_ADDRESS > addr && !removed {
        var data := MakeLocoData(busData[addr], direction, speed, funcs);
        WriteSXbus(addr, data);
        busData[addr] := data;
      }
    }

    /** The commands for switches and signals of thr_commandSelectrix. */
    method CommandSwitch(addr: nat, port: int, action: int)
      requires Valid()
      modifies this, busData
      ensures State() == Do(old(State()), Switch(addr, port, action))
    {
      hide WriteBus, Low, LocoData, SwitchData;
      if MAX_ADDRESS > addr {
        var data := MakeSwitchData(busData[addr], port, action);
        WriteSXbus(addr, data);
        busData[addr] := data;
      }
    }

    /** The power commands of thr_commandSelectrix. */
    method CommandPower(on: bool)
      requires Valid()
      modifies this
      ensures State() == Do(old(State()), Power(on))
    {
      hide WriteBus, Configure, Low;
      LowConstants();
      if on {
        WriteSXbus(SX_CONTROL, 0x80);
        ConfRautenhaus();
      } else {
        WriteSXbus(SX_CONTROL, 0x00);
      }
    }
  }

  /** The data of a locomotive, as the command thread puts them together. */
  method MakeLocoData(was: Word, direction: int, speed: Word, funcs: Word) returns (data: Word)
    ensures data == LocoData(was, direction, speed, funcs)
  {
    hide FunctionBit, Together;
    var velocity := speed;
    match direction {
      case 0 => data := 0x20;
      case 1 => data := 0x00;
      case _ =>
        data := was & 0x20;
        velocity := 0;
    }
    assert data == DirectionBit(was, direction) && velocity == Velocity(direction, speed);
    hide DirectionBit, Velocity;
    data := Together(data, velocity, FunctionBit(funcs, 0x01, 0x40), FunctionBit(funcs, 0x02, 0x80));
  }

  /** The data of switches and signals. */
  method MakeSwitchData(was: Word, port: int, action: int) returns (data: Word)
    ensures data == SwitchData(was, port, action)
  {
    hide PortMask, PortBit;
    data := was;
    if 1 <= port <= 8 {
      if action == 0 {
        data := data & PortMask(port);
      } else {
        data := data | PortBit(port);
      }
    }
  }

  /** The configuration byte as the program puts it together. */
  function Parts(flags: Word): Word {
    (if Has(flags, RAUTENHAUS_DBL + RAUTENHAUS_RTBS) then 0x02 else 0x00) |
    (if Has(flags, RAUTENHAUS_FDBCK) then
       (128 + 32) |
       (if Has(flags, CC2000_MODE) then 8 | (if Has(flags, RAUTENHAUS_DBL) then 4 else 0) else 0)
     else 64 + 16)
  }

  lemma ConfigurationBytes(flags: Word)
    ensures Low(Parts(flags)) == Configuration(flags)
  {
    hide Has;
  }

  lemma LowConstants()
    ensures Low(0x80) == 0x80 && Low(0x80 + 126) == SX_WRITE + RAUTENHS_CC
    ensures Low(0x02) == RAUTENHS_B1 && Low(0x00) == RAUTENHS_B0
  {
  }
}
