/**
  What decoders find in the cells of the Selectrix bus, in numbers: after each command, seen from the interface that has
  read the bytes on the port.
 */
module SelectrixDecoder {
  import opened SelectrixBus

  /** The interface after everything that the program has written. */
  function Now(d: Device, c: Central): (now: Device)
    requires IsDevice(d)
    ensures IsDevice(now)
  {
    TakeAll(d, c.port)
  }

  /** The bits of a byte. */
  function Bits(cell: int): Word {
    if 0 <= cell < 256 then cell as Word else 0
  }

  lemma BitsOfLow(data: Word)
    ensures Bits(Low(data)) == data & 0xff
  {
    hide Low;
    LowOf(data);
    LowIsByte(data & 0xff);
  }

  lemma LowOf(data: Word)
    ensures Low(data) == (data & 0xff) as int && data & 0xff <= 0xff
  {
  }

  lemma LowIsByte(byte: Word)
    requires byte <= 0xff
    ensures 0 <= byte as int < 256 && (byte as int) as Word == byte
  {
  }

  // ---------------------------------------------------------------- locomotives

  function SpeedIn(cell: int): Word {
    Bits(cell) & 0x1f
  }

  predicate IsBackward(cell: int) {
    Bits(cell) & 0x20 != 0
  }

  predicate HasLight(cell: int) {
    Bits(cell) & 0x40 != 0
  }

  predicate HasFunction(cell: int) {
    Bits(cell) & 0x80 != 0
  }

  /** What the cell of a locomotive says after a command: direction 0 is backward and 1 forward, any other an emergency
      stop that keeps the direction; the light is bit 0 of the functions, the function bit 1. */
  ghost predicate TellsLoco(before: int, after: int, direction: int, speed: Word, funcs: Word) {
    && SpeedIn(after) == (if direction == 0 || direction == 1 then speed else 0)
    && (IsBackward(after) <==> direction == 0 || (direction != 1 && IsBackward(before)))
    && (HasLight(after) <==> funcs & 1 != 0)
    && (HasFunction(after) <==> funcs & 2 != 0)
  }

  lemma StoredCell(d: Device, c: Central, addr: nat, data: Word)
    requires InStep(d, c) && addr < 256 && Ordinary(addr, c.flags)
    ensures |c.busData| == MAX_ADDRESS && Now(d, c).cells[addr] == Low(c.busData[addr])
    ensures Now(d, Store(c, addr, data)).cells[addr] == Low(data)
    ensures forall a :: Ordinary(a, c.flags) && a != addr ==>
              Now(d, Store(c, addr, data)).cells[a] == Now(d, c).cells[a]
  {
    hide TakeAll, Select, Low, Has;
    StoreInStep(d, c, addr, data);
    StoredInShadow(c, addr, data);
  }

  lemma StoredInShadow(c: Central, addr: nat, data: Word)
    requires |c.busData| == MAX_ADDRESS && addr < 256
    ensures Store(c, addr, data).busData == c.busData[addr := data]
  {
  }

  lemma LocoCell(was: Word, direction: int, speed: Word, funcs: Word)
    requires direction == 0 || direction == 1 ==> speed < 32
    ensures TellsLoco(Low(was), Low(LocoData(was, direction, speed, funcs)), direction, speed, funcs)
  {
    var data := LocoData(was, direction, speed, funcs);
    VelocityIsSmall(direction, speed);
    hide Low, Bits;
    BitsOfLow(was);
    BitsOfLow(data);
    LocoDataMeans(was, direction, speed, funcs);
    hide LocoData;
    ByteBit(was);
    hide FunctionBit, DirectionBit, Velocity;
    DirectionIs(was, direction);
    LightIs(funcs);
    VelocityIs(direction, speed);
  }

  lemma VelocityIsSmall(direction: int, speed: Word)
    requires direction == 0 || direction == 1 ==> speed < 32
    ensures Velocity(direction, speed) < 32
  {
  }

  lemma VelocityIs(direction: int, speed: Word)
    ensures Velocity(direction, speed) == if direction == 0 || direction == 1 then speed else 0
  {
  }

  lemma ByteBit(was: Word)
    ensures (was & 0xff) & 0x20 == was & 0x20
  {
  }

  lemma DirectionIs(was: Word, direction: int)
    ensures DirectionBit(was, direction) != 0 <==> direction == 0 || (direction != 1 && was & 0x20 != 0)
  {
  }

  lemma LightIs(funcs: Word)
    ensures FunctionBit(funcs, 0x01, 0x40) != 0 <==> funcs & 1 != 0
    ensures FunctionBit(funcs, 0x02, 0x80) != 0 <==> funcs & 2 != 0
  {
  }

  /** From the command to the cell: a locomotive decoder finds what was commanded, and no other ordinary cell
      changes; for a locomotive that has been removed nothing is written. */
  lemma LocoIsObeyed(d: Device, c: Central, addr: nat, direction: int, speed: Word, funcs: Word)
    requires InStep(d, c) && addr < 256 && Ordinary(addr, c.flags) && |c.busData| == MAX_ADDRESS
    requires direction == 0 || direction == 1 ==> speed < 32
    ensures var before, after := Now(d, c), Now(d, Do(c, Loco(addr, false, direction, speed, funcs)));
      && TellsLoco(before.cells[addr], after.cells[addr], direction, speed, funcs)
      && (forall a :: Ordinary(a, c.flags) && a != addr ==> after.cells[a] == before.cells[a])
      && Do(c, Loco(addr, true, direction, speed, funcs)) == c
  {
    hide InStep, Store, TellsLoco, LocoData, Low, Now;
    var data := LocoData(c.busData[addr], direction, speed, funcs);
    StoredCell(d, c, addr, data);
    LocoCell(c.busData[addr], direction, speed, funcs);
  }

  // ---------------------------------------------------------------- switches

  /** Ports 1 to 8 are the bits of the cell, the lowest first. */
  function PortWeight(port: int): Word {
    match port
    case 1 => 1 case 2 => 2 case 3 => 4 case 4 => 8
    case 5 => 16 case 6 => 32 case 7 => 64 case 8 => 128
    case _ => 0
  }

  predicate PortIsOn(cell: int, port: int) {
    Bits(cell) & PortWeight(port) != 0
  }

  lemma PortOfByte(was: Word, port: int)
    requires 1 <= port <= 8
    ensures PortIsOn(Low(was), port) <==> IsSet(was, PortBit(port))
  {
    hide Low, Bits;
    BitsOfLow(was);
    PortInByte(was, port);
    SamePorts(port);
    hide PortBit, PortWeight;
  }

  lemma SamePorts(port: int)
    ensures PortWeight(port) == PortBit(port)
  {
  }

  lemma PortInByte(was: Word, port: int)
    requires 1 <= port <= 8
    ensures (was & 0xff) & PortWeight(port) == was & PortWeight(port)
  {
  }

  /** From the command to the cell: the port has the action, and no other port or ordinary cell changes; a port that
      there is not changes nothing. */
  lemma SwitchIsObeyed(d: Device, c: Central, addr: nat, port: int, action: int)
    requires InStep(d, c) && addr < 256 && Ordinary(addr, c.flags) && |c.busData| == MAX_ADDRESS
    ensures var before, after := Now(d, c), Now(d, Do(c, Switch(addr, port, action)));
      && (forall other :: 1 <= other <= 8 ==>
            (PortIsOn(after.cells[addr], other)
             <==> if other == port then action != 0 else PortIsOn(before.cells[addr], other)))
      && forall a :: Ordinary(a, c.flags) && a != addr ==> after.cells[a] == before.cells[a]
  {
    hide InStep, Store, PortIsOn, SwitchData, Low, Now, PortBit, IsSet;
    var was, data := c.busData[addr], SwitchData(c.busData[addr], port, action);
    StoredCell(d, c, addr, data);
    forall other | 1 <= other <= 8
      ensures PortIsOn(Low(data), other) <==> if other == port then action != 0 else PortIsOn(Low(was), other)
    {
      PortOfByte(was, other);
      PortOfByte(data, other);
      if 1 <= port <= 8 {
        SwitchDataMeans(was, port, action, other);
      } else {
        NoSuchPort(was, port, action);
      }
    }
  }

  lemma NoSuchPort(was: Word, port: int, action: int)
    requires !(1 <= port <= 8)
    ensures SwitchData(was, port, action) == was
  {
  }

  // ---------------------------------------------------------------- reading and power

  /** A read asks for the cell of the address. */
  lemma ReadAsks(d: Device, c: Central, addr: nat)
    requires InStep(d, c) && addr < 256
    ensures Now(d, ReadBus(c, addr)).asked == Now(d, c).asked + [if TwoBuses(c.flags) then addr else addr % 128]
  {
    hide Has, TwoBuses, Low, TakeAll, Ordinary, Select;
    SelectInStep(d, c, addr);
    SelectAsksNothing(d, c, addr);
    TakeTwoMore(d, Select(c, addr), SX_READ + addr % 128, SX_EMPTY);
  }

  lemma SelectAsksNothing(d: Device, c: Central, addr: nat)
    requires InStep(d, c) && addr < 256
    ensures Now(d, Select(c, addr)).asked == Now(d, c).asked && Now(d, Select(c, addr)).mode == Idle
    ensures Now(d, Select(c, addr)).protocol == Now(d, c).protocol
    ensures Now(d, Select(c, addr)).reports == Now(d, c).reports
  {
    hide Has, TwoBuses, WithBus0, WithBus1, Low, TakeAll, Ordinary;
    TakeTwoMore(d, c, SX_WRITE + RAUTENHS_CC, RAUTENHS_B1);
    TakeTwoMore(d, c, SX_WRITE + RAUTENHS_CC, RAUTENHS_B0);
  }

  /** Power: cell 127 gets its top bit, or nothing; and with an interface of Rautenhaus, its protocol and its reports
      are on if and only if the flag for automatic reports is set. */
  lemma PowerIsObeyed(d: Device, c: Central, on: bool)
    requires InStep(d, c) && |c.busData| == MAX_ADDRESS
    ensures var before, after := Now(d, c), Now(d, Do(c, Power(on)));
      && after.cells[127] == (if on then 128 else 0)
      && (forall a :: Ordinary(a, c.flags) ==> after.cells[a] == before.cells[a])
      && (if on && Has(c.flags, RAUTENHAUS_MODE)
          then after.protocol == after.reports == Has(c.flags, RAUTENHAUS_FDBCK)
          else after.protocol == before.protocol && after.reports == before.reports)
  {
    hide InStep, Has, Now, Low, Configure, WriteBus, Ordinary;
    var byte := if on then 128 else 0;
    PowerCell(d, c, byte);
    if on { ConfiguredCells(d, WriteBus(c, SX_CONTROL, byte)); }
    DoInStep(d, c, Power(on));
    PowerKeepsShadow(c, on);
    OrdinaryCellsStay(d, c, Do(c, Power(on)));
  }

  lemma PowerKeepsShadow(c: Central, on: bool)
    requires |c.busData| == MAX_ADDRESS
    ensures Do(c, Power(on)).busData == c.busData
  {
  }

  lemma PowerCell(d: Device, c: Central, byte: int)
    requires InStep(d, c)
    ensures InStep(d, WriteBus(c, SX_CONTROL, byte))
    ensures var before, after := Now(d, c), Now(d, WriteBus(c, SX_CONTROL, byte));
      after.cells[127] == byte && after.protocol == before.protocol && after.reports == before.reports
    ensures Has(WriteBus(c, SX_CONTROL, byte).flags, RAUTENHAUS_MODE) == Has(c.flags, RAUTENHAUS_MODE)
    ensures Has(WriteBus(c, SX_CONTROL, byte).flags, RAUTENHAUS_FDBCK) == Has(c.flags, RAUTENHAUS_FDBCK)
  {
    hide TwoBuses, Low, TakeAll, Ordinary, WithBus0, WithBus1, Has;
    ControlInStep(d, c, byte);
    SelectInStep(d, c, SX_CONTROL);
    SelectAsksNothing(d, c, SX_CONTROL);
    OtherFlagsStay(c.flags);
    TakeTwoMore(d, Select(c, SX_CONTROL), SX_WRITE + SX_CONTROL, byte);
  }

  lemma OtherFlagsStay(flags: Word)
    ensures Has(WithBus0(flags), RAUTENHAUS_MODE) == Has(WithBus1(flags), RAUTENHAUS_MODE)
         == Has(flags, RAUTENHAUS_MODE)
    ensures Has(WithBus0(flags), RAUTENHAUS_FDBCK) == Has(WithBus1(flags), RAUTENHAUS_FDBCK)
         == Has(flags, RAUTENHAUS_FDBCK)
  {
  }

  lemma ConfiguredCells(d: Device, c: Central)
    requires InStep(d, c)
    ensures var before, after := Now(d, c), Now(d, Configure(c));
      && after.cells == before.cells
      && if Has(c.flags, RAUTENHAUS_MODE) then after.protocol == after.reports == Has(c.flags, RAUTENHAUS_FDBCK)
         else after.protocol == before.protocol && after.reports == before.reports
  {
    hide TwoBuses, Low, TakeAll, Ordinary, WithBus0, WithBus1, Has, Configuration;
    if Has(c.flags, RAUTENHAUS_MODE) {
      ConfigurationNumber(c.flags);
      TakeTwoMore(d, c, SX_WRITE + RAUTENHS_CC, Configuration(c.flags));
    }
  }

  /** The bits of the configuration byte: 128 and 32 with the flag for automatic reports, otherwise 64 and 16; with it
      and a CC2000, 8 for the clock of one bus and 4 for that of the other. */
  lemma ConfigurationNumber(flags: Word)
    ensures var byte := Configuration(flags);
      && 0 <= byte < 256 && byte % 2 == 0
      && ((byte / 128) % 2 == 1 <==> Has(flags, RAUTENHAUS_FDBCK))
      && ((byte / 64) % 2 == 1 <==> !Has(flags, RAUTENHAUS_FDBCK))
      && ((byte / 32) % 2 == 1 <==> Has(flags, RAUTENHAUS_FDBCK))
      && ((byte / 16) % 2 == 1 <==> !Has(flags, RAUTENHAUS_FDBCK))
      && ((byte / 8) % 2 == 1 <==> Has(flags, RAUTENHAUS_FDBCK) && Has(flags, CC2000_MODE))
      && ((byte / 4) % 2 == 1
          <==> Has(flags, RAUTENHAUS_FDBCK) && Has(flags, CC2000_MODE) && Has(flags, RAUTENHAUS_DBL))
  {
    hide Has;
  }

  lemma OrdinaryCellsStay(d: Device, c: Central, c': Central)
    requires InStep(d, c) && InStep(d, c') && c'.busData == c.busData && TwoBuses(c'.flags) == TwoBuses(c.flags)
    ensures forall a :: Ordinary(a, c.flags) ==> Now(d, c').cells[a] == Now(d, c).cells[a]
  {
    hide TakeAll, Low, Has;
  }
}
