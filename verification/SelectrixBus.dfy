/**
  The Selectrix bus of selectrix.c, as values: the commands that the program writes to the port of the interface,
  and an interface with two buses of 128 cells that reads them. Bytes are numbers below 256.
 */
module SelectrixBus {

  type Word = bv32

  const SX_READ := 0x00
  const SX_WRITE := 0x80
  const SX_EMPTY := 0x5a
  const SX_CONTROL := 127
  const MAX_ADDRESS := 0x100

  const RAUTENHS_CC := 126
  const RAUTENHS_B0 := 0x00
  const RAUTENHS_B1 := 0x02

  const CNTRL_ON := 128
  const CNTRL_OFF := 64
  const FDBCK_ON := 32
  const FDBCK_OFF := 16
  const CLK_OFF0 := 8
  const CLK_OFF1 := 4

  const CC2000_MODE: Word := 0x0001
  const RAUTENHAUS_MODE: Word := 0x0002
  const RAUTENHAUS_FDBCK: Word := 0x0010
  const RAUTENHAUS_DBL: Word := 0x0020
  const RAUTENHAUS_RTBS: Word := 0x0080

  predicate Has(flags: Word, flag: Word) {
    flags & flag == flag
  }

  /** Two buses behind one interface. */
  predicate TwoBuses(flags: Word) {
    Has(flags, RAUTENHAUS_MODE + RAUTENHAUS_DBL)
  }

  function WithBus1(flags: Word): Word { flags | RAUTENHAUS_RTBS }

  function WithBus0(flags: Word): Word { flags & !RAUTENHAUS_RTBS }

  lemma BusFlagSet(flags: Word)
    ensures Has(WithBus1(flags), RAUTENHAUS_RTBS) && !Has(WithBus0(flags), RAUTENHAUS_RTBS)
  {
  }

  lemma BusFlagApart(flags: Word)
    ensures TwoBuses(WithBus1(flags)) == TwoBuses(flags)
    ensures TwoBuses(WithBus0(flags)) == TwoBuses(flags)
  {
  }

  lemma FlagsTogether(flags: Word)
    ensures Has(flags, RAUTENHAUS_DBL + RAUTENHAUS_RTBS) == (Has(flags, RAUTENHAUS_DBL) && Has(flags, RAUTENHAUS_RTBS))
    ensures TwoBuses(flags) == (Has(flags, RAUTENHAUS_MODE) && Has(flags, RAUTENHAUS_DBL))
  {
  }

  // ---------------------------------------------------------------- the program

  /** The flags, the shadow of the cells, and everything written to the port. */
  datatype Central = Central(flags: Word, busData: seq<Word>, port: seq<int>)

  function WritePort(c: Central, byte: int): Central {
    c.(port := c.port + [byte])
  }

  /** The byte that write_port makes of an int. */
  function Low(data: Word): int {
    (data & 0xff) as int
  }

  /** selRautenhaus. */
  function Select(c: Central, addr: int): Central {
    if !TwoBuses(c.flags) then c
    else if addr > 127 then
      if Has(c.flags, RAUTENHAUS_RTBS) then c
      else WritePort(WritePort(c, SX_WRITE + RAUTENHS_CC), RAUTENHS_B1).(flags := WithBus1(c.flags))
    else
      if !Has(c.flags, RAUTENHAUS_RTBS) then c
      else WritePort(WritePort(c, SX_WRITE + RAUTENHS_CC), RAUTENHS_B0).(flags := WithBus0(c.flags))
  }

  /** writeSXbus. */
  function WriteBus(c: Central, addr: int, byte: int): Central {
    WritePort(WritePort(Select(c, addr), SX_WRITE + addr % 128), byte)
  }

  /** commandreadSXbus. */
  function ReadBus(c: Central, addr: int): Central {
    WritePort(WritePort(Select(c, addr), SX_READ + addr % 128), SX_EMPTY)
  }

  /** The configuration byte of confRautenhaus. */
  function Configuration(flags: Word): int {
    (if Has(flags, RAUTENHAUS_DBL + RAUTENHAUS_RTBS) then RAUTENHS_B1 else RAUTENHS_B0) +
    if Has(flags, RAUTENHAUS_FDBCK) then
      CNTRL_ON + FDBCK_ON +
      if Has(flags, CC2000_MODE) then CLK_OFF0 + (if Has(flags, RAUTENHAUS_DBL) then CLK_OFF1 else 0) else 0
    else CNTRL_OFF + FDBCK_OFF
  }

  /** confRautenhaus. */
  function Configure(c: Central): Central {
    if !Has(c.flags, RAUTENHAUS_MODE) then c
    else
      var flags := if Has(c.flags, RAUTENHAUS_DBL + RAUTENHAUS_RTBS) then c.flags else WithBus0(c.flags);
      WritePort(WritePort(c, SX_WRITE + RAUTENHS_CC), Configuration(c.flags)).(flags := flags)
  }

  /** Any direction but 0 and 1 is an emergency stop, which keeps the last direction. */
  function DirectionBit(was: Word, direction: int): Word {
    if direction == 0 then 0x20 else if direction == 1 then 0x00 else was & 0x20
  }

  function Velocity(direction: int, speed: Word): Word {
    if direction == 0 || direction == 1 then speed else 0
  }

  function FunctionBit(funcs: Word, func: Word, bit: Word): Word {
    if funcs & func != 0 then bit else 0
  }

  /** The cell of a locomotive. */
  function LocoData(was: Word, direction: int, speed: Word, funcs: Word): Word {
    Together(DirectionBit(was, direction), Velocity(direction, speed),
             FunctionBit(funcs, 0x01, 0x40), FunctionBit(funcs, 0x02, 0x80))
  }

  function Together(direction: Word, speed: Word, light: Word, func: Word): Word {
    direction + speed + light + func
  }

  /** The constants that set a port and that clear it; ports count from 1. */
  function PortBit(port: int): Word {
    match port
    case 1 => 0x01 case 2 => 0x02 case 3 => 0x04 case 4 => 0x08
    case 5 => 0x10 case 6 => 0x20 case 7 => 0x40 case 8 => 0x80
    case _ => 0
  }

  function PortMask(port: int): Word {
    match port
    case 1 => 0xfe case 2 => 0xfd case 3 => 0xfb case 4 => 0xf7
    case 5 => 0xef case 6 => 0xdf case 7 => 0xbf case 8 => 0x7f
    case _ => 0
  }

  function Changed(was: Word, bit: Word, mask: Word, action: int): Word {
    if action == 0 then was & mask else was | bit
  }

  /** The cell of eight switches or signals. */
  function SwitchData(was: Word, port: int, action: int): Word {
    if 1 <= port <= 8 then Changed(was, PortBit(port), PortMask(port), action) else was
  }

  datatype Command =
    | Loco(addr: nat, removed: bool, direction: int, speed: Word, funcs: Word)
    | Switch(addr: nat, port: int, action: int)
    | ReadModule(addr: nat)
    | Power(on: bool)

  function Store(c: Central, addr: nat, data: Word): Central
    requires addr < |c.busData|
  {
    WriteBus(c, addr, Low(data)).(busData := c.busData[addr := data])
  }

  /** One command of thr_commandSelectrix. */
  function Do(c: Central, command: Command): (c': Central)
    requires |c.busData| == MAX_ADDRESS
    ensures |c'.busData| == MAX_ADDRESS
  {
    match command
    case Loco(addr, removed, direction, speed, funcs) =>
      if MAX_ADDRESS > addr && !removed then Store(c, addr, LocoData(c.busData[addr], direction, speed, funcs)) else c
    case Switch(addr, port, action) =>
      if MAX_ADDRESS > addr then Store(c, addr, SwitchData(c.busData[addr], port, action)) else c
    case ReadModule(addr) => ReadBus(c, addr)
    case Power(on) => if on then Configure(WriteBus(c, SX_CONTROL, 0x80)) else WriteBus(c, SX_CONTROL, 0x00)
  }

  function DoAll(c: Central, commands: seq<Command>): (c': Central)
    requires |c.busData| == MAX_ADDRESS
    ensures |c'.busData| == MAX_ADDRESS
    decreases |commands|
  {
    if commands == [] then c else DoAll(Do(c, commands[0]), commands[1..])
  }

  // ---------------------------------------------------------------- the interface

  datatype Mode = Idle | Writing(cell: nat) | Reading(cell: nat)

  /** Both buses in one row, the bus that is selected, what the last byte began, whether the protocol of Rautenhaus is
      on and changes are reported, and the cells that have been asked for. */
  datatype Device = Device(cells: seq<int>, bus1: bool, mode: Mode, protocol: bool, reports: bool, asked: seq<int>)

  ghost predicate IsDevice(d: Device) {
    |d.cells| == 256 && (d.mode.Writing? ==> d.mode.cell < 128)
  }

  /** The control cell takes the bus from bit 1, and has two bits each to switch protocol and reports on and off. */
  function Controlled(d: Device, byte: int): Device {
    d.(bus1 := (byte / 2) % 2 == 1,
       protocol := (byte / 128) % 2 == 1 || (d.protocol && (byte / 64) % 2 == 0),
       reports := (byte / 32) % 2 == 1 || (d.reports && (byte / 16) % 2 == 0))
  }

  /** One byte: an address with the top bit set announces a byte to write, any other address a byte to read. */
  function Take(d: Device, byte: int): (d': Device)
    requires IsDevice(d)
    ensures IsDevice(d')
  {
    match d.mode
    case Idle => d.(mode := if byte % 256 >= 128 then Writing(byte % 128) else Reading(byte % 128))
    case Reading(cell) => d.(asked := d.asked + [(if d.bus1 then 128 else 0) + cell], mode := Idle)
    case Writing(cell) =>
      if cell == 126 then Controlled(d, byte).(mode := Idle)
      else d.(cells := d.cells[(if d.bus1 then 128 else 0) + cell := byte], mode := Idle)
  }

  function TakeAll(d: Device, bytes: seq<int>): (d': Device)
    requires IsDevice(d)
    ensures IsDevice(d')
    decreases |bytes|
  {
    if bytes == [] then d else Take(TakeAll(d, bytes[..|bytes| - 1]), bytes[|bytes| - 1])
  }

  lemma TakeTwoMore(d: Device, c: Central, first: int, second: int)
    requires IsDevice(d)
    ensures TakeAll(d, WritePort(WritePort(c, first), second).port) == Take(Take(TakeAll(d, c.port), first), second)
  {
    assert (c.port + [first])[..|c.port|] == c.port;
    assert (c.port + [first] + [second])[..|c.port| + 1] == c.port + [first];
  }

  // ---------------------------------------------------------------- the interface mirrors the program

  /** The addresses that there are; the control cells of either bus are not ordinary cells. */
  predicate Ordinary(addr: int, flags: Word) {
    0 <= addr < (if TwoBuses(flags) then 256 else 128) && addr % 128 < RAUTENHS_CC
  }

  /** The interface waits for a command, has the bus selected that the flag says, and holds in every ordinary cell
      what the program remembers. */
  ghost predicate Mirrors(d: Device, flags: Word, busData: seq<Word>) {
    && IsDevice(d) && d.mode.Idle? && |busData| == MAX_ADDRESS
    && d.bus1 == Has(flags, RAUTENHAUS_RTBS)
    && (!TwoBuses(flags) ==> !d.bus1)
    && forall a :: Ordinary(a, flags) ==> d.cells[a] == Low(busData[a])
  }

  /** The interface that has read everything that the program has written mirrors the program. */
  ghost predicate InStep(d: Device, c: Central) {
    IsDevice(d) && Mirrors(TakeAll(d, c.port), c.flags, c.busData)
  }

  lemma MirrorsOtherBus(d: Device, flags: Word, busData: seq<Word>, d': Device, flags': Word)
    requires Mirrors(d, flags, busData) && d'.cells == d.cells && d'.mode == d.mode
    requires d'.bus1 == Has(flags', RAUTENHAUS_RTBS)
    requires TwoBuses(flags') == TwoBuses(flags) && (!TwoBuses(flags) ==> !d'.bus1)
    ensures Mirrors(d', flags', busData)
  {
    hide Has, Low;
  }

  /** Selecting makes the selected bus that of the address. */
  lemma SelectInStep(d: Device, c: Central, addr: int)
    requires InStep(d, c) && 0 <= addr < 256
    ensures var s := Select(c, addr);
      && InStep(d, s) && TwoBuses(s.flags) == TwoBuses(c.flags) && s.busData == c.busData
      && TakeAll(d, s.port).bus1 == (addr > 127 && TwoBuses(c.flags))
  {
    hide Has, TwoBuses, WithBus0, WithBus1, Low, TakeAll, Ordinary;
    BusFlagSet(c.flags);
    BusFlagApart(c.flags);
    var now := TakeAll(d, c.port);
    if TwoBuses(c.flags) && addr > 127 && !Has(c.flags, RAUTENHAUS_RTBS) {
      TakeTwoMore(d, c, SX_WRITE + RAUTENHS_CC, RAUTENHS_B1);
      MirrorsOtherBus(now, c.flags, c.busData, Controlled(now, RAUTENHS_B1), WithBus1(c.flags));
    } else if TwoBuses(c.flags) && addr <= 127 && Has(c.flags, RAUTENHAUS_RTBS) {
      TakeTwoMore(d, c, SX_WRITE + RAUTENHS_CC, RAUTENHS_B0);
      MirrorsOtherBus(now, c.flags, c.busData, Controlled(now, RAUTENHS_B0), WithBus0(c.flags));
    }
  }

  /** A write to a cell and the same write to the shadow; the cells that are not ordinary are not mirrored. */
  lemma CellMirrors(d: Device, flags: Word, busData: seq<Word>, addr: nat, data: Word)
    requires Mirrors(d, flags, busData) && addr < 256 && Ordinary(addr, flags)
    requires d.bus1 == (addr > 127)
    ensures Mirrors(Take(Take(d, SX_WRITE + addr % 128), Low(data)), flags, busData[addr := data])
  {
    hide Has, Low, TwoBuses;
    assert (if d.bus1 then 128 else 0) + addr % 128 == addr;
  }

  lemma StoreInStep(d: Device, c: Central, addr: nat, data: Word)
    requires InStep(d, c) && addr < 256 && Ordinary(addr, c.flags)
    ensures InStep(d, Store(c, addr, data)) && TwoBuses(Store(c, addr, data).flags) == TwoBuses(c.flags)
  {
    hide Select, Has, TwoBuses, Low, TakeAll, Take, Mirrors;
    SelectInStep(d, c, addr);
    var s := Select(c, addr);
    TakeTwoMore(d, s, SX_WRITE + addr % 128, Low(data));
    CellMirrors(TakeAll(d, s.port), s.flags, s.busData, addr, data);
  }

  lemma ReadInStep(d: Device, c: Central, addr: nat)
    requires InStep(d, c) && addr < 256
    ensures InStep(d, ReadBus(c, addr)) && TwoBuses(ReadBus(c, addr).flags) == TwoBuses(c.flags)
  {
    hide Select, Has, TwoBuses, Low, TakeAll, Ordinary;
    SelectInStep(d, c, addr);
    var s := Select(c, addr);
    TakeTwoMore(d, s, SX_READ + addr % 128, SX_EMPTY);
  }

  lemma ControlMirrors(d: Device, flags: Word, busData: seq<Word>, byte: int)
    requires Mirrors(d, flags, busData)
    ensures Mirrors(Take(Take(d, SX_WRITE + SX_CONTROL), byte), flags, busData)
  {
    hide Has, Low, TwoBuses;
  }

  lemma ControlInStep(d: Device, c: Central, byte: int)
    requires InStep(d, c)
    ensures InStep(d, WriteBus(c, SX_CONTROL, byte))
    ensures TwoBuses(WriteBus(c, SX_CONTROL, byte).flags) == TwoBuses(c.flags)
    ensures WriteBus(c, SX_CONTROL, byte).busData == c.busData
  {
    hide Select, Has, TwoBuses, Low, TakeAll, Take, Mirrors;
    SelectInStep(d, c, SX_CONTROL);
    var s := Select(c, SX_CONTROL);
    TakeTwoMore(d, s, SX_WRITE + SX_CONTROL, byte);
    ControlMirrors(TakeAll(d, s.port), s.flags, s.busData, byte);
  }

  /** The configuration byte selects the bus that the flags select. */
  lemma ConfigurationSelects(flags: Word)
    ensures (Configuration(flags) / 2) % 2 == 1 <==> Has(flags, RAUTENHAUS_DBL + RAUTENHAUS_RTBS)
  {
    hide Has;
  }

  lemma ConfigureInStep(d: Device, c: Central)
    requires InStep(d, c)
    ensures InStep(d, Configure(c)) && TwoBuses(Configure(c).flags) == TwoBuses(c.flags)
    ensures Configure(c).busData == c.busData
  {
    hide Has, TwoBuses, WithBus0, WithBus1, Low, TakeAll, Ordinary, Configuration;
    BusFlagSet(c.flags);
    BusFlagApart(c.flags);
    FlagsTogether(c.flags);
    if Has(c.flags, RAUTENHAUS_MODE) {
      ConfigurationSelects(c.flags);
      TakeTwoMore(d, c, SX_WRITE + RAUTENHS_CC, Configuration(c.flags));
      var now := TakeAll(d, c.port);
      MirrorsOtherBus(now, c.flags, c.busData, Controlled(now, Configuration(c.flags)), Configure(c).flags);
    }
  }

  /** The command writes an ordinary cell, or none. */
  predicate Acceptable(command: Command, flags: Word) {
    match command
    case Loco(addr, removed, _, _, _) => MAX_ADDRESS > addr && !removed ==> Ordinary(addr, flags)
    case Switch(addr, _, _) => MAX_ADDRESS > addr ==> Ordinary(addr, flags)
    case ReadModule(addr) => addr < MAX_ADDRESS
    case Power(_) => true
  }

  lemma DoInStep(d: Device, c: Central, command: Command)
    requires InStep(d, c) && Acceptable(command, c.flags)
    ensures InStep(d, Do(c, command)) && TwoBuses(Do(c, command).flags) == TwoBuses(c.flags)
  {
    hide Has, TwoBuses, Low, TakeAll, Mirrors, Ordinary, LocoData, SwitchData, WriteBus, ReadBus, Configure, Store;
    hide InStep;
    BusDataLength(d, c);
    match command
    case Loco(addr, removed, direction, speed, funcs) =>
      if MAX_ADDRESS > addr && !removed {
        StoreInStep(d, c, addr, LocoData(c.busData[addr], direction, speed, funcs));
      }
    case Switch(addr, port, action) =>
      if MAX_ADDRESS > addr {
        StoreInStep(d, c, addr, SwitchData(c.busData[addr], port, action));
      }
    case ReadModule(addr) => ReadInStep(d, c, addr);
    case Power(on) =>
      ControlInStep(d, c, if on then 0x80 else 0x00);
      if on { ConfigureInStep(d, WriteBus(c, SX_CONTROL, 0x80)); }
  }

  lemma BusDataLength(d: Device, c: Central)
    requires InStep(d, c)
    ensures |c.busData| == MAX_ADDRESS
  {
  }

  /** Bank switching gives a flat memory: after any run of commands for ordinary cells, the interface has the bus
      selected that the program believes, and all its ordinary cells hold what the program remembers. */
  lemma {:induction false} RunInStep(d: Device, c: Central, commands: seq<Command>)
    requires InStep(d, c) && |c.busData| == MAX_ADDRESS
    requires forall i :: 0 <= i < |commands| ==> Acceptable(commands[i], c.flags)
    ensures InStep(d, DoAll(c, commands))
    decreases |commands|
  {
    hide InStep, Do;
    if commands != [] {
      var c' := Do(c, commands[0]);
      DoInStep(d, c, commands[0]);
      forall i | 0 <= i < |commands[1..]| ensures Acceptable(commands[1..][i], c'.flags) {
        SameKind(commands[1 + i], c.flags, c'.flags);
      }
      RunInStep(d, c', commands[1..]);
    }
  }

  lemma SameKind(command: Command, flags: Word, flags': Word)
    requires Acceptable(command, flags) && TwoBuses(flags') == TwoBuses(flags)
    ensures Acceptable(command, flags')
  {
    hide TwoBuses;
  }

  /** With one bus, addresses from 128 on are cells of the same bus: after a command for one of them, program and
      interface are in step if and only if the data are those that the program remembers of the lower address. */
  lemma OneBusUpperExactly(d: Device, c: Central, addr: nat, data: Word)
    requires InStep(d, c) && !TwoBuses(c.flags) && |c.busData| == MAX_ADDRESS
    requires 128 <= addr < 256 && addr % 128 < RAUTENHS_CC
    ensures InStep(d, Store(c, addr, data)) <==> Low(data) == Low(c.busData[addr - 128])
  {
    hide Has, TwoBuses, Low, TakeAll, Mirrors, Take;
    TakeTwoMore(d, c, SX_WRITE + addr % 128, Low(data));
    UpperCellMirrors(TakeAll(d, c.port), c.flags, c.busData, addr, data);
  }

  lemma UpperCellMirrors(d: Device, flags: Word, busData: seq<Word>, addr: nat, data: Word)
    requires Mirrors(d, flags, busData) && !TwoBuses(flags) && 128 <= addr < 256 && addr % 128 < RAUTENHS_CC
    ensures Mirrors(Take(Take(d, SX_WRITE + addr % 128), Low(data)), flags, busData[addr := data])
       <==> Low(data) == Low(busData[addr - 128])
  {
    hide Has, TwoBuses, Low;
    var low := addr - 128;
    assert addr % 128 == low && Ordinary(low, flags);
    assert d.cells[low] == Low(busData[low]);
    assert Take(Take(d, SX_WRITE + addr % 128), Low(data)).cells == d.cells[low := Low(data)];
  }

  /** A command for a control cell selects a bus behind the back of the program: afterwards they are in step if and
      only if bit 1 of the data happens to name the bus of the address, which with one bus is the first. */
  lemma ControlCellExactly(d: Device, c: Central, addr: nat, data: Word)
    requires InStep(d, c) && addr < 256 && addr % 128 == RAUTENHS_CC && |c.busData| == MAX_ADDRESS
    ensures InStep(d, Store(c, addr, data)) <==> ((Low(data) / 2) % 2 == 1 <==> addr > 127 && TwoBuses(c.flags))
  {
    hide Has, TwoBuses, WithBus0, WithBus1, Low, TakeAll, Select;
    SelectInStep(d, c, addr);
    var s := Select(c, addr);
    TakeTwoMore(d, s, SX_WRITE + addr % 128, Low(data));
    ControlCellMirrors(TakeAll(d, s.port), s.flags, s.busData, addr, data);
  }

  lemma ControlCellMirrors(d: Device, flags: Word, busData: seq<Word>, addr: nat, data: Word)
    requires Mirrors(d, flags, busData) && addr < 256 && addr % 128 == RAUTENHS_CC
    requires d.bus1 == (addr > 127 && TwoBuses(flags))
    ensures Mirrors(Take(Take(d, SX_WRITE + addr % 128), Low(data)), flags, busData[addr := data])
       <==> ((Low(data) / 2) % 2 == 1 <==> addr > 127 && TwoBuses(flags))
  {
    hide Has, TwoBuses, Low;
  }

  // ---------------------------------------------------------------- what the cells mean

  /** The four parts do not overlap. */
  lemma TogetherMeans(direction: Word, speed: Word, light: Word, func: Word)
    requires speed < 32 && (direction == 0 || direction == 0x20) && (light == 0 || light == 0x40)
    requires func == 0 || func == 0x80
    ensures var data := Together(direction, speed, light, func);
      && data & 0x1f == speed && data & 0x20 == direction && data & 0x40 == light && data & 0x80 == func
      && data & 0xff == data
  {
  }

  lemma DirectionBitIs(was: Word, direction: int)
    ensures DirectionBit(was, direction) == 0 || DirectionBit(was, direction) == 0x20
  {
  }

  lemma FunctionBitIs(funcs: Word, func: Word, bit: Word)
    ensures FunctionBit(funcs, func, bit) == 0 || FunctionBit(funcs, func, bit) == bit
  {
  }

  /** A locomotive decoder finds in its cell the speed in five bits, the direction, the light and the function. */
  lemma LocoDataMeans(was: Word, direction: int, speed: Word, funcs: Word)
    requires Velocity(direction, speed) < 32
    ensures var data := LocoData(was, direction, speed, funcs);
      && data & 0x1f == Velocity(direction, speed)
      && data & 0x20 == DirectionBit(was, direction)
      && data & 0x40 == FunctionBit(funcs, 0x01, 0x40)
      && data & 0x80 == FunctionBit(funcs, 0x02, 0x80)
      && data & 0xff == data
  {
    hide Together, DirectionBit, Velocity, FunctionBit;
    DirectionBitIs(was, direction);
    FunctionBitIs(funcs, 0x01, 0x40);
    FunctionBitIs(funcs, 0x02, 0x80);
    TogetherMeans(DirectionBit(was, direction), Velocity(direction, speed),
                  FunctionBit(funcs, 0x01, 0x40), FunctionBit(funcs, 0x02, 0x80));
  }

  predicate IsSet(data: Word, bit: Word) {
    data & bit != 0
  }

  /** The constants of a port, and how they stand to the bit of another port. */
  predicate Opposite(bit: Word, mask: Word) {
    bit & mask == 0 && bit != 0
  }

  predicate Apart(bit: Word, mask: Word, other: Word) {
    other & mask == other && other & bit == 0
  }

  lemma PortBitsApart(port: int, other: int)
    requires 1 <= port <= 8 && 1 <= other <= 8
    ensures if other == port then Opposite(PortBit(port), PortMask(port))
            else Apart(PortBit(port), PortMask(port), PortBit(other))
  {
  }

  lemma Clears(was: Word, mask: Word, bit: Word)
    requires bit & mask == 0
    ensures (was & mask) & bit == 0
  {
  }

  lemma Sets(was: Word, bit: Word)
    requires bit != 0
    ensures (was | bit) & bit != 0
  {
  }

  lemma PortClears(was: Word, mask: Word, bit: Word)
    requires Opposite(bit, mask)
    ensures !IsSet(was & mask, bit)
  {
    Clears(was, mask, bit);
  }

  lemma PortSets(was: Word, mask: Word, bit: Word)
    requires Opposite(bit, mask)
    ensures IsSet(was | bit, bit)
  {
    Sets(was, bit);
  }

  lemma OwnBit(was: Word, bit: Word, mask: Word, action: int)
    requires Opposite(bit, mask)
    ensures IsSet(Changed(was, bit, mask, action), bit) <==> action != 0
  {
    hide IsSet, Opposite;
    if action == 0 {
      PortClears(was, mask, bit);
    } else {
      PortSets(was, mask, bit);
    }
  }

  lemma SameBit(x: Word, y: Word, bit: Word)
    requires x & bit == y & bit
    ensures IsSet(x, bit) <==> IsSet(y, bit)
  {
  }

  lemma MaskKeeps(was: Word, mask: Word, other: Word)
    requires other & mask == other
    ensures (was & mask) & other == was & other
  {
  }

  lemma BitKeeps(was: Word, bit: Word, other: Word)
    requires other & bit == 0
    ensures (was | bit) & other == was & other
  {
  }

  lemma PortMaskKeeps(was: Word, bit: Word, mask: Word, other: Word)
    requires Apart(bit, mask, other)
    ensures IsSet(was & mask, other) <==> IsSet(was, other)
  {
    hide IsSet;
    MaskKeeps(was, mask, other);
    SameBit(was & mask, was, other);
  }

  lemma PortBitKeeps(was: Word, bit: Word, mask: Word, other: Word)
    requires Apart(bit, mask, other)
    ensures IsSet(was | bit, other) <==> IsSet(was, other)
  {
    hide IsSet;
    BitKeeps(was, bit, other);
    SameBit(was | bit, was, other);
  }

  lemma OtherBit(was: Word, bit: Word, mask: Word, action: int, other: Word)
    requires Apart(bit, mask, other)
    ensures IsSet(Changed(was, bit, mask, action), other) <==> IsSet(was, other)
  {
    hide IsSet, Apart;
    if action == 0 {
      PortMaskKeeps(was, bit, mask, other);
    } else {
      PortBitKeeps(was, bit, mask, other);
    }
  }

  /** Setting a port gives its bit the action, and leaves the bits of all other ports. */
  lemma SwitchDataMeans(was: Word, port: int, action: int, other: int)
    requires 1 <= port <= 8 && 1 <= other <= 8
    ensures IsSet(SwitchData(was, port, action), PortBit(other))
       <==> if other == port then action != 0 else IsSet(was, PortBit(other))
  {
    hide PortBit, PortMask, Opposite, Apart, IsSet, Changed;
    PortBitsApart(port, other);
    if other == port {
      OwnBit(was, PortBit(port), PortMask(port), action);
    } else {
      OtherBit(was, PortBit(port), PortMask(port), action, PortBit(other));
    }
  }
}
