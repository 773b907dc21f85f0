/**
  What decoders make of packets: the instructions for multi-function decoders of NMRA S-9.2.1, sections
  2.1 to 2.3.6, and the packets for accessory decoders of section 2.4.
 */
module Decoders {
  import opened Framing
  import opened Builders

  /** The number that eight bits stand for. */
  function Weigh(b0: bool, b1: bool, b2: bool, b3: bool, b4: bool, b5: bool, b6: bool, b7: bool): Word {
    (if b0 then 128 else 0) | (if b1 then 64 else 0) | (if b2 then 32 else 0) | (if b3 then 16 else 0) |
    (if b4 then 8 else 0) | (if b5 then 4 else 0) | (if b6 then 2 else 0) | (if b7 then 1 else 0)
  }

  datatype Address = Short(number: Word) | Long(number: Word) | Other

  /** The address at the start of a packet: 0AAAAAAA, or 11AAAAAA and AAAAAAAA. */
  function AddressOf(packet: Packet): Address
    requires |packet| >= 2
  {
    var a, b := packet[0], packet[1];
    if !a[0] then Short(Weigh(false, a[1], a[2], a[3], a[4], a[5], a[6], a[7]))
    else if a[1] then
      Long((Weigh(false, false, a[2], a[3], a[4], a[5], a[6], a[7]) << 8) |
           Weigh(b[0], b[1], b[2], b[3], b[4], b[5], b[6], b[7]))
    else Other
  }

  /** The bytes between the address and the error detection byte. */
  function CodeOf(packet: Packet): seq<Byte>
    requires |packet| >= 2
  {
    var start := if AddressOf(packet).Long? then 2 else 1;
    if start < |packet| then packet[start..|packet| - 1] else []
  }

  datatype Steps = Steps14 | Steps28 | Steps128

  /** A multi-function decoder: speed 0 is stop, 1 is emergency stop, 2 is the slowest step. */
  datatype Decoder = Decoder(address: Address, steps: Steps, forward: bool, speed: Word, functions: seq<bool>)

  predicate IsDecoder(d: Decoder) {
    !d.address.Other? && |d.functions| == 29
  }

  function SetFunctions(d: Decoder, start: nat, values: seq<bool>): (d': Decoder)
    requires IsDecoder(d) && start + |values| <= 29
    ensures IsDecoder(d')
  {
    d.(functions := d.functions[..start] + values + d.functions[start + |values|..])
  }

  /** Section 2.3.2.1 and S-9.2: the five speed bits, the lowest of which stands in front of the others. */
  function SpeedOf28(five: Word): Word {
    if five < 2 then 0 else if five < 4 then 1 else five - 2
  }

  /** 01DCSSSS. */
  function Baseline(d: Decoder, b: Byte): (d': Decoder)
    requires IsDecoder(d)
    ensures IsDecoder(d')
  {
    if d.steps.Steps14? then
      SetFunctions(d, 0, [b[3]]).(forward := b[2], speed := Weigh(false, false, false, false, b[4], b[5], b[6], b[7]))
    else
      d.(forward := b[2], speed := SpeedOf28(Weigh(false, false, false, b[4], b[5], b[6], b[7], b[3])))
  }

  function Reversed(b: Byte): seq<bool> {
    [b[7], b[6], b[5], b[4], b[3], b[2], b[1], b[0]]
  }

  /** One instruction. */
  function Instruct(d: Decoder, code: seq<Byte>): (d': Decoder)
    requires IsDecoder(d)
    ensures IsDecoder(d')
  {
    if |code| == 1 then
      var b := code[0];
      if !b[0] && b[1] then Baseline(d, b)
      else if b[0] && !b[1] && !b[2] then SetFunctions(d, 0, [b[3], b[7], b[6], b[5], b[4]])
      else if b[0] && !b[1] then SetFunctions(d, if b[3] then 5 else 9, [b[7], b[6], b[5], b[4]])
      else d
    else if |code| == 2 then
      var b, c := code[0], code[1];
      if b == [false, false, true, true, true, true, true, true] then
        d.(forward := c[0], speed := Weigh(false, c[1], c[2], c[3], c[4], c[5], c[6], c[7]))
      else if b == [true, true, false, true, true, true, true, false] then SetFunctions(d, 13, Reversed(c))
      else if b == [true, true, false, true, true, true, true, true] then SetFunctions(d, 21, Reversed(c))
      else d
    else d
  }

  /** A decoder obeys the packets without errors that carry its address. */
  function Execute(d: Decoder, packet: Packet): (d': Decoder)
    requires IsDecoder(d)
    ensures IsDecoder(d')
  {
    if Intact(packet) && AddressOf(packet) == d.address then Instruct(d, CodeOf(packet)) else d
  }

  function ExecuteAll(d: Decoder, packets: seq<Packet>): (d': Decoder)
    requires IsDecoder(d)
    ensures IsDecoder(d')
    decreases |packets|
  {
    if packets == [] then d else ExecuteAll(Execute(d, packets[0]), packets[1..])
  }

  // ---------------------------------------------------------------- addresses

  function AddressFor(address: Word, mode: nat): Address {
    if mode == 1 then Short(address) else Long(address)
  }

  lemma WeighDigits(v: Word)
    ensures Weigh(Digit(v, 7), Digit(v, 6), Digit(v, 5), Digit(v, 4), Digit(v, 3), Digit(v, 2), Digit(v, 1),
                  Digit(v, 0))
         == v & 0xff
  {
  }

  lemma ShortAddressDigits(address: Word)
    requires address <= 127
    ensures var v := address & 0x7f;
      && !Digit(v, 7)
      && Weigh(false, Digit(v, 6), Digit(v, 5), Digit(v, 4), Digit(v, 3), Digit(v, 2), Digit(v, 1), Digit(v, 0))
         == address
  {
  }

  lemma LongAddressDigits(address: Word)
    requires address <= 10239
    ensures var v := 0xc0 | (address >> 8);
      && Digit(v, 7) && Digit(v, 6)
      && (Weigh(false, false, Digit(v, 5), Digit(v, 4), Digit(v, 3), Digit(v, 2), Digit(v, 1), Digit(v, 0)) << 8)
         | (address & 0xff) == address
  {
  }

  lemma ShortAddressReadsBack(address: Word, code: seq<Byte>)
    requires address <= 127 && code != []
    ensures var packet := Checked([ByteOf(address & 0x7f)] + code);
      |packet| >= 2 && AddressOf(packet) == Short(address) && CodeOf(packet) == code
  {
    ShortAddressDigits(address);
    hide Digit, XorAll, Weigh;
  }

  lemma LongAddressReadsBack(address: Word, code: seq<Byte>)
    requires address <= 10239 && code != []
    ensures var packet := Checked([ByteOf(0xc0 | (address >> 8)), ByteOf(address)] + code);
      |packet| >= 2 && AddressOf(packet) == Long(address) && CodeOf(packet) == code
  {
    LongAddressDigits(address);
    WeighDigits(address);
    hide Digit, XorAll, Weigh;
  }

  /** The address bytes are read back as the address. */
  lemma AddressReadsBack(address: Word, mode: nat, code: seq<Byte>)
    requires (mode == 1 && address <= 127) || (mode == 2 && address <= 10239)
    requires code != []
    ensures var packet := Checked(AddressBytes(address, mode) + code);
      |packet| >= 2 && AddressOf(packet) == AddressFor(address, mode) && CodeOf(packet) == code
  {
    hide ByteOf, Checked, AddressOf, CodeOf;
    if mode == 1 {
      ShortAddressReadsBack(address, code);
    } else {
      LongAddressReadsBack(address, code);
    }
  }
}
