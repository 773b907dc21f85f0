/** comp_nmra_accessory: commands for accessory decoders, section 2.4 of NMRA S-9.2.1. */
module Accessory {
  import opened Waveform
  import opened Framing
  import opened Builders
  import opened Decoders

  /** What an accessory decoder takes from a packet: its address, one of four pairs, one of two outputs. */
  datatype Switching = Switching(address: Word, pair: Word, output: Word, activate: bool)

  function WeighNine(c2: bool, c1: bool, c0: bool, b5: bool, b4: bool, b3: bool, b2: bool, b1: bool, b0: bool): Word {
    (if c2 then 256 else 0) | (if c1 then 128 else 0) | (if c0 then 64 else 0) | (if b5 then 32 else 0) |
    (if b4 then 16 else 0) | (if b3 then 8 else 0) | (if b2 then 4 else 0) | (if b1 then 2 else 0) |
    (if b0 then 1 else 0)
  }

  /** 10AAAAAA and 1AAACDDO; the upper three address bits are inverted. */
  function SwitchingOfBytes(a: Byte, b: Byte): Switching {
    Switching(
      WeighNine(!b[1], !b[2], !b[3], a[2], a[3], a[4], a[5], a[6], a[7]),
      Weigh(false, false, false, false, false, false, b[5], b[6]),
      Weigh(false, false, false, false, false, false, false, b[7]),
      b[4])
  }

  function SwitchingOf(packet: Packet): Option<Switching> {
    if Intact(packet) && |packet| == 3 && packet[0][0] && !packet[0][1] && packet[1][0]
    then Some(SwitchingOfBytes(packet[0], packet[1]))
    else None
  }

  function AddressByte(address: Word): Byte {
    ByteOf(0x80 | (address & 0x3f))
  }

  function SwitchByte(address: Word, pair: Word, output: Word, activate: Word): Byte {
    ByteOf(0x80 | ((!address & 0x1c0) >> 2) | (activate << 3) | (pair << 1) | output)
  }

  predicate AcceptedSwitch(nr: Word, output: Word, activate: Word) {
    && !SignedLess(nr, 1) && !SignedLess(2044, nr)
    && !SignedLess(output, 0) && !SignedLess(1, output)
    && !SignedLess(activate, 0) && !SignedLess(1, activate)
  }

  function SwitchPacket(nr: Word, output: Word, activate: Word, offset: Word): Packet {
    var address, pair := (nr - 1) / 4 + offset, (nr - 1) % 4;
    Checked([AddressByte(address), SwitchByte(address, pair, output, activate)])
  }

  /** comp_nmra_accessory, up to the call of the translation. */
  method CompNmraAccessory(nr: Word, output: Word, activate: Word, offset: Word) returns (request: Option<Bits>)
    ensures request.None? <==> !AcceptedSwitch(nr, output, activate)
    ensures request.Some? ==>
              request.value == Ones(SHORT_PREAMBLE) + PacketBits(SwitchPacket(nr, output, activate, offset))
  {
    hide SignedLess, ByteOf, PacketBits, Checked, Xor;
    if SignedLess(nr, 1) || SignedLess(2044, nr) || SignedLess(output, 0) || SignedLess(1, output)
       || SignedLess(activate, 0) || SignedLess(1, activate) {
      return None;
    }
    var address := (nr - 1) / 4 + offset;
    var pairnr := (nr - 1) % 4;
    var byte1 := CalcSingleByte(0x80 | (address & 0x3f));
    var byte2 := CalcSingleByte(0x80 | ((!address & 0x1c0) >> 2) | (activate << 3) | (pairnr << 1) | output);
    var byte3 := XorTwoBytes(byte2, byte1);
    var bitstream := PutTogether(Ones(SHORT_PREAMBLE), byte1, byte2, byte3);
    return Some(bitstream);
  }

  /** The strcat calls that make a string of a packet of three bytes. */
  method PutTogether(preamble: Bits, byte1: Byte, byte2: Byte, byte3: Byte) returns (bitstream: Bits)
    requires byte3 == Xor(byte2, byte1)
    ensures bitstream == preamble + PacketBits(Checked([byte1, byte2]))
  {
    hide PacketBits, Checked, Xor;
    bitstream := [];
    bitstream := bitstream + preamble;
    bitstream := bitstream + [false];
    bitstream := bitstream + byte1;
    bitstream := bitstream + [false];
    bitstream := bitstream + byte2;
    bitstream := bitstream + [false];
    bitstream := bitstream + byte3;
    bitstream := bitstream + [true];
    StringOfTwo(preamble, byte1, byte2, byte3);
    assert [] + preamble == preamble;
  }

  lemma StringOfTwo(preamble: Bits, byte1: Byte, byte2: Byte, byte3: Byte)
    requires byte3 == Xor(byte2, byte1)
    ensures preamble + [false] + byte1 + [false] + byte2 + [false] + byte3 + [true]
         == preamble + PacketBits(Checked([byte1, byte2]))
  {
    TwoByteFrame(Plain([]), byte1, byte2);
    PlainCloses([], [byte1, byte2]);
    assert Xor(Xor(XorAll([]), byte1), byte2) == byte3;
    assert [] + [byte1, byte2] == [byte1, byte2];
    hide Xor, XorAll, Checked, PacketBits;
    var rest := PacketBits(Checked([byte1, byte2]));
    assert [] + [false] + byte1 + [false] + byte2 + [false] + byte3 + [true] == rest;
  }

  lemma SwitchDigits(address: Word, pair: Word, output: Word, activate: Word)
    requires pair < 4 && output < 2 && activate < 2
    ensures var u := 0x80 | (address & 0x3f);
      var v := 0x80 | ((!address & 0x1c0) >> 2) | (activate << 3) | (pair << 1) | output;
      && Digit(u, 7) && !Digit(u, 6) && Digit(v, 7) && Digit(v, 3) == (activate == 1)
      && WeighNine(!Digit(v, 6), !Digit(v, 5), !Digit(v, 4),
                   Digit(u, 5), Digit(u, 4), Digit(u, 3), Digit(u, 2), Digit(u, 1), Digit(u, 0)) == address & 0x1ff
      && Weigh(false, false, false, false, false, false, Digit(v, 2), Digit(v, 1)) == pair
      && Weigh(false, false, false, false, false, false, false, Digit(v, 0)) == output
  {
  }

  lemma SwitchBounds(nr: Word, output: Word, activate: Word, offset: Word)
    requires AcceptedSwitch(nr, output, activate)
    ensures 1 <= nr <= 2044 && output < 2 && activate < 2 && (nr - 1) % 4 < 4
  {
  }

  /** The commands that are accepted, in numbers. */
  lemma SwitchIsAcceptedExactly(nr: Word, output: Word, activate: Word)
    ensures AcceptedSwitch(nr, output, activate) <==> 1 <= nr <= 2044 && output <= 1 && activate <= 1
  {
    SwitchNumbers(nr);
    ZeroOrOne(output);
    ZeroOrOne(activate);
    hide SignedLess;
  }

  lemma SwitchNumbers(nr: Word)
    ensures !SignedLess(nr, 1) && !SignedLess(2044, nr) <==> 1 <= nr <= 2044
  {
  }

  lemma ZeroOrOne(n: Word)
    ensures !SignedLess(n, 0) && !SignedLess(1, n) <==> n <= 1
  {
  }

  lemma SwitchBytesReadBack(address: Word, pair: Word, output: Word, activate: Word)
    requires pair < 4 && output < 2 && activate < 2
    ensures SwitchingOf(Checked([AddressByte(address), SwitchByte(address, pair, output, activate)]))
         == Some(Switching(address & 0x1ff, pair, output, activate == 1))
  {
    hide SwitchingOfBytes, AddressByte, SwitchByte, XorAll, Intact;
    var a, b := AddressByte(address), SwitchByte(address, pair, output, activate);
    CheckedIsIntact([a, b]);
    BytesReadBack(address, pair, output, activate);
  }

  lemma DigitsReadBack(a: Byte, b: Byte, u: Word, v: Word, address: Word, pair: Word, output: Word, activate: bool)
    requires a == ByteOf(u) && b == ByteOf(v)
    requires Digit(u, 7) && !Digit(u, 6) && Digit(v, 7) && Digit(v, 3) == activate
    requires WeighNine(!Digit(v, 6), !Digit(v, 5), !Digit(v, 4),
                       Digit(u, 5), Digit(u, 4), Digit(u, 3), Digit(u, 2), Digit(u, 1), Digit(u, 0)) == address
    requires Weigh(false, false, false, false, false, false, Digit(v, 2), Digit(v, 1)) == pair
    requires Weigh(false, false, false, false, false, false, false, Digit(v, 0)) == output
    ensures a[0] && !a[1] && b[0] && SwitchingOfBytes(a, b) == Switching(address, pair, output, activate)
  {
    hide ByteOf, Digit, Weigh, WeighNine;
    ByteDigits(u, a);
    ByteDigits(v, b);
  }

  lemma BytesReadBack(address: Word, pair: Word, output: Word, activate: Word)
    requires pair < 4 && output < 2 && activate < 2
    ensures var a, b := AddressByte(address), SwitchByte(address, pair, output, activate);
      a[0] && !a[1] && b[0] && SwitchingOfBytes(a, b) == Switching(address & 0x1ff, pair, output, activate == 1)
  {
    hide Digit, Weigh, WeighNine, ByteOf, SwitchingOfBytes;
    SwitchDigits(address, pair, output, activate);
    DigitsReadBack(AddressByte(address), SwitchByte(address, pair, output, activate),
                   0x80 | (address & 0x3f),
                   0x80 | ((!address & 0x1c0) >> 2) | (activate << 3) | (pair << 1) | output,
                   address & 0x1ff, pair, output, activate == 1);
  }

  /** The decoder recovers the address, as far as its nine bits go, the pair, the output and the state. */
  lemma SwitchMeansWhatItSays(nr: Word, output: Word, activate: Word, offset: Word)
    requires AcceptedSwitch(nr, output, activate)
    ensures SwitchingOf(SwitchPacket(nr, output, activate, offset))
         == Some(Switching(((nr - 1) / 4 + offset) & 0x1ff, (nr - 1) % 4, output, activate == 1))
  {
    SwitchBounds(nr, output, activate, offset);
    SwitchBytesReadBack((nr - 1) / 4 + offset, (nr - 1) % 4, output, activate);
    hide AddressByte, SwitchByte, SwitchingOf, Checked;
  }

  /** Whatever base address the configuration sets, no two commands mean the same switch. */
  lemma SwitchesAreDistinct(nr: Word, nr': Word, offset: Word)
    requires 1 <= nr <= 2044 && 1 <= nr' <= 2044
    requires ((nr - 1) / 4 + offset) & 0x1ff == ((nr' - 1) / 4 + offset) & 0x1ff
    requires (nr - 1) % 4 == (nr' - 1) % 4
    ensures nr == nr'
  {
  }
}
