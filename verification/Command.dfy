/**
  comp_nmra_multi_func: a command for a multi-function decoder becomes the bit strings of up to six
  packets, and a decoder that obeys them does what the command says.
 */
module Command {
  import opened Waveform
  import opened Framing
  import opened Builders

  // ---------------------------------------------------------------- the packets of a command

  /** The instruction for speed and direction. */
  function SpeedCode(direction: Word, speed: Word, func: Word, nspeed: Word): seq<Byte> {
    if SignedLess(speed, 2) || SignedLess(nspeed, 15) then [BaselineSpeedByte(direction, speed, func)]
    else if SignedLess(29, nspeed) then Steps128Bytes(direction, speed)
    else [Steps28Byte(direction, speed)]
  }

  predicate SendsFunctions(nspeed: Word, nfuncs: int) {
    nfuncs != 0 && SignedLess(14, nspeed)
  }

  function Optional(sent: bool, code: seq<Byte>): seq<seq<Byte>> {
    if sent then [code] else []
  }

  /** The instructions that follow speed and direction in the first string. */
  function MoreCodes(func: Word, nfuncs: int): seq<seq<Byte>> {
    Optional(nfuncs > 5, [GroupTwoByte(func, true)]) +
    Optional(nfuncs > 12, [EXPANSION_LOW, ByteOf(func >> 13)])
  }

  function LaterCodes(func: Word, nfuncs: int): seq<seq<Byte>> {
    Optional(nfuncs > 8, [GroupTwoByte(func, false)]) +
    Optional(nfuncs > 20, [EXPANSION_HIGH, ByteOf(func >> 21)])
  }

  /** The instructions of the second string. */
  function OtherCodes(func: Word, nfuncs: int): seq<seq<Byte>> {
    [[GroupOneByte(func)]] + LaterCodes(func, nfuncs)
  }

  function PacketsFor(head: Head, codes: seq<seq<Byte>>): (packets: seq<Packet>)
    ensures |packets| == |codes|
  {
    seq(|codes|, i requires 0 <= i < |codes| => Closed(head, codes[i]))
  }

  /** The bits of one packet after a number of ones. */
  function Signal(ones: nat, head: Head, code: seq<Byte>): Bits {
    Ones(ones) + PacketBits(Closed(head, code))
  }

  /** Packets to the same address: the first after a preamble, the others after the wait of fifty ones. */
  function Signals(ones: nat, head: Head, codes: seq<seq<Byte>>): Bits
    decreases |codes|
  {
    if codes == [] then []
    else Signal(ones, head, codes[0]) + Signals(WAIT + SHORT_PREAMBLE, head, codes[1..])
  }

  lemma {:induction false} SignalsAppend(ones: nat, head: Head, codes: seq<seq<Byte>>, code: seq<Byte>)
    requires codes != []
    ensures Signals(ones, head, codes + [code])
         == Signals(ones, head, codes) + Signal(WAIT + SHORT_PREAMBLE, head, code)
    decreases |codes|
  {
    hide Signal;
    var all := codes + [code];
    assert all[0] == codes[0] && all[1..] == codes[1..] + [code];
    if |codes| == 1 {
      assert all[1..] == [code] && [code][1..] == [] && codes[1..] == [];
      assert Signals(WAIT + SHORT_PREAMBLE, head, [code]) == Signal(WAIT + SHORT_PREAMBLE, head, code);
    } else {
      SignalsAppend(WAIT + SHORT_PREAMBLE, head, codes[1..], code);
      var a, b, c := Signal(ones, head, codes[0]), Signals(WAIT + SHORT_PREAMBLE, head, codes[1..]),
                     Signal(WAIT + SHORT_PREAMBLE, head, code);
      assert a + (b + c) == a + b + c;
    }
  }

  lemma OneByteSignal(ones: nat, head: Head, byte: Byte)
    ensures Ones(ones) + AddressStream(head.bytes) + byte + [false] + Xor(head.check, byte) + [true]
         == Signal(ones + SHORT_PREAMBLE, head, [byte])
  {
    OneByteFrame(head, byte);
    hide Body, Xor, XorOn, PacketBits, Closed;
    var x := Xor(head.check, byte);
    assert Ones(ones + SHORT_PREAMBLE) == Ones(ones) + Ones(SHORT_PREAMBLE);
    assert Ones(ones) + AddressStream(head.bytes) + byte + [false] + x + [true]
        == Ones(ones) + Ones(SHORT_PREAMBLE) + (Body(head.bytes) + [false] + byte + [false] + x + [true]);
  }

  lemma TwoByteSignal(ones: nat, head: Head, byte1: Byte, byte2: Byte)
    ensures Ones(ones) + AddressStream(head.bytes) + byte1 + [false] + byte2 + [false]
            + Xor(Xor(head.check, byte1), byte2) + [true]
         == Signal(ones + SHORT_PREAMBLE, head, [byte1, byte2])
  {
    TwoByteFrame(head, byte1, byte2);
    hide Body, Xor, XorOn, PacketBits, Closed;
    var x := Xor(Xor(head.check, byte1), byte2);
    assert Ones(ones + SHORT_PREAMBLE) == Ones(ones) + Ones(SHORT_PREAMBLE);
    assert Ones(ones) + AddressStream(head.bytes) + byte1 + [false] + byte2 + [false] + x + [true]
        == Ones(ones) + Ones(SHORT_PREAMBLE)
           + (Body(head.bytes) + [false] + byte1 + [false] + byte2 + [false] + x + [true]);
  }

  /** calc_function_stream: adds to the first string and makes the second. */
  method CalcFunctionStream(bitstream: Bits, ghost codes: seq<seq<Byte>>, ghost head: Head,
                            addrerrbyte: Byte, addrstream: Bits, func: Word, nfuncs: int)
    returns (bitstream1: Bits, bitstream2: Bits)
    requires codes != [] && bitstream == Signals(SHORT_PREAMBLE, head, codes)
    requires addrstream == AddressStream(head.bytes) && addrerrbyte == head.check
    ensures bitstream1 == Signals(SHORT_PREAMBLE, head, codes + MoreCodes(func, nfuncs))
    ensures bitstream2 == Signals(SHORT_PREAMBLE, head, OtherCodes(func, nfuncs))
  {
    hide Body, Xor, XorOn, Signal, AddressStream, ByteOf, Signals;
    var wait := Ones(WAIT);
    var funcbyte, funcbyte2, errdbyte;
    bitstream1 := bitstream;
    ghost var codes1, codes2 := codes, [[GroupOneByte(func)]];

    funcbyte := CalcFunctionGroupOneByte(func);
    errdbyte := XorTwoBytes(addrerrbyte, funcbyte);
    OneByteSignal(0, head, funcbyte);
    bitstream2 := [];
    bitstream2 := bitstream2 + addrstream;
    bitstream2 := bitstream2 + funcbyte + [false] + errdbyte + [true];
    assert Ones(0) + addrstream == addrstream;
    SignalsOfOne(head, codes2[0]);
    if nfuncs > 5 {
      funcbyte := CalcFunctionGroupTwoByte(func, true);
      errdbyte := XorTwoBytes(addrerrbyte, funcbyte);
      bitstream1 := StrcatPacket(bitstream1, codes1, head, wait, addrstream, [funcbyte], errdbyte);
      codes1 := codes1 + [[funcbyte]];
      if nfuncs > 8 {
        funcbyte := CalcFunctionGroupTwoByte(func, false);
        errdbyte := XorTwoBytes(addrerrbyte, funcbyte);
        bitstream2 := StrcatPacket(bitstream2, codes2, head, wait, addrstream, [funcbyte], errdbyte);
        codes2 := codes2 + [[funcbyte]];
        if nfuncs > 12 {
          funcbyte2 := EXPANSION_LOW;
          funcbyte := CalcSingleByte(func >> 13);
          errdbyte := XorTwoBytes(addrerrbyte, funcbyte2);
          errdbyte := XorTwoBytes(errdbyte, funcbyte);
          bitstream1 := StrcatPacket(bitstream1, codes1, head, wait, addrstream, [funcbyte2, funcbyte], errdbyte);
          codes1 := codes1 + [[funcbyte2, funcbyte]];
          if nfuncs > 20 {
            funcbyte2 := funcbyte2[7 := true];
            errdbyte := XorTwoBytes(addrerrbyte, funcbyte2);
            funcbyte := CalcSingleByte(func >> 21);
            errdbyte := XorTwoBytes(errdbyte, funcbyte);
            assert funcbyte2 == EXPANSION_HIGH;
            bitstream2 := StrcatPacket(bitstream2, codes2, head, wait, addrstream, [funcbyte2, funcbyte], errdbyte);
            codes2 := codes2 + [[funcbyte2, funcbyte]];
          }
        }
      }
    }
    assert codes1 == codes + MoreCodes(func, nfuncs);
    assert codes2 == OtherCodes(func, nfuncs);
  }

  lemma SignalsOfOne(head: Head, code: seq<Byte>)
    ensures Signals(SHORT_PREAMBLE, head, [code]) == Signal(SHORT_PREAMBLE, head, code)
  {
    assert [code][1..] == [];
  }

  /** The strcat calls that put one more packet, of one or two instruction bytes, behind a string. */
  method StrcatPacket(bitstream: Bits, ghost codes: seq<seq<Byte>>, ghost head: Head, wait: Bits,
                      addrstream: Bits, code: seq<Byte>, errdbyte: Byte)
    returns (longer: Bits)
    requires codes != [] && bitstream == Signals(SHORT_PREAMBLE, head, codes)
    requires wait == Ones(WAIT) && addrstream == AddressStream(head.bytes)
    requires |code| == 1 || |code| == 2
    requires |code| == 1 ==> errdbyte == Xor(head.check, code[0])
    requires |code| == 2 ==> errdbyte == Xor(Xor(head.check, code[0]), code[1])
    ensures longer == Signals(SHORT_PREAMBLE, head, codes + [code])
  {
    hide Body, Xor, XorOn, Signal, AddressStream, Signals;
    ghost var before := bitstream;
    longer := bitstream + wait;
    longer := longer + addrstream;
    longer := longer + code[0];
    longer := longer + [false];
    if |code| == 2 {
      longer := longer + code[1];
      longer := longer + [false];
    }
    longer := longer + errdbyte;
    longer := longer + [true];
    SignalsAppend(SHORT_PREAMBLE, head, codes, code);
    if |code| == 1 {
      OneByteSignal(WAIT, head, code[0]);
      assert code == [code[0]];
      assert longer == before + (wait + addrstream + code[0] + [false] + errdbyte + [true]);
    } else {
      TwoByteSignal(WAIT, head, code[0], code[1]);
      assert code == [code[0], code[1]];
      assert longer == before + (wait + addrstream + code[0] + [false] + code[1] + [false] + errdbyte + [true]);
    }
  }

  /** What comp_nmra_multi_func makes of a command before the translation. */
  datatype Request = Refused | Strings(first: Bits, second: Option<Bits>)

  /** The commands that the routine accepts. */
  predicate Accepted(address: Word, direction: Word, speed: Word, nspeed: Word, mode: nat) {
    && !SignedLess(address, 1) && !SignedLess(10239, address)
    && !SignedLess(direction, 0) && !SignedLess(1, direction)
    && !SignedLess(speed, 0) && !SignedLess(nspeed + 1, speed)
    && !(SignedLess(127, address) && mode == 1)
  }

  function Clamped(speed: Word): Word {
    if SignedLess(127, speed) then 127 else speed
  }

  function FirstCodes(direction: Word, speed: Word, func: Word, nspeed: Word, nfuncs: int): seq<seq<Byte>> {
    [SpeedCode(direction, Clamped(speed), func, nspeed)] +
    if SendsFunctions(nspeed, nfuncs) then MoreCodes(func, nfuncs) else []
  }

  /** comp_nmra_multi_func, up to the calls of the translation. */
  method CompNmraMultiFunc(address: Word, direction: Word, speed: Word, func: Word, nspeed: Word, nfuncs: int,
                           mode: nat)
    returns (request: Request)
    ensures request.Refused? <==> !Accepted(address, direction, speed, nspeed, mode)
    ensures request.Strings? ==>
              && request.first == Signals(SHORT_PREAMBLE, HeadOf(address, mode),
                                          FirstCodes(direction, speed, func, nspeed, nfuncs))
              && request.second == if SendsFunctions(nspeed, nfuncs)
                                   then Some(Signals(SHORT_PREAMBLE, HeadOf(address, mode), OtherCodes(func, nfuncs)))
                                   else None
  {
    hide SignedLess, SpeedCode, HeadOf, MoreCodes, OtherCodes, Signals, AddressStream;
    if SignedLess(address, 1) || SignedLess(10239, address) || SignedLess(direction, 0) || SignedLess(1, direction)
       || SignedLess(speed, 0) || SignedLess(nspeed + 1, speed) || (SignedLess(127, address) && mode == 1) {
      return Refused;
    }
    ghost var head := HeadOf(address, mode);
    var velocity := speed;
    if SignedLess(127, velocity) {
      velocity := 127;
    }
    var addrstream, addrerrbyte := CalcAddressStream(address, mode);
    var bitstream := FirstPacket(head, addrstream, addrerrbyte, direction, velocity, func, nspeed);
    ghost var codes := [SpeedCode(direction, velocity, func, nspeed)];
    if nfuncs != 0 && SignedLess(14, nspeed) {
      var bitstream1, bitstream2 := CalcFunctionStream(bitstream, codes, head, addrerrbyte, addrstream, func, nfuncs);
      return Strings(bitstream1, Some(bitstream2));
    }
    assert codes + [] == codes;
    return Strings(bitstream, None);
  }

  /** The part of comp_nmra_multi_func that makes the packet for speed and direction. */
  method FirstPacket(ghost head: Head, addrstream: Bits, addrerrbyte: Byte, direction: Word, speed: Word,
                     func: Word, nspeed: Word)
    returns (bitstream: Bits)
    requires addrstream == AddressStream(head.bytes) && addrerrbyte == head.check
    ensures bitstream == Signals(SHORT_PREAMBLE, head, [SpeedCode(direction, speed, func, nspeed)])
  {
    hide Body, Xor, XorOn, Signal, AddressStream, Signals, BaselineSpeedByte, Steps28Byte, Steps128Bytes;
    var spdrbyte, spdrbyte2 := ZERO_BYTE, ZERO_BYTE;
    if SignedLess(speed, 2) || SignedLess(nspeed, 15) {
      spdrbyte := CalcBaselineSpeedByte(direction, speed, func);
    } else {
      if SignedLess(29, nspeed) {
        spdrbyte, spdrbyte2 := Calc128spstAdvOpBytes(direction, speed);
      } else {
        spdrbyte := Calc28spstSpeedByte(direction, speed);
      }
    }
    var errdbyte := XorTwoBytes(addrerrbyte, spdrbyte);
    bitstream := [];
    bitstream := bitstream + addrstream;
    bitstream := bitstream + spdrbyte;
    bitstream := bitstream + [false];
    assert Ones(0) + addrstream == addrstream;
    if SignedLess(29, nspeed) && SignedLess(1, speed) {
      bitstream := bitstream + spdrbyte2;
      bitstream := bitstream + [false];
      errdbyte := XorTwoBytes(errdbyte, spdrbyte2);
      TwoByteSignal(0, head, spdrbyte, spdrbyte2);
      SignalsOfOne(head, [spdrbyte, spdrbyte2]);
    } else {
      OneByteSignal(0, head, spdrbyte);
      SignalsOfOne(head, [spdrbyte]);
    }
    bitstream := bitstream + errdbyte;
    bitstream := bitstream + [true];
  }
}
