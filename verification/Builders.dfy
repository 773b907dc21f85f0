/**
  The routines of ddl_nmra.c that build the bit strings of DCC packets. A C int is a 32-bit word; the
  character buffers that strcat fills are bit strings that grow.
 */
module Builders {
  import opened Waveform
  import opened Framing

  type Word = bv32

  /** C's comparison of signed ints. */
  predicate SignedLess(a: Word, b: Word) {
    a ^ 0x8000_0000 < b ^ 0x8000_0000
  }

  // ---------------------------------------------------------------- bytes

  /** Bit number k of a word, for the lower eight bits. */
  predicate Digit(value: Word, k: nat) {
    match k
    case 0 => value & 1 != 0
    case 1 => value & 2 != 0
    case 2 => value & 4 != 0
    case 3 => value & 8 != 0
    case 4 => value & 16 != 0
    case 5 => value & 32 != 0
    case 6 => value & 64 != 0
    case _ => value & 128 != 0
  }

  /** The lower eight bits of a word, the most significant first. */
  function ByteOf(value: Word): Byte {
    [Digit(value, 7), Digit(value, 6), Digit(value, 5), Digit(value, 4),
     Digit(value, 3), Digit(value, 2), Digit(value, 1), Digit(value, 0)]
  }

  lemma ByteDigits(value: Word, byte: Byte)
    requires byte == ByteOf(value)
    ensures byte[0] == Digit(value, 7) && byte[1] == Digit(value, 6) && byte[2] == Digit(value, 5)
    ensures byte[3] == Digit(value, 4) && byte[4] == Digit(value, 3) && byte[5] == Digit(value, 2)
    ensures byte[6] == Digit(value, 1) && byte[7] == Digit(value, 0)
  {
    hide Digit;
  }

  /** The word has bit number k and no other. */
  predicate IsPower(bit: Word, k: nat) {
    && (k == 0 ==> bit == 1) && (k == 1 ==> bit == 2) && (k == 2 ==> bit == 4) && (k == 3 ==> bit == 8)
    && (k == 4 ==> bit == 16) && (k == 5 ==> bit == 32) && (k == 6 ==> bit == 64) && (k == 7 ==> bit == 128)
  }

  lemma OneIsPower()
    ensures IsPower(1, 0)
  {
  }

  lemma TestBit(value: Word, bit: Word, k: nat)
    requires IsPower(bit, k) && k < 8
    ensures (value & bit != 0) == Digit(value, k)
    ensures IsPower(bit << 1, k + 1)
  {
  }

  lemma FromDigits(value: Word, byte: Byte)
    requires forall k :: 0 <= k < 8 ==> byte[k] == Digit(value, 7 - k)
    ensures byte == ByteOf(value)
  {
    hide Digit;
  }

  /** calc_single_byte. */
  method CalcSingleByte(value: Word) returns (byte: Byte)
    ensures byte == ByteOf(value)
  {
    hide IsPower, Digit, ByteOf;
    byte := ZERO_BYTE;
    var bit: Word := 1;
    var i := 7;
    OneIsPower();
    while i >= 0
      invariant -1 <= i <= 7 && IsPower(bit, 7 - i)
      invariant forall k :: 0 <= k <= i ==> !byte[k]
      invariant forall k :: i < k < 8 ==> byte[k] == Digit(value, 7 - k)
    {
      TestBit(value, bit, 7 - i);
      if value & bit != 0 {
        byte := byte[i := true];
      }
      bit := bit << 1;
      i := i - 1;
    }
    FromDigits(value, byte);
  }

  /** xor_two_bytes. */
  method XorTwoBytes(byte1: Byte, byte2: Byte) returns (byte: Byte)
    ensures byte == Xor(byte1, byte2)
  {
    byte := ZERO_BYTE;
    for i := 0 to 8
      invariant forall k :: 0 <= k < i ==> byte[k] == (byte1[k] != byte2[k])
    {
      byte := byte[i := byte1[i] != byte2[i]];
    }
  }

  // ---------------------------------------------------------------- the bytes of a command

  function AddressBytes(address: Word, mode: nat): seq<Byte> {
    if mode == 1 then [ByteOf(address & 0x7f)] else [ByteOf(0xc0 | (address >> 8)), ByteOf(address)]
  }

  /** What is sent for an address: a mode other than 1 and 2 leaves the second byte out, but not out of the error
      detection byte. */
  function HeadOf(address: Word, mode: nat): (head: Head)
    ensures mode == 1 || mode == 2 ==> head == Plain(AddressBytes(address, mode))
    ensures 1 <= |head.bytes| <= 2
  {
    var bytes := AddressBytes(address, mode);
    Head(if mode == 1 || mode == 2 then bytes else bytes[..1], XorAll(bytes))
  }

  function BaselineSpeedByte(direction: Word, speed: Word, func: Word): Byte {
    var byte := ByteOf(0x40 | (direction << 5) | speed);
    if func & 1 != 0 then byte[3 := true] else byte
  }

  function Steps28Byte(direction: Word, speed: Word): Byte {
    if SignedLess(1, speed) then
      var s := speed + 2;
      var byte := ByteOf(0x40 | (direction << 5) | (s >> 1));
      if s & 1 != 0 then byte[3 := true] else byte
    else ByteOf(0x40 | (direction << 5) | speed)
  }

  function Steps128Bytes(direction: Word, speed: Word): seq<Byte> {
    var byte := ByteOf(speed);
    [[false, false, true, true, true, true, true, true], if direction == 1 then byte[0 := true] else byte]
  }

  function GroupOneByte(func: Word): Byte {
    var byte := ByteOf(0x80 | ((func & 0x1f) >> 1));
    if func & 1 != 0 then byte[3 := true] else byte
  }

  function GroupTwoByte(func: Word, lower: bool): Byte {
    if lower then ByteOf(((func >> 5) & 0xf) | 0xb0) else ByteOf(((func >> 9) & 0xf) | 0xa0)
  }

  const EXPANSION_LOW: Byte := [true, true, false, true, true, true, true, false]
  const EXPANSION_HIGH: Byte := [true, true, false, true, true, true, true, true]

  /** calc_14bit_address_byte. */
  method Calc14bitAddressByte(address: Word) returns (byte1: Byte, byte2: Byte)
    ensures [byte1, byte2] == AddressBytes(address, 2)
  {
    byte2 := CalcSingleByte(address);
    byte1 := CalcSingleByte(0xc0 | (address >> 8));
  }

  /** calc_baseline_speed_byte. */
  method CalcBaselineSpeedByte(direction: Word, speed: Word, func: Word) returns (byte: Byte)
    ensures byte == BaselineSpeedByte(direction, speed, func)
  {
    byte := CalcSingleByte(0x40 | (direction << 5) | speed);
    if func & 1 != 0 {
      byte := byte[3 := true];
    }
  }

  /** calc_28spst_speed_byte. */
  method Calc28spstSpeedByte(direction: Word, speed: Word) returns (byte: Byte)
    ensures byte == Steps28Byte(direction, speed)
  {
    if SignedLess(1, speed) {
      var s := speed + 2;
      byte := CalcSingleByte(0x40 | (direction << 5) | (s >> 1));
      if s & 1 != 0 {
        byte := byte[3 := true];
      }
    } else {
      byte := CalcSingleByte(0x40 | (direction << 5) | speed);
    }
  }

  /** calc_128spst_adv_op_bytes. */
  method Calc128spstAdvOpBytes(direction: Word, speed: Word) returns (byte1: Byte, byte2: Byte)
    ensures [byte1, byte2] == Steps128Bytes(direction, speed)
  {
    byte1 := [false, false, true, true, true, true, true, true];
    byte2 := CalcSingleByte(speed);
    if direction == 1 {
      byte2 := byte2[0 := true];
    }
  }

  /** calc_function_group_one_byte. */
  method CalcFunctionGroupOneByte(func: Word) returns (byte: Byte)
    ensures byte == GroupOneByte(func)
  {
    var f := func & 0x1f;
    byte := CalcSingleByte(0x80 | (f >> 1));
    if f & 1 != 0 {
      byte := byte[3 := true];
    }
  }

  /** calc_function_group_two_byte. */
  method CalcFunctionGroupTwoByte(func: Word, lower: bool) returns (byte: Byte)
    ensures byte == GroupTwoByte(func, lower)
  {
    var f;
    if lower {
      f := (func >> 5) & 0xf;
      f := f | 0xb0;
    } else {
      f := (func >> 9) & 0xf;
      f := f | 0xa0;
    }
    byte := CalcSingleByte(f);
  }

  // ---------------------------------------------------------------- putting packets together

  const SHORT_PREAMBLE := 15
  const LONG_PREAMBLE := 30
  const WAIT := 35

  /** The preamble, the address bytes, each after a zero, and the zero that announces the next byte. */
  function AddressStream(address: seq<Byte>): Bits {
    Ones(SHORT_PREAMBLE) + Body(address) + [false]
  }

  lemma {:induction false} BodyAppend(bytes: seq<Byte>, more: seq<Byte>)
    ensures Body(bytes + more) == Body(bytes) + Body(more)
    decreases |bytes|
  {
    if bytes == [] {
      assert bytes + more == more;
    } else {
      BodyAppend(bytes[1..], more);
      assert (bytes + more)[1..] == bytes[1..] + more;
      assert [false] + bytes[0] + (Body(bytes[1..]) + Body(more)) == [false] + bytes[0] + Body(bytes[1..]) + Body(more);
    }
  }

  lemma BodyOfOne(byte: Byte)
    ensures Body([byte]) == [false] + byte
  {
    assert [byte][1..] == [];
  }

  lemma XorOnOne(check: Byte, byte: Byte)
    ensures XorOn(check, [byte]) == Xor(check, byte)
  {
    assert [byte][..0] == [];
  }

  /** Address bytes, one byte more and the error detection byte make a packet. */
  lemma OneByteFrame(head: Head, byte: Byte)
    ensures Body(head.bytes) + [false] + byte + [false] + Xor(head.check, byte) + [true]
         == PacketBits(Closed(head, [byte]))
  {
    hide Body, Xor, XorOn;
    var address, check := head.bytes, Xor(head.check, byte);
    XorOnOne(head.check, byte);
    BodyAppend(address + [byte], [check]);
    BodyAppend(address, [byte]);
    BodyOfOne(byte);
    BodyOfOne(check);
    var a, b: Bits, c: Bits := Body(address), [false] + byte, [false] + check;
    assert Body(address + [byte] + [check]) == a + b + c;
    assert a + [false] + byte == a + b;
    assert a + b + [false] + check == a + b + c;
  }

  /** So do two bytes more. */
  lemma TwoByteFrame(head: Head, byte1: Byte, byte2: Byte)
    ensures Body(head.bytes) + [false] + byte1 + [false] + byte2 + [false] + Xor(Xor(head.check, byte1), byte2) + [true]
         == PacketBits(Closed(head, [byte1, byte2]))
  {
    hide Body, Xor, XorOn, PacketBits, Closed;
    var next := HeadWith(head, byte1);
    OneByteFrame(next, byte2);
    CloseLater(head, byte1, [byte2]);
    assert [byte1] + [byte2] == [byte1, byte2];
  }

  /** A byte moves from the instruction to the head. */
  function HeadWith(head: Head, byte: Byte): Head {
    Head(head.bytes + [byte], Xor(head.check, byte))
  }

  lemma {:induction false} XorOnLater(check: Byte, byte: Byte, code: seq<Byte>)
    ensures XorOn(Xor(check, byte), code) == XorOn(check, [byte] + code)
    decreases |code|
  {
    hide Xor;
    var all := [byte] + code;
    if code == [] {
      assert all == [byte];
      XorOnOne(check, byte);
    } else {
      var n := |code| - 1;
      XorOnLater(check, byte, code[..n]);
      assert all[..|all| - 1] == [byte] + code[..n] && all[|all| - 1] == code[n];
    }
  }

  lemma CloseLater(head: Head, byte: Byte, code: seq<Byte>)
    ensures Closed(HeadWith(head, byte), code) == Closed(head, [byte] + code)
    ensures Body(HeadWith(head, byte).bytes) == Body(head.bytes) + [false] + byte
  {
    hide Xor, XorOn, Body;
    XorOnLater(head.check, byte, code);
    assert head.bytes + [byte] + code == head.bytes + ([byte] + code);
    BodyAppend(head.bytes, [byte]);
    BodyOfOne(byte);
    assert Body(head.bytes) + [false] + byte == Body(head.bytes) + ([false] + byte);
  }

  lemma XorOfAddress(bytes: seq<Byte>)
    ensures |bytes| == 1 ==> XorAll(bytes) == bytes[0]
    ensures |bytes| == 2 ==> XorAll(bytes) == Xor(bytes[0], bytes[1])
  {
    if |bytes| == 1 {
      assert bytes[..0] == [] && Xor(ZERO_BYTE, bytes[0]) == bytes[0];
    }
    if |bytes| == 2 {
      assert bytes[..1] == [bytes[0]] && [bytes[0]][..0] == [] && Xor(ZERO_BYTE, bytes[0]) == bytes[0];
    }
  }

  /** calc_address_stream. */
  method CalcAddressStream(address: Word, mode: nat) returns (addrstream: Bits, addrerrbyte: Byte)
    ensures addrstream == AddressStream(HeadOf(address, mode).bytes)
    ensures addrerrbyte == HeadOf(address, mode).check
  {
    var addrbyte, addrbyte2 := ZERO_BYTE, ZERO_BYTE;
    if mode == 1 {
      addrbyte := CalcSingleByte(address & 0x7f);
      addrerrbyte := addrbyte;
    } else {
      addrbyte, addrbyte2 := Calc14bitAddressByte(address);
      addrerrbyte := XorTwoBytes(addrbyte, addrbyte2);
    }
    hide ByteOf;
    XorOfAddress(AddressBytes(address, mode));
    addrstream := [];
    addrstream := addrstream + Ones(SHORT_PREAMBLE);
    addrstream := addrstream + [false];
    addrstream := addrstream + addrbyte;
    addrstream := addrstream + [false];
    BodyOfOne(addrbyte);
    BodyOfOne(addrbyte2);
    if mode == 2 {
      addrstream := addrstream + addrbyte2;
      addrstream := addrstream + [false];
      BodyAppend([addrbyte], [addrbyte2]);
      assert AddressBytes(address, mode) == [addrbyte] + [addrbyte2];
    } else {
      assert HeadOf(address, mode).bytes == [addrbyte];
    }
  }
}
