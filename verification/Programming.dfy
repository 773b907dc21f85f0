/**
  The strings that program decoders: configuration variables in direct mode and on the main track
  (section E of NMRA S-9.2.3, section 2.3.7.3 of S-9.2.1) and physical registers.
 */
module Programming {
  import opened Waveform
  import opened Framing
  import opened Builders
  import opened Decoders
  import opened Command
  import opened CommandMeaning
  import Accessory

  // ---------------------------------------------------------------- what a decoder understands

  datatype Program =
    | WriteByte(cv: Word, value: Word)
    | VerifyByte(cv: Word, value: Word)
    | WriteBit(cv: Word, bit: Word, on: bool)
    | VerifyBit(cv: Word, bit: Word, on: bool)
    | WriteRegister(register: Word, value: Word)
    | VerifyRegister(register: Word, value: Word)

  /** The ten bits of the number of a configuration variable. */
  function WeighTen(b9: bool, b8: bool, b7: bool, b6: bool, b5: bool, b4: bool, b3: bool, b2: bool, b1: bool,
                    b0: bool): Word
  {
    (if b9 then 512 else 0) | (if b8 then 256 else 0) |
    (if b7 then 128 else 0) | (if b6 then 64 else 0) | (if b5 then 32 else 0) | (if b4 then 16 else 0) |
    (if b3 then 8 else 0) | (if b2 then 4 else 0) | (if b1 then 2 else 0) | (if b0 then 1 else 0)
  }

  function WeighByte(c: Byte): Word {
    Weigh(c[0], c[1], c[2], c[3], c[4], c[5], c[6], c[7])
  }

  function WeighThree(b2: bool, b1: bool, b0: bool): Word {
    (if b2 then 4 else 0) | (if b1 then 2 else 0) | (if b0 then 1 else 0)
  }

  function NumberOf(b: Byte, c: Byte): Word {
    WeighTen(b[6], b[7], c[0], c[1], c[2], c[3], c[4], c[5], c[6], c[7])
  }

  /** CCAA, AAAAAAAA and the data: CC is 01 for verify, 11 for write, 10 for the bit number in 111KDBBB. */
  function Variable(b: Byte, c: Byte, d: Byte): Option<Program> {
    var cv := NumberOf(b, c);
    if b[4] && b[5] then Some(WriteByte(cv, WeighByte(d)))
    else if b[5] then Some(VerifyByte(cv, WeighByte(d)))
    else if b[4] && d[0] && d[1] && d[2] then
      var bit := WeighThree(d[5], d[6], d[7]);
      Some(if d[3] then WriteBit(cv, bit, d[4]) else VerifyBit(cv, bit, d[4]))
    else None
  }

  /** 0111CCAA and 0111CRRR on the programming track, 1110CCAA on the main track. */
  function ProgramOf(code: seq<Byte>, main: bool): Option<Program> {
    if |code| == 3 && code[0][..4] == (if main then [true, true, true, false] else [false, true, true, true]) then
      Variable(code[0], code[1], code[2])
    else if |code| == 2 && !main && code[0][..4] == [false, true, true, true] then
      var register := WeighThree(code[0][5], code[0][6], code[0][7]);
      var value := WeighByte(code[1]);
      Some(if code[0][4] then WriteRegister(register, value) else VerifyRegister(register, value))
    else None
  }

  // ---------------------------------------------------------------- the instructions

  function ByteProgramCode(cv: Word, value: Word, verify: bool, pom: bool): (code: seq<Byte>)
    ensures |code| == 3
  {
    var byte2 := if pom then ByteOf(0xec | (cv >> 8)) else ByteOf(0x7c | (cv >> 8));
    [if verify then byte2[4 := false] else byte2, ByteOf(cv), ByteOf(value)]
  }

  function BitProgramCode(cv: Word, bit: Word, value: Word, verify: bool, pom: bool): (code: seq<Byte>)
    ensures |code| == 3
  {
    var byte2 := if pom then ByteOf(0xe8 | (cv >> 8)) else ByteOf(0x78 | (cv >> 8));
    var byte4 := ByteOf(0xf0 | (value << 3) | bit);
    [byte2, ByteOf(cv), if verify then byte4[3 := false] else byte4]
  }

  function RegisterCode(reg: Word, value: Word, verify: bool): (code: seq<Byte>)
    ensures |code| == 2
  {
    var byte1 := ByteOf(0x78 | reg);
    [if verify then byte1[4 := false] else byte1, ByteOf(value)]
  }

  // ---------------------------------------------------------------- the routines

  /** Address bytes and three bytes more. */
  lemma ThreeByteFrame(head: Head, byte1: Byte, byte2: Byte, byte3: Byte)
    ensures Body(head.bytes) + [false] + byte1 + [false] + byte2 + [false] + byte3 + [false]
            + Xor(Xor(Xor(head.check, byte1), byte2), byte3) + [true]
         == PacketBits(Closed(head, [byte1, byte2, byte3]))
  {
    hide Body, Xor, XorOn, PacketBits, Closed;
    TwoByteFrame(HeadWith(head, byte1), byte2, byte3);
    CloseLater(head, byte1, [byte2, byte3]);
    assert [byte1] + [byte2, byte3] == [byte1, byte2, byte3];
  }

  /** The bits of an instruction of three bytes and its error detection byte. */
  function ProgramTail(addrerrbyte: Byte, code: seq<Byte>): Bits
    requires |code| == 3
  {
    code[0] + [false] + code[1] + [false] + code[2] + [false]
    + Xor(Xor(Xor(addrerrbyte, code[0]), code[1]), code[2]) + [true]
  }

  lemma Regroup(a: Bits, b: Bits, c: Bits, d: Bits, x: Bits)
    ensures a + [false] + (b + [false] + c + [false] + d + [false] + x + [true])
         == a + [false] + b + [false] + c + [false] + d + [false] + x + [true]
  {
  }

  lemma TailClosesFrame(head: Head, code: seq<Byte>)
    requires |code| == 3
    ensures Body(head.bytes) + [false] + ProgramTail(head.check, code) == PacketBits(Closed(head, code))
  {
    hide Body, Xor, XorOn, PacketBits, Closed;
    assert code == [code[0], code[1], code[2]];
    ThreeByteFrame(head, code[0], code[1], code[2]);
    Regroup(Body(head.bytes), code[0], code[1], code[2], Xor(Xor(Xor(head.check, code[0]), code[1]), code[2]));
  }

  /** The strcat calls that both program streams end with. */
  method StrcatProgram(byte2: Byte, byte3: Byte, byte4: Byte, addrerrbyte: Byte) returns (progstream: Bits)
    ensures progstream == ProgramTail(addrerrbyte, [byte2, byte3, byte4])
  {
    hide Xor;
    var byte5 := XorTwoBytes(addrerrbyte, byte2);
    byte5 := XorTwoBytes(byte5, byte3);
    byte5 := XorTwoBytes(byte5, byte4);
    progstream := [];
    progstream := progstream + byte2;
    progstream := progstream + [false];
    progstream := progstream + byte3;
    progstream := progstream + [false];
    progstream := progstream + byte4;
    progstream := progstream + [false];
    progstream := progstream + byte5;
    progstream := progstream + [true];
    assert [] + byte2 == byte2;
  }

  /** calc_byte_program_stream. */
  method CalcByteProgramStream(addrerrbyte: Byte, cv: Word, value: Word, verify: bool, pom: bool)
    returns (progstream: Bits)
    ensures progstream == ProgramTail(addrerrbyte, ByteProgramCode(cv, value, verify, pom))
  {
    hide ByteOf, ProgramTail;
    var byte3 := CalcSingleByte(cv);
    var byte2;
    if pom {
      byte2 := CalcSingleByte(0xec | (cv >> 8));
    } else {
      byte2 := CalcSingleByte(0x7c | (cv >> 8));
    }
    if verify {
      byte2 := byte2[4 := false];
    }
    var byte4 := CalcSingleByte(value);
    progstream := StrcatProgram(byte2, byte3, byte4, addrerrbyte);
  }

  /** calc_bit_program_stream. */
  method CalcBitProgramStream(addrerrbyte: Byte, cv: Word, bit: Word, value: Word, verify: bool, pom: bool)
    returns (progstream: Bits)
    ensures progstream == ProgramTail(addrerrbyte, BitProgramCode(cv, bit, value, verify, pom))
  {
    hide ByteOf, ProgramTail;
    var byte3 := CalcSingleByte(cv);
    var byte2;
    if pom {
      byte2 := CalcSingleByte(0xe8 | (cv >> 8));
    } else {
      byte2 := CalcSingleByte(0x78 | (cv >> 8));
    }
    var byte4 := CalcSingleByte(0xf0 | (value << 3) | bit);
    if verify {
      byte4 := byte4[3 := false];
    }
    progstream := StrcatProgram(byte2, byte3, byte4, addrerrbyte);
  }

  // ---------------------------------------------------------------- the decoder understands

  /** The first instruction byte of byte and bit instructions, for either track. */
  lemma CvDigits(cv: Word, top: Word)
    requires cv <= 1024 && (top == 0x7c || top == 0xec || top == 0x78 || top == 0xe8)
    ensures var v := top | (cv >> 8);
      && Digit(v, 7) == Digit(top, 7) && Digit(v, 6) && Digit(v, 5) && Digit(v, 4) == Digit(top, 4) == !Digit(top, 7)
      && Digit(v, 3) && (Digit(top, 2) ==> Digit(v, 2)) && (cv <= 1023 ==> Digit(v, 2) == Digit(top, 2))
      && Digit(v, 1) == Digit(cv >> 8, 1) && Digit(v, 0) == Digit(cv >> 8, 0)
    ensures Digit(top, 7) == (top == 0xec || top == 0xe8)
    ensures Digit(top, 2) == (top == 0x7c || top == 0xec)
  {
  }

  lemma CvNumber(cv: Word)
    ensures WeighTen(Digit(cv >> 8, 1), Digit(cv >> 8, 0), Digit(cv, 7), Digit(cv, 6), Digit(cv, 5), Digit(cv, 4),
                     Digit(cv, 3), Digit(cv, 2), Digit(cv, 1), Digit(cv, 0)) == cv & 0x3ff
  {
  }

  lemma NumberArrives(b: Byte, c: Byte, cv: Word, number: Word)
    requires c == ByteOf(cv) && b[6] == Digit(cv >> 8, 1) && b[7] == Digit(cv >> 8, 0)
    requires WeighTen(Digit(cv >> 8, 1), Digit(cv >> 8, 0), Digit(cv, 7), Digit(cv, 6), Digit(cv, 5), Digit(cv, 4),
                      Digit(cv, 3), Digit(cv, 2), Digit(cv, 1), Digit(cv, 0)) == number
    ensures NumberOf(b, c) == number
  {
    hide ByteOf, Digit, WeighTen;
    ByteDigits(cv, c);
  }

  lemma ValueOfByte(value: Word)
    requires value <= 255
    ensures WeighByte(ByteOf(value)) == value
  {
    WeighDigits(value);
  }

  /** The number of the variable arrives modulo 1024. */
  lemma ByteProgramArrives(cv: Word, value: Word, verify: bool, pom: bool)
    requires cv <= 1024 && value <= 255
    ensures ProgramOf(ByteProgramCode(cv, value, verify, pom), pom)
         == Some(if verify then VerifyByte(cv & 0x3ff, value) else WriteByte(cv & 0x3ff, value))
  {
    hide ByteOf, Digit, WeighTen, WeighByte, NumberOf;
    var top: Word := if pom then 0xec else 0x7c;
    var v := top | (cv >> 8);
    CvDigits(cv, top);
    CvNumber(cv);
    ValueOfByte(value);
    ByteDigits(v, ByteOf(v));
    var code := ByteProgramCode(cv, value, verify, pom);
    assert code[0] == ByteOf(v)[4 := !verify];
    NumberArrives(code[0], code[1], cv, cv & 0x3ff);
  }

  /** A byte of a variable is programmed as asked, if and only if its number, counted from 0, has ten bits.
      The routine for the programming track lets 1024 pass. */
  lemma ByteProgramMeansWhatItSays(cv: Word, value: Word, verify: bool, pom: bool)
    requires cv <= 1024 && value <= 255
    ensures ProgramOf(ByteProgramCode(cv, value, verify, pom), pom)
              == Some(if verify then VerifyByte(cv, value) else WriteByte(cv, value))
       <==> cv <= 1023
  {
    hide ProgramOf, ByteProgramCode;
    ByteProgramArrives(cv, value, verify, pom);
    TenBits(cv);
  }

  lemma TenBits(cv: Word)
    requires cv <= 1024
    ensures cv & 0x3ff == cv <==> cv <= 1023
  {
  }

  lemma BitDigits(bit: Word, value: Word)
    requires bit <= 7 && value <= 1
    ensures var v := 0xf0 | (value << 3) | bit;
      && Digit(v, 7) && Digit(v, 6) && Digit(v, 5) && Digit(v, 4) && Digit(v, 3) == (value == 1)
      && WeighThree(Digit(v, 2), Digit(v, 1), Digit(v, 0)) == bit
  {
  }

  /** A bit of a variable is programmed as asked. */
  lemma BitProgramMeansWhatItSays(cv: Word, bit: Word, value: Word, verify: bool, pom: bool)
    requires cv <= 1023 && bit <= 7 && value <= 1
    ensures ProgramOf(BitProgramCode(cv, bit, value, verify, pom), pom)
         == Some(if verify then VerifyBit(cv, bit, value == 1) else WriteBit(cv, bit, value == 1))
  {
    hide ByteOf, Digit, WeighTen, WeighByte, WeighThree, NumberOf;
    var top: Word := if pom then 0xe8 else 0x78;
    var v, w := top | (cv >> 8), 0xf0 | (value << 3) | bit;
    CvDigits(cv, top);
    CvNumber(cv);
    TenBits(cv);
    BitDigits(bit, value);
    ByteDigits(v, ByteOf(v));
    ByteDigits(w, ByteOf(w));
    var code := BitProgramCode(cv, bit, value, verify, pom);
    assert code[2] == ByteOf(w)[3 := !verify];
    NumberArrives(code[0], code[1], cv, cv);
  }

  lemma RegisterDigits(reg: Word)
    requires reg <= 7
    ensures var v := 0x78 | reg;
      && !Digit(v, 7) && Digit(v, 6) && Digit(v, 5) && Digit(v, 4) && Digit(v, 3)
      && WeighThree(Digit(v, 2), Digit(v, 1), Digit(v, 0)) == reg
  {
  }

  /** A register is accessed as asked. */
  lemma RegisterMeansWhatItSays(reg: Word, value: Word, verify: bool)
    requires reg <= 7 && value <= 255
    ensures ProgramOf(RegisterCode(reg, value, verify), false)
         == Some(if verify then VerifyRegister(reg, value) else WriteRegister(reg, value))
  {
    hide ByteOf, Digit, WeighThree, WeighByte;
    var v := 0x78 | reg;
    RegisterDigits(reg);
    ValueOfByte(value);
    ByteDigits(v, ByteOf(v));
    var code := RegisterCode(reg, value, verify);
    assert code[0] == ByteOf(v)[4 := !verify];
  }

  // ---------------------------------------------------------------- programming on the main track

  /** The decoders that a programming instruction is for, and the instruction. */
  predicate AcceptedOnMain(address: Word, cv: Word, mode: nat) {
    && !SignedLess(address, 1) && !SignedLess(10239, address) && !(SignedLess(127, address) && mode == 1)
    && !SignedLess(cv - 1, 1) && !SignedLess(1023, cv - 1)
  }

  /** protocol_nmra_sm_write_cvbyte_pom, up to the call of the translation. */
  method WriteCvbytePom(address: Word, cv: Word, value: Word, mode: nat) returns (request: Option<Bits>)
    ensures request.None? <==> !(AcceptedOnMain(address, cv, mode) && !SignedLess(value, 0) && !SignedLess(255, value))
    ensures request.Some? ==>
              request.value
              == Signal(SHORT_PREAMBLE, HeadOf(address, mode), ByteProgramCode(cv - 1, value, false, true))
  {
    hide SignedLess, HeadOf, ByteProgramCode, Closed, PacketBits, Body;
    var number := cv - 1;
    if SignedLess(address, 1) || SignedLess(10239, address) || SignedLess(number, 1) || SignedLess(1023, number)
       || SignedLess(value, 0) || SignedLess(255, value) || (SignedLess(127, address) && mode == 1) {
      return None;
    }
    var addrstream, addrerrbyte := CalcAddressStream(address, mode);
    var progstream := CalcByteProgramStream(addrerrbyte, number, value, false, true);
    TailClosesSignal(HeadOf(address, mode), ByteProgramCode(number, value, false, true));
    return Some(addrstream + progstream);
  }

  /** protocol_nmra_sm_write_cvbit_pom, up to the call of the translation. */
  method WriteCvbitPom(address: Word, cv: Word, bit: Word, value: Word, mode: nat) returns (request: Option<Bits>)
    ensures request.None? <==> !(AcceptedOnMain(address, cv, mode) && !SignedLess(bit, 0) && !SignedLess(7, bit)
                                 && !SignedLess(value, 0) && !SignedLess(1, value))
    ensures request.Some? ==>
              request.value
              == Signal(SHORT_PREAMBLE, HeadOf(address, mode), BitProgramCode(cv - 1, bit, value, false, true))
  {
    hide SignedLess, HeadOf, BitProgramCode, Closed, PacketBits, Body;
    var number := cv - 1;
    if SignedLess(address, 1) || SignedLess(10239, address) || SignedLess(number, 1) || SignedLess(1023, number)
       || SignedLess(bit, 0) || SignedLess(7, bit) || SignedLess(value, 0) || SignedLess(1, value)
       || (SignedLess(127, address) && mode == 1) {
      return None;
    }
    var addrstream, addrerrbyte := CalcAddressStream(address, mode);
    var progstream := CalcBitProgramStream(addrerrbyte, number, bit, value, false, true);
    TailClosesSignal(HeadOf(address, mode), BitProgramCode(number, bit, value, false, true));
    return Some(addrstream + progstream);
  }

  lemma TailClosesSignal(head: Head, code: seq<Byte>)
    requires |code| == 3
    ensures AddressStream(head.bytes) + ProgramTail(head.check, code) == Signal(SHORT_PREAMBLE, head, code)
  {
    hide Body, PacketBits, Closed, ProgramTail;
    TailClosesFrame(head, code);
    var a, t := Body(head.bytes), ProgramTail(head.check, code);
    assert Ones(SHORT_PREAMBLE) + a + [false] + t == Ones(SHORT_PREAMBLE) + (a + [false] + t);
  }

  /** What programming on the main track asks for reaches the decoder at the address. */
  lemma MainTrackMeansWhatItSays(address: Word, cv: Word, mode: nat, code: seq<Byte>)
    requires (mode == 1 || mode == 2) && AcceptedOnMain(address, cv, mode) && code != []
    ensures var packet := Checked(AddressBytes(address, mode) + code);
      && Sends(Signal(SHORT_PREAMBLE, HeadOf(address, mode), code), [packet]) && Intact(packet)
      && |packet| >= 2 && AddressOf(packet) == AddressFor(address, mode) && CodeOf(packet) == code
      && 1 <= cv - 1 <= 1023
  {
    hide AddressBytes, AddressOf, CodeOf, Closed;
    MainBounds(address, cv, mode);
    hide AcceptedOnMain, SignedLess;
    var bytes := AddressBytes(address, mode);
    AddressReadsBack(address, mode, code);
    CheckedIsIntact(bytes + code);
    PlainCloses(bytes, code);
    SignalsOfOne(Plain(bytes), code);
    SignalsSend(Plain(bytes), [code]);
    assert PacketsFor(Plain(bytes), [code]) == [Checked(bytes + code)];
  }

  /** The variables and decoders that may be programmed on the main track, in numbers. */
  lemma MainIsAcceptedExactly(address: Word, cv: Word, mode: nat)
    ensures AcceptedOnMain(address, cv, mode)
       <==> 1 <= address <= (if mode == 1 then 127 else 10239) && 2 <= cv <= 1024
  {
    AddressAccepted(address);
    VariableAccepted(cv);
    hide SignedLess;
  }

  lemma VariableAccepted(cv: Word)
    ensures !SignedLess(cv - 1, 1) && !SignedLess(1023, cv - 1) <==> 2 <= cv <= 1024
  {
  }

  lemma MainBounds(address: Word, cv: Word, mode: nat)
    requires (mode == 1 || mode == 2) && AcceptedOnMain(address, cv, mode)
    ensures 1 <= cv - 1 <= 1023
    ensures (mode == 1 && address <= 127) || (mode == 2 && address <= 10239)
  {
  }

  // ---------------------------------------------------------------- strings for the programming track

  /** calc_reg_stream, up to the call of the translation. */
  method CalcRegString(reg: Word, value: Word, verify: bool) returns (bitstream: Bits)
    ensures bitstream == Ones(LONG_PREAMBLE) + PacketBits(Checked(RegisterCode(reg, value, verify)))
  {
    hide ByteOf, PacketBits, Checked;
    var byte1 := CalcSingleByte(0x78 | reg);
    if verify {
      byte1 := byte1[4 := false];
    }
    var byte2 := CalcSingleByte(value);
    var byte3 := XorTwoBytes(byte1, byte2);
    assert Xor(byte1, byte2) == Xor(byte2, byte1);
    bitstream := Accessory.PutTogether(Ones(LONG_PREAMBLE), byte1, byte2, byte3);
    assert RegisterCode(reg, value, verify) == [byte1, byte2];
  }

  /** The string of an instruction of three bytes: the long preamble, a zero and the program stream. */
  lemma DirectString(code: seq<Byte>)
    requires |code| == 3
    ensures Ones(LONG_PREAMBLE) + [false] + ProgramTail(ZERO_BYTE, code)
         == Ones(LONG_PREAMBLE) + PacketBits(Checked(code))
  {
    hide PacketBits, Checked, Closed, ProgramTail;
    TailClosesFrame(Plain([]), code);
    PlainCloses([], code);
    assert [] + code == code;
    assert XorAll([]) == ZERO_BYTE;
    var t := ProgramTail(ZERO_BYTE, code);
    assert Body([]) + [false] + t == [false] + t;
    assert Ones(LONG_PREAMBLE) + [false] + t == Ones(LONG_PREAMBLE) + ([false] + t);
  }
}
