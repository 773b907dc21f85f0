/** A command for a multi-function decoder means what was asked. */
module CommandMeaning {
  import opened Waveform
  import opened Framing
  import opened Builders
  import opened Decoders
  import opened Command

  // ---------------------------------------------------------------- the strings are heard as their packets

  lemma {:induction false} SignalsHeard(n: nat, ones: nat, head: Head, codes: seq<seq<Byte>>)
    requires ones >= PREAMBLE
    ensures HearsAfter(n, Signals(ones, head, codes), PacketsFor(head, codes))
    decreases |codes|
  {
    hide Hear, PacketBits, Closed;
    if codes != [] {
      var packet := Closed(head, codes[0]);
      var rest := Signals(WAIT + SHORT_PREAMBLE, head, codes[1..]);
      ClosedNotEmpty(head, codes[0]);
      HearInTwo(Sync(n), Ones(ones) + PacketBits(packet), rest);
      HearInTwo(Sync(n), Ones(ones), PacketBits(packet));
      HearOnes(n, ones);
      HearFrame(n + ones, packet);
      SignalsHeard(1, WAIT + SHORT_PREAMBLE, head, codes[1..]);
      assert PacketsFor(head, codes) == [packet] + PacketsFor(head, codes[1..]);
    }
  }

  lemma ClosedNotEmpty(head: Head, code: seq<Byte>)
    ensures Closed(head, code) != []
  {
  }

  /** A string of the command, after any number of ones, is heard as its packets. */
  lemma SignalsSend(head: Head, codes: seq<seq<Byte>>)
    ensures Sends(Signals(SHORT_PREAMBLE, head, codes), PacketsFor(head, codes))
  {
    forall n: nat
      ensures HearsAfter(n, Signals(SHORT_PREAMBLE, head, codes), PacketsFor(head, codes))
    {
      SignalsHeard(n, SHORT_PREAMBLE, head, codes);
    }
  }

  // ---------------------------------------------------------------- decoders at the address obey

  function InstructAll(d: Decoder, codes: seq<seq<Byte>>): (d': Decoder)
    requires IsDecoder(d)
    ensures IsDecoder(d')
    decreases |codes|
  {
    if codes == [] then d else InstructAll(Instruct(d, codes[0]), codes[1..])
  }

  predicate IsAddress(address: Word, mode: nat) {
    (mode == 1 && address <= 127) || (mode == 2 && address <= 10239)
  }

  lemma InstructKeepsAddress(d: Decoder, code: seq<Byte>)
    requires IsDecoder(d)
    ensures Instruct(d, code).address == d.address && Instruct(d, code).steps == d.steps
  {
  }

  lemma {:induction false} PacketsInstruct(d: Decoder, address: Word, mode: nat, codes: seq<seq<Byte>>)
    requires IsDecoder(d) && IsAddress(address, mode)
    requires forall i :: 0 <= i < |codes| ==> codes[i] != []
    ensures ExecuteAll(d, PacketsFor(HeadOf(address, mode), codes))
         == if d.address == AddressFor(address, mode) then InstructAll(d, codes) else d
    decreases |codes|
  {
    hide AddressBytes, AddressOf, CodeOf, Intact, Instruct, Checked, Closed, Plain;
    if codes != [] {
      var bytes, head := AddressBytes(address, mode), HeadOf(address, mode);
      var packet := Checked(bytes + codes[0]);
      PlainCloses(bytes, codes[0]);
      AddressReadsBack(address, mode, codes[0]);
      CheckedIsIntact(bytes + codes[0]);
      InstructKeepsAddress(d, codes[0]);
      var packets := PacketsFor(head, codes);
      assert packets[0] == packet && packets[1..] == PacketsFor(head, codes[1..]);
      PacketsInstruct(Execute(d, packet), address, mode, codes[1..]);
    }
  }

  lemma {:induction false} ExecuteInTwo(d: Decoder, a: seq<Packet>, b: seq<Packet>)
    requires IsDecoder(d)
    ensures ExecuteAll(d, a + b) == ExecuteAll(ExecuteAll(d, a), b)
    decreases |a|
  {
    hide Execute;
    if a == [] {
      assert a + b == b;
    } else {
      assert (a + b)[0] == a[0] && (a + b)[1..] == a[1..] + b;
      ExecuteInTwo(Execute(d, a[0]), a[1..], b);
    }
  }

  // ---------------------------------------------------------------- speed and direction

  function StepsFor(nspeed: Word): Steps {
    if SignedLess(nspeed, 15) then Steps14 else if SignedLess(29, nspeed) then Steps128 else Steps28
  }

  /** The bits that the speed bytes hold. */
  lemma BaselineDigits(direction: Word, speed: Word)
    requires direction <= 1 && speed < 16
    ensures var v := 0x40 | (direction << 5) | speed;
      && !Digit(v, 7) && Digit(v, 6) && Digit(v, 5) == (direction == 1) && !Digit(v, 4)
      && Weigh(false, false, false, false, Digit(v, 3), Digit(v, 2), Digit(v, 1), Digit(v, 0)) == speed
  {
  }

  lemma StopDigits(direction: Word, speed: Word, light: bool)
    requires direction <= 1 && speed < 2
    ensures var v := 0x40 | (direction << 5) | speed;
      SpeedOf28(Weigh(false, false, false, Digit(v, 3), Digit(v, 2), Digit(v, 1), Digit(v, 0), light)) == speed
  {
  }

  lemma Steps28Digits(direction: Word, speed: Word)
    requires direction <= 1 && 2 <= speed <= 30
    ensures var s := speed + 2;
      var v := 0x40 | (direction << 5) | (s >> 1);
      && !Digit(v, 7) && Digit(v, 6) && Digit(v, 5) == (direction == 1)
      && (Digit(v, 4) <==> speed == 30)
      && SpeedOf28(Weigh(false, false, false, Digit(v, 3), Digit(v, 2), Digit(v, 1), Digit(v, 0),
                         s & 1 != 0 || Digit(v, 4)))
         == if speed == 30 then 0 else speed
  {
  }

  lemma Steps128Digits(speed: Word)
    requires speed <= 127
    ensures !Digit(speed, 7)
    ensures Weigh(false, Digit(speed, 6), Digit(speed, 5), Digit(speed, 4), Digit(speed, 3), Digit(speed, 2),
                  Digit(speed, 1), Digit(speed, 0)) == speed
  {
  }

  /** What the checks of the routine leave of a command. */
  lemma AcceptedBounds(address: Word, direction: Word, speed: Word, nspeed: Word, mode: nat)
    requires Accepted(address, direction, speed, nspeed, mode) && (mode == 1 || mode == 2)
    ensures 1 <= address && direction <= 1 && Clamped(speed) <= 127 && IsAddress(address, mode)
    ensures SignedLess(nspeed, 15) ==> Clamped(speed) < 16
    ensures !SignedLess(29, nspeed) ==> Clamped(speed) <= 30 && (Clamped(speed) == 30 ==> nspeed == 29)
    ensures SignedLess(Clamped(speed), 2) <==> Clamped(speed) < 2
  {
  }

  /** The one command that goes wrong: with 29 speed steps the fastest step is sent as a stop. */
  predicate Stalls(speed: Word, nspeed: Word) {
    nspeed == 29 && Clamped(speed) == 30
  }

  function Lit(d: Decoder, func: Word): (d': Decoder)
    requires IsDecoder(d)
    ensures IsDecoder(d')
  {
    if d.steps.Steps14? then SetFunctions(d, 0, [func & 1 != 0]) else d
  }

  lemma BaselineObeyed(d: Decoder, direction: Word, speed: Word, func: Word)
    requires IsDecoder(d) && direction <= 1
    requires if d.steps.Steps14? then speed < 16 else speed < 2
    ensures Instruct(d, [BaselineSpeedByte(direction, speed, func)])
         == Lit(d, func).(forward := direction == 1, speed := speed)
  {
    if d.steps.Steps14? {
      FourteenObeyed(d, direction, speed, func);
    } else {
      StopObeyed(d, direction, speed, func);
    }
  }

  lemma FourteenObeyed(d: Decoder, direction: Word, speed: Word, func: Word)
    requires IsDecoder(d) && direction <= 1 && d.steps.Steps14? && speed < 16
    ensures Instruct(d, [BaselineSpeedByte(direction, speed, func)])
         == Lit(d, func).(forward := direction == 1, speed := speed)
  {
    BaselineDigits(direction, speed);
    hide Digit, Weigh;
  }

  lemma StopObeyed(d: Decoder, direction: Word, speed: Word, func: Word)
    requires IsDecoder(d) && direction <= 1 && !d.steps.Steps14? && speed < 2
    ensures Instruct(d, [BaselineSpeedByte(direction, speed, func)])
         == Lit(d, func).(forward := direction == 1, speed := speed)
  {
    BaselineDigits(direction, speed);
    StopDigits(direction, speed, func & 1 != 0);
    hide Digit, Weigh;
  }

  lemma Steps28Obeyed(d: Decoder, direction: Word, speed: Word)
    requires IsDecoder(d) && d.steps.Steps28? && direction <= 1 && 2 <= speed <= 30
    ensures Instruct(d, [Steps28Byte(direction, speed)])
         == d.(forward := direction == 1, speed := if speed == 30 then 0 else speed)
  {
    Steps28Digits(direction, speed);
    assert SignedLess(1, speed);
    hide Digit, Weigh, SignedLess, SpeedOf28;
  }

  lemma Steps128Obeyed(d: Decoder, direction: Word, speed: Word)
    requires IsDecoder(d) && speed <= 127
    ensures Instruct(d, Steps128Bytes(direction, speed)) == d.(forward := direction == 1, speed := speed)
  {
    Steps128Digits(speed);
    hide Digit, Weigh;
  }

  lemma SpeedObeyed(d: Decoder, address: Word, direction: Word, speed: Word, func: Word, nspeed: Word, mode: nat)
    requires IsDecoder(d) && d.steps == StepsFor(nspeed) && (mode == 1 || mode == 2)
    requires Accepted(address, direction, speed, nspeed, mode)
    ensures Instruct(d, SpeedCode(direction, Clamped(speed), func, nspeed))
         == Lit(d, func).(forward := direction == 1, speed := if Stalls(speed, nspeed) then 0 else Clamped(speed))
  {
    AcceptedBounds(address, direction, speed, nspeed, mode);
    var s := Clamped(speed);
    if SignedLess(s, 2) || SignedLess(nspeed, 15) {
      BaselineObeyed(d, direction, s, func);
    } else if SignedLess(29, nspeed) {
      Steps128Obeyed(d, direction, s);
    } else {
      Steps28Obeyed(d, direction, s);
    }
    hide SignedLess, Instruct, BaselineSpeedByte, Steps128Bytes, Steps28Byte, Clamped;
  }

  // ---------------------------------------------------------------- functions

  /** Bit number i of the function word. */
  predicate FunctionBit(func: Word, i: nat) {
    if i < 8 then Digit(func, i)
    else if i < 16 then Digit(func >> 8, i - 8)
    else if i < 24 then Digit(func >> 16, i - 16)
    else Digit(func >> 24, i - 24)
  }

  function FunctionBits(func: Word, start: nat, n: nat): (bits: seq<bool>)
    ensures |bits| == n
  {
    seq(n, i requires 0 <= i < n => FunctionBit(func, start + i))
  }

  lemma GroupOneDigits(func: Word)
    ensures var v := 0x80 | ((func & 0x1f) >> 1);
      && Digit(v, 7) && !Digit(v, 6) && !Digit(v, 5) && !Digit(v, 4)
      && Digit(v, 3) == Digit(func, 4) && Digit(v, 2) == Digit(func, 3)
      && Digit(v, 1) == Digit(func, 2) && Digit(v, 0) == Digit(func, 1)
  {
  }

  lemma GroupTwoLowerDigits(func: Word)
    ensures var v := ((func >> 5) & 0xf) | 0xb0;
      && Digit(v, 7) && !Digit(v, 6) && Digit(v, 5) && Digit(v, 4)
      && Digit(v, 3) == Digit(func >> 8, 0) && Digit(v, 2) == Digit(func, 7)
      && Digit(v, 1) == Digit(func, 6) && Digit(v, 0) == Digit(func, 5)
  {
  }

  lemma GroupTwoUpperDigits(func: Word)
    ensures var v := ((func >> 9) & 0xf) | 0xa0;
      && Digit(v, 7) && !Digit(v, 6) && Digit(v, 5) && !Digit(v, 4)
      && Digit(v, 3) == Digit(func >> 8, 4) && Digit(v, 2) == Digit(func >> 8, 3)
      && Digit(v, 1) == Digit(func >> 8, 2) && Digit(v, 0) == Digit(func >> 8, 1)
  {
  }

  lemma ExpansionLowDigits(func: Word)
    ensures var v := func >> 13;
      && Digit(v, 0) == Digit(func >> 8, 5) && Digit(v, 1) == Digit(func >> 8, 6) && Digit(v, 2) == Digit(func >> 8, 7)
      && Digit(v, 3) == Digit(func >> 16, 0) && Digit(v, 4) == Digit(func >> 16, 1)
      && Digit(v, 5) == Digit(func >> 16, 2)
      && Digit(v, 6) == Digit(func >> 16, 3) && Digit(v, 7) == Digit(func >> 16, 4)
  {
  }

  lemma ExpansionHighDigits(func: Word)
    ensures var v := func >> 21;
      && Digit(v, 0) == Digit(func >> 16, 5) && Digit(v, 1) == Digit(func >> 16, 6)
      && Digit(v, 2) == Digit(func >> 16, 7)
      && Digit(v, 3) == Digit(func >> 24, 0) && Digit(v, 4) == Digit(func >> 24, 1)
      && Digit(v, 5) == Digit(func >> 24, 2)
      && Digit(v, 6) == Digit(func >> 24, 3) && Digit(v, 7) == Digit(func >> 24, 4)
  {
  }

  lemma GroupOneObeyed(d: Decoder, func: Word)
    requires IsDecoder(d)
    ensures Instruct(d, [GroupOneByte(func)]) == SetFunctions(d, 0, FunctionBits(func, 0, 5))
  {
    GroupOneDigits(func);
    assert (func & 1 != 0) == Digit(func, 0);
    hide Digit;
    assert FunctionBits(func, 0, 5) == [Digit(func, 0), Digit(func, 1), Digit(func, 2), Digit(func, 3), Digit(func, 4)];
  }

  lemma GroupTwoLowerObeyed(d: Decoder, func: Word)
    requires IsDecoder(d)
    ensures Instruct(d, [GroupTwoByte(func, true)]) == SetFunctions(d, 5, FunctionBits(func, 5, 4))
  {
    GroupTwoLowerDigits(func);
    hide Digit;
    assert FunctionBits(func, 5, 4) == [Digit(func, 5), Digit(func, 6), Digit(func, 7), Digit(func >> 8, 0)];
  }

  lemma GroupTwoUpperObeyed(d: Decoder, func: Word)
    requires IsDecoder(d)
    ensures Instruct(d, [GroupTwoByte(func, false)]) == SetFunctions(d, 9, FunctionBits(func, 9, 4))
  {
    GroupTwoUpperDigits(func);
    hide Digit;
    assert FunctionBits(func, 9, 4)
        == [Digit(func >> 8, 1), Digit(func >> 8, 2), Digit(func >> 8, 3), Digit(func >> 8, 4)];
  }

  lemma ExpansionTaken(d: Decoder, data: Byte)
    requires IsDecoder(d)
    ensures Instruct(d, [EXPANSION_LOW, data]) == SetFunctions(d, 13, Reversed(data))
    ensures Instruct(d, [EXPANSION_HIGH, data]) == SetFunctions(d, 21, Reversed(data))
  {
    hide SetFunctions;
  }

  lemma ReversedDigits(v: Word)
    ensures Reversed(ByteOf(v)) == [Digit(v, 0), Digit(v, 1), Digit(v, 2), Digit(v, 3),
                                    Digit(v, 4), Digit(v, 5), Digit(v, 6), Digit(v, 7)]
  {
    hide Digit;
  }

  lemma EightFunctions(func: Word, start: nat)
    ensures FunctionBits(func, start, 8)
         == [FunctionBit(func, start), FunctionBit(func, start + 1), FunctionBit(func, start + 2),
             FunctionBit(func, start + 3), FunctionBit(func, start + 4), FunctionBit(func, start + 5),
             FunctionBit(func, start + 6), FunctionBit(func, start + 7)]
  {
    hide FunctionBit;
  }

  lemma ExpansionLowBits(func: Word)
    ensures FunctionBits(func, 13, 8) == Reversed(ByteOf(func >> 13))
  {
    EightFunctions(func, 13);
    ReversedDigits(func >> 13);
    ExpansionLowDigits(func);
    hide Digit, FunctionBits, Reversed, ByteOf;
  }

  lemma ExpansionHighBits(func: Word)
    ensures FunctionBits(func, 21, 8) == Reversed(ByteOf(func >> 21))
  {
    EightFunctions(func, 21);
    ReversedDigits(func >> 21);
    ExpansionHighDigits(func);
    hide Digit, FunctionBits, Reversed, ByteOf;
  }

  lemma ExpansionLowObeyed(d: Decoder, func: Word)
    requires IsDecoder(d)
    ensures Instruct(d, [EXPANSION_LOW, ByteOf(func >> 13)]) == SetFunctions(d, 13, FunctionBits(func, 13, 8))
  {
    hide Instruct, SetFunctions, ByteOf, FunctionBits, Reversed;
    ExpansionTaken(d, ByteOf(func >> 13));
    ExpansionLowBits(func);
  }

  lemma ExpansionHighObeyed(d: Decoder, func: Word)
    requires IsDecoder(d)
    ensures Instruct(d, [EXPANSION_HIGH, ByteOf(func >> 21)]) == SetFunctions(d, 21, FunctionBits(func, 21, 8))
  {
    hide Instruct, SetFunctions, ByteOf, FunctionBits, Reversed;
    ExpansionTaken(d, ByteOf(func >> 21));
    ExpansionHighBits(func);
  }

  // ---------------------------------------------------------------- the whole command

  /** For each of the 29 functions, whether it is one of those spoken of. */
  type Selection = s: seq<bool> | |s| == 29 witness seq(29, _ => false)

  function From(lo: nat, hi: nat): Selection {
    seq(29, i => lo <= i < hi)
  }

  function Nothing(): Selection {
    From(0, 0)
  }

  function Union(a: Selection, b: Selection): Selection {
    seq(29, i requires 0 <= i < 29 => a[i] || b[i])
  }

  /** The decoder differs from before only in functions, and has the wanted ones where selected. */
  ghost predicate Took(d: Decoder, d': Decoder, wanted: Selection, covered: Selection) {
    && IsDecoder(d) && IsDecoder(d')
    && d' == d.(functions := d'.functions)
    && forall i :: 0 <= i < 29 ==> d'.functions[i] == if covered[i] then wanted[i] else d.functions[i]
  }

  /** All functions of the function word. */
  function Wanted(func: Word): Selection {
    FunctionBits(func, 0, 29)
  }

  lemma WantedSlice(func: Word, start: nat, n: nat)
    requires start + n <= 29
    ensures FunctionBits(func, start, n) == Wanted(func)[start..start + n]
  {
    hide FunctionBit;
  }

  lemma TookBoth(d: Decoder, d1: Decoder, d2: Decoder, wanted: Selection, a: Selection, b: Selection)
    requires Took(d, d1, wanted, a) && Took(d1, d2, wanted, b)
    ensures Took(d, d2, wanted, Union(a, b))
  {
  }

  lemma {:induction false} InstructInTwo(d: Decoder, a: seq<seq<Byte>>, b: seq<seq<Byte>>)
    requires IsDecoder(d)
    ensures InstructAll(d, a + b) == InstructAll(InstructAll(d, a), b)
    decreases |a|
  {
    hide Instruct;
    if a == [] {
      assert a + b == b;
    } else {
      assert (a + b)[0] == a[0] && (a + b)[1..] == a[1..] + b;
      InstructInTwo(Instruct(d, a[0]), a[1..], b);
    }
  }

  lemma InstructOne(d: Decoder, code: seq<Byte>)
    requires IsDecoder(d)
    ensures InstructAll(d, [code]) == Instruct(d, code)
  {
    assert [code][1..] == [];
  }

  function Selected(on: bool, lo: nat, hi: nat): Selection {
    if on then From(lo, hi) else Nothing()
  }

  function MoreCovered(nfuncs: int): Selection {
    Union(Selected(nfuncs > 5, 5, 9), Selected(nfuncs > 12, 13, 21))
  }

  function LaterCovered(nfuncs: int): Selection {
    Union(Selected(nfuncs > 8, 9, 13), Selected(nfuncs > 20, 21, 29))
  }

  function OtherCovered(nfuncs: int): Selection {
    Union(Selected(true, 0, 5), LaterCovered(nfuncs))
  }

  /** A group of functions that is sent or not. */
  lemma GroupTaken(d: Decoder, on: bool, code: seq<Byte>, codes: seq<seq<Byte>>, func: Word, start: nat, n: nat,
                   selection: Selection)
    requires IsDecoder(d) && start + n <= 29
    requires Instruct(d, code) == SetFunctions(d, start, FunctionBits(func, start, n))
    requires codes == Optional(on, code) && selection == Selected(on, start, start + n)
    ensures Took(d, InstructAll(d, codes), Wanted(func), selection)
  {
    hide Instruct, InstructAll, SetFunctions, FunctionBits, Took, IsDecoder, Wanted, Selected, Optional;
    WantedSlice(func, start, n);
    MaybeTaken(d, on, code, codes, Wanted(func), start, n, selection);
  }

  lemma MaybeTaken(d: Decoder, on: bool, code: seq<Byte>, codes: seq<seq<Byte>>, wanted: Selection, start: nat, n: nat,
                   selection: Selection)
    requires IsDecoder(d) && start + n <= 29
    requires Instruct(d, code) == SetFunctions(d, start, wanted[start..start + n])
    requires codes == Optional(on, code) && selection == Selected(on, start, start + n)
    ensures Took(d, InstructAll(d, codes), wanted, selection)
  {
    hide *;
    SentOrNot(on, code, start, start + n);
    SetFunctionsTakes(d, wanted, start, n);
    TookNothing(d, wanted);
    InstructOne(d, code);
    InstructNone(d);
  }

  lemma SentOrNot(on: bool, code: seq<Byte>, lo: nat, hi: nat)
    ensures Optional(on, code) == if on then [code] else []
    ensures Selected(on, lo, hi) == if on then From(lo, hi) else Nothing()
  {
  }

  lemma SetFunctionsTakes(d: Decoder, wanted: Selection, start: nat, n: nat)
    requires IsDecoder(d) && start + n <= 29
    ensures Took(d, SetFunctions(d, start, wanted[start..start + n]), wanted, From(start, start + n))
  {
  }

  lemma TookNothing(d: Decoder, wanted: Selection)
    requires IsDecoder(d)
    ensures Took(d, d, wanted, Nothing())
  {
  }

  lemma InstructNone(d: Decoder)
    requires IsDecoder(d)
    ensures InstructAll(d, []) == d
  {
  }

  lemma MoreSplit(func: Word, nfuncs: int)
    ensures MoreCodes(func, nfuncs) == Optional(nfuncs > 5, [GroupTwoByte(func, true)])
                                 + Optional(nfuncs > 12, [EXPANSION_LOW, ByteOf(func >> 13)])
  {
  }

  lemma MoreTaken(d: Decoder, func: Word, nfuncs: int)
    requires IsDecoder(d)
    ensures Took(d, InstructAll(d, MoreCodes(func, nfuncs)), Wanted(func), MoreCovered(nfuncs))
  {
    hide *;
    MoreSplit(func, nfuncs);
    var code1, code2 := [GroupTwoByte(func, true)], [EXPANSION_LOW, ByteOf(func >> 13)];
    var first, second := Optional(nfuncs > 5, code1), Optional(nfuncs > 12, code2);
    var d1 := InstructAll(d, first);
    InstructInTwo(d, first, second);
    GroupTwoLowerObeyed(d, func);
    GroupTaken(d, nfuncs > 5, code1, first, func, 5, 4, Selected(nfuncs > 5, 5, 9));
    ExpansionLowObeyed(d1, func);
    GroupTaken(d1, nfuncs > 12, code2, second, func, 13, 8, Selected(nfuncs > 12, 13, 21));
    TookBoth(d, d1, InstructAll(d1, second), Wanted(func), Selected(nfuncs > 5, 5, 9), Selected(nfuncs > 12, 13, 21));
    MoreCoveredIs(nfuncs);
  }

  lemma LaterSplit(func: Word, nfuncs: int)
    ensures LaterCodes(func, nfuncs) == Optional(nfuncs > 8, [GroupTwoByte(func, false)])
                                 + Optional(nfuncs > 20, [EXPANSION_HIGH, ByteOf(func >> 21)])
  {
  }

  lemma LaterTaken(d: Decoder, func: Word, nfuncs: int)
    requires IsDecoder(d)
    ensures Took(d, InstructAll(d, LaterCodes(func, nfuncs)), Wanted(func), LaterCovered(nfuncs))
  {
    hide *;
    LaterSplit(func, nfuncs);
    var code1, code2 := [GroupTwoByte(func, false)], [EXPANSION_HIGH, ByteOf(func >> 21)];
    var first, second := Optional(nfuncs > 8, code1), Optional(nfuncs > 20, code2);
    var d1 := InstructAll(d, first);
    InstructInTwo(d, first, second);
    GroupTwoUpperObeyed(d, func);
    GroupTaken(d, nfuncs > 8, code1, first, func, 9, 4, Selected(nfuncs > 8, 9, 13));
    ExpansionHighObeyed(d1, func);
    GroupTaken(d1, nfuncs > 20, code2, second, func, 21, 8, Selected(nfuncs > 20, 21, 29));
    TookBoth(d, d1, InstructAll(d1, second), Wanted(func), Selected(nfuncs > 8, 9, 13), Selected(nfuncs > 20, 21, 29));
    OtherCoveredIs(nfuncs);
  }

  lemma OtherSplit(func: Word, nfuncs: int)
    ensures OtherCodes(func, nfuncs) == [[GroupOneByte(func)]] + LaterCodes(func, nfuncs)
  {
  }

  lemma OtherTaken(d: Decoder, func: Word, nfuncs: int)
    requires IsDecoder(d)
    ensures Took(d, InstructAll(d, OtherCodes(func, nfuncs)), Wanted(func), OtherCovered(nfuncs))
  {
    hide *;
    OtherSplit(func, nfuncs);
    var code, later := [GroupOneByte(func)], LaterCodes(func, nfuncs);
    var d1 := InstructAll(d, [code]);
    InstructInTwo(d, [code], later);
    GroupOneObeyed(d, func);
    SentOrNot(true, code, 0, 5);
    GroupTaken(d, true, code, [code], func, 0, 5, Selected(true, 0, 5));
    LaterTaken(d1, func, nfuncs);
    TookBoth(d, d1, InstructAll(d1, later), Wanted(func), Selected(true, 0, 5), LaterCovered(nfuncs));
    OtherCoveredIs(nfuncs);
  }

  lemma MoreCoveredIs(nfuncs: int)
    ensures MoreCovered(nfuncs) == Union(Selected(nfuncs > 5, 5, 9), Selected(nfuncs > 12, 13, 21))
  {
  }

  lemma OtherCoveredIs(nfuncs: int)
    ensures LaterCovered(nfuncs) == Union(Selected(nfuncs > 8, 9, 13), Selected(nfuncs > 20, 21, 29))
    ensures OtherCovered(nfuncs) == Union(Selected(true, 0, 5), LaterCovered(nfuncs))
  {
  }

  /** The functions that the packets of a command speak of. */
  function Covered(nspeed: Word, nfuncs: int): Selection {
    if SendsFunctions(nspeed, nfuncs) then Union(MoreCovered(nfuncs), OtherCovered(nfuncs))
    else Selected(SignedLess(nspeed, 15), 0, 1)
  }

  function PacketsOfCommand(address: Word, direction: Word, speed: Word, func: Word, nspeed: Word, nfuncs: int,
                            mode: nat)
    : seq<Packet>
  {
    var head := HeadOf(address, mode);
    PacketsFor(head, FirstCodes(direction, speed, func, nspeed, nfuncs)) +
    if SendsFunctions(nspeed, nfuncs) then PacketsFor(head, OtherCodes(func, nfuncs)) else []
  }

  function CodesOfCommand(direction: Word, speed: Word, func: Word, nspeed: Word, nfuncs: int): seq<seq<Byte>> {
    FirstCodes(direction, speed, func, nspeed, nfuncs) +
    if SendsFunctions(nspeed, nfuncs) then OtherCodes(func, nfuncs) else []
  }

  lemma CodesObeyed(d: Decoder, address: Word, direction: Word, speed: Word, func: Word, nspeed: Word, nfuncs: int,
                    mode: nat)
    requires IsDecoder(d) && d.steps == StepsFor(nspeed) && (mode == 1 || mode == 2)
    requires Accepted(address, direction, speed, nspeed, mode)
    ensures Took(d.(forward := direction == 1, speed := if Stalls(speed, nspeed) then 0 else Clamped(speed)),
                 InstructAll(d, CodesOfCommand(direction, speed, func, nspeed, nfuncs)), Wanted(func),
                 Covered(nspeed, nfuncs))
  {
    hide Instruct, SpeedCode, Took, SetFunctions, From, Union, SignedLess, MoreCodes, OtherCodes, Clamped, Stalls,
      Accepted;
    var start := d.(forward := direction == 1, speed := if Stalls(speed, nspeed) then 0 else Clamped(speed));
    var code := SpeedCode(direction, Clamped(speed), func, nspeed);
    var d1 := Instruct(d, code);
    LitTakes(start, func);
    LitKeepsSpeed(d, func, start.forward, start.speed);
    SpeedObeyed(d, address, direction, speed, func, nspeed, mode);
    InstructOne(d, code);
    if SendsFunctions(nspeed, nfuncs) {
      var d2 := InstructAll(d1, MoreCodes(func, nfuncs));
      InstructInTwo(d, [code], MoreCodes(func, nfuncs));
      InstructInTwo(d, [code] + MoreCodes(func, nfuncs), OtherCodes(func, nfuncs));
      MoreTaken(d1, func, nfuncs);
      OtherTaken(d2, func, nfuncs);
      TookBoth(d1, d2, InstructAll(d2, OtherCodes(func, nfuncs)), Wanted(func), MoreCovered(nfuncs),
               OtherCovered(nfuncs));
      NoLightAndFunctions(nspeed);
    } else {
      assert [code] + [] + [] == [code];
    }
  }

  lemma NoLightAndFunctions(nspeed: Word)
    ensures !(SignedLess(nspeed, 15) && SignedLess(14, nspeed))
  {
  }

  lemma LitKeepsSpeed(d: Decoder, func: Word, forward: bool, speed: Word)
    requires IsDecoder(d)
    ensures Lit(d.(forward := forward, speed := speed), func) == Lit(d, func).(forward := forward, speed := speed)
  {
  }

  lemma LitTakes(d: Decoder, func: Word)
    requires IsDecoder(d)
    ensures Took(d, Lit(d, func), Wanted(func), Selected(d.steps.Steps14?, 0, 1))
  {
  }

  lemma StallIsNoSpeed(speed: Word, nspeed: Word)
    ensures Stalls(speed, nspeed) ==> Clamped(speed) != 0
  {
  }

  lemma PacketsAreCodes(address: Word, direction: Word, speed: Word, func: Word, nspeed: Word, nfuncs: int, mode: nat)
    ensures PacketsOfCommand(address, direction, speed, func, nspeed, nfuncs, mode)
         == PacketsFor(HeadOf(address, mode), CodesOfCommand(direction, speed, func, nspeed, nfuncs))
  {
    hide HeadOf, FirstCodes, OtherCodes, SendsFunctions, Closed;
  }

  lemma CodesNotEmpty(direction: Word, speed: Word, func: Word, nspeed: Word, nfuncs: int)
    ensures var codes := CodesOfCommand(direction, speed, func, nspeed, nfuncs);
      forall i :: 0 <= i < |codes| ==> codes[i] != []
  {
    hide SignedLess, BaselineSpeedByte, Steps28Byte, ByteOf, GroupOneByte, GroupTwoByte;
  }

  /** A function of the command: bit number i of the word. */
  predicate IsOn(func: Word, i: nat)
    requires i < 32
  {
    (func >> i) & 1 == 1
  }

  /** The functions are sent from number 0 on, in groups: those below this number. Decoders with 14 steps get function 0
      with the speed. */
  function FunctionsEnd(nspeed: Word, nfuncs: int): nat {
    if SignedLess(nspeed, 15) then 1
    else if nfuncs == 0 then 0
    else if nfuncs <= 5 then 5
    else if nfuncs <= 8 then 9
    else if nfuncs <= 12 then 13
    else if nfuncs <= 20 then 21
    else 29
  }

  lemma CoveredIs(nspeed: Word, nfuncs: int, i: nat)
    requires i < 29
    ensures Covered(nspeed, nfuncs)[i] <==> i < FunctionsEnd(nspeed, nfuncs)
  {
    NoLightAndFunctions(nspeed);
    LightOrFunctions(nspeed);
    hide SignedLess;
  }

  lemma LightOrFunctions(nspeed: Word)
    ensures SignedLess(nspeed, 15) || SignedLess(14, nspeed)
  {
  }

  lemma WantedIs(func: Word, i: nat)
    requires i < 29
    ensures Wanted(func)[i] <==> IsOn(func, i)
  {
    if i < 8 { FirstByteIs(func, i); }
    else if i < 16 { SecondByteIs(func, i); }
    else if i < 24 { ThirdByteIs(func, i); }
    else { FourthByteIs(func, i); }
    hide Digit, IsOn;
  }

  lemma FirstByteIs(func: Word, i: nat)
    requires i < 8
    ensures Digit(func, i) <==> IsOn(func, i)
  {
    if i == 0 {} else if i == 1 {} else if i == 2 {} else if i == 3 {}
    else if i == 4 {} else if i == 5 {} else if i == 6 {} else { assert i == 7; }
  }

  lemma SecondByteIs(func: Word, i: nat)
    requires 8 <= i < 16
    ensures Digit(func >> 8, i - 8) <==> IsOn(func, i)
  {
    if i == 8 {} else if i == 9 {} else if i == 10 {} else if i == 11 {}
    else if i == 12 {} else if i == 13 {} else if i == 14 {} else { assert i == 15; }
  }

  lemma ThirdByteIs(func: Word, i: nat)
    requires 16 <= i < 24
    ensures Digit(func >> 16, i - 16) <==> IsOn(func, i)
  {
    if i == 16 {} else if i == 17 {} else if i == 18 {} else if i == 19 {}
    else if i == 20 {} else if i == 21 {} else if i == 22 {} else { assert i == 23; }
  }

  lemma FourthByteIs(func: Word, i: nat)
    requires 24 <= i < 29
    ensures Digit(func >> 24, i - 24) <==> IsOn(func, i)
  {
    if i == 24 {} else if i == 25 {} else if i == 26 {} else if i == 27 {} else { assert i == 28; }
  }

  /** The decoder has the functions that are sent, and the others as before. */
  ghost predicate HasFunctions(d: Decoder, d': Decoder, func: Word, nspeed: Word, nfuncs: int)
    requires IsDecoder(d) && IsDecoder(d')
  {
    forall i :: 0 <= i < 29 ==>
      d'.functions[i] == if i < FunctionsEnd(nspeed, nfuncs) then IsOn(func, i) else d.functions[i]
  }

  lemma TookFunctions(d: Decoder, d': Decoder, func: Word, nspeed: Word, nfuncs: int)
    requires Took(d, d', Wanted(func), Covered(nspeed, nfuncs))
    ensures HasFunctions(d, d', func, nspeed, nfuncs)
  {
    hide Wanted, Covered, IsOn, FunctionsEnd;
    forall i | 0 <= i < 29
      ensures d'.functions[i] == if i < FunctionsEnd(nspeed, nfuncs) then IsOn(func, i) else d.functions[i]
    {
      CoveredIs(nspeed, nfuncs, i);
      WantedIs(func, i);
    }
  }

  lemma ClampedIs(speed: Word, nspeed: Word)
    requires !SignedLess(speed, 0)
    ensures Clamped(speed) == if speed <= 127 then speed else 127
    ensures Stalls(speed, nspeed) <==> nspeed == 29 && speed == 30
  {
  }

  /** A decoder at the address has the commanded direction and every function that was sent, and the commanded speed, up
      to 127, unless it is speed 30 of 29 steps; a decoder at another address is as it was. */
  ghost predicate IsObeyed(d: Decoder, d': Decoder, address: Word, direction: Word, speed: Word, func: Word,
                           nspeed: Word, nfuncs: int, mode: nat)
    requires IsDecoder(d) && IsDecoder(d')
  {
    if d.address == AddressFor(address, mode) then
      && d'.forward == (direction == 1)
      && (d'.speed == (if speed <= 127 then speed else 127) <==> !(nspeed == 29 && speed == 30))
      && HasFunctions(d, d', func, nspeed, nfuncs)
      && d'.address == d.address && d'.steps == d.steps
    else d' == d
  }

  /** A decoder at the address, with the number of speed steps of the command, that obeys every packet of
      both strings, ends with the commanded direction and every function that was sent, and with the
      commanded speed unless the command is the one that stalls. Every other decoder stays as it was. */
  lemma CommandMeansWhatItSays(d: Decoder, address: Word, direction: Word, speed: Word, func: Word, nspeed: Word,
                               nfuncs: int, mode: nat)
    requires IsDecoder(d) && d.steps == StepsFor(nspeed) && (mode == 1 || mode == 2)
    requires Accepted(address, direction, speed, nspeed, mode)
    ensures IsObeyed(d, ExecuteAll(d, PacketsOfCommand(address, direction, speed, func, nspeed, nfuncs, mode)),
                     address, direction, speed, func, nspeed, nfuncs, mode)
  {
    hide Accepted, HeadOf, SignedLess, Instruct, InstructAll, Execute, ExecuteAll, FunctionBit, Covered,
      CodesOfCommand, PacketsOfCommand, PacketsFor, Clamped, Stalls, AddressFor, HasFunctions, Wanted;
    var codes := CodesOfCommand(direction, speed, func, nspeed, nfuncs);
    AcceptedBounds(address, direction, speed, nspeed, mode);
    CodesNotEmpty(direction, speed, func, nspeed, nfuncs);
    PacketsInstruct(d, address, mode, codes);
    PacketsAreCodes(address, direction, speed, func, nspeed, nfuncs, mode);
    CodesObeyed(d, address, direction, speed, func, nspeed, nfuncs, mode);
    StallIsNoSpeed(speed, nspeed);
    SpeedNotNegative(address, direction, speed, nspeed, mode);
    ClampedIs(speed, nspeed);
    var start := d.(forward := direction == 1, speed := if Stalls(speed, nspeed) then 0 else Clamped(speed));
    TookFunctions(start, InstructAll(d, codes), func, nspeed, nfuncs);
    SameFunctions(start, d, InstructAll(d, codes), func, nspeed, nfuncs);
  }

  lemma SpeedNotNegative(address: Word, direction: Word, speed: Word, nspeed: Word, mode: nat)
    requires Accepted(address, direction, speed, nspeed, mode)
    ensures !SignedLess(speed, 0)
  {
  }

  lemma SameFunctions(d: Decoder, e: Decoder, d': Decoder, func: Word, nspeed: Word, nfuncs: int)
    requires IsDecoder(d) && IsDecoder(e) && IsDecoder(d') && d.functions == e.functions
    requires HasFunctions(d, d', func, nspeed, nfuncs)
    ensures HasFunctions(e, d', func, nspeed, nfuncs)
  {
    hide IsOn, FunctionsEnd;
  }

  /** The numbers of steps that there are, and what they mean to a decoder. */
  predicate UsualSteps(steps: Steps, nspeed: Word) {
    match nspeed
    case 14 => steps == Steps14
    case 28 => steps == Steps28
    case 128 => steps == Steps128
    case _ => false
  }

  lemma UsualStepsFor(steps: Steps, nspeed: Word)
    requires UsualSteps(steps, nspeed)
    ensures steps == StepsFor(nspeed) && nspeed != 29
  {
  }

  /** The commands that are accepted, in numbers: short addresses up to 127, long ones up to 10239, and one more speed
      than there are steps. */
  lemma AcceptedExactly(address: Word, direction: Word, speed: Word, nspeed: Word, mode: nat)
    ensures Accepted(address, direction, speed, nspeed, mode)
       <==> && 1 <= address <= (if mode == 1 then 127 else 10239) && direction <= 1
            && speed <= nspeed + 1 < 0x8000_0000
  {
    AddressAccepted(address);
    DirectionAccepted(direction);
    SpeedAccepted(speed, nspeed + 1);
    hide SignedLess;
  }

  lemma AddressAccepted(address: Word)
    ensures !SignedLess(address, 1) && !SignedLess(10239, address) <==> 1 <= address <= 10239
    ensures 1 <= address <= 10239 ==> (SignedLess(127, address) <==> address > 127)
  {
  }

  lemma DirectionAccepted(direction: Word)
    ensures !SignedLess(direction, 0) && !SignedLess(1, direction) <==> direction <= 1
  {
  }

  lemma SpeedAccepted(speed: Word, most: Word)
    ensures !SignedLess(speed, 0) && !SignedLess(most, speed) <==> speed <= most < 0x8000_0000
  {
  }

  /** The step counts that init_gl_DDL lets pass never stall: their decoders get the speed as well. */
  lemma UsualStepsAreObeyed(d: Decoder, address: Word, direction: Word, speed: Word, func: Word, nspeed: Word,
                            nfuncs: int, mode: nat)
    requires IsDecoder(d) && UsualSteps(d.steps, nspeed) && (mode == 1 || mode == 2)
    requires Accepted(address, direction, speed, nspeed, mode)
    requires d.address == AddressFor(address, mode)
    ensures var d' := ExecuteAll(d, PacketsOfCommand(address, direction, speed, func, nspeed, nfuncs, mode));
      && d'.forward == (direction == 1) && d'.speed == (if speed <= 127 then speed else 127)
      && HasFunctions(d, d', func, nspeed, nfuncs)
  {
    hide Accepted, ExecuteAll, PacketsOfCommand, HasFunctions, AddressFor, StepsFor;
    UsualStepsFor(d.steps, nspeed);
    CommandMeansWhatItSays(d, address, direction, speed, func, nspeed, nfuncs, mode);
  }

  // ---------------------------------------------------------------- other modes

  lemma LowByteOfAddress(address: Word)
    ensures ByteOf(address) == ZERO_BYTE <==> address & 0xff == 0
  {
    hide ByteOf, Digit, Weigh;
    LowDigits(address);
    ByteDigits(address, ByteOf(address));
    IsZeroByte(ByteOf(address));
  }

  lemma IsZeroByte(b: Byte)
    ensures b == ZERO_BYTE <==> !(b[0] || b[1] || b[2] || b[3] || b[4] || b[5] || b[6] || b[7])
  {
  }

  lemma LowDigits(v: Word)
    ensures v & 0xff == 0 <==> !(Digit(v, 7) || Digit(v, 6) || Digit(v, 5) || Digit(v, 4)
                                 || Digit(v, 3) || Digit(v, 2) || Digit(v, 1) || Digit(v, 0))
  {
  }

  lemma WeighIsSmall(b: Byte)
    requires b != ZERO_BYTE
    ensures 0 < Weigh(b[0], b[1], b[2], b[3], b[4], b[5], b[6], b[7]) <= 0xff
  {
    IsZeroByte(b);
  }

  lemma LowByteOfSum(high: Word, low: Word)
    requires low <= 0xff
    ensures ((high << 8) | low) & 0xff == low
  {
  }

  /** A packet without the second byte of its address has no errors if and only if that byte is zero, and is then for
      another decoder. */
  lemma OtherModeMisses(address: Word, mode: nat, code: seq<Byte>)
    requires mode != 1 && mode != 2 && code != [] && code[0] != ZERO_BYTE
    ensures var packet := Closed(HeadOf(address, mode), code);
      && |packet| >= 2
      && (Intact(packet) <==> address & 0xff == 0)
      && (Intact(packet) ==> AddressOf(packet) != Short(address) && AddressOf(packet) != Long(address))
  {
    var head, packet := HeadOf(address, mode), Closed(HeadOf(address, mode), code);
    var first, second := ByteOf(0xc0 | (address >> 8)), ByteOf(address);
    hide ByteOf, Intact, AddressOf, Xor, XorAll, XorOn;
    assert head.bytes == [first] && AddressBytes(address, mode) == [first, second];
    XorOfAddress([first]);
    XorOfAddress([first, second]);
    XorWithZero(first, second);
    LowByteOfAddress(address);
    ClosedIsIntactExactly(head, code);
    assert packet[0] == first && packet[1] == code[0];
    LongAddressStarts(address);
    hide Closed, HeadOf, AddressBytes;
    HeardAddress(packet, address);
  }

  /** A packet for a long address whose second byte is not zero. */
  lemma HeardAddress(packet: Packet, address: Word)
    requires |packet| >= 2 && packet[0][0] && packet[0][1] && packet[1] != ZERO_BYTE
    ensures AddressOf(packet) != Short(address)
    ensures address & 0xff == 0 ==> AddressOf(packet) != Long(address)
  {
    var a, b := packet[0], packet[1];
    WeighIsSmall(b);
    hide Weigh;
    LowByteOfSum(Weigh(false, false, a[2], a[3], a[4], a[5], a[6], a[7]),
                 Weigh(b[0], b[1], b[2], b[3], b[4], b[5], b[6], b[7]));
  }

  lemma LongAddressStarts(address: Word)
    ensures ByteOf(0xc0 | (address >> 8))[0] && ByteOf(0xc0 | (address >> 8))[1]
  {
    hide ByteOf;
    ByteDigits(0xc0 | (address >> 8), ByteOf(0xc0 | (address >> 8)));
    TopDigits(address >> 8);
    hide Digit;
  }

  lemma TopDigits(value: Word)
    ensures Digit(0xc0 | value, 7) && Digit(0xc0 | value, 6)
  {
  }

  lemma XorWithZero(a: Byte, b: Byte)
    ensures Xor(a, b) == a <==> b == ZERO_BYTE
  {
    if Xor(a, b) == a {
      assert forall i :: 0 <= i < 8 ==> Xor(a, b)[i] == a[i];
      assert forall i :: 0 <= i < 8 ==> b[i] == ZERO_BYTE[i];
    }
  }

  lemma {:induction false} OtherPacketsMiss(d: Decoder, address: Word, mode: nat, codes: seq<seq<Byte>>)
    requires IsDecoder(d) && mode != 1 && mode != 2 && (d.address == Short(address) || d.address == Long(address))
    requires AllStart(codes)
    ensures var packets := PacketsFor(HeadOf(address, mode), codes);
      && ExecuteAll(d, packets) == d
      && forall i :: 0 <= i < |packets| ==> (Intact(packets[i]) <==> address & 0xff == 0)
    decreases |codes|
  {
    hide HeadOf, AddressOf, CodeOf, Intact, Instruct, Closed;
    if codes != [] {
      var head := HeadOf(address, mode);
      var packets := PacketsFor(head, codes);
      OtherModeMisses(address, mode, codes[0]);
      assert packets[0] == Closed(head, codes[0]) && packets[1..] == PacketsFor(head, codes[1..]);
      OtherPacketsMiss(d, address, mode, codes[1..]);
      forall i | 1 <= i < |packets| ensures Intact(packets[i]) <==> address & 0xff == 0 {
        assert packets[i] == packets[1..][i - 1];
      }
    }
  }

  lemma SpeedCodeStarts(direction: Word, speed: Word, func: Word, nspeed: Word)
    ensures AllStart([SpeedCode(direction, speed, func, nspeed)])
  {
    hide SignedLess, BaselineSpeedByte, Steps28Byte, ByteOf;
    BaselineStarts(direction, speed, func);
    Steps28Starts(direction, speed);
    assert !ZERO_BYTE[1] && !ZERO_BYTE[2];
  }

  lemma BaselineStarts(direction: Word, speed: Word, func: Word)
    ensures BaselineSpeedByte(direction, speed, func)[1]
  {
    hide ByteOf, Digit;
    var v := 0x40 | (direction << 5) | speed;
    SecondDigit(direction << 5, speed);
    ByteDigits(v, ByteOf(v));
  }

  lemma Steps28Starts(direction: Word, speed: Word)
    ensures Steps28Byte(direction, speed)[1]
  {
    SecondDigit(direction << 5, speed);
    SecondDigit(direction << 5, (speed + 2) >> 1);
    hide Digit, SignedLess;
  }

  lemma SecondDigit(a: Word, b: Word)
    ensures Digit(0x40 | a | b, 6)
  {
  }

  lemma GroupsStart(func: Word)
    ensures GroupOneByte(func)[0] && GroupTwoByte(func, true)[0] && GroupTwoByte(func, false)[0]
  {
    FirstDigit((func & 0x1f) >> 1, 0x80);
    FirstDigit((func >> 5) & 0xf, 0xb0);
    FirstDigit((func >> 9) & 0xf, 0xa0);
    hide Digit;
  }

  lemma FirstDigit(value: Word, top: Word)
    requires top & 0x80 != 0
    ensures Digit(top | value, 7) && Digit(value | top, 7)
  {
  }

  predicate AllStart(codes: seq<seq<Byte>>) {
    forall i :: 0 <= i < |codes| ==> codes[i] != [] && codes[i][0] != ZERO_BYTE
  }

  lemma FunctionCodesStart(func: Word, nfuncs: int)
    ensures AllStart(MoreCodes(func, nfuncs)) && AllStart(OtherCodes(func, nfuncs))
  {
    GroupsStart(func);
    assert !ZERO_BYTE[0] && EXPANSION_LOW[0] && EXPANSION_HIGH[0];
    hide ByteOf, GroupOneByte, GroupTwoByte;
  }

  lemma CodesStart(direction: Word, speed: Word, func: Word, nspeed: Word, nfuncs: int)
    ensures AllStart(CodesOfCommand(direction, speed, func, nspeed, nfuncs))
  {
    hide SignedLess, SpeedCode, MoreCodes, OtherCodes, Clamped, SendsFunctions;
    SpeedCodeStarts(direction, Clamped(speed), func, nspeed);
    FunctionCodesStart(func, nfuncs);
  }

  lemma {:induction false} SpoiltPacketsAreIgnored(d: Decoder, packets: seq<Packet>)
    requires IsDecoder(d) && forall i :: 0 <= i < |packets| ==> !Intact(packets[i])
    ensures ExecuteAll(d, packets) == d
    decreases |packets|
  {
    hide Intact;
    if packets != [] {
      assert !Intact(packets[0]);
      SpoiltPacketsAreIgnored(d, packets[1..]);
    }
  }

  /** In the modes 1 and 2 no packet has errors. */
  lemma CommandIsIntact(address: Word, direction: Word, speed: Word, func: Word, nspeed: Word, nfuncs: int, mode: nat)
    requires mode == 1 || mode == 2
    ensures var packets := PacketsOfCommand(address, direction, speed, func, nspeed, nfuncs, mode);
      packets != [] && forall i :: 0 <= i < |packets| ==> Intact(packets[i])
  {
    hide HeadOf, AddressBytes, CodesOfCommand, PacketsOfCommand, Intact, Plain, Closed;
    var codes := CodesOfCommand(direction, speed, func, nspeed, nfuncs);
    var bytes := AddressBytes(address, mode);
    PacketsAreCodes(address, direction, speed, func, nspeed, nfuncs, mode);
    CodesNotEmpty(direction, speed, func, nspeed, nfuncs);
    SomeCode(direction, speed, func, nspeed, nfuncs);
    forall i | 0 <= i < |codes| ensures Intact(Closed(HeadOf(address, mode), codes[i])) {
      PlainCloses(bytes, codes[i]);
      CheckedIsIntact(bytes + codes[i]);
    }
  }

  lemma SomeCode(direction: Word, speed: Word, func: Word, nspeed: Word, nfuncs: int)
    ensures CodesOfCommand(direction, speed, func, nspeed, nfuncs) != []
  {
  }

  /** In a mode other than 1 and 2, no decoder at the address, short or long, takes anything from the packets; they have
      no errors if and only if the byte left out is zero. */
  lemma OtherModesAreLost(d: Decoder, address: Word, direction: Word, speed: Word, func: Word, nspeed: Word,
                          nfuncs: int, mode: nat)
    requires IsDecoder(d) && mode != 1 && mode != 2 && (d.address == Short(address) || d.address == Long(address))
    ensures var packets := PacketsOfCommand(address, direction, speed, func, nspeed, nfuncs, mode);
      && ExecuteAll(d, packets) == d
      && forall i :: 0 <= i < |packets| ==> (Intact(packets[i]) <==> address & 0xff == 0)
  {
    hide HeadOf, ExecuteAll, CodesOfCommand, PacketsOfCommand, PacketsFor, Intact;
    CodesStart(direction, speed, func, nspeed, nfuncs);
    OtherPacketsMiss(d, address, mode, CodesOfCommand(direction, speed, func, nspeed, nfuncs));
    PacketsAreCodes(address, direction, speed, func, nspeed, nfuncs, mode);
  }
}
