/**
  The service-mode routines, with version 3 of the translation: each puts a fixed sequence of packets
  into one buffer with strcat and writes it to the line.
 */
module ServiceMode {
  import opened Waveform
  import opened Framing
  import opened TranslateV3
  import opened PropertiesV3
  import opened Builders
  import opened Programming
  import opened ServiceDecoder

  // ---------------------------------------------------------------- the packets of a sequence

  /** The packets that the sequences consist of. */
  datatype Item = Idle | Reset | PagePreset | Instruction(code: seq<Byte>)

  const PAGE_BYTE: Byte := [false, true, true, true, true, true, false, true]
  const ONE_BYTE: Byte := [false, false, false, false, false, false, false, true]

  function CodeFor(item: Item): seq<Byte> {
    match item
    case Idle => [ALL_ONES, ZERO_BYTE]
    case Reset => [ZERO_BYTE, ZERO_BYTE]
    case PagePreset => [PAGE_BYTE, ONE_BYTE]
    case Instruction(code) => code
  }

  /** Instructions have two or three bytes. */
  predicate IsItem(item: Item) {
    2 <= |CodeFor(item)| <= 3
  }

  function StringOf(item: Item): Bits {
    Ones(LONG_PREAMBLE) + PacketBits(PacketOf(item))
  }

  function PacketOf(item: Item): Packet {
    Checked(CodeFor(item))
  }

  /** The bytes of one packet. */
  function OutputOf(item: Item): seq<bv8> {
    Path(Buffer(StringOf(item)), 0)
  }

  /** The bytes of a sequence of packets. */
  function Output(plan: seq<Item>): seq<bv8>
    decreases |plan|
  {
    if plan == [] then [] else OutputOf(plan[0]) + Output(plan[1..])
  }

  lemma {:induction false} OutputInTwo(a: seq<Item>, b: seq<Item>)
    ensures Output(a + b) == Output(a) + Output(b)
    decreases |a|
  {
    hide OutputOf;
    if a == [] {
      assert a + b == b;
    } else {
      assert (a + b)[0] == a[0] && (a + b)[1..] == a[1..] + b;
      OutputInTwo(a[1..], b);
    }
  }

  function Times(item: Item, n: nat): (items: seq<Item>)
    ensures |items| == n
  {
    seq(n, _ => item)
  }

  lemma {:induction false} BodyLength(packet: Packet)
    ensures |Body(packet)| == 9 * |packet|
    decreases |packet|
  {
    if packet != [] {
      BodyLength(packet[1..]);
    }
  }

  /** The strings are never jammed, and their packets are short and hold no zero byte. */
  lemma ItemIsFine(item: Item)
    requires IsItem(item)
    ensures !Jams(StringOf(item)) && Fits80(StringOf(item))
    ensures |OutputOf(item)| <= if |CodeFor(item)| == 2 then 21 else 26
    ensures 0 !in OutputOf(item) && Conveys(OutputOf(item), StringOf(item))
    ensures Sends(StringOf(item), [PacketOf(item)])
  {
    hide Path, Conveys, XorAll;
    var bits, packet := StringOf(item), PacketOf(item);
    assert [] + CodeFor(item) == CodeFor(item);
    BodyLength(packet);
    assert bits == Ones(LONG_PREAMBLE) + PacketBits(packet);
    assert bits[LONG_PREAMBLE] == PacketBits(packet)[0] == false;
    OnesAtIs(bits, 0, LONG_PREAMBLE);
    SizeBound(bits, 6);
    NoZeroByte(Buffer(bits), 0);
    PathConveys(bits);
    ItemIsSent(item);
  }

  lemma ItemIsSent(item: Item)
    ensures Sends(StringOf(item), [PacketOf(item)])
  {
    hide PacketBits, Hear;
    forall n: nat
      ensures HearsAfter(n, StringOf(item), [PacketOf(item)])
    {
      HearInTwo(Sync(n), Ones(LONG_PREAMBLE), PacketBits(PacketOf(item)));
      HearOnes(n, LONG_PREAMBLE);
      HearFrame(n + LONG_PREAMBLE, PacketOf(item));
    }
  }

  // ---------------------------------------------------------------- a sequence on the line

  function OutputsOf(plan: seq<Item>): (outputs: seq<seq<bv8>>)
    ensures |outputs| == |plan|
  {
    seq(|plan|, i requires 0 <= i < |plan| => OutputOf(plan[i]))
  }

  function PacketsOf(plan: seq<Item>): (packets: seq<Packet>)
    ensures |packets| == |plan|
  {
    seq(|plan|, i requires 0 <= i < |plan| => PacketOf(plan[i]))
  }

  lemma {:induction false} OutputIsConcat(plan: seq<Item>)
    ensures Concat(OutputsOf(plan)) == Output(plan)
    decreases |plan|
  {
    hide OutputOf;
    if plan != [] {
      OutputIsConcat(plan[1..]);
      assert OutputsOf(plan)[1..] == OutputsOf(plan[1..]);
    }
  }

  lemma {:induction false} FlattenSingles(plan: seq<Item>, lists: seq<seq<Packet>>)
    requires |lists| == |plan| && forall i :: 0 <= i < |plan| ==> lists[i] == [PacketOf(plan[i])]
    ensures Flatten(lists) == PacketsOf(plan)
    decreases |plan|
  {
    hide PacketOf;
    if plan != [] {
      FlattenSingles(plan[1..], lists[1..]);
      assert PacketsOf(plan) == [PacketOf(plan[0])] + PacketsOf(plan[1..]);
    }
  }

  /** A receiver hears exactly the packets of the sequence, in order, and each is without errors. */
  lemma SequenceIsHeard(plan: seq<Item>)
    requires plan != [] && forall i :: 0 <= i < |plan| ==> IsItem(plan[i])
    ensures Output(plan) != [] && ReadHighLow(Output(plan)).Some?
    ensures Packets(ReadHighLow(Output(plan)).value) == PacketsOf(plan)
    ensures forall i :: 0 <= i < |plan| ==> Intact(PacketsOf(plan)[i])
  {
    hide ReadHighLow, Packets, IsItem, Conveys, Sends, Intact, OutputsOf, StringsOf, ListsOf, PacketsOf, Output, Concat,
      Flatten;
    forall i | 0 <= i < |plan|
      ensures Conveys(OutputsOf(plan)[i], StringsOf(plan)[i]) && Sends(StringsOf(plan)[i], ListsOf(plan)[i])
              && Intact(PacketsOf(plan)[i])
    {
      PlanIsFine(plan, i);
    }
    LineDeliversPackets(OutputsOf(plan), StringsOf(plan), ListsOf(plan));
    OutputIsConcat(plan);
    FlattenLists(plan);
  }

  function StringsOf(plan: seq<Item>): (strings: seq<Bits>)
    ensures |strings| == |plan|
  {
    seq(|plan|, i requires 0 <= i < |plan| => StringOf(plan[i]))
  }

  function ListsOf(plan: seq<Item>): (lists: seq<seq<Packet>>)
    ensures |lists| == |plan|
  {
    seq(|plan|, i requires 0 <= i < |plan| => [PacketOf(plan[i])])
  }

  lemma FlattenLists(plan: seq<Item>)
    ensures Flatten(ListsOf(plan)) == PacketsOf(plan)
  {
    hide PacketOf;
    FlattenSingles(plan, ListsOf(plan));
  }

  lemma PlanIsFine(plan: seq<Item>, i: nat)
    requires i < |plan| && IsItem(plan[i])
    ensures Conveys(OutputsOf(plan)[i], StringsOf(plan)[i]) && Sends(StringsOf(plan)[i], ListsOf(plan)[i])
            && Intact(PacketsOf(plan)[i])
  {
    hide IsItem, Conveys, Sends, Intact, OutputOf, StringOf, PacketOf;
    ItemIsFine(plan[i]);
    ItemIsIntact(plan[i]);
  }

  lemma ItemIsIntact(item: Item)
    requires IsItem(item)
    ensures Intact(PacketOf(item))
  {
    CheckedIsIntact(CodeFor(item));
  }

  // ---------------------------------------------------------------- what a decoder understands of a sequence

  function Meaning(item: Item): Understood {
    Understand(PacketOf(item))
  }

  function Meanings(plan: seq<Item>): (meanings: seq<Understood>)
    ensures |meanings| == |plan|
  {
    seq(|plan|, i requires 0 <= i < |plan| => Meaning(plan[i]))
  }

  lemma PlanIsHeard(plan: seq<Item>)
    requires plan != [] && forall i :: 0 <= i < |plan| ==> IsItem(plan[i])
    ensures HeardOn(Output(plan)) == Meanings(plan)
  {
    hide Understand, PacketOf, Output, ReadHighLow, Packets, IsItem;
    SequenceIsHeard(plan);
  }

  lemma MeaningsJoin(a: seq<Item>, b: seq<Item>)
    ensures Meanings(a + b) == Meanings(a) + Meanings(b)
  {
    hide Meaning;
  }

  lemma MeaningsOfTimes(item: Item, n: nat, what: Understood)
    requires Meaning(item) == what
    ensures Meanings(Times(item, n)) == Many(n, what)
  {
    hide Meaning;
  }

  /** Some packets more that mean the same. */
  lemma MeanMore(plan: seq<Item>, meanings: seq<Understood>, item: Item, n: nat, what: Understood)
    requires Meanings(plan) == meanings && Meaning(item) == what
    ensures Meanings(plan + Times(item, n)) == meanings + Many(n, what)
  {
    hide Meaning;
    MeaningsJoin(plan, Times(item, n));
    MeaningsOfTimes(item, n, what);
  }

  lemma IdleIsUnderstood()
    ensures Meaning(Idle) == HeardIdle
  {
    hide WeighByte, Xor, Understand, Checked;
    FixedChecks();
    WeighConstants();
    OtherPacket(ALL_ONES, ZERO_BYTE, ALL_ONES);
  }

  lemma ResetIsUnderstood()
    ensures Meaning(Reset) == HeardReset
  {
    hide WeighByte, Xor, Understand, Checked;
    FixedChecks();
    WeighConstants();
    OtherPacket(ZERO_BYTE, ZERO_BYTE, ZERO_BYTE);
  }

  /** The page preset packet writes 1 to register 5, counted from 0. */
  lemma PagePresetIsUnderstood()
    ensures Meaning(PagePreset) == Told(WriteRegister(5, 1))
  {
    hide WeighByte, WeighThree, Understand, ProgramOf;
    WeighConstants();
    RegisterBits(PAGE_BYTE, ONE_BYTE);
    InstructionIsTold([PAGE_BYTE, ONE_BYTE], WriteRegister(5, 1));
  }

  lemma FixedChecks()
    ensures Xor(ALL_ONES, ZERO_BYTE) == ALL_ONES && Xor(ZERO_BYTE, ZERO_BYTE) == ZERO_BYTE
    ensures ALL_ONES[0] && !ZERO_BYTE[1]
  {
  }

  lemma WeighConstants()
    ensures WeighByte(ALL_ONES) == 255 && WeighByte(ZERO_BYTE) == 0 && WeighByte(ONE_BYTE) == 1
    ensures WeighThree(PAGE_BYTE[5], PAGE_BYTE[6], PAGE_BYTE[7]) == 5
  {
  }

  lemma InstructionIsUnderstood(code: seq<Byte>, program: Program)
    requires code != [] && ProgramOf(code, false) == Some(program)
    ensures Meaning(Instruction(code)) == Told(program)
  {
    hide ProgramOf, Understand;
    InstructionIsTold(code, program);
  }

  // ---------------------------------------------------------------- C strings

  function StrLen(s: seq<bv8>): (n: nat)
    ensures n <= |s|
    ensures 0 !in s[..n] && (n < |s| ==> s[n] == 0)
  {
    if s == [] || s[0] == 0 then 0
    else
      var n := StrLen(s[1..]);
      assert s[..n + 1] == [s[0]] + s[1..][..n];
      n + 1
  }

  /** The characters in front of the first zero. */
  function Content(s: seq<bv8>): seq<bv8> {
    s[..StrLen(s)]
  }

  lemma ContentIs(s: seq<bv8>, n: nat)
    requires n <= |s| && 0 !in s[..n] && (n < |s| ==> s[n] == 0)
    ensures Content(s) == s[..n]
  {
    var k := StrLen(s);
    forall j | 0 <= j < n
      ensures s[j] != 0
    {
      assert s[..n][j] in s[..n];
    }
    forall j | 0 <= j < k
      ensures s[j] != 0
    {
      assert s[..k][j] in s[..k];
    }
  }

  /** strcat. */
  method Strcat(dest: array<bv8>, src: array<bv8>)
    requires dest != src
    requires |Content(src[..])| < src.Length && |Content(dest[..])| + |Content(src[..])| < dest.Length
    modifies dest
    ensures Content(dest[..]) == old(Content(dest[..]) + Content(src[..]))
  {
    ghost var before, added := dest[..], src[..];
    var start := 0;
    while dest[start] != 0
      invariant 0 <= start <= StrLen(before)
      decreases StrLen(before) - start
    {
      start := start + 1;
      assert dest[..] == before;
    }
    assert start == StrLen(before);
    var i := 0;
    while src[i] != 0
      invariant 0 <= i <= StrLen(added)
      invariant src[..] == added
      invariant dest[..start + i] == Content(before) + added[..i]
      decreases StrLen(added) - i
    {
      dest[start + i] := src[i];
      i := i + 1;
    }
    dest[start + i] := 0;
    assert dest[..start + i] == Content(before) + Content(added);
    ContentIs(dest[..], start + i);
    assert dest[..][..start + i] == dest[..start + i];
  }

  lemma {:induction false} OutputOfTimes(sent: seq<Item>, item: Item, n: nat)
    ensures Output(sent + Times(item, n + 1)) == Output(sent + Times(item, n)) + OutputOf(item)
    ensures |Output(sent + Times(item, n))| == |Output(sent)| + n * |OutputOf(item)|
    decreases n
  {
    hide OutputOf;
    OutputInTwo(sent + Times(item, n), [item]);
    OutputOfOne(item);
    assert sent + Times(item, n) + [item] == sent + Times(item, n + 1);
    if n > 0 {
      OutputOfTimes(sent, item, n - 1);
    } else {
      assert sent + Times(item, 0) == sent;
    }
  }

  lemma RoomForOneMore(l: nat, times: nat, length: nat)
    requires l < times
    ensures l * length + length <= times * length
  {
    assert times * length == (l + 1) * length + (times - l - 1) * length;
  }

  /** A loop that appends the same packet a number of times. */
  method Repeat(dest: array<bv8>, src: array<bv8>, times: nat, ghost sent: seq<Item>, ghost item: Item)
    requires dest != src && Content(src[..]) == OutputOf(item) && Content(dest[..]) == Output(sent)
    requires |OutputOf(item)| < src.Length
    requires |Output(sent)| + times * |OutputOf(item)| < dest.Length
    modifies dest
    ensures Content(dest[..]) == Output(sent + Times(item, times))
    ensures |Output(sent + Times(item, times))| == |Output(sent)| + times * |OutputOf(item)|
  {
    hide Content, OutputOf, Output;
    assert sent + Times(item, 0) == sent;
    for l := 0 to times
      invariant src[..] == old(src[..])
      invariant Content(dest[..]) == Output(sent + Times(item, l))
    {
      RoomForOneMore(l, times, |OutputOf(item)|);
      OutputOfTimes(sent, item, l);
      Strcat(dest, src);
    }
    OutputOfTimes(sent, item, times);
  }

  lemma OutputOfOne(item: Item)
    ensures Output([item]) == OutputOf(item)
  {
    assert [item][1..] == [];
    assert OutputOf(item) + [] == OutputOf(item);
  }

  // ---------------------------------------------------------------- the sequences

  /** The start of a write: the power-on cycle, resets, the page register, resets. */
  function Opening(page: Item): seq<Item> {
    Times(Idle, 50) + Times(Reset, 6) + Times(page, 10) + Times(Reset, 12) + Times(Reset, 12)
  }

  function RegisterPlan(c: Item, verify: bool): seq<Item> {
    if verify then DirectPlan(c, 5)
    else Opening(PagePreset) + Times(c, 20) + Times(c, 24) + Times(Reset, 24)
  }

  function PagePlan(page: Item, c: Item): seq<Item> {
    Opening(page) + Times(c, 15) + Times(c, 15) + Times(Reset, 24)
  }

  function DirectPlan(c: Item, resets: nat): seq<Item> {
    Times(Idle, 30) + Times(Reset, resets) + Times(c, 20)
  }

  /** What is heard of the three sequences. */
  lemma DirectIsHeard(code: seq<Byte>, program: Program, resets: nat)
    requires 2 <= |code| <= 3 && ProgramOf(code, false) == Some(program)
    ensures HeardOn(Output(DirectPlan(Instruction(code), resets)))
         == Many(30, HeardIdle) + Many(resets, HeardReset) + Many(20, Told(program))
  {
    hide Meaning, Meanings, Output, HeardOn, ProgramOf;
    var c := Instruction(code);
    IdleIsUnderstood();
    ResetIsUnderstood();
    InstructionIsUnderstood(code, program);
    MeaningsOfTimes(Idle, 30, HeardIdle);
    MeanMore(Times(Idle, 30), Many(30, HeardIdle), Reset, resets, HeardReset);
    MeanMore(Times(Idle, 30) + Times(Reset, resets), Many(30, HeardIdle) + Many(resets, HeardReset), c, 20,
             Told(program));
    PlanIsHeard(DirectPlan(c, resets));
  }

  lemma ManyMore(all: seq<Understood>, m: nat, n: nat, what: Understood)
    ensures all + Many(m, what) + Many(n, what) == all + Many(m + n, what)
  {
  }

  lemma OpeningIsUnderstood(page: Item, what: Understood)
    requires Meaning(page) == what
    ensures Meanings(Opening(page)) == Many(50, HeardIdle) + Many(6, HeardReset) + Many(10, what) + Many(24, HeardReset)
  {
    hide Meaning, Meanings, Many, Times;
    IdleIsUnderstood();
    ResetIsUnderstood();
    var a, b := Times(Idle, 50), Many(50, HeardIdle);
    MeaningsOfTimes(Idle, 50, HeardIdle);
    MeanMore(a, b, Reset, 6, HeardReset);
    a, b := a + Times(Reset, 6), b + Many(6, HeardReset);
    MeanMore(a, b, page, 10, what);
    a, b := a + Times(page, 10), b + Many(10, what);
    MeanMore(a, b, Reset, 12, HeardReset);
    MeanMore(a + Times(Reset, 12), b + Many(12, HeardReset), Reset, 12, HeardReset);
    ManyMore(b, 12, 12, HeardReset);
  }

  /** A sequence that begins with the page register and ends with resets. */
  lemma WriteIsHeard(page: Item, what: Understood, code: seq<Byte>, program: Program, first: nat, second: nat)
    requires IsItem(page) && Meaning(page) == what
    requires 2 <= |code| <= 3 && ProgramOf(code, false) == Some(program)
    ensures var c := Instruction(code);
      HeardOn(Output(Opening(page) + Times(c, first) + Times(c, second) + Times(Reset, 24)))
      == Many(50, HeardIdle) + Many(6, HeardReset) + Many(10, what) + Many(24, HeardReset)
         + Many(first + second, Told(program)) + Many(24, HeardReset)
  {
    hide Meaning, Meanings, Output, HeardOn, ProgramOf, Opening, Many, Times;
    var c := Instruction(code);
    ResetIsUnderstood();
    OpeningIsUnderstood(page, what);
    InstructionIsUnderstood(code, program);
    var a, b := Opening(page), Meanings(Opening(page));
    MeanMore(a, b, c, first, Told(program));
    MeanMore(a + Times(c, first), b + Many(first, Told(program)), c, second, Told(program));
    ManyMore(b, first, second, Told(program));
    a, b := a + Times(c, first) + Times(c, second), b + Many(first + second, Told(program));
    MeanMore(a, b, Reset, 24, HeardReset);
    WriteIsItems(page, c, first, second);
    PlanIsHeard(a + Times(Reset, 24));
  }

  lemma WriteIsItems(page: Item, c: Item, first: nat, second: nat)
    requires IsItem(page) && IsItem(c)
    ensures var plan := Opening(page) + Times(c, first) + Times(c, second) + Times(Reset, 24);
      plan != [] && forall i :: 0 <= i < |plan| ==> IsItem(plan[i])
  {
    assert IsItem(Idle) && IsItem(Reset);
    hide IsItem;
  }

  /** A register is written after the page preset, and verified without it. */
  lemma RegisterIsHeard(reg: Word, value: Word, verify: bool)
    requires reg <= 7 && value <= 255
    ensures HeardOn(Output(RegisterPlan(Instruction(RegisterCode(reg, value, verify)), verify)))
         == if verify
            then Many(30, HeardIdle) + Many(5, HeardReset) + Many(20, Told(VerifyRegister(reg, value)))
            else Many(50, HeardIdle) + Many(6, HeardReset) + Many(10, Told(WriteRegister(5, 1)))
                 + Many(24, HeardReset) + Many(44, Told(WriteRegister(reg, value))) + Many(24, HeardReset)
  {
    hide HeardOn, Output, RegisterCode, ProgramOf, Meaning, Opening, Many, Times, DirectPlan;
    RegisterMeansWhatItSays(reg, value, verify);
    if verify {
      DirectIsHeard(RegisterCode(reg, value, verify), VerifyRegister(reg, value), 5);
    } else {
      PagePresetIsUnderstood();
      WriteIsHeard(PagePreset, Told(WriteRegister(5, 1)), RegisterCode(reg, value, verify), WriteRegister(reg, value),
                   20, 24);
    }
  }

  /** A page and a register on it, to write or to verify. */
  lemma PageIsHeard(page: Word, reg: Word, value: Word, verify: bool)
    requires page <= 255 && reg <= 7 && value <= 255
    ensures HeardOn(Output(PagePlan(Instruction(RegisterCode(5, page, false)),
                                    Instruction(RegisterCode(reg, value, verify)))))
         == Many(50, HeardIdle) + Many(6, HeardReset) + Many(10, Told(WriteRegister(5, page)))
            + Many(24, HeardReset)
            + Many(30, Told(if verify then VerifyRegister(reg, value) else WriteRegister(reg, value)))
            + Many(24, HeardReset)
  {
    hide HeardOn, Output, RegisterCode, ProgramOf, Meaning, Opening, Many, Times;
    RegisterMeansWhatItSays(5, page, false);
    RegisterMeansWhatItSays(reg, value, verify);
    InstructionIsUnderstood(RegisterCode(5, page, false), WriteRegister(5, page));
    WriteIsHeard(Instruction(RegisterCode(5, page, false)), Told(WriteRegister(5, page)),
                 RegisterCode(reg, value, verify),
                 if verify then VerifyRegister(reg, value) else WriteRegister(reg, value), 15, 15);
  }

  /** A byte of a variable; number 1024 arrives as 0. */
  lemma ByteIsHeard(number: Word, value: Word, verify: bool)
    requires number <= 1024 && value <= 255
    ensures var cv := if number == 1024 then 0 else number;
      HeardOn(Output(DirectPlan(Instruction(ByteProgramCode(number, value, verify, false)), if verify then 5 else 15)))
      == Many(30, HeardIdle) + Many(if verify then 5 else 15, HeardReset)
         + Many(20, Told(if verify then VerifyByte(cv, value) else WriteByte(cv, value)))
  {
    hide HeardOn, Output, ByteProgramCode, ProgramOf, Many, DirectPlan;
    ByteProgramArrives(number, value, verify, false);
    LowTenBits(number);
    var cv := number & 0x3ff;
    DirectIsHeard(ByteProgramCode(number, value, verify, false),
                  if verify then VerifyByte(cv, value) else WriteByte(cv, value), if verify then 5 else 15);
  }

  lemma LowTenBits(number: Word)
    requires number <= 1024
    ensures number & 0x3ff == if number == 1024 then 0 else number
  {
  }

  /** A bit of a variable. */
  lemma BitIsHeard(number: Word, bit: Word, value: Word, verify: bool)
    requires number <= 1023 && bit <= 7 && value <= 1
    ensures HeardOn(Output(DirectPlan(Instruction(BitProgramCode(number, bit, value, verify, false)), 15)))
         == Many(30, HeardIdle) + Many(15, HeardReset)
            + Many(20, Told(if verify then VerifyBit(number, bit, value == 1) else WriteBit(number, bit, value == 1)))
  {
    hide HeardOn, Output, BitProgramCode, ProgramOf, Many, DirectPlan;
    BitProgramMeansWhatItSays(number, bit, value, verify, false);
    DirectIsHeard(BitProgramCode(number, bit, value, verify, false),
                  if verify then VerifyBit(number, bit, value == 1) else WriteBit(number, bit, value == 1), 15);
  }

  lemma BelowHalf(value: Word)
    requires value <= 255
    ensures SignedLess(value, 128) <==> value < 128
  {
  }

  lemma CountsFromOne(cv: Word, most: Word)
    requires most <= 1024
    ensures cv - 1 <= most <==> 1 <= cv <= most + 1
    ensures cv - 1 == 0 <==> cv == 1
    ensures cv - 1 == 1024 <==> cv == 1025
  {
  }

  lemma InRange(low: Word, high: Word, n: Word)
    requires low <= high <= 1024
    ensures !SignedLess(n, low) && !SignedLess(high, n) <==> low <= n <= high
  {
  }

  /** The string literals of the source, and what they are. */
  function ResetPacket(): Bits {
    Ones(LONG_PREAMBLE) + [false] + ZERO_BYTE + [false] + ZERO_BYTE + [false] + ZERO_BYTE + [true]
  }

  function PagePresetPacket(): Bits {
    Ones(LONG_PREAMBLE) + [false] + PAGE_BYTE + [false] + ONE_BYTE + [false]
    + [false, true, true, true, true, true, false, false] + [true]
  }

  function IdlePacket(): Bits {
    Ones(LONG_PREAMBLE) + [false] + ALL_ONES + [false] + ZERO_BYTE + [false] + ALL_ONES + [true]
  }

  lemma LiteralIs(a: Byte, b: Byte, x: Byte)
    requires x == Xor(a, b)
    ensures Ones(LONG_PREAMBLE) + [false] + a + [false] + b + [false] + x + [true]
         == Ones(LONG_PREAMBLE) + PacketBits(Checked([a, b]))
  {
    TwoByteFrame(Plain([]), a, b);
    PlainCloses([], [a, b]);
    assert Xor(Xor(XorAll([]), a), b) == x;
    assert [] + [a, b] == [a, b];
    hide Xor, XorAll, Checked, PacketBits;
    assert Body([]) + [false] + a + [false] + b + [false] + x + [true] == PacketBits(Checked([a, b]));
  }

  lemma LiteralsAre()
    ensures ResetPacket() == StringOf(Reset) && PagePresetPacket() == StringOf(PagePreset)
    ensures IdlePacket() == StringOf(Idle)
  {
    assert Xor(ZERO_BYTE, ZERO_BYTE) == ZERO_BYTE;
    assert Xor(ALL_ONES, ZERO_BYTE) == ALL_ONES;
    assert Xor(PAGE_BYTE, ONE_BYTE) == [false, true, true, true, true, true, false, false];
    LiteralIs(ZERO_BYTE, ZERO_BYTE, ZERO_BYTE);
    LiteralIs(ALL_ONES, ZERO_BYTE, ALL_ONES);
    LiteralIs(PAGE_BYTE, ONE_BYTE, [false, true, true, true, true, true, false, false]);
  }

  // ---------------------------------------------------------------- the routines

  /** The buffer holds the packet, closed by a zero, and the size is the number of its bytes. */
  ghost predicate Holds(a: array<bv8>, size: nat, item: Item)
    reads a
  {
    && a.Length == PKTSIZE && Content(a[..]) == OutputOf(item)
    && size == |OutputOf(item)| <= if |CodeFor(item)| == 2 then 21 else 26
  }

  /** The call of the translation for one of these strings. */
  method Translate(bitstream: Bits, packetstream: array<bv8>, ghost item: Item) returns (size: nat)
    requires packetstream.Length == PKTSIZE && IsItem(item) && bitstream == StringOf(item)
    modifies packetstream
    ensures Holds(packetstream, size, item)
  {
    hide Path, Jams, Fits80, Conveys, StringOf;
    ItemIsFine(item);
    var complained;
    size, complained := TranslateBitstream2PacketstreamV3(bitstream, packetstream);
    ContentIs(packetstream[..], size);
    assert packetstream[..][..size] == packetstream[..size];
  }

  class Programmer {
    var smInitialized: bool
    const resetstream: array<bv8>
    var rsSize: nat
    const idlestream: array<bv8>
    var isSize: nat
    const pagepresetstream: array<bv8>
    var psSize: nat

    ghost predicate Valid()
      reads this, resetstream, idlestream, pagepresetstream
    {
      && resetstream.Length == idlestream.Length == pagepresetstream.Length == PKTSIZE
      && resetstream != idlestream && resetstream != pagepresetstream && idlestream != pagepresetstream
      && (smInitialized ==>
            && Holds(resetstream, rsSize, Reset)
            && Holds(idlestream, isSize, Idle)
            && Holds(pagepresetstream, psSize, PagePreset))
    }

    constructor ()
      ensures Valid() && !smInitialized
      ensures fresh(resetstream) && fresh(idlestream) && fresh(pagepresetstream)
    {
      smInitialized := false;
      rsSize, isSize, psSize := 0, 0, 0;
      resetstream := new bv8[PKTSIZE];
      idlestream := new bv8[PKTSIZE];
      pagepresetstream := new bv8[PKTSIZE];
    }

    /** sm_init. */
    method SmInit()
      requires Valid()
      modifies this, resetstream, idlestream, pagepresetstream
      ensures Valid() && smInitialized
    {
      hide Content, OutputOf, StringOf, ResetPacket, IdlePacket, PagePresetPacket;
      LiteralsAre();
      rsSize := Translate(ResetPacket(), resetstream, Reset);
      isSize := Translate(IdlePacket(), idlestream, Idle);
      psSize := Translate(PagePresetPacket(), pagepresetstream, PagePreset);
      smInitialized := true;
    }

    /** The first five strcat loops of a write: power-on cycle, resets, the page register, resets. */
    method Open(sendStream: array<bv8>, pageStream: array<bv8>, ghost page: Item)
      requires Valid() && smInitialized && Separate(sendStream, pageStream)
      requires sendStream.Length == 4096 && Content(sendStream[..]) == []
      requires Content(pageStream[..]) == OutputOf(page) && |OutputOf(page)| <= 21 && pageStream.Length == PKTSIZE
      modifies sendStream
      ensures Content(sendStream[..]) == Output(Opening(page))
      ensures |Output(Opening(page))| == 50 * isSize + 30 * rsSize + 10 * |OutputOf(page)|
    {
      hide Content, OutputOf, Output, Times;
      OutputOfNothing();
      Repeat(sendStream, idlestream, 50, [], Idle);
      ghost var sent := [] + Times(Idle, 50);
      Repeat(sendStream, resetstream, 6, sent, Reset);
      sent := sent + Times(Reset, 6);
      Repeat(sendStream, pageStream, 10, sent, page);
      sent := sent + Times(page, 10);
      Repeat(sendStream, resetstream, 12, sent, Reset);
      sent := sent + Times(Reset, 12);
      Repeat(sendStream, resetstream, 12, sent, Reset);
      assert [] + Times(Idle, 50) == Times(Idle, 50);
    }

    /** The last three strcat loops of a write: the packet, the packet again, resets. */
    method Close(sendStream: array<bv8>, packetstream: array<bv8>, first: nat, second: nat, ghost sent: seq<Item>,
                 ghost item: Item)
      requires Valid() && smInitialized && Separate(sendStream, packetstream) && packetstream.Length == PKTSIZE
      requires Content(packetstream[..]) == OutputOf(item) && |OutputOf(item)| <= 21
      requires Content(sendStream[..]) == Output(sent)
      requires first <= 20 && second <= 24 && |Output(sent)| + 44 * 21 + 24 * 21 < sendStream.Length
      modifies sendStream
      ensures Content(sendStream[..]) == Output(sent + Times(item, first) + Times(item, second) + Times(Reset, 24))
      ensures |Output(sent + Times(item, first) + Times(item, second) + Times(Reset, 24))|
           == |Output(sent)| + first * |OutputOf(item)| + second * |OutputOf(item)| + 24 * rsSize
    {
      hide Content, OutputOf, Output, Times;
      assert first * |OutputOf(item)| <= 20 * 21 && second * |OutputOf(item)| <= 24 * 21;
      Repeat(sendStream, packetstream, first, sent, item);
      ghost var more := sent + Times(item, first);
      Repeat(sendStream, packetstream, second, more, item);
      more := more + Times(item, second);
      Repeat(sendStream, resetstream, 24, more, Reset);
    }

    /** The strcat loops of a write to a register. */
    method AssembleWrite(sendStream: array<bv8>, packetstream: array<bv8>, j: nat, ghost item: Item) returns (y: nat)
      requires Valid() && smInitialized && Separate(sendStream, packetstream)
      requires sendStream.Length == 4096 && Content(sendStream[..]) == []
      requires Holds(packetstream, j, item) && |CodeFor(item)| == 2
      modifies sendStream
      ensures Content(sendStream[..]) == Output(RegisterPlan(item, false)) && y == |Output(RegisterPlan(item, false))|
    {
      hide Content, OutputOf, Output, Opening;
      Open(sendStream, pagepresetstream, PagePreset);
      Close(sendStream, packetstream, 20, 24, Opening(PagePreset), item);
      y := 50 * isSize + 54 * rsSize + 44 * j + 10 * psSize;
    }

    /** The strcat loops of a sequence without writes to the page register. */
    method AssembleShort(sendStream: array<bv8>, packetstream: array<bv8>, j: nat, ghost item: Item, resets: nat)
      returns (y: nat)
      requires Valid() && smInitialized && Separate(sendStream, packetstream)
      requires sendStream.Length >= 2048 && Content(sendStream[..]) == [] && resets <= 15
      requires Holds(packetstream, j, item)
      modifies sendStream
      ensures Content(sendStream[..]) == Output(DirectPlan(item, resets)) && y == |Output(DirectPlan(item, resets))|
    {
      hide Content, OutputOf, Output, Times, CodeFor;
      OutputOfNothing();
      Repeat(sendStream, idlestream, 30, [], Idle);
      ghost var sent := [] + Times(Idle, 30);
      ResetsFit(resets, rsSize);
      Repeat(sendStream, resetstream, resets, sent, Reset);
      sent := sent + Times(Reset, resets);
      Repeat(sendStream, packetstream, 20, sent, item);
      assert [] + Times(Idle, 30) == Times(Idle, 30);
      y := 30 * isSize + resets * rsSize + 20 * j;
    }

    static lemma ResetsFit(resets: nat, size: nat)
      requires resets <= 15 && size <= 26
      ensures resets * size <= 15 * 26
    {
    }

    /** The strcat loops of an access to a register. */
    method AssembleRegister(sendStream: array<bv8>, packetstream: array<bv8>, j: nat, ghost item: Item, verify: bool)
      returns (y: nat)
      requires Valid() && smInitialized && Separate(sendStream, packetstream)
      requires sendStream.Length == 4096 && Content(sendStream[..]) == []
      requires Holds(packetstream, j, item) && |CodeFor(item)| == 2
      modifies sendStream
      ensures y <= sendStream.Length && sendStream[..y] == Output(RegisterPlan(item, verify))
    {
      hide Content, OutputOf, Output, Holds;
      if !verify {
        y := AssembleWrite(sendStream, packetstream, j, item);
      } else {
        y := AssembleShort(sendStream, packetstream, j, item, 5);
      }
      ContentIsPrefix(sendStream[..], Output(RegisterPlan(item, verify)));
    }

    /** The strcat loops of a write through the page register. */
    method AssemblePage(sendStream: array<bv8>, packetstream: array<bv8>, j: nat, packetstreamPage: array<bv8>, k: nat,
                        ghost item: Item, ghost page: Item) returns (y: nat)
      requires Valid() && smInitialized && Separate(sendStream, packetstream) && Separate(sendStream, packetstreamPage)
      requires sendStream.Length == 4096 && Content(sendStream[..]) == []
      requires Holds(packetstream, j, item) && |CodeFor(item)| == 2
      requires Holds(packetstreamPage, k, page) && |CodeFor(page)| == 2
      modifies sendStream
      ensures Content(sendStream[..]) == Output(PagePlan(page, item)) && y == |Output(PagePlan(page, item))|
    {
      hide Content, OutputOf, Output, Opening;
      Open(sendStream, packetstreamPage, page);
      Close(sendStream, packetstream, 15, 15, Opening(page), item);
      y := 50 * isSize + 54 * rsSize + 30 * j + 10 * k;
    }

    ghost predicate Separate(sendStream: array<bv8>, packetstream: array<bv8>) {
      && sendStream != packetstream && sendStream != resetstream && sendStream != idlestream
      && sendStream != pagepresetstream
    }

    /** calc_reg_stream. */
    method CalcRegStream(reg: Word, value: Word, verify: bool) returns (packetstream: array<bv8>, j: nat)
      ensures fresh(packetstream) && Holds(packetstream, j, Instruction(RegisterCode(reg, value, verify)))
    {
      hide Content, OutputOf, StringOf, RegisterCode;
      var bitstream := CalcRegString(reg, value, verify);
      packetstream := new bv8[PKTSIZE];
      StringOfInstruction(RegisterCode(reg, value, verify));
      j := Translate(bitstream, packetstream, Instruction(RegisterCode(reg, value, verify)));
    }

    /** protocol_nmra_sm_phregister, up to the write to the line. */
    method Phregister(reg: Word, value: Word, verify: bool) returns (accepted: bool, sendStream: array<bv8>, y: nat)
      requires Valid()
      modifies this, resetstream, idlestream, pagepresetstream
      ensures Valid()
      ensures accepted <==> 1 <= reg <= 8 && value <= 255
      ensures accepted ==>
                && y <= sendStream.Length
                && sendStream[..y] == Output(RegisterPlan(Instruction(RegisterCode(reg - 1, value, verify)), verify))
                && HeardOn(sendStream[..y])
                   == if verify
                      then Many(30, HeardIdle) + Many(5, HeardReset) + Many(20, Told(VerifyRegister(reg - 1, value)))
                      else Many(50, HeardIdle) + Many(6, HeardReset) + Many(10, Told(WriteRegister(5, 1)))
                           + Many(24, HeardReset) + Many(44, Told(WriteRegister(reg - 1, value)))
                           + Many(24, HeardReset)
    {
      hide SignedLess, Content, OutputOf, Output, RegisterCode, StringOf, HeardOn, RegisterPlan, Many;
      InRange(1, 8, reg);
      InRange(0, 255, value);
      sendStream, y := new bv8[4096](_ => 0), 0;
      if SignedLess(reg, 1) || SignedLess(8, reg) || SignedLess(value, 0) || SignedLess(255, value) {
        return false, sendStream, 0;
      }
      if !smInitialized {
        SmInit();
      }
      var r := reg - 1;
      ghost var item := Instruction(RegisterCode(r, value, verify));
      var packetstream, j := CalcRegStream(r, value, verify);
      EmptyContent(sendStream[..]);
      y := AssembleRegister(sendStream, packetstream, j, item, verify);
      RegisterIsHeard(r, value, verify);
      accepted := true;
    }

    /** protocol_nmra_sm_page, up to the write to the line. */
    method Page(page: Word, reg: Word, value: Word, verify: bool)
      returns (accepted: bool, sendStream: array<bv8>, y: nat)
      requires Valid()
      modifies this, resetstream, idlestream, pagepresetstream
      ensures Valid()
      ensures accepted <==> reg <= 3 && page <= 255 && value <= 255
      ensures accepted ==>
                && y <= sendStream.Length
                && sendStream[..y] == Output(PagePlan(Instruction(RegisterCode(5, page, false)),
                                                      Instruction(RegisterCode(reg, value, verify))))
                && HeardOn(sendStream[..y])
                   == Many(50, HeardIdle) + Many(6, HeardReset) + Many(10, Told(WriteRegister(5, page)))
                      + Many(24, HeardReset)
                      + Many(30, Told(if verify then VerifyRegister(reg, value) else WriteRegister(reg, value)))
                      + Many(24, HeardReset)
    {
      hide SignedLess, Content, OutputOf, Output, RegisterCode, StringOf, HeardOn, PagePlan, Many;
      InRange(0, 3, reg);
      InRange(0, 255, page);
      InRange(0, 255, value);
      sendStream, y := new bv8[4096](_ => 0), 0;
      if SignedLess(reg, 0) || SignedLess(3, reg) || SignedLess(page, 0) || SignedLess(255, page)
         || SignedLess(value, 0) || SignedLess(255, value) {
        return false, sendStream, 0;
      }
      if !smInitialized {
        SmInit();
      }
      ghost var item, first := Instruction(RegisterCode(reg, value, verify)), Instruction(RegisterCode(5, page, false));
      var packetstream, j := CalcRegStream(reg, value, verify);
      var packetstreamPage, k := CalcRegStream(5, page, false);
      EmptyContent(sendStream[..]);
      y := AssemblePage(sendStream, packetstream, j, packetstreamPage, k, item, first);
      ContentIsPrefix(sendStream[..], Output(PagePlan(first, item)));
      PageIsHeard(page, reg, value, verify);
      accepted := true;
    }

    /** The common end of the two routines for direct mode. */
    method Direct(progstream: Bits, ghost code: seq<Byte>, resets: nat) returns (sendStream: array<bv8>, y: nat)
      requires Valid() && |code| == 3 && progstream == ProgramTail(ZERO_BYTE, code) && resets <= 15
      modifies this, resetstream, idlestream, pagepresetstream
      ensures Valid() && y <= sendStream.Length == 2048
      ensures sendStream[..y] == Output(DirectPlan(Instruction(code), resets))
    {
      hide Content, OutputOf, Output, StringOf, ProgramTail;
      if !smInitialized {
        SmInit();
      }
      var bitstream := Ones(LONG_PREAMBLE);
      bitstream := bitstream + [false];
      bitstream := bitstream + progstream;
      DirectString(code);
      StringOfInstruction(code);
      var packetstream := new bv8[PKTSIZE];
      var j := Translate(bitstream, packetstream, Instruction(code));
      sendStream := new bv8[2048](_ => 0);
      EmptyContent(sendStream[..]);
      y := AssembleShort(sendStream, packetstream, j, Instruction(code), resets);
      ContentIsPrefix(sendStream[..], Output(DirectPlan(Instruction(code), resets)));
    }

    /** protocol_nmra_sm_direct_cvbyte, up to the write to the line. The first variable may also be
        written through register 1, as an address alone. */
    method DirectCvbyte(cv: Word, value: Word, verify: bool) returns (accepted: bool, sendStream: array<bv8>, y: nat)
      requires Valid()
      modifies this, resetstream, idlestream, pagepresetstream
      ensures Valid()
      ensures accepted <==> 1 <= cv <= 1025 && value <= 255
      ensures accepted ==>
                && y <= sendStream.Length
                && sendStream[..y] == if cv - 1 == 0 && SignedLess(value, 128)
                                      then Output(RegisterPlan(Instruction(RegisterCode(0, value, verify)), verify))
                                      else Output(DirectPlan(Instruction(ByteProgramCode(cv - 1, value, verify, false)),
                                                             if verify then 5 else 15))
      ensures accepted ==>
                HeardOn(sendStream[..y])
                == if cv == 1 && value < 128 then
                     if verify
                     then Many(30, HeardIdle) + Many(5, HeardReset) + Many(20, Told(VerifyRegister(0, value)))
                     else Many(50, HeardIdle) + Many(6, HeardReset) + Many(10, Told(WriteRegister(5, 1)))
                          + Many(24, HeardReset) + Many(44, Told(WriteRegister(0, value))) + Many(24, HeardReset)
                   else
                     var variable := if cv == 1025 then 0 else cv - 1;
                     Many(30, HeardIdle) + Many(if verify then 5 else 15, HeardReset)
                     + Many(20, Told(if verify then VerifyByte(variable, value) else WriteByte(variable, value)))
    {
      hide Content, OutputOf, Output, ByteProgramCode, StringOf, SignedLess, HeardOn, DirectPlan, RegisterPlan, Many;
      var number := cv - 1;
      InRange(0, 1024, number);
      InRange(0, 255, value);
      CountsFromOne(cv, 1024);
      if SignedLess(number, 0) || SignedLess(1024, number) || SignedLess(value, 0) || SignedLess(255, value) {
        sendStream := new bv8[2048](_ => 0);
        return false, sendStream, 0;
      }
      BelowHalf(value);
      if number == 0 && SignedLess(value, 128) {
        accepted, sendStream, y := Phregister(1, value, verify);
        return;
      }
      var progstream := CalcByteProgramStream(ZERO_BYTE, number, value, verify, false);
      sendStream, y := Direct(progstream, ByteProgramCode(number, value, verify, false), if verify then 5 else 15);
      ByteIsHeard(number, value, verify);
      accepted := true;
    }

    /** protocol_nmra_sm_direct_cvbit, up to the write to the line. */
    method DirectCvbit(cv: Word, bit: Word, value: Word, verify: bool)
      returns (accepted: bool, sendStream: array<bv8>, y: nat)
      requires Valid()
      modifies this, resetstream, idlestream, pagepresetstream
      ensures Valid()
      ensures accepted <==> 1 <= cv <= 1024 && bit <= 7 && value <= 1
      ensures accepted ==>
                && y <= sendStream.Length
                && sendStream[..y]
                   == Output(DirectPlan(Instruction(BitProgramCode(cv - 1, bit, value, verify, false)), 15))
                && HeardOn(sendStream[..y])
                   == Many(30, HeardIdle) + Many(15, HeardReset)
                      + Many(20, Told(if verify then VerifyBit(cv - 1, bit, value == 1)
                                      else WriteBit(cv - 1, bit, value == 1)))
    {
      hide SignedLess, Content, OutputOf, Output, BitProgramCode, StringOf, HeardOn, DirectPlan, Many;
      var number := cv - 1;
      InRange(0, 1023, number);
      InRange(0, 7, bit);
      InRange(0, 1, value);
      CountsFromOne(cv, 1023);
      if SignedLess(number, 0) || SignedLess(1023, number) || SignedLess(bit, 0) || SignedLess(7, bit)
         || SignedLess(value, 0) || SignedLess(1, value) {
        sendStream := new bv8[2048](_ => 0);
        return false, sendStream, 0;
      }
      var progstream := CalcBitProgramStream(ZERO_BYTE, number, bit, value, verify, false);
      sendStream, y := Direct(progstream, BitProgramCode(number, bit, value, verify, false), 15);
      BitIsHeard(number, bit, value, verify);
      accepted := true;
    }
  }

  lemma ContentIsPrefix(s: seq<bv8>, content: seq<bv8>)
    requires Content(s) == content
    ensures |content| <= |s| && s[..|content|] == content
  {
  }

  lemma OutputOfNothing()
    ensures Output([]) == []
  {
  }

  lemma StringOfInstruction(code: seq<Byte>)
    ensures StringOf(Instruction(code)) == Ones(LONG_PREAMBLE) + PacketBits(Checked(code))
  {
  }

  lemma EmptyContent(s: seq<bv8>)
    requires |s| > 0 && s[0] == 0
    ensures Content(s) == []
  {
    ContentIs(s, 0);
  }
}
