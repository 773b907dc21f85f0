/** The bit strings of a command: how they begin, how long they are, and what the translation makes of them. */
module CommandStrings {
  import opened Waveform
  import opened TranslateV3
  import opened PropertiesV3
  import opened Framing
  import opened Builders
  import opened Command
  import opened CommandMeaning

  lemma PacketBitsStart(packet: Packet)
    requires packet != []
    ensures PacketBits(packet) != [] && !PacketBits(packet)[0]
  {
  }

  /** The strings of a command begin with fifteen ones and a zero, which does not jam the translation. */
  lemma CommandsDoNotJam(head: Head, codes: seq<seq<Byte>>)
    requires codes != []
    ensures var s := Signals(SHORT_PREAMBLE, head, codes);
      OnesAt(s, 0) == 15 && |s| > 15 && !Jams(s)
  {
    var packet := Closed(head, codes[0]);
    ClosedNotEmpty(head, codes[0]);
    PacketBitsStart(packet);
    var s := Signals(SHORT_PREAMBLE, head, codes);
    assert s == Ones(SHORT_PREAMBLE) + (PacketBits(packet) + Signals(WAIT + SHORT_PREAMBLE, head, codes[1..]));
    hide PacketBits, Signals;
    assert forall i :: 0 <= i < 15 ==> s[i];
    assert !s[15];
    OnesAtIs(s, 0, 15);
  }

  /** The strings of a command. */
  function StringsOf(address: Word, direction: Word, speed: Word, func: Word, nspeed: Word, nfuncs: int, mode: nat)
    : (strings: seq<Bits>)
    ensures strings != []
  {
    [Signals(SHORT_PREAMBLE, HeadOf(address, mode), FirstCodes(direction, speed, func, nspeed, nfuncs))] +
    if SendsFunctions(nspeed, nfuncs)
    then [Signals(SHORT_PREAMBLE, HeadOf(address, mode), OtherCodes(func, nfuncs))] else []
  }

  /** They are the strings that the routine translates. */
  lemma StringsAreRequested(address: Word, direction: Word, speed: Word, func: Word, nspeed: Word, nfuncs: int,
                            mode: nat, first: Bits, second: Option<Bits>)
    requires first == Signals(SHORT_PREAMBLE, HeadOf(address, mode),
                              FirstCodes(direction, speed, func, nspeed, nfuncs))
    requires second == if SendsFunctions(nspeed, nfuncs)
                       then Some(Signals(SHORT_PREAMBLE, HeadOf(address, mode), OtherCodes(func, nfuncs))) else None
    ensures StringsOf(address, direction, speed, func, nspeed, nfuncs, mode)
         == [first] + if second.Some? then [second.value] else []
  {
  }

  /** What the translation makes of the strings. */
  function OutputsOf(strings: seq<Bits>): (outputs: seq<seq<bv8>>)
    ensures |outputs| == |strings|
  {
    seq(|strings|, i requires 0 <= i < |strings| => Path(Buffer(strings[i]), 0))
  }

  ghost predicate AllFit(strings: seq<Bits>) {
    forall i :: 0 <= i < |strings| ==> Fits80(strings[i])
  }

  lemma CodesThere(direction: Word, speed: Word, func: Word, nspeed: Word, nfuncs: int)
    ensures FirstCodes(direction, speed, func, nspeed, nfuncs) != [] && OtherCodes(func, nfuncs) != []
  {
    hide SpeedCode, MoreCodes, LaterCodes, GroupOneByte;
  }

  // ---------------------------------------------------------------- strings that are not cut

  /** A string with fifteen ones in front fits if it has no more than 166 bits. */
  lemma CommandStringsFit(bits: Bits)
    requires OnesAt(bits, 0) == 15 && !Jams(bits) && |bits| <= 166
    ensures Fits80(bits)
  {
    hide Path, Jams;
    SizeBound(bits, 3);
  }

  lemma {:induction false} PacketBitsLength(packet: Packet)
    ensures |PacketBits(packet)| == 9 * |packet| + 1
    decreases |packet|
  {
    if packet != [] { PacketBitsLength(packet[1..]); }
  }

  lemma SignalLength(ones: nat, head: Head, code: seq<Byte>)
    ensures |Signal(ones, head, code)| == ones + 9 * (|head.bytes| + |code| + 1) + 1
  {
    hide PacketBits, XorOn;
    PacketBitsLength(Closed(head, code));
  }

  /** At most two instructions, and only the first may have two bytes. */
  predicate Few(codes: seq<seq<Byte>>) {
    1 <= |codes| <= 2 && |codes[0]| <= 2 && (|codes| == 2 ==> |codes[1]| <= 1)
  }

  lemma FewCodesFit(head: Head, codes: seq<seq<Byte>>)
    requires Few(codes) && |head.bytes| <= 2
    ensures Fits80(Signals(SHORT_PREAMBLE, head, codes))
  {
    hide Fits80, Jams, Signal;
    var rest := codes[1..];
    SignalLength(SHORT_PREAMBLE, head, codes[0]);
    if |codes| == 2 {
      SignalLength(WAIT + SHORT_PREAMBLE, head, codes[1]);
      assert rest[0] == codes[1] && rest[1..] == [];
      assert Signals(WAIT + SHORT_PREAMBLE, head, rest)
          == Signal(WAIT + SHORT_PREAMBLE, head, codes[1]) + Signals(WAIT + SHORT_PREAMBLE, head, []);
    } else {
      assert rest == [];
    }
    assert |Signals(SHORT_PREAMBLE, head, codes)| <= 166;
    CommandsDoNotJam(head, codes);
    CommandStringsFit(Signals(SHORT_PREAMBLE, head, codes));
  }
}
