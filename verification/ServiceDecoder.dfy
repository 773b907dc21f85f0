/**
  A decoder on the programming track: what it understands of the packets on the line. Sequences of service mode are
  described in section E of NMRA S-9.2.3.
 */
module ServiceDecoder {
  import opened Waveform
  import opened PropertiesV3
  import opened Framing
  import opened Builders
  import opened Programming

  datatype Understood = Told(program: Program) | HeardIdle | HeardReset | NotUnderstood

  function Numbers(packet: Packet): (numbers: seq<Word>)
    ensures |numbers| == |packet|
  {
    seq(|packet|, i requires 0 <= i < |packet| => WeighByte(packet[i]))
  }

  /** Packets without errors are instructions, which stand in front of the error detection byte, or idle or reset. */
  function Understand(packet: Packet): Understood {
    if !Intact(packet) then NotUnderstood
    else
      var program := ProgramOf(packet[..|packet| - 1], false);
      if program.Some? then Told(program.value)
      else if Numbers(packet) == [255, 0, 255] then HeardIdle
      else if Numbers(packet) == [0, 0, 0] then HeardReset
      else NotUnderstood
  }

  function UnderstandAll(packets: seq<Packet>): (all: seq<Understood>)
    ensures |all| == |packets|
  {
    seq(|packets|, i requires 0 <= i < |packets| => Understand(packets[i]))
  }

  /** What the decoder understands of the bytes on the line. */
  function HeardOn(line: seq<bv8>): seq<Understood> {
    if line == [] || ReadHighLow(line).None? then [] else UnderstandAll(Packets(ReadHighLow(line).value))
  }

  function Many(n: nat, what: Understood): (all: seq<Understood>)
    ensures |all| == n
  {
    seq(n, _ => what)
  }

  lemma InstructionIsTold(code: seq<Byte>, program: Program)
    requires code != [] && ProgramOf(code, false) == Some(program)
    ensures Understand(Checked(code)) == Told(program)
  {
    hide ProgramOf, Intact, XorAll;
    CheckedIsIntact(code);
    assert Checked(code)[..|code|] == code;
  }

  lemma TwoByteChecks(a: Byte, b: Byte)
    ensures Checked([a, b]) == [a, b, Xor(a, b)]
  {
    XorOfAddress([a, b]);
    hide XorAll, Xor;
  }

  lemma NoInstruction(a: Byte, b: Byte)
    requires a[0] || !a[1]
    ensures ProgramOf([a, b], false) == None
  {
    hide WeighByte, WeighThree;
    assert a[0] == a[..4][0] && a[1] == a[..4][1];
  }

  lemma RegisterBits(a: Byte, b: Byte)
    requires !a[0] && a[1] && a[2] && a[3] && a[4]
    ensures ProgramOf([a, b], false) == Some(WriteRegister(WeighThree(a[5], a[6], a[7]), WeighByte(b)))
  {
    hide WeighByte, WeighThree;
    assert a[..4] == [false, true, true, true];
  }

  /** A packet of two bytes that is no instruction, by its numbers. */
  lemma OtherPacket(a: Byte, b: Byte, c: Byte)
    requires (a[0] || !a[1]) && c == Xor(a, b)
    ensures Understand(Checked([a, b]))
         == var numbers := [WeighByte(a), WeighByte(b), WeighByte(c)];
            if numbers == [255, 0, 255] then HeardIdle else if numbers == [0, 0, 0] then HeardReset else NotUnderstood
  {
    hide Intact, XorAll, Xor, WeighByte, ProgramOf, Checked;
    CheckedIsIntact([a, b]);
    TwoByteChecks(a, b);
    NoInstruction(a, b);
    var packet := Checked([a, b]);
    assert packet[..|packet| - 1] == [a, b];
    assert Numbers(packet) == [WeighByte(a), WeighByte(b), WeighByte(c)];
  }
}
