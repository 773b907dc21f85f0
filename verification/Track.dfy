/**
  From a command to the decoder: what comp_nmra_multi_func puts on the line with version 3 of the translation,
  which is the default, and what a decoder at the other end makes of it.
 */
module Track {
  import opened Waveform
  import opened TranslateV3
  import opened PropertiesV3
  import opened Framing
  import opened Builders
  import opened Decoders
  import opened Command
  import opened CommandMeaning
  import opened CommandStrings
  import opened CommandLengths
  import opened Programming
  import Accessory

  /** The bytes of a command, sent one string after the other, are heard as the packets of the command. */
  lemma CommandIsHeard(address: Word, direction: Word, speed: Word, func: Word, nspeed: Word, nfuncs: int, mode: nat)
    ensures var line := Concat(OutputsOf(StringsOf(address, direction, speed, func, nspeed, nfuncs, mode)));
      && line != [] && ReadHighLow(line).Some?
      && Packets(ReadHighLow(line).value) == PacketsOfCommand(address, direction, speed, func, nspeed, nfuncs, mode)
  {
    hide Path, Buffer, Signals, Concat, ReadHighLow, Packets, HeadOf, Conveys, Sends, Fits80, Jams, SendsFunctions,
      FirstCodes, OtherCodes, PacketsFor;
    var head := HeadOf(address, mode);
    var first, other := FirstCodes(direction, speed, func, nspeed, nfuncs), OtherCodes(func, nfuncs);
    var strings := StringsOf(address, direction, speed, func, nspeed, nfuncs, mode);
    CommandsFit(address, direction, speed, func, nspeed, nfuncs, mode);
    CodesThere(direction, speed, func, nspeed, nfuncs);
    CommandsDoNotJam(head, first);
    CommandsDoNotJam(head, other);
    SignalsSend(head, first);
    SignalsSend(head, other);
    var lists := [PacketsFor(head, first)] + if SendsFunctions(nspeed, nfuncs) then [PacketsFor(head, other)] else [];
    forall i | 0 <= i < |strings| ensures Conveys(OutputsOf(strings)[i], strings[i]) && Sends(strings[i], lists[i]) {
      PathConveys(strings[i]);
    }
    LineDeliversPackets(OutputsOf(strings), strings, lists);
    FlattenTwo(lists);
  }

  lemma FlattenTwo(lists: seq<seq<Packet>>)
    requires 1 <= |lists| <= 2
    ensures Flatten(lists) == lists[0] + if |lists| == 2 then lists[1] else []
  {
    assert lists[1..] == [] || lists[1..] == [lists[1]];
    if |lists| == 2 {
      var last := [lists[1]];
      assert last[1..] == [];
    }
  }

  /** From the command to the decoder: the bytes on the line set a decoder at the address to what was commanded, and
      leave every other decoder as it was. */
  lemma CommandReachesDecoder(d: Decoder, address: Word, direction: Word, speed: Word, func: Word, nspeed: Word,
                              nfuncs: int, mode: nat)
    requires IsDecoder(d) && d.steps == StepsFor(nspeed) && (mode == 1 || mode == 2)
    requires Accepted(address, direction, speed, nspeed, mode)
    ensures var line := Concat(OutputsOf(StringsOf(address, direction, speed, func, nspeed, nfuncs, mode)));
      && ReadHighLow(line).Some?
      && IsObeyed(d, ExecuteAll(d, Packets(ReadHighLow(line).value)),
                  address, direction, speed, func, nspeed, nfuncs, mode)
  {
    hide Concat, ReadHighLow, Packets, PacketsOfCommand, OutputsOf, StringsOf, Accepted, IsObeyed, ExecuteAll;
    CommandIsHeard(address, direction, speed, func, nspeed, nfuncs, mode);
    CommandMeansWhatItSays(d, address, direction, speed, func, nspeed, nfuncs, mode);
  }

  /** In the other modes they leave every decoder at the address, short or long, as it was. */
  lemma OtherModesReachNobody(d: Decoder, address: Word, direction: Word, speed: Word, func: Word, nspeed: Word,
                              nfuncs: int, mode: nat)
    requires IsDecoder(d) && mode != 1 && mode != 2 && (d.address == Short(address) || d.address == Long(address))
    ensures var line := Concat(OutputsOf(StringsOf(address, direction, speed, func, nspeed, nfuncs, mode)));
      && ReadHighLow(line).Some?
      && ExecuteAll(d, Packets(ReadHighLow(line).value)) == d
  {
    hide Concat, ReadHighLow, Packets, PacketsOfCommand, OutputsOf, StringsOf, ExecuteAll;
    CommandIsHeard(address, direction, speed, func, nspeed, nfuncs, mode);
    OtherModesAreLost(d, address, direction, speed, func, nspeed, nfuncs, mode);
  }

  // ---------------------------------------------------------------- strings of one packet

  /** A short packet after the preamble is translated, uncut, and heard as this packet. */
  lemma OnePacketIsHeard(head: Head, code: seq<Byte>)
    requires |head.bytes| <= 2 && |code| <= 3
    ensures var bits := Signal(SHORT_PREAMBLE, head, code);
      var line := Path(Buffer(bits), 0);
      && !Jams(bits) && Fits80(bits) && ReadHighLow(line).Some?
      && Packets(ReadHighLow(line).value) == [Closed(head, code)]
  {
    hide Path, Signals, Signal, Concat, ReadHighLow, Packets, Conveys, Sends, Fits80, Jams, Closed;
    var bits, packet := Signal(SHORT_PREAMBLE, head, code), Closed(head, code);
    var line := Path(Buffer(bits), 0);
    SignalsOfOne(head, code);
    CommandsDoNotJam(head, [code]);
    SignalLength(SHORT_PREAMBLE, head, code);
    ShortStringsFit(bits);
    PathConveys(bits);
    SignalsSend(head, [code]);
    assert PacketsFor(head, [code]) == [packet];
    LineDeliversPackets([line], [bits], [[packet]]);
    ConcatOne(line);
    FlattenTwo([[packet]]);
  }

  lemma ConcatOne(line: seq<bv8>)
    ensures Concat([line]) == line
  {
    assert [line][1..] == [];
    assert Concat([line]) == line + Concat([]);
  }

  /** From the command for a switch to its decoder. */
  lemma SwitchReachesDecoder(nr: Word, output: Word, activate: Word, offset: Word)
    requires Accessory.AcceptedSwitch(nr, output, activate)
    ensures var packet := Accessory.SwitchPacket(nr, output, activate, offset);
      var bits := Ones(SHORT_PREAMBLE) + PacketBits(packet);
      var line := Path(Buffer(bits), 0);
      && !Jams(bits) && Fits80(bits) && ReadHighLow(line).Some?
      && Packets(ReadHighLow(line).value) == [packet]
      && Accessory.SwitchingOf(packet)
         == Some(Accessory.Switching(((nr - 1) / 4 + offset) & 0x1ff, (nr - 1) % 4, output, activate == 1))
  {
    hide Path, Buffer, ReadHighLow, Packets, Fits80, Jams, Closed, Accessory.SwitchingOf, Accessory.AcceptedSwitch,
      Accessory.AddressByte, Accessory.SwitchByte;
    var address, pair := (nr - 1) / 4 + offset, (nr - 1) % 4;
    var code := [Accessory.AddressByte(address), Accessory.SwitchByte(address, pair, output, activate)];
    OnePacketIsHeard(Plain([]), code);
    PlainCloses([], code);
    assert [] + code == code;
    Accessory.SwitchMeansWhatItSays(nr, output, activate, offset);
  }

  /** From programming on the main track to the decoder at the address. */
  lemma MainTrackReachesDecoder(address: Word, cv: Word, mode: nat, code: seq<Byte>)
    requires (mode == 1 || mode == 2) && AcceptedOnMain(address, cv, mode) && |code| == 3
    ensures var packet := Checked(AddressBytes(address, mode) + code);
      var bits := Signal(SHORT_PREAMBLE, HeadOf(address, mode), code);
      var line := Path(Buffer(bits), 0);
      && !Jams(bits) && Fits80(bits) && ReadHighLow(line).Some?
      && Packets(ReadHighLow(line).value) == [packet]
      && Intact(packet) && AddressOf(packet) == AddressFor(address, mode) && CodeOf(packet) == code
  {
    hide Path, Buffer, ReadHighLow, Packets, Fits80, Jams, Closed, Signal, AddressBytes, AddressOf, CodeOf, Intact,
      AcceptedOnMain;
    OnePacketIsHeard(HeadOf(address, mode), code);
    PlainCloses(AddressBytes(address, mode), code);
    MainTrackMeansWhatItSays(address, cv, mode, code);
  }

  /** From write_cvbyte_pom to the decoder at the address: it takes the variable and the value. */
  lemma ByteProgramReachesDecoder(address: Word, cv: Word, value: Word, mode: nat)
    requires (mode == 1 || mode == 2) && AcceptedOnMain(address, cv, mode)
    requires !SignedLess(value, 0) && !SignedLess(255, value)
    ensures var bits := Signal(SHORT_PREAMBLE, HeadOf(address, mode), ByteProgramCode(cv - 1, value, false, true));
      var line := Path(Buffer(bits), 0);
      && ReadHighLow(line).Some?
      && var packets := Packets(ReadHighLow(line).value);
         && |packets| == 1 && |packets[0]| >= 2 && Intact(packets[0])
         && AddressOf(packets[0]) == AddressFor(address, mode)
         && ProgramOf(CodeOf(packets[0]), true) == Some(WriteByte(cv - 1, value))
  {
    hide Path, Buffer, ReadHighLow, Packets, Fits80, Jams, Signal, AddressBytes, AddressOf, CodeOf, Intact, HeadOf,
      AcceptedOnMain, ByteProgramCode, ProgramOf, XorAll;
    MainBounds(address, cv, mode);
    ValueBounds(value, 255);
    hide SignedLess;
    ByteProgramMeansWhatItSays(cv - 1, value, false, true);
    MainTrackReachesDecoder(address, cv, mode, ByteProgramCode(cv - 1, value, false, true));
  }

  /** From write_cvbit_pom to the decoder at the address: it takes the variable, the bit and the value. */
  lemma BitProgramReachesDecoder(address: Word, cv: Word, bit: Word, value: Word, mode: nat)
    requires (mode == 1 || mode == 2) && AcceptedOnMain(address, cv, mode)
    requires !SignedLess(bit, 0) && !SignedLess(7, bit) && !SignedLess(value, 0) && !SignedLess(1, value)
    ensures var bits := Signal(SHORT_PREAMBLE, HeadOf(address, mode), BitProgramCode(cv - 1, bit, value, false, true));
      var line := Path(Buffer(bits), 0);
      && ReadHighLow(line).Some?
      && var packets := Packets(ReadHighLow(line).value);
         && |packets| == 1 && |packets[0]| >= 2 && Intact(packets[0])
         && AddressOf(packets[0]) == AddressFor(address, mode)
         && ProgramOf(CodeOf(packets[0]), true) == Some(WriteBit(cv - 1, bit, value == 1))
  {
    hide Path, Buffer, ReadHighLow, Packets, Fits80, Jams, Signal, AddressBytes, AddressOf, CodeOf, Intact, HeadOf,
      AcceptedOnMain, BitProgramCode, ProgramOf, XorAll;
    MainBounds(address, cv, mode);
    ValueBounds(bit, 7);
    ValueBounds(value, 1);
    hide SignedLess;
    BitProgramMeansWhatItSays(cv - 1, bit, value, false, true);
    MainTrackReachesDecoder(address, cv, mode, BitProgramCode(cv - 1, bit, value, false, true));
  }

  lemma ValueBounds(value: Word, most: Word)
    requires !SignedLess(value, 0) && !SignedLess(most, value) && most <= 255
    ensures value <= most
  {
  }
}
