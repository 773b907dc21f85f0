/** What a receiver reads from a packet of version 2, and how it compares with version 3. */
module PropertiesV2 {
  import opened Waveform
  import V2 = TranslateV2
  import V3 = TranslateV3
  import PropertiesV3
  import opened Framing

  /** The receiver finds the string and up to four ones. */
  lemma ReceiverReads(bytes: seq<bv8>, bits: Bits)
    requires V2.Conveys(bytes, bits)
    ensures exists k :: 0 <= k <= 4 && ReadLowHigh(bytes) == Some(bits + Ones(k))
  {
    var k :| 0 <= k <= 4 && CarriesWhole(Halves(Line(bytes)), bits + Ones(k));
    WholeReadsBack(Halves(Line(bytes)), bits + Ones(k));
  }

  /** Two readings that differ by ones in front and behind. */
  ghost predicate SameUpToOnes(a: Option<Bits>, b: Option<Bits>) {
    exists bits, i, j, k, l ::
      && a == Some(Ones(i) + bits + Ones(j))
      && b == Some(Ones(k) + bits + Ones(l))
  }

  /** Where both versions translate a string, a receiver reads the same from both, up to ones around it. */
  lemma VersionsAgree(bitstream: Bits, two: seq<bv8>, three: seq<bv8>)
    requires V2.Conveys(two, bitstream) && V3.Conveys(three, bitstream)
    ensures SameUpToOnes(ReadLowHigh(two), ReadHighLow(three))
  {
    hide ReadLowHigh, ReadHighLow, V2.Conveys, Halves, Line;
    ReceiverReads(two, bitstream);
    PropertiesV3.ReceiverReads(three, bitstream);
    var j :| 0 <= j <= 4 && ReadLowHigh(two) == Some(bitstream + Ones(j));
    var l :| 0 <= l <= 4 && ReadHighLow(three) == Some([true] + bitstream + Ones(l));
    assert Ones(0) + bitstream + Ones(j) == bitstream + Ones(j);
    assert Ones(1) + bitstream + Ones(l) == [true] + bitstream + Ones(l);
  }

  // ---------------------------------------------------------------- the byte that is counted in

  function Stretches(bytes: seq<bv8>): (stretches: seq<Bits>)
    ensures stretches != []
  {
    ReadStretches(Halves(Line(bytes)))
  }

  /** The bytes are read as the string, and whatever follows behind a zero byte is read as if it were alone. */
  ghost predicate ReadApart(bytes: seq<bv8>, bits: Bits, more: seq<bv8>) {
    exists k :: 0 <= k <= 4 && Stretches(bytes + [0] + more) == [bits + Ones(k)] + Stretches(more)
  }

  ghost predicate ReadApartFromAll(bytes: seq<bv8>, bits: Bits) {
    forall more: seq<bv8> :: ReadApart(bytes, bits, more)
  }

  /** Behind bytes that carry a string in whole bits, a zero byte shows two halves that are no bit. A receiver has read
      the string by then, and goes on with what follows. */
  lemma CountedByteIsNoBit(bytes: seq<bv8>, bits: Bits, more: seq<bv8>)
    requires V2.Conveys(bytes, bits)
    ensures ReadApart(bytes, bits, more)
    ensures ReadLowHigh(bytes + [0] + more) == None
  {
    hide Halves, Line, CarriesWhole, ReadBits;
    var halves, after := Halves(Line(bytes)), Halves(Line(more));
    var k :| 0 <= k <= 4 && CarriesWhole(halves, bits + Ones(k));
    HalvesOfBytes(bytes + [0], more);
    HalvesOfBytes(bytes, [0]);
    ZeroByteRuns();
    NoBit(halves, bits + Ones(k), after);
    assert Stretches(bytes + [0] + more) == [bits + Ones(k)] + Stretches(more);
    StretchIsRead(Halves(Line(bytes + [0] + more)));
  }

  lemma ZeroByteRuns()
    ensures Halves(Line([0])) == [9, 1]
  {
    assert Frame(0) == Spread(false, [9, 1]);
    FrameRuns(0, [9, 1]);
  }

  lemma NoBit(halves: seq<nat>, bits: Bits, after: seq<nat>)
    requires CarriesWhole(halves, bits)
    ensures ReadStretches(halves + [9, 1] + after) == [bits] + ReadStretches(after)
  {
    var odd := [9, 1] + after;
    assert odd[2..] == after;
    assert ReadStretches(odd) == [[]] + ReadStretches(after);
    hide CarriesWhole, ReadStretches;
    StretchGrows(halves, bits, odd);
    assert halves + [9, 1] + after == halves + odd;
    assert bits + [] == bits;
  }

  /** What a caller gets from version 2: the bytes written are read as the string and up to four ones. The byte that is
      counted in is zero; it is no bit, and hides nothing of what is in front of it and behind it. Of 80 bytes
      written, the one that is counted in lies behind the packet. */
  method PacketAsCounted(bitstream: Bits) returns (packetstream: array<bv8>, size: nat)
    ensures packetstream.Length == V3.PKTSIZE && size <= V3.PKTSIZE + 1
    ensures size > 0 ==> exists k :: 0 <= k <= 4 && ReadLowHigh(packetstream[..size - 1]) == Some(bitstream + Ones(k))
    ensures 0 < size <= V3.PKTSIZE ==>
              && packetstream[..size] == packetstream[..size - 1] + [0]
              && ReadApartFromAll(packetstream[..size - 1], bitstream)
  {
    hide ReadBits, Halves, Line, ReadApart, V2.Conveys;
    packetstream := new bv8[V3.PKTSIZE];
    var log;
    size, log := V2.TranslateBitstream2PacketstreamV2(bitstream, packetstream);
    if size > 0 {
      ReceiverReads(packetstream[..size - 1], bitstream);
    }
    if 0 < size <= V3.PKTSIZE {
      ghost var written := packetstream[..size - 1];
      forall more: seq<bv8> ensures ReadApart(written, bitstream, more) {
        CountedByteIsNoBit(written, bitstream, more);
      }
      assert packetstream[..size] == packetstream[..size - 1] + [0];
    }
  }

  /** Packets of version 2 as they are counted, one after the other. */
  function Counted(outputs: seq<seq<bv8>>): seq<bv8>
    decreases |outputs|
  {
    if outputs == [] then [] else outputs[0] + [0] + Counted(outputs[1..])
  }

  /** A decoder forgets the preamble where there is no bit. */
  function HeardIn(stretches: seq<Bits>): seq<Packet>
    decreases |stretches|
  {
    if stretches == [] then [] else Packets(stretches[0]) + HeardIn(stretches[1..])
  }

  lemma OnesBehind(bits: Bits, packets: seq<Packet>, k: nat)
    requires Framing.Sends(bits, packets)
    ensures Packets(bits + Ones(k)) == packets
  {
    hide Hear;
    assert HearsAfter(0, bits, packets);
    HearInTwo(Sync(0), bits, Ones(k));
    HearOnes(HearAll(Sync(0), bits).next.ones, k);
  }

  /** They are all heard, in order. */
  lemma {:induction false} CountedPacketsAreHeard(outputs: seq<seq<bv8>>, strings: seq<Bits>, lists: seq<seq<Packet>>)
    requires |outputs| == |strings| == |lists|
    requires forall i :: 0 <= i < |strings| ==>
               V2.Conveys(outputs[i], strings[i]) && Framing.Sends(strings[i], lists[i])
    ensures HeardIn(Stretches(Counted(outputs))) == Flatten(lists)
    decreases |outputs|
  {
    hide V2.Conveys, Framing.Sends, HearAll, Halves, Line, ReadStretches;
    if outputs == [] {
      NothingIsHeard();
    } else {
      var more := Counted(outputs[1..]);
      CountedByteIsNoBit(outputs[0], strings[0], more);
      var k :| 0 <= k <= 4 && Stretches(outputs[0] + [0] + more) == [strings[0] + Ones(k)] + Stretches(more);
      OnesBehind(strings[0], lists[0], k);
      HeardFirst(strings[0] + Ones(k), Stretches(more));
      CountedPacketsAreHeard(outputs[1..], strings[1..], lists[1..]);
    }
  }

  lemma HeardFirst(first: Bits, rest: seq<Bits>)
    ensures HeardIn([first] + rest) == Packets(first) + HeardIn(rest)
  {
    assert ([first] + rest)[1..] == rest;
  }

  lemma NothingIsHeard()
    ensures HeardIn(Stretches([])) == []
  {
    var nothing: Bits := [];
    assert Stretches([]) == [nothing];
    HeardFirst(nothing, []);
    assert [nothing] + [] == [nothing];
  }
}
