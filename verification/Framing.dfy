/**
  Packets and the bits that announce them: section A of NMRA S-9.2. A packet is a preamble of ones, and
  for each of its bytes a zero and eight bits, and a one at the end. The last byte is the exclusive or
  of the others.
 */
module Framing {
  import opened Waveform
  import opened TranslateV3
  import opened PropertiesV3

  /** Eight bits, the most significant first. */
  type Byte = b: Bits | |b| == 8 witness Ones(8)

  type Packet = seq<Byte>

  /** The ones that a decoder must have seen before it takes a zero as the start of a packet. */
  const PREAMBLE := 12

  // ---------------------------------------------------------------- the receiver

  /** A receiver waits for a preamble and counts its ones, or collects the bytes of a packet. */
  datatype Receiver = Sync(ones: nat) | Data(bytes: Packet, bits: Bits)

  datatype Heard = Heard(next: Receiver, packets: seq<Packet>)

  ghost predicate Sane(r: Receiver) {
    r.Data? ==> |r.bits| <= 8
  }

  /** One bit. A zero after a full preamble starts the data; after eight bits of data, a zero announces
      another byte and a one ends the packet, and counts as the first of the next preamble. */
  function Hear(r: Receiver, bit: bool): (h: Heard)
    requires Sane(r)
    ensures Sane(h.next)
  {
    match r
    case Sync(n) =>
      if bit then Heard(Sync(n + 1), [])
      else if n >= PREAMBLE then Heard(Data([], []), [])
      else Heard(Sync(0), [])
    case Data(bytes, bits) =>
      if |bits| < 8 then Heard(Data(bytes, bits + [bit]), [])
      else if bit then Heard(Sync(1), [bytes + [bits]])
      else Heard(Data(bytes + [bits], []), [])
  }

  function HearAll(r: Receiver, bits: Bits): (h: Heard)
    requires Sane(r)
    ensures Sane(h.next)
    decreases |bits|
  {
    if bits == [] then Heard(r, [])
    else
      var first := Hear(r, bits[0]);
      var rest := HearAll(first.next, bits[1..]);
      Heard(rest.next, first.packets + rest.packets)
  }

  /** The packets in a string of bits. */
  function Packets(bits: Bits): seq<Packet> {
    HearAll(Sync(0), bits).packets
  }

  // ---------------------------------------------------------------- the sender

  /** A start bit and a byte, for each byte. */
  function Body(packet: Packet): Bits {
    if packet == [] then [] else [false] + packet[0] + Body(packet[1..])
  }

  /** The bits of a packet, without preamble. */
  function PacketBits(packet: Packet): Bits {
    Body(packet) + [true]
  }

  function Xor(a: Byte, b: Byte): (x: Byte)
    ensures forall i :: 0 <= i < 8 ==> x[i] == (a[i] != b[i])
  {
    seq(8, i requires 0 <= i < 8 => a[i] != b[i])
  }

  const ZERO_BYTE: Byte := [false, false, false, false, false, false, false, false]
  const ALL_ONES: Byte := [true, true, true, true, true, true, true, true]

  function XorAll(bytes: seq<Byte>): Byte {
    if bytes == [] then ZERO_BYTE else Xor(XorAll(bytes[..|bytes| - 1]), bytes[|bytes| - 1])
  }

  /** A packet with its error detection byte. */
  function Checked(bytes: seq<Byte>): Packet {
    bytes + [XorAll(bytes)]
  }

  /** What a decoder takes for a packet without errors. */
  predicate Intact(packet: Packet) {
    |packet| > 1 && XorAll(packet) == ZERO_BYTE
  }

  /** Packets in their order, each after its number of ones. */
  function Transmission(gaps: seq<nat>, packets: seq<Packet>): Bits
    requires |gaps| == |packets|
    decreases |packets|
  {
    if packets == [] then []
    else Ones(gaps[0]) + PacketBits(packets[0]) + Transmission(gaps[1..], packets[1..])
  }

  // ---------------------------------------------------------------- the receiver hears what was sent

  lemma {:induction false} HearInTwo(r: Receiver, a: Bits, b: Bits)
    requires Sane(r)
    ensures var first := HearAll(r, a);
      var second := HearAll(first.next, b);
      HearAll(r, a + b) == Heard(second.next, first.packets + second.packets)
    decreases |a|
  {
    hide Hear;
    if a == [] {
      assert a + b == b;
    } else {
      var h := Hear(r, a[0]);
      HearInTwo(h.next, a[1..], b);
      assert (a + b)[1..] == a[1..] + b;
      assert (a + b)[0] == a[0];
    }
  }

  lemma {:induction false} HearOnes(n: nat, k: nat)
    ensures HearAll(Sync(n), Ones(k)) == Heard(Sync(n + k), [])
    decreases k
  {
    if k > 0 {
      HearOnes(n + 1, k - 1);
      assert Ones(k)[1..] == Ones(k - 1);
    }
  }

  lemma HearBit(bytes: Packet, bits: Bits, bit: bool)
    requires |bits| < 8
    ensures Hear(Data(bytes, bits), bit) == Heard(Data(bytes, bits + [bit]), [])
  {
  }

  lemma {:induction false} HearByte(bytes: Packet, bits: Bits, more: Bits)
    requires |bits| + |more| <= 8
    ensures HearAll(Data(bytes, bits), more) == Heard(Data(bytes, bits + more), [])
    decreases |more|
  {
    hide Hear;
    if more == [] {
      assert bits + more == bits;
    } else {
      HearBit(bytes, bits, more[0]);
      HearByte(bytes, bits + [more[0]], more[1..]);
      assert bits + [more[0]] + more[1..] == bits + more;
    }
  }

  lemma BitsOfNothing()
    ensures PacketBits([]) == [true]
  {
  }

  lemma BitsOfNext(packet: Packet)
    requires packet != []
    ensures PacketBits(packet) == [false] + packet[0] + PacketBits(packet[1..])
  {
    assert [false] + packet[0] + Body(packet[1..]) + [true] == [false] + packet[0] + (Body(packet[1..]) + [true]);
  }

  /** In the middle of a packet, between two bytes. */
  lemma {:induction false} HearBody(bytes: Packet, last: Byte, packet: Packet)
    ensures HearAll(Data(bytes, last), PacketBits(packet)) == Heard(Sync(1), [bytes + [last] + packet])
    decreases |packet|
  {
    hide Hear, HearAll, PacketBits, Body;
    if packet == [] {
      BitsOfNothing();
      HearEnd(bytes, last);
    } else {
      var head := packet[0];
      BitsOfNext(packet);
      HearInTwo(Data(bytes, last), [false] + head, PacketBits(packet[1..]));
      HearNext(bytes, last, head);
      HearBody(bytes + [last], head, packet[1..]);
      assert bytes + [last] + [head] + packet[1..] == bytes + [last] + packet;
    }
  }

  lemma HearEnd(bytes: Packet, last: Byte)
    ensures HearAll(Data(bytes, last), [true]) == Heard(Sync(1), [bytes + [last] + []])
  {
    assert HearAll(Sync(1), [true][1..]) == Heard(Sync(1), []);
    assert bytes + [last] + [] == bytes + [last];
  }

  lemma HearNext(bytes: Packet, last: Byte, head: Byte)
    ensures HearAll(Data(bytes, last), [false] + head) == Heard(Data(bytes + [last], head), [])
  {
    HearByte(bytes + [last], [], head);
    assert [] + head == head;
    assert ([false] + head)[1..] == head;
  }

  /** After a full preamble, the bits of a packet are heard as that packet. */
  lemma HearFrame(ones: nat, packet: Packet)
    requires ones >= PREAMBLE && packet != []
    ensures HearAll(Sync(ones), PacketBits(packet)) == Heard(Sync(1), [packet])
  {
    hide Hear;
    var head := packet[0];
    assert PacketBits(packet) == [false] + head + PacketBits(packet[1..]);
    HearInTwo(Sync(ones), [false] + head, PacketBits(packet[1..]));
    HearStart(ones, head);
    HearBody([], head, packet[1..]);
    assert [] + [head] + packet[1..] == packet;
  }

  lemma HearStart(ones: nat, head: Byte)
    requires ones >= PREAMBLE
    ensures HearAll(Sync(ones), [false] + head) == Heard(Data([], head), [])
  {
    HearByte([], [], head);
    assert [] + head == head;
    assert ([false] + head)[1..] == head;
  }

  lemma HearNothing(before: nat)
    ensures HearAll(Sync(before), []) == Heard(Sync(before), [])
  {
  }

  /** A transmission with full preambles, after any number of ones, is heard as its packets. */
  lemma {:induction false} HearTransmission(before: nat, gaps: seq<nat>, packets: seq<Packet>)
    requires |gaps| == |packets|
    requires forall i :: 0 <= i < |packets| ==> gaps[i] >= PREAMBLE && packets[i] != []
    ensures var h := HearAll(Sync(before), Transmission(gaps, packets)); h.next.Sync? && h.packets == packets
    decreases |packets|
  {
    hide Hear, HearAll, PacketBits, Ones;
    HearNothing(before);
    if packets != [] {
      var ones, frame := Ones(gaps[0]), PacketBits(packets[0]);
      var rest := Transmission(gaps[1..], packets[1..]);
      HearInTwo(Sync(before), ones + frame, rest);
      HearInTwo(Sync(before), ones, frame);
      HearOnes(before, gaps[0]);
      HearFrame(before + gaps[0], packets[0]);
      HearTransmission(1, gaps[1..], packets[1..]);
    }
  }

  // ---------------------------------------------------------------- the error detection byte

  lemma CheckedIsIntact(bytes: seq<Byte>)
    requires bytes != []
    ensures Intact(Checked(bytes))
  {
    var n := |bytes|;
    assert Checked(bytes)[..n] == bytes;
    assert Xor(XorAll(bytes), XorAll(bytes)) == ZERO_BYTE;
  }

  /** What a command sends in front of its instructions, and what this adds to their error detection bytes. */
  datatype Head = Head(bytes: seq<Byte>, check: Byte)

  function Plain(bytes: seq<Byte>): Head {
    Head(bytes, XorAll(bytes))
  }

  function XorOn(check: Byte, bytes: seq<Byte>): Byte {
    if bytes == [] then check else Xor(XorOn(check, bytes[..|bytes| - 1]), bytes[|bytes| - 1])
  }

  /** An instruction behind a head, with the error detection byte that goes with it. */
  function Closed(head: Head, code: seq<Byte>): Packet {
    head.bytes + code + [XorOn(head.check, code)]
  }

  lemma {:induction false} XorInTwo(a: seq<Byte>, b: seq<Byte>)
    ensures XorAll(a + b) == XorOn(XorAll(a), b)
    decreases |b|
  {
    hide Xor;
    if b == [] {
      assert a + b == a;
    } else {
      var n := |b| - 1;
      XorInTwo(a, b[..n]);
      assert (a + b)[..|a + b| - 1] == a + b[..n] && (a + b)[|a + b| - 1] == b[n];
    }
  }

  /** When the error detection byte covers exactly what is sent, the packet is a checked one. */
  lemma PlainCloses(bytes: seq<Byte>, code: seq<Byte>)
    ensures Closed(Plain(bytes), code) == Checked(bytes + code)
  {
    XorInTwo(bytes, code);
  }

  lemma XorCancels(a: Byte, b: Byte, c: Byte)
    ensures Xor(a, c) == Xor(b, c) <==> a == b
    ensures Xor(a, b) == ZERO_BYTE <==> a == b
  {
    if Xor(a, c) == Xor(b, c) {
      assert forall i :: 0 <= i < 8 ==> Xor(a, c)[i] == Xor(b, c)[i];
      assert forall i :: 0 <= i < 8 ==> a[i] == b[i];
    }
    if Xor(a, b) == ZERO_BYTE {
      assert forall i :: 0 <= i < 8 ==> Xor(a, b)[i] == ZERO_BYTE[i];
      assert forall i :: 0 <= i < 8 ==> a[i] == b[i];
    }
  }

  lemma {:induction false} XorOnCancels(a: Byte, b: Byte, code: seq<Byte>)
    ensures XorOn(a, code) == XorOn(b, code) <==> a == b
    decreases |code|
  {
    hide Xor;
    if code != [] {
      var n := |code| - 1;
      XorOnCancels(a, b, code[..n]);
      XorCancels(XorOn(a, code[..n]), XorOn(b, code[..n]), code[n]);
    }
  }

  /** It is without errors if and only if that is so. */
  lemma ClosedIsIntactExactly(head: Head, code: seq<Byte>)
    requires head.bytes + code != []
    ensures Intact(Closed(head, code)) <==> head.check == XorAll(head.bytes)
  {
    hide Xor;
    var packet, c := Closed(head, code), XorOn(head.check, code);
    assert packet[..|packet| - 1] == head.bytes + code;
    assert XorAll(packet) == Xor(XorAll(head.bytes + code), c);
    XorInTwo(head.bytes, code);
    XorCancels(XorOn(XorAll(head.bytes), code), c, c);
    XorOnCancels(XorAll(head.bytes), head.check, code);
  }

  // ---------------------------------------------------------------- strings on the line

  /** A string that is heard as the same packets after any number of ones. */
  ghost predicate Sends(bits: Bits, packets: seq<Packet>) {
    forall n: nat :: HearsAfter(n, bits, packets)
  }

  ghost predicate HearsAfter(n: nat, bits: Bits, packets: seq<Packet>) {
    var h := HearAll(Sync(n), bits);
    h.next.Sync? && h.packets == packets
  }

  function Flatten(lists: seq<seq<Packet>>): seq<Packet> {
    if lists == [] then [] else lists[0] + Flatten(lists[1..])
  }

  lemma {:induction false} HearInOrder(n: nat, bits: Bits, strings: seq<Bits>, lists: seq<seq<Packet>>)
    requires InOrder(bits, strings) && |strings| == |lists|
    requires forall i :: 0 <= i < |strings| ==> Sends(strings[i], lists[i])
    ensures HearsAfter(n, bits, Flatten(lists))
    decreases |strings|
  {
    hide Hear;
    if strings == [] {
      HearOnes(n, |bits|);
    } else {
      var k, rest :| k > 0 && bits == Ones(k) + strings[0] + rest && InOrder(rest, strings[1..]);
      HearInTwo(Sync(n), Ones(k) + strings[0], rest);
      HearInTwo(Sync(n), Ones(k), strings[0]);
      HearOnes(n, k);
      assert Sends(strings[0], lists[0]) && HearsAfter(n + k, strings[0], lists[0]);
      var between := HearAll(Sync(n), Ones(k) + strings[0]).next;
      HearInOrder(between.ones, rest, strings[1..], lists[1..]);
    }
  }

  /** Outputs of version 3, sent one after the other, are read and heard as the packets of their strings
      in order. */
  lemma LineDeliversPackets(outputs: seq<seq<bv8>>, strings: seq<Bits>, lists: seq<seq<Packet>>)
    requires |outputs| == |strings| == |lists| > 0
    requires forall i :: 0 <= i < |strings| ==> Conveys(outputs[i], strings[i]) && Sends(strings[i], lists[i])
    ensures Concat(outputs) != []
    ensures ReadHighLow(Concat(outputs)).Some?
    ensures Packets(ReadHighLow(Concat(outputs)).value) == Flatten(lists)
  {
    hide Hear, HearAll, Concat, Conveys, ReadHighLow, Halves, Line, CarriesShared;
    var read := ComposedReads(outputs, strings);
    HearInOrder(0, read, strings, lists);
  }
}
