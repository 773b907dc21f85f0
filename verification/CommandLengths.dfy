/** No string of a command is cut at PKTSIZE. */
module CommandLengths {
  import opened Waveform
  import opened TranslateV3
  import opened PropertiesV3
  import opened Lengths
  import opened Framing
  import opened Builders
  import opened Command
  import opened CommandMeaning
  import opened CommandStrings
  import opened TableV3
  import opened Weights

  // ---------------------------------------------------------------- the bits of a packet

  lemma {:induction false} PacketBit(packet: Packet, k: nat)
    requires k < |packet|
    ensures |PacketBits(packet)| == 9 * |packet| + 1 && PacketBits(packet)[9 * |packet|]
    ensures !PacketBits(packet)[9 * k]
    ensures PacketBits(packet)[9 * k + 1..9 * k + 9] == packet[k]
    decreases |packet|
  {
    PacketBitsLength(packet);
    PacketBitsLength(packet[1..]);
    var bits, rest := PacketBits(packet), PacketBits(packet[1..]);
    assert bits == [false] + packet[0] + rest;
    if k > 0 {
      PacketBit(packet[1..], k - 1);
      assert bits[9 * k + 1..9 * k + 9] == rest[9 * (k - 1) + 1..9 * (k - 1) + 9];
    } else {
      assert bits[1..9] == packet[0];
      if |packet| > 1 { PacketBit(packet[1..], 0); }
    }
  }

  /** Three packets in the buffer of the translation: each begins at one of three places. */
  ghost predicate ThreeInBuffer(b: Bits, p: Packet, q: Packet, r: Packet, y: nat, z: nat) {
    && y == 17 + 9 * |p| + 51 && z == y + 9 * |q| + 51 && |b| == z + 9 * |r| + 1 + 6
    && b == Ones(17) + (PacketBits(p) + (Ones(50) + (PacketBits(q) + (Ones(50) + (PacketBits(r) + Ones(6))))))
  }

  lemma ThreeAreInBuffer(head: Head, codes: seq<seq<Byte>>) returns (y: nat, z: nat)
    requires |codes| == 3 && |head.bytes| <= 2 && forall i :: 0 <= i < 3 ==> |codes[i]| <= 2
    ensures ThreeInBuffer(Buffer(Signals(SHORT_PREAMBLE, head, codes)), Closed(head, codes[0]),
                          Closed(head, codes[1]), Closed(head, codes[2]), y, z)
  {
    hide PacketBits, XorOn;
    var p, q, r := Closed(head, codes[0]), Closed(head, codes[1]), Closed(head, codes[2]);
    PacketBitsLength(p);
    PacketBitsLength(q);
    PacketBitsLength(r);
    y := 17 + 9 * |p| + 51;
    z := y + 9 * |q| + 51;
    var s := Signals(SHORT_PREAMBLE, head, codes);
    ThreeSignals(head, codes);
    assert |s| < BUFFERSIZE;
    assert Ones(2) + Ones(15) == Ones(17);
    assert Buffer(s)
        == Ones(17) + (PacketBits(p) + (Ones(50) + (PacketBits(q) + (Ones(50) + (PacketBits(r) + Ones(6))))));
  }

  lemma ThreeSignals(head: Head, codes: seq<seq<Byte>>)
    requires |codes| == 3
    ensures Signals(SHORT_PREAMBLE, head, codes)
         == Ones(15) + PacketBits(Closed(head, codes[0])) + Ones(50) + PacketBits(Closed(head, codes[1]))
            + Ones(50) + PacketBits(Closed(head, codes[2]))
  {
    hide PacketBits, Closed;
    var two, one := codes[1..], codes[1..][1..];
    assert two[0] == codes[1] && one[0] == codes[2] && one[1..] == [];
    assert Signals(50, head, one) == Signal(50, head, codes[2]) + [];
    assert Signals(50, head, two) == Signal(50, head, codes[1]) + Signals(50, head, one);
    assert Signals(15, head, codes) == Signal(15, head, codes[0]) + Signals(50, head, two);
  }

  ghost predicate PacketAt(b: Bits, z: nat, packet: Packet) {
    z + 9 * |packet| + 1 <= |b| && b[z..z + 9 * |packet| + 1] == PacketBits(packet)
  }

  lemma PeelAt(b: Bits, s: nat, first: Bits, rest: Bits)
    requires s <= |b| && b[s..] == first + rest
    ensures s + |first| <= |b| && b[s..s + |first|] == first && b[s + |first|..] == rest
  {
    assert b[s..s + |first|] == b[s..][..|first|];
    assert b[s + |first|..] == b[s..][|first|..];
  }

  lemma OnesSlice(b: Bits, s: nat, n: nat)
    requires s + n <= |b| && b[s..s + n] == Ones(n)
    ensures AreOnes(b, s, s + n)
  {
    assert forall i :: s <= i < s + n ==> b[i] == b[s..s + n][i - s];
  }

  /** What is known of the bits around the packets. */
  lemma OnesAround(b: Bits, p: Packet, q: Packet, r: Packet, y: nat, z: nat)
    requires ThreeInBuffer(b, p, q, r, y, z) && p != [] && q != [] && r != []
    ensures AreOnes(b, 0, 17) && PacketAt(b, 17, p)
    ensures AreOnes(b, y - 51, y) && PacketAt(b, y, q)
    ensures AreOnes(b, z - 51, z) && PacketAt(b, z, r)
    ensures AreOnes(b, |b| - 7, |b|)
  {
    var t6 := Ones(6);
    var t5 := PacketBits(r) + t6;
    var t4 := Ones(50) + t5;
    var t3 := PacketBits(q) + t4;
    var t2 := Ones(50) + t3;
    var t1 := PacketBits(p) + t2;
    assert b[0..] == Ones(17) + t1;
    PacketBitsLength(p);
    PacketBitsLength(q);
    PacketBitsLength(r);
    hide PacketBits, Ones, AreOnes;
    PeelAt(b, 0, Ones(17), t1);
    PeelAt(b, 17, PacketBits(p), t2);
    PeelAt(b, y - 50, Ones(50), t3);
    PeelAt(b, y, PacketBits(q), t4);
    PeelAt(b, z - 50, Ones(50), t5);
    PeelAt(b, z, PacketBits(r), t6);
    OnesSlice(b, 0, 17);
    OnesSlice(b, y - 50, 50);
    OnesSlice(b, z - 50, 50);
    OnesSlice(b, |b| - 6, 6);
    OneMore(b, 17, p, y);
    OneMore(b, y, q, z);
    OneMore(b, z, r, |b|);
  }

  /** The last bit of a packet is a one. */
  lemma OneMore(b: Bits, z: nat, packet: Packet, next: nat)
    requires packet != [] && PacketAt(b, z, packet)
    requires z + 9 * |packet| + 1 <= next && AreOnes(b, z + 9 * |packet| + 1, next)
    ensures AreOnes(b, z + 9 * |packet|, next)
  {
    PacketBit(packet, 0);
    hide PacketBits;
    assert b[z + 9 * |packet|] == b[z..z + 9 * |packet| + 1][9 * |packet|];
  }

  predicate StartsLong(packet: Packet) {
    packet != [] && packet[0][0] && packet[0][1]
  }

  lemma LongHead(b: Bits, z: nat, packet: Packet)
    requires StartsLong(packet) && PacketAt(b, z, packet)
    ensures AreOnes(b, z + 1, z + 3)
  {
    hide PacketBits, PacketAt;
    ByteInPacket(b, z, packet, 0, 0);
    ByteInPacket(b, z, packet, 0, 1);
    assert b[z + 1] && b[z + 2];
  }

  /** Three packets after short addresses. */
  lemma ShortCosts(b: Bits, p: Packet, q: Packet, r: Packet, y: nat, z: nat)
    requires ThreeInBuffer(b, p, q, r, y, z) && 3 <= |p| <= 4 && |q| == 3 && |r| == 4 && !Dead(b, 0)
    ensures |Path(b, 0)| <= 75
  {
    hide Dead, Costs, ThreeInBuffer, Path;
    OnesAround(b, p, q, r, y, z);
    Places(b, p, q, r, y, z);
    LastShortCosts(b, z);
    PacketCosts(b, y, 27, false, 19);
    PacketCosts(b, 17, 9 * |p|, false, 43);
    CostsLater(b, 15, 15, 43 + 9 * |p| / 2 + 11, 72);
    PreambleCosts(b, 72);
  }

  lemma Places(b: Bits, p: Packet, q: Packet, r: Packet, y: nat, z: nat)
    requires ThreeInBuffer(b, p, q, r, y, z)
    ensures y == 17 + 9 * |p| + 51 && z == y + 9 * |q| + 51 && |b| == z + 9 * |r| + 1 + 6
  {
  }

  predicate IsExpansion(byte: Byte) {
    byte == EXPANSION_LOW || byte == EXPANSION_HIGH
  }

  lemma ExpansionBits(b: Bits, z: nat, r: Packet)
    requires |r| == 5 && IsExpansion(r[2]) && PacketAt(b, z, r)
    ensures b[z + 19] && !b[z + 21] && b[z + 22] && b[z + 23] && b[z + 24] && b[z + 25] && !b[z + 27]
  {
    PacketBit(r, 2);
    PacketBit(r, 3);
    hide PacketBits;
    var bits, code := PacketBits(r), r[2];
    assert code[0] && !code[2] && code[3] && code[4] && code[5] && code[6];
    hide IsExpansion;
    ByteInPacket(b, z, r, 2, 0);
    ByteInPacket(b, z, r, 2, 2);
    ByteInPacket(b, z, r, 2, 3);
    ByteInPacket(b, z, r, 2, 4);
    ByteInPacket(b, z, r, 2, 5);
    ByteInPacket(b, z, r, 2, 6);
    assert b[z + 27] == b[z..z + 46][27] == bits[27];
  }

  lemma ByteInPacket(b: Bits, z: nat, packet: Packet, k: nat, i: nat)
    requires PacketAt(b, z, packet) && k < |packet| && i < 8
    ensures z + 9 * k + 1 + i < |b| && b[z + 9 * k + 1 + i] == packet[k][i]
  {
    PacketBit(packet, k);
    hide PacketBits;
    var bits := PacketBits(packet);
    assert bits[9 * k + 1 + i] == bits[9 * k + 1..9 * k + 9][i];
    assert b[z + (9 * k + 1 + i)] == b[z..z + 9 * |packet| + 1][9 * k + 1 + i];
  }

  /** Three packets after long addresses, the last with an expansion instruction. */
  lemma LongCosts(b: Bits, p: Packet, q: Packet, r: Packet, y: nat, z: nat)
    requires ThreeInBuffer(b, p, q, r, y, z) && |p| == 4 && |q| == 4 && |r| == 5 && !Dead(b, 0)
    requires StartsLong(p) && StartsLong(q) && StartsLong(r) && IsExpansion(r[2])
    ensures |Path(b, 0)| <= PKTSIZE
  {
    hide Dead, Costs, ThreeInBuffer, Path, PacketBits, StartsLong;
    OnesAround(b, p, q, r, y, z);
    Places(b, p, q, r, y, z);
    PacketBitsLength(p);
    PacketBitsLength(q);
    PacketBitsLength(r);
    LongHead(b, 17, p);
    LongHead(b, y, q);
    LongHead(b, z, r);
    ExpansionBits(b, z, r);
    LastLongCosts(b, z);
    PacketCosts(b, y, 36, true, 21);
    PacketCosts(b, 17, 36, true, 49);
    PreambleCosts(b, 77);
  }

  // ---------------------------------------------------------------- 128 speed steps after a long address

  /** The ones of a byte. */
  function Weight(byte: Byte): nat {
    Bit(byte[0]) + Bit(byte[1]) + Bit(byte[2]) + Bit(byte[3]) +
    Bit(byte[4]) + Bit(byte[5]) + Bit(byte[6]) + Bit(byte[7])
  }

  lemma CountByte(b: Bits, z: nat, packet: Packet, k: nat)
    requires PacketAt(b, z, packet) && k < |packet|
    ensures z + 9 * k + 9 <= |b|
    ensures Count(b, z + 9 * k + 1, z + 9 * k + 9) == Weight(packet[k])
  {
    hide PacketAt;
    ByteInPacket(b, z, packet, k, 0);
    ByteInPacket(b, z, packet, k, 1);
    ByteInPacket(b, z, packet, k, 2);
    ByteInPacket(b, z, packet, k, 3);
    ByteInPacket(b, z, packet, k, 4);
    ByteInPacket(b, z, packet, k, 5);
    ByteInPacket(b, z, packet, k, 6);
    ByteInPacket(b, z, packet, k, 7);
    EightBits(b, z + 9 * k + 1, packet[k]);
  }

  lemma EightBits(b: Bits, i: nat, byte: Byte)
    requires i + 8 <= |b| && forall k :: 0 <= k < 8 ==> b[i + k] == byte[k]
    ensures Count(b, i, i + 8) == Weight(byte)
  {
    assert b[i] == byte[0] && b[i + 1] == byte[1] && b[i + 2] == byte[2] && b[i + 3] == byte[3];
    assert b[i + 4] == byte[4] && b[i + 5] == byte[5] && b[i + 6] == byte[6] && b[i + 7] == byte[7];
    assert Count(b, i + 6, i + 8) == Bit(byte[6]) + Bit(byte[7]);
    assert Count(b, i + 4, i + 8) == Bit(byte[4]) + Bit(byte[5]) + Count(b, i + 6, i + 8);
    assert Count(b, i + 2, i + 8) == Bit(byte[2]) + Bit(byte[3]) + Count(b, i + 4, i + 8);
  }

  const STEPS_128_CODE: Byte := [false, false, true, true, true, true, true, true]

  /** In each of its eight columns, the exclusive or of the bytes of the packet is zero, so the first two bits of the
      address and the ones of the instruction come with a one in another byte. */
  lemma ColumnsWeigh(a: Byte, b: Byte, c: Byte)
    requires a[0] && a[1]
    ensures Weight(a) + Weight(b) + Weight(c) + Weight(XorAll([a, b, STEPS_128_CODE, c])) >= 10
  {
    XorOfFour(a, b, STEPS_128_CODE, c);
    var x := XorAll([a, b, STEPS_128_CODE, c]);
    forall i | 0 <= i < 8
      ensures Bit(a[i]) + Bit(b[i]) + Bit(c[i]) + Bit(x[i]) >= if STEPS_128_CODE[i] then 1 else if a[i] then 2 else 0
    {
      OneColumn(a[i], b[i], STEPS_128_CODE[i], c[i]);
    }
    hide XorAll, Xor, Bit;
    SumOfColumns(a, b, c, x);
  }

  lemma OneColumn(a: bool, b: bool, s: bool, c: bool)
    ensures Bit(a) + Bit(b) + Bit(c) + Bit((((false != a) != b) != s) != c) >= if s then 1 else if a then 2 else 0
  {
  }

  lemma SumOfColumns(a: Byte, b: Byte, c: Byte, d: Byte)
    requires a[0] && a[1]
    requires forall i :: 0 <= i < 8 ==>
      Bit(a[i]) + Bit(b[i]) + Bit(c[i]) + Bit(d[i]) >= if STEPS_128_CODE[i] then 1 else if a[i] then 2 else 0
    ensures Weight(a) + Weight(b) + Weight(c) + Weight(d) >= 10
  {
    hide Bit;
    assert Bit(a[0]) + Bit(b[0]) + Bit(c[0]) + Bit(d[0]) >= 2;
    assert Bit(a[1]) + Bit(b[1]) + Bit(c[1]) + Bit(d[1]) >= 2;
    assert Bit(a[2]) + Bit(b[2]) + Bit(c[2]) + Bit(d[2]) >= 1;
    assert Bit(a[3]) + Bit(b[3]) + Bit(c[3]) + Bit(d[3]) >= 1;
    assert Bit(a[4]) + Bit(b[4]) + Bit(c[4]) + Bit(d[4]) >= 1;
    assert Bit(a[5]) + Bit(b[5]) + Bit(c[5]) + Bit(d[5]) >= 1;
    assert Bit(a[6]) + Bit(b[6]) + Bit(c[6]) + Bit(d[6]) >= 1;
    assert Bit(a[7]) + Bit(b[7]) + Bit(c[7]) + Bit(d[7]) >= 1;
  }

  lemma XorOfFour(a: Byte, b: Byte, c: Byte, d: Byte)
    ensures XorAll([a, b, c, d]) == Xor(Xor(Xor(Xor(ZERO_BYTE, a), b), c), d)
  {
    assert [a, b, c, d][..3] == [a, b, c] && [a, b, c][..2] == [a, b] && [a, b][..1] == [a] && [a][..0] == [];
    hide Xor;
    assert XorAll([a]) == Xor(ZERO_BYTE, a);
    assert XorAll([a, b]) == Xor(XorAll([a]), b);
    assert XorAll([a, b, c]) == Xor(XorAll([a, b]), c);
  }

  predicate IsWidePacket(p: Packet) {
    |p| == 5 && StartsLong(p) && p[2] == STEPS_128_CODE && p == Checked([p[0], p[1], p[2], p[3]])
  }

  /** The eighteen ones that such a packet has at least, with the preamble in front of it. */
  lemma WidePacketCount(b: Bits, z: nat, p: Packet)
    requires z >= 1 && PacketAt(b, z, p) && IsWidePacket(p) && b[z - 1]
    ensures z + 46 <= |b| && Count(b, z - 1, z + 46) >= 18
  {
    CountByte(b, z, p, 0);
    CountByte(b, z, p, 1);
    CountByte(b, z, p, 2);
    CountByte(b, z, p, 3);
    CountByte(b, z, p, 4);
    ColumnsWeigh(p[0], p[1], p[3]);
    LastBit(b, z, p);
    assert Weight(STEPS_128_CODE) == 6;
    assert Count(b, z - 1, z) == 1 && Count(b, z + 45, z + 46) == 1;
    hide Count, Weight, XorAll, PacketAt;
    CountPieces(b, z);
  }

  lemma CountPieces(b: Bits, z: nat)
    requires z >= 1 && z + 46 <= |b|
    ensures Count(b, z - 1, z + 46)
         >= Count(b, z - 1, z) + Count(b, z + 1, z + 9) + Count(b, z + 10, z + 18) + Count(b, z + 19, z + 27)
            + Count(b, z + 28, z + 36) + Count(b, z + 37, z + 45) + Count(b, z + 45, z + 46)
  {
    hide Count;
    CountSplit(b, z - 1, z, z + 46);
    CountSplit(b, z, z + 1, z + 46);
    CountSplit(b, z + 1, z + 9, z + 46);
    CountSplit(b, z + 9, z + 10, z + 46);
    CountSplit(b, z + 10, z + 18, z + 46);
    CountSplit(b, z + 18, z + 19, z + 46);
    CountSplit(b, z + 19, z + 27, z + 46);
    CountSplit(b, z + 27, z + 28, z + 46);
    CountSplit(b, z + 28, z + 36, z + 46);
    CountSplit(b, z + 36, z + 37, z + 46);
    CountSplit(b, z + 37, z + 45, z + 46);
  }

  lemma LastBit(b: Bits, z: nat, packet: Packet)
    requires packet != [] && PacketAt(b, z, packet)
    ensures b[z + 9 * |packet|]
  {
    PacketBit(packet, 0);
    hide PacketBits;
    assert b[z + 9 * |packet|] == b[z..z + 9 * |packet| + 1][9 * |packet|];
  }

  lemma StartBit(b: Bits, z: nat, packet: Packet, k: nat)
    requires k < |packet| && PacketAt(b, z, packet)
    ensures z + 9 * k < |b| && !b[z + 9 * k]
  {
    PacketBit(packet, k);
    hide PacketBits;
    assert b[z + 9 * k] == b[z..z + 9 * |packet| + 1][9 * k];
  }

  lemma WidePacketShape(b: Bits, z: nat, p: Packet)
    requires z >= 2 && PacketAt(b, z, p) && IsWidePacket(p) && AreOnes(b, z - 2, z) && z + 60 <= |b|
    ensures LongStart(b, z - 2) && SixOnes(b, z + 18)
  {
    hide PacketAt;
    StartBit(b, z, p, 0);
    StartBit(b, z, p, 2);
    StartBit(b, z, p, 3);
    ByteInPacket(b, z, p, 0, 0);
    ByteInPacket(b, z, p, 0, 1);
    ByteInPacket(b, z, p, 2, 0);
    ByteInPacket(b, z, p, 2, 1);
    ByteInPacket(b, z, p, 2, 2);
    ByteInPacket(b, z, p, 2, 3);
    ByteInPacket(b, z, p, 2, 4);
    ByteInPacket(b, z, p, 2, 5);
    ByteInPacket(b, z, p, 2, 6);
    ByteInPacket(b, z, p, 2, 7);
  }

  predicate IsGroupTwo(packet: Packet) {
    |packet| == 4 && packet[2][0] && !packet[2][1] && packet[2][2] && packet[2][3]
  }

  /** The two packets behind it, and the gap in front of them. */
  lemma WideRestCosts(b: Bits, p: Packet, q: Packet, r: Packet, y: nat, z: nat)
    requires ThreeInBuffer(b, p, q, r, y, z) && |p| == 5 && |q| == 4 && |r| == 5
    requires StartsLong(q) && StartsLong(r) && IsGroupTwo(q) && IsExpansion(r[2])
    ensures y >= 50 && Costs(b, y - 50, 57)
  {
    hide Dead, Costs, ThreeInBuffer, Path, PacketBits, StartsLong, PacketAt, IsExpansion;
    OnesAround(b, p, q, r, y, z);
    Places(b, p, q, r, y, z);
    LongHead(b, y, q);
    LongHead(b, z, r);
    ExpansionBits(b, z, r);
    SecondExpansionBit(b, z, r);
    LastLongCostsFromStart(b, z);
    StartBit(b, z, r, 0);
    ByteInPacket(b, y, q, 2, 0);
    ByteInPacket(b, y, q, 2, 1);
    ByteInPacket(b, y, q, 2, 2);
    ByteInPacket(b, y, q, 2, 3);
    GroupCostsFromStart(b, y, 20);
    CostsOnes(b, y - 50, 10, 47);
  }

  lemma SecondExpansionBit(b: Bits, z: nat, r: Packet)
    requires |r| == 5 && IsExpansion(r[2]) && PacketAt(b, z, r)
    ensures b[z + 20]
  {
    assert r[2][1];
    ByteInPacket(b, z, r, 2, 1);
  }

  lemma WideCosts(b: Bits, p: Packet, q: Packet, r: Packet, y: nat, z: nat)
    requires ThreeInBuffer(b, p, q, r, y, z) && IsWidePacket(p) && |q| == 4 && |r| == 5 && !Dead(b, 0)
    requires StartsLong(q) && StartsLong(r) && IsGroupTwo(q) && IsExpansion(r[2])
    ensures |Path(b, 0)| <= PKTSIZE
  {
    WideRestCosts(b, p, q, r, y, z);
    OnesAround(b, p, q, r, y, z);
    Places(b, p, q, r, y, z);
    OnesInFront(b, 17);
    hide Dead, Costs, ThreeInBuffer, Path, PacketBits, StartsLong, PacketAt, IsExpansion, IsWidePacket, Count, SixOnes,
      LongStart, OnesAt;
    WidePacketShape(b, 17, p);
    WidePacketCount(b, 17, p);
    PaidFromLongStart(b, 63, 57, 35, 15);
    PathThroughOnes(b, 0, 3);
  }

  lemma OnesInFront(b: Bits, n: nat)
    requires AreOnes(b, 0, n)
    ensures OnesAt(b, 0) >= n
  {
    var k := OnesAt(b, 0);
    assert k < |b| ==> !b[k];
  }

  // ---------------------------------------------------------------- commands

  /** Three instructions, the last an expansion; after a long address the first has one byte, or sets one of 128 speed
      steps and is followed by functions 5 to 8. */
  predicate IsTriple(head: Head, codes: seq<seq<Byte>>) {
    && |codes| == 3 && 1 <= |codes[0]| <= 2 && |codes[1]| == 1 && |codes[2]| == 2 && IsExpansion(codes[2][0])
    && (|head.bytes| == 1
        || (|head.bytes| == 2 && head == Plain(head.bytes) && head.bytes[0][0] && head.bytes[0][1]
            && (|codes[0]| == 1 || (codes[0][0] == STEPS_128_CODE && StartsGroup(codes[1][0])))))
  }

  predicate StartsGroup(byte: Byte) {
    byte[0] && !byte[1] && byte[2] && byte[3]
  }

  lemma TripleFits(head: Head, codes: seq<seq<Byte>>)
    requires IsTriple(head, codes)
    ensures Fits80(Signals(SHORT_PREAMBLE, head, codes))
  {
    var s := Signals(SHORT_PREAMBLE, head, codes);
    hide Path, Signals, Jams, Dead, IsExpansion, XorAll, XorOn, ThreeInBuffer, PacketBits;
    var y, z := ThreeAreInBuffer(head, codes);
    CommandsDoNotJam(head, codes);
    var b, p, q, r := Buffer(s), Closed(head, codes[0]), Closed(head, codes[1]), Closed(head, codes[2]);
    TripleLength(b, p, q, r, y, z);
    NotDead(s);
    if |head.bytes| == 1 {
      ShortCosts(b, p, q, r, y, z);
    } else if |codes[0]| == 1 {
      LongCosts(b, p, q, r, y, z);
    } else {
      PlainCloses(head.bytes, codes[0]);
      assert [p[0], p[1], p[2], p[3]] == head.bytes + codes[0];
      WideCosts(b, p, q, r, y, z);
    }
  }

  lemma TripleLength(b: Bits, p: Packet, q: Packet, r: Packet, y: nat, z: nat)
    requires ThreeInBuffer(b, p, q, r, y, z) && |p| <= 5 && |q| <= 5 && |r| <= 5
    ensures |b| <= 400
  {
  }

  lemma GroupTwoStarts(func: Word)
    ensures StartsGroup(GroupTwoByte(func, true))
  {
    GroupTwoLowerDigits(func);
    hide Digit;
  }

  /** The instructions of either string are few, or a triple. */
  lemma CodesAreFewOrTriple(address: Word, direction: Word, speed: Word, func: Word, nspeed: Word, nfuncs: int,
                            mode: nat)
    ensures var head := HeadOf(address, mode);
      var first, other := FirstCodes(direction, speed, func, nspeed, nfuncs), OtherCodes(func, nfuncs);
      (Few(first) || IsTriple(head, first)) && (Few(other) || IsTriple(head, other))
  {
    if mode == 2 { LongAddressStarts(address); }
    SpeedCodeLength(direction, speed, func, nspeed);
    GroupTwoStarts(func);
    hide SignedLess, ByteOf, SpeedCode, GroupOneByte, GroupTwoByte, Clamped;
  }

  lemma SpeedCodeLength(direction: Word, speed: Word, func: Word, nspeed: Word)
    ensures var code := SpeedCode(direction, Clamped(speed), func, nspeed);
      |code| == 1 || (|code| == 2 && code[0] == STEPS_128_CODE)
  {
    hide SignedLess, ByteOf, BaselineSpeedByte, Steps28Byte, Clamped;
  }

  /** No string of a command is cut, whatever its address, mode, steps and functions. */
  lemma CommandsFit(address: Word, direction: Word, speed: Word, func: Word, nspeed: Word, nfuncs: int, mode: nat)
    ensures AllFit(StringsOf(address, direction, speed, func, nspeed, nfuncs, mode))
  {
    hide Fits80, Signals, SendsFunctions, HeadOf, FirstCodes, OtherCodes, IsTriple, Few;
    var head := HeadOf(address, mode);
    var first, other := FirstCodes(direction, speed, func, nspeed, nfuncs), OtherCodes(func, nfuncs);
    CodesAreFewOrTriple(address, direction, speed, func, nspeed, nfuncs, mode);
    if Few(first) { FewCodesFit(head, first); } else { TripleFits(head, first); }
    if Few(other) { FewCodesFit(head, other); } else { TripleFits(head, other); }
  }
}
