/**
  The packet pools of ddl.c as the program keeps them: fixed arrays of addresses and packets, a count, and
  the cursor of the refresh cycle.
 */
module PacketPool {
  import opened Refresh
  import opened RefreshCycle
  import opened TranslateV3
  import opened Waveform

  const MAX_MARKLIN_ADDRESS := 256
  const MAX_NMRA_ADDRESS := 10367

  const MAERKLIN_SIZE := 18

  const LO: bv8 := 63
  const HI: bv8 := 0

  const QM2LOCOPKT := 2
  const QM2FXPKT := 3
  const QNBLOCOPKT := 6

  // ---------------------------------------------------------------- lists of addresses in an array

  ghost predicate Distinct(list: seq<int>) {
    forall i, j :: 0 <= i < j < |list| ==> list[i] != list[j]
  }

  ghost predicate Within(list: seq<int>, low: int, high: int) {
    forall i :: 0 <= i < |list| ==> low <= list[i] <= high
  }

  /** A list without repetition is no longer than its range is wide. */
  lemma {:induction false} Pigeonhole(list: seq<int>, low: int, high: int)
    requires Distinct(list) && Within(list, low, high) && low <= high + 1
    ensures |list| <= high + 1 - low
  {
    SizeOfElements(list);
    SizeOfRange(low, high + 1);
    SizeOfSubset(set i | 0 <= i < |list| :: list[i], Range(low, high + 1));
  }

  lemma RoomForNew(list: seq<int>, addr: int, low: int, high: int)
    requires Distinct(list) && Within(list, low, high) && low <= addr <= high && addr !in list
    ensures |list| < high + 1 - low
    ensures Distinct(list + [addr]) && Within(list + [addr], low, high)
  {
    Pigeonhole(list + [addr], low, high);
  }

  ghost function Range(low: int, high: int): (range: set<int>)
    ensures forall x :: x in range <==> low <= x < high
    decreases high - low
  {
    if low >= high then {} else Range(low, high - 1) + {high - 1}
  }

  lemma {:induction false} SizeOfElements(list: seq<int>)
    requires Distinct(list)
    ensures |set i | 0 <= i < |list| :: list[i]| == |list|
    decreases |list|
  {
    var elements := set i | 0 <= i < |list| :: list[i];
    if list == [] {
      assert elements == {};
    } else {
      var n := |list| - 1;
      var before := list[..n];
      SizeOfElements(before);
      var others := set i | 0 <= i < |before| :: before[i];
      assert forall x :: x in elements <==> x in others || x == list[n];
      assert elements == others + {list[n]};
    }
  }

  lemma {:induction false} SizeOfRange(low: int, high: int)
    requires low <= high
    ensures |Range(low, high)| == high - low
    decreases high - low
  {
    if low < high {
      SizeOfRange(low, high - 1);
      assert high - 1 !in Range(low, high - 1);
    }
  }

  lemma {:induction false} SizeOfSubset<T>(a: set<T>, b: set<T>)
    requires a <= b
    ensures |a| <= |b|
  {
    if |a| > 0 {
      var x :| x in a;
      SizeOfSubset(a - {x}, b - {x});
    }
  }

  /** The addresses of a pool: the first count entries of the array; a count of zero over the idle address
      still means the idle address, for that is what the refresh cycle finds there. */
  function Listed(cells: seq<int>, count: nat, idle: int): seq<int>
    requires count <= |cells| && |cells| > 0
  {
    if count == 0 then (if cells[0] == idle then [idle] else []) else cells[..count]
  }

  lemma ListedAfterUpdate(cells: seq<int>, count: nat, addr: int, idle: int)
    requires count <= |cells| && |cells| > 0
    ensures var reset := if count == 1 && cells[0] == idle then 0 else count;
      && (addr in cells[..count] ==>
            Listed(cells, reset, idle) == Known(Listed(cells, count, idle), addr, idle))
      && (addr !in cells[..count] && (count < |cells| || reset == 0) ==>
            Listed(cells[reset := addr], reset + 1, idle) == Known(Listed(cells, count, idle), addr, idle))
  {
    if count == 0 {
      assert cells[0 := addr][..1] == [addr];
    } else if count == 1 && cells[0] == idle {
      assert cells[..1] == [idle] && cells[0 := addr][..1] == [addr];
    } else if count < |cells| {
      assert cells[count := addr][..count + 1] == cells[..count] + [addr];
    }
    if count > 0 && cells[..count] == [idle] {
      assert cells[0] == cells[..count][0];
    }
  }

  lemma KnownIsDistinct(list: seq<int>, addr: int, idle: int, low: int, high: int)
    requires Distinct(list) && Within(list, low, high) && low <= addr <= high
    ensures Distinct(Known(list, addr, idle)) && Within(Known(list, addr, idle), low, high)
    ensures addr !in list ==> |list| < high + 1 - low
  {
    if addr !in list { RoomForNew(list, addr, low, high); }
  }

  // ---------------------------------------------------------------- the Maerklin pool

  datatype MaerklinPacket = MaerklinPacket(packet: Bytes, fPackets: seq<Bytes>)

  predicate IsMaerklinPacket(p: MaerklinPacket) {
    && |p.packet| == MAERKLIN_SIZE
    && |p.fPackets| == 4
    && forall i :: 0 <= i < 4 ==> |p.fPackets[i]| == MAERKLIN_SIZE
  }

  function MaerklinSlots(p: MaerklinPacket): Slots {
    [p.packet] + p.fPackets
  }

  /** The packets of some addresses. */
  function MaerklinPackets(cells: seq<MaerklinPacket>, known: seq<int>): map<int, Slots> {
    map a | a in known && 0 <= a < |cells| :: MaerklinSlots(cells[a])
  }

  lemma MaerklinRepacked(cells: seq<MaerklinPacket>, known: seq<int>, adr: int, packet: MaerklinPacket)
    requires Within(known, 0, |cells| - 1) && 0 <= adr < |cells|
    ensures var known' := Known(known, adr, MAERKLIN_IDLE);
      MaerklinPackets(cells[adr := packet], known')
      == Repacked(MaerklinPackets(cells, known), known', adr, MaerklinSlots(packet))
  {
    hide MaerklinSlots;
  }

  /** The idle packet: four times high and low, then low. */
  const MAERKLIN_IDLE_PACKET: Bytes :=
    [HI, LO, HI, LO, HI, LO, HI, LO, LO, LO, LO, LO, LO, LO, LO, LO, LO, LO]

  function MaerklinIdleSlots(): Slots {
    [MAERKLIN_IDLE_PACKET, MAERKLIN_IDLE_PACKET, MAERKLIN_IDLE_PACKET, MAERKLIN_IDLE_PACKET, MAERKLIN_IDLE_PACKET]
  }

  class MaerklinPacketPool {
    const packets: array<MaerklinPacket>
    const knownAddresses: array<int>
    var nrOfKnownAddresses: nat

    ghost predicate Valid()
      reads this, packets, knownAddresses
    {
      && packets.Length == knownAddresses.Length == MAX_MARKLIN_ADDRESS + 1
      && nrOfKnownAddresses <= knownAddresses.Length
      && (forall i :: 0 <= i < packets.Length ==> IsMaerklinPacket(packets[i]))
      && Distinct(Addresses())
      && Within(Addresses(), 0, MAX_MARKLIN_ADDRESS)
      && Addresses() != []
    }

    ghost function Addresses(): seq<int>
      reads this, knownAddresses
      requires nrOfKnownAddresses <= knownAddresses.Length && knownAddresses.Length > 0
    {
      Listed(knownAddresses[..], nrOfKnownAddresses, MAERKLIN_IDLE)
    }

    ghost function Packets(): map<int, Slots>
      reads this, packets, knownAddresses
      requires Valid()
    {
      MaerklinPackets(packets[..], Addresses())
    }

    /** init_MaerklinPacketPool. */
    constructor ()
      ensures Valid() && fresh(packets) && fresh(knownAddresses)
      ensures Addresses() == [MAERKLIN_IDLE]
      ensures Packets() == map[MAERKLIN_IDLE := MaerklinIdleSlots()]
    {
      nrOfKnownAddresses := 1;
      var zeros: Bytes := seq(MAERKLIN_SIZE, _ => 0);
      knownAddresses := new int[MAX_MARKLIN_ADDRESS + 1](_ => 0);
      packets := new MaerklinPacket[MAX_MARKLIN_ADDRESS + 1](_ => MaerklinPacket(zeros, [zeros, zeros, zeros, zeros]));
      new;
      knownAddresses[nrOfKnownAddresses - 1] := MAERKLIN_IDLE;
      var idle := MAERKLIN_IDLE_PACKET;
      packets[MAERKLIN_IDLE] := MaerklinPacket(idle, [idle, idle, idle, idle]);
      assert Addresses() == [MAERKLIN_IDLE];
      assert MaerklinSlots(packets[MAERKLIN_IDLE]) == MaerklinIdleSlots();
    }

    /** What the refresh cycle finds at a place in the list. */
    lemma At(i: nat)
      requires Valid() && i < |Addresses()|
      ensures i < knownAddresses.Length && knownAddresses[i] == Addresses()[i]
      ensures 0 <= Addresses()[i] < packets.Length && IsMaerklinPacket(packets[Addresses()[i]])
      ensures Addresses()[i] in Packets() && Packets()[Addresses()[i]] == MaerklinSlots(packets[Addresses()[i]])
      ensures |Addresses()| == if nrOfKnownAddresses == 0 then 1 else nrOfKnownAddresses
    {
      hide IsMaerklinPacket, MaerklinSlots;
    }

    /** The part of update_MaerklinPacketPool that keeps the list of addresses. */
    method List(adr: int, found: bool)
      requires Valid() && 0 <= adr <= MAX_MARKLIN_ADDRESS
      requires found <==> adr in knownAddresses[..nrOfKnownAddresses]
      modifies this, knownAddresses
      ensures Valid()
      ensures Addresses() == Known(old(Addresses()), adr, MAERKLIN_IDLE)
    {
      hide Distinct, Within;
      ghost var cells, count := knownAddresses[..], nrOfKnownAddresses;
      if nrOfKnownAddresses == 1 && knownAddresses[0] == MAERKLIN_IDLE {
        nrOfKnownAddresses := 0;
      }
      ListedAfterUpdate(cells, count, adr, MAERKLIN_IDLE);
      KnownIsDistinct(old(Addresses()), adr, MAERKLIN_IDLE, 0, MAX_MARKLIN_ADDRESS);
      if !found {
        assert nrOfKnownAddresses > 0 ==> Listed(cells, count, MAERKLIN_IDLE) == cells[..count];
        knownAddresses[nrOfKnownAddresses] := adr;
        nrOfKnownAddresses := nrOfKnownAddresses + 1;
      }
    }

    /** update_MaerklinPacketPool. */
    method Update(adr: int, sdPacket: Bytes, f1: Bytes, f2: Bytes, f3: Bytes, f4: Bytes)
      requires Valid() && 0 <= adr <= MAX_MARKLIN_ADDRESS
      requires |sdPacket| == |f1| == |f2| == |f3| == |f4| == MAERKLIN_SIZE
      modifies this, packets, knownAddresses
      ensures Valid()
      ensures Addresses() == Known(old(Addresses()), adr, MAERKLIN_IDLE)
      ensures Packets() == Repacked(old(Packets()), Addresses(), adr, [sdPacket, f1, f2, f3, f4])
    {
      hide Distinct, Within, Listed, Known, MaerklinPackets, Repacked;
      var found, i := false, 0;
      while i < nrOfKnownAddresses && !found
        invariant 0 <= i <= nrOfKnownAddresses
        invariant found <==> adr in knownAddresses[..i]
      {
        if knownAddresses[i] == adr {
          found := true;
        }
        i := i + 1;
      }
      var entry := MaerklinPacket(sdPacket, [f1, f2, f3, f4]);
      assert MaerklinSlots(entry) == [sdPacket, f1, f2, f3, f4];
      MaerklinRepacked(packets[..], Addresses(), adr, entry);
      packets[adr] := entry;
      assert packets[..] == old(packets[..])[adr := entry];
      List(adr, found);
    }
  }

  // ---------------------------------------------------------------- the NMRA pool

  datatype NmraPacket = NmraPacket(packet: Bytes, packetSize: nat, fxPacket: Bytes, fxPacketSize: nat)

  predicate IsNmraPacket(p: NmraPacket) {
    |p.packet| == |p.fxPacket| == PKTSIZE && p.packetSize <= PKTSIZE && p.fxPacketSize <= PKTSIZE
  }

  function NmraSlots(p: NmraPacket): Slots
    requires IsNmraPacket(p)
  {
    [p.packet[..p.packetSize], p.fxPacket[..p.fxPacketSize]]
  }

  /** memcpy to the start of a field. */
  function Copied(field: Bytes, bytes: Bytes): (r: Bytes)
    requires |bytes| <= |field|
    ensures |r| == |field| && r[..|bytes|] == bytes
  {
    bytes + field[|bytes|..]
  }

  /** The packets of some addresses. */
  ghost function NmraPackets(cells: seq<Option<NmraPacket>>, known: seq<int>): map<int, Slots> {
    map a | a in known && 0 <= a < |cells| && cells[a].Some? && IsNmraPacket(cells[a].value)
      :: NmraSlots(cells[a].value)
  }

  lemma NmraRepacked(cells: seq<Option<NmraPacket>>, known: seq<int>, adr: int, entry: Option<NmraPacket>, slots: Slots)
    requires 0 <= adr < |cells| && entry.Some? && IsNmraPacket(entry.value) && NmraSlots(entry.value) == slots
    ensures var known' := Known(known, adr, NMRA_IDLE);
      NmraPackets(cells[adr := entry], known') == Repacked(NmraPackets(cells, known), known', adr, slots)
  {
    hide NmraSlots;
  }

  class NmraPacketPool {
    const packets: array<Option<NmraPacket>>
    const knownAddresses: array<int>
    var nrOfKnownAddresses: nat

    /** The cells behind the list hold zero, which the search, that goes one cell too far, takes for no address;
        an entry is never freed, so the idle address may stand in front of an empty list. */
    ghost predicate IsListed()
      reads this, knownAddresses
    {
      && knownAddresses.Length == MAX_NMRA_ADDRESS + 1
      && nrOfKnownAddresses < knownAddresses.Length
      && (forall i :: nrOfKnownAddresses <= i < knownAddresses.Length && i > 0 ==> knownAddresses[i] == 0)
      && (nrOfKnownAddresses == 0 ==> knownAddresses[0] == 0 || knownAddresses[0] == NMRA_IDLE)
      && Distinct(Addresses())
      && Within(Addresses(), 1, MAX_NMRA_ADDRESS)
    }

    ghost predicate Valid()
      reads this, packets, knownAddresses
    {
      && IsListed()
      && packets.Length == MAX_NMRA_ADDRESS + 1
      && (forall a :: 0 <= a < packets.Length && packets[a].Some? ==> IsNmraPacket(packets[a].value))
      && (forall a :: a in Addresses() && 0 <= a < packets.Length ==> packets[a].Some?)
    }

    ghost function Addresses(): seq<int>
      reads this, knownAddresses
      requires nrOfKnownAddresses < knownAddresses.Length
    {
      Listed(knownAddresses[..], nrOfKnownAddresses, NMRA_IDLE)
    }

    ghost function Packets(): map<int, Slots>
      reads this, packets, knownAddresses
      requires Valid()
    {
      NmraPackets(packets[..], Addresses())
    }

    /** init_NMRAPacketPool before the idle packet goes in. */
    constructor ()
      ensures Valid() && fresh(packets) && fresh(knownAddresses)
      ensures Addresses() == []
    {
      nrOfKnownAddresses := 0;
      knownAddresses := new int[MAX_NMRA_ADDRESS + 1](_ => 0);
      packets := new Option<NmraPacket>[MAX_NMRA_ADDRESS + 1](_ => None);
    }

    /** The search of update_NMRAPacketPool, one cell past the list. */
    method Find(adr: int) returns (found: bool)
      requires Valid() && 1 <= adr <= MAX_NMRA_ADDRESS
      ensures found <==> adr in Addresses()
    {
      hide Distinct, Within;
      found := false;
      var i := 0;
      while i <= nrOfKnownAddresses && !found
        invariant 0 <= i <= nrOfKnownAddresses + 1
        invariant found <==> adr in knownAddresses[..i]
      {
        if knownAddresses[i] == adr {
          found := true;
        }
        i := i + 1;
      }
      if nrOfKnownAddresses > 0 {
        assert knownAddresses[nrOfKnownAddresses] == 0;
      }
    }

    /** The part of update_NMRAPacketPool that keeps the packets. */
    method Store(adr: int, packet: Bytes, fxPacket: Bytes)
      requires packets.Length == MAX_NMRA_ADDRESS + 1 && 0 <= adr < packets.Length
      requires forall a :: 0 <= a < packets.Length && packets[a].Some? ==> IsNmraPacket(packets[a].value)
      requires |packet| <= PKTSIZE && |fxPacket| <= PKTSIZE
      modifies packets
      ensures forall a :: 0 <= a < packets.Length && packets[a].Some? ==> IsNmraPacket(packets[a].value)
      ensures packets[adr].Some? && NmraSlots(packets[adr].value) == [packet, fxPacket]
      ensures forall a :: 0 <= a < packets.Length && a != adr ==> packets[a] == old(packets[a])
    {
      if packets[adr].None? {
        var fields := new bv8[PKTSIZE];
        packets[adr] := Some(NmraPacket(fields[..], 0, fields[..], 0));
      }
      var entry := packets[adr].value;
      entry := entry.(packet := Copied(entry.packet, packet), packetSize := |packet|);
      entry := entry.(fxPacket := Copied(entry.fxPacket, fxPacket), fxPacketSize := |fxPacket|);
      packets[adr] := Some(entry);
    }

    /** What the refresh cycle finds at a place in the list. */
    lemma At(i: nat)
      requires Valid() && i < |Addresses()|
      ensures i < knownAddresses.Length && knownAddresses[i] == Addresses()[i]
      ensures 0 <= Addresses()[i] < packets.Length
      ensures packets[Addresses()[i]].Some? && IsNmraPacket(packets[Addresses()[i]].value)
      ensures Addresses()[i] in Packets() && Packets()[Addresses()[i]] == NmraSlots(packets[Addresses()[i]].value)
      ensures |Addresses()| == if nrOfKnownAddresses == 0 then 1 else nrOfKnownAddresses
    {
      hide IsNmraPacket, NmraSlots;
    }

    /** The part of update_NMRAPacketPool that keeps the list of addresses. */
    method List(adr: int, found: bool)
      requires 1 <= adr <= MAX_NMRA_ADDRESS && IsListed() && packets.Length == MAX_NMRA_ADDRESS + 1
      requires found <==> adr in Addresses()
      modifies this, knownAddresses
      ensures IsListed()
      ensures Addresses() == Known(old(Addresses()), adr, NMRA_IDLE)
    {
      hide Distinct, Within;
      ghost var cells, count := knownAddresses[..], nrOfKnownAddresses;
      if nrOfKnownAddresses == 1 && knownAddresses[0] == NMRA_IDLE {
        nrOfKnownAddresses := 0;
      }
      ListedAfterUpdate(cells, count, adr, NMRA_IDLE);
      KnownIsDistinct(old(Addresses()), adr, NMRA_IDLE, 1, MAX_NMRA_ADDRESS);
      if !found {
        knownAddresses[nrOfKnownAddresses] := adr;
        nrOfKnownAddresses := nrOfKnownAddresses + 1;
        assert knownAddresses[..] == cells[nrOfKnownAddresses - 1 := adr];
      } else {
        assert knownAddresses[..] == cells;
      }
    }

    /** update_NMRAPacketPool. */
    method Update(adr: int, packet: Bytes, packetSize: nat, fxPacket: Bytes, fxPacketSize: nat)
      requires Valid() && 1 <= adr <= MAX_NMRA_ADDRESS
      requires packetSize <= |packet| && packetSize <= PKTSIZE
      requires fxPacketSize <= |fxPacket| && fxPacketSize <= PKTSIZE
      modifies this, packets, knownAddresses
      ensures Valid()
      ensures Addresses() == Known(old(Addresses()), adr, NMRA_IDLE)
      ensures Packets() == Repacked(old(Packets()), Addresses(), adr, [packet[..packetSize], fxPacket[..fxPacketSize]])
    {
      ghost var known := Addresses();
      hide IsListed, IsNmraPacket, NmraSlots, NmraPackets, Repacked;
      var found := Find(adr);
      Store(adr, packet[..packetSize], fxPacket[..fxPacketSize]);
      assert packets[..] == old(packets[..])[adr := packets[adr]];
      NmraRepacked(old(packets[..]), known, adr, packets[adr], [packet[..packetSize], fxPacket[..fxPacketSize]]);
      List(adr, found);
    }
  }
}
