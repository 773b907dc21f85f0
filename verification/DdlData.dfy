/**
  The state behind the refresh cycle of ddl.c: both packet pools, the cursors, and whose turn it is. Its methods
  do to this state what RefreshCycle says of a cycle.
 */
module DdlData {
  import opened Refresh
  import opened RefreshCycle
  import opened Waveform
  import opened TranslateV3
  import opened Framing
  import opened Track
  import Accessory
  import opened PacketPool

  /** The string from which the idle packet of the NMRA pool is made. */
  function IdleString(): Bits {
    Ones(15) + [false] + ALL_ONES + [false] + ZERO_BYTE + [false] + ALL_ONES + [true]
  }

  /** The idle packet of the pool. */
  function IdleOutput(): Bytes {
    Path(Buffer(IdleString()), 0)
  }

  /** It is heard as the idle packet. */
  lemma IdleIsHeard()
    ensures !Jams(IdleString()) && Fits80(IdleString()) && |IdleOutput()| <= PKTSIZE
    ensures ReadHighLow(IdleOutput()).Some?
    ensures Packets(ReadHighLow(IdleOutput()).value) == [Checked([ALL_ONES, ZERO_BYTE])]
  {
    assert Xor(ZERO_BYTE, ALL_ONES) == ALL_ONES;
    hide Path, ReadHighLow, Packets, Jams, Closed, Checked, PacketBits;
    Accessory.StringOfTwo(Ones(15), ALL_ONES, ZERO_BYTE, ALL_ONES);
    OnePacketIsHeard(Plain([]), [ALL_ONES, ZERO_BYTE]);
    PlainCloses([], [ALL_ONES, ZERO_BYTE]);
    assert [] + [ALL_ONES, ZERO_BYTE] == [ALL_ONES, ZERO_BYTE];
  }

  /** The idle packet that init_NMRAPacketPool puts into the pool. */
  method TranslateIdle() returns (idle: Bytes, j: nat)
    ensures j <= |idle| == PKTSIZE && idle[..j] == IdleOutput()
  {
    hide IdleOutput, IdleString, Fits80, Jams, Path, Conveys, ConveysPart;
    var idlePacket := new bv8[PKTSIZE];
    var complained;
    IdleIsHeard();
    IdleIsPath();
    j, complained := TranslateBitstream2PacketstreamV3(IdleString(), idlePacket);
    idle := idlePacket[..];
    assert idle[..j] == idlePacket[..j];
  }

  lemma IdleIsPath()
    ensures IdleOutput() == Path(Buffer(IdleString()), 0)
  {
  }

  class Data {
    const enabledMaerklin: bool
    const enabledNmra: bool
    const maerklinPool: MaerklinPacketPool
    const nmraPool: NmraPacketPool
    var lastRefreshedMaerklinLoco: nat
    var lastRefreshedMaerklinFx: int
    var lastRefreshedNmraLoco: nat
    var lastRefreshedNmraFx: int
    var maerklinRefresh: bool

    ghost predicate Valid()
      reads this, maerklinPool, maerklinPool.packets, maerklinPool.knownAddresses
      reads nmraPool, nmraPool.packets, nmraPool.knownAddresses
    {
      && maerklinPool.knownAddresses != nmraPool.knownAddresses
      && maerklinPool.Valid() && nmraPool.Valid()
      && nmraPool.Addresses() != []
      && lastRefreshedMaerklinLoco < |maerklinPool.Addresses()| && -1 <= lastRefreshedMaerklinFx < 4
      && lastRefreshedNmraLoco < |nmraPool.Addresses()| && -1 <= lastRefreshedNmraFx < 1
      && (if maerklinRefresh then enabledMaerklin else enabledNmra)
    }

    ghost predicate Both() {
      enabledMaerklin && enabledNmra
    }

    ghost function State(): Cycle
      reads this, maerklinPool, maerklinPool.packets, maerklinPool.knownAddresses
      reads nmraPool, nmraPool.packets, nmraPool.knownAddresses
      requires Valid()
    {
      Cycle(Pool(maerklinPool.Addresses(), maerklinPool.Packets(), lastRefreshedMaerklinLoco,
                 lastRefreshedMaerklinFx + 1),
            Pool(nmraPool.Addresses(), nmraPool.Packets(), lastRefreshedNmraLoco, lastRefreshedNmraFx + 1),
            maerklinRefresh)
    }

    /** The part of init_bus_DDL that sets up the pools. */
    constructor (enabledMaerklin: bool, enabledNmra: bool)
      requires enabledMaerklin || enabledNmra
      ensures Valid() && fresh(maerklinPool) && fresh(nmraPool) && fresh(maerklinPool.packets)
              && fresh(maerklinPool.knownAddresses) && fresh(nmraPool.packets) && fresh(nmraPool.knownAddresses)
      ensures this.enabledMaerklin == enabledMaerklin && this.enabledNmra == enabledNmra
      ensures State().maerklin.known == [MAERKLIN_IDLE] && State().nmra.known == [NMRA_IDLE]
      ensures State().maerklin.packets == map[MAERKLIN_IDLE := MaerklinIdleSlots()]
      ensures State().nmra.packets == map[NMRA_IDLE := [IdleOutput(), IdleOutput()]]
      ensures State().maerklin.loco == State().maerklin.slot == State().nmra.loco == State().nmra.slot == 0
      ensures State().maerklinTurn == enabledMaerklin
    {
      hide MaerklinPacketPool.Valid, NmraPacketPool.Valid, MaerklinIdleSlots, MaerklinPacketPool.Packets,
        MaerklinPacketPool.Addresses, IdleOutput;
      this.enabledMaerklin, this.enabledNmra := enabledMaerklin, enabledNmra;
      lastRefreshedMaerklinLoco, lastRefreshedMaerklinFx := 0, -1;
      lastRefreshedNmraLoco, lastRefreshedNmraFx := 0, -1;
      maerklinRefresh := enabledMaerklin;
      maerklinPool := new MaerklinPacketPool();
      nmraPool := new NmraPacketPool();
      new;
      var idle, j := TranslateIdle();
      nmraPool.Update(NMRA_IDLE, idle, j, idle, j);
    }

    lemma StateIsCycle()
      requires Valid()
      ensures IsCycle(State())
    {
      var m, n := State().maerklin, State().nmra;
      assert forall a :: a in m.packets.Keys <==> a in m.known;
      assert forall a :: a in n.packets.Keys <==> a in n.known;
    }

    /** A command for a Maerklin address. */
    method UpdateMaerklin(adr: int, sdPacket: Bytes, f1: Bytes, f2: Bytes, f3: Bytes, f4: Bytes)
      requires Valid() && 0 <= adr <= MAX_MARKLIN_ADDRESS
      requires |sdPacket| == |f1| == |f2| == |f3| == |f4| == MAERKLIN_SIZE
      modifies maerklinPool, maerklinPool.packets, maerklinPool.knownAddresses
      ensures Valid()
      ensures State() == CycleStep(old(State()), MaerklinUpdated(adr, [sdPacket, f1, f2, f3, f4]), Both())
    {
      ghost var was := old(State()).maerklin;
      maerklinPool.Update(adr, sdPacket, f1, f2, f3, f4);
      assert MaerklinSlots(MaerklinPacket(sdPacket, [f1, f2, f3, f4])) == [sdPacket, f1, f2, f3, f4];
      assert State().maerklin.packets == Update(was, adr, [sdPacket, f1, f2, f3, f4], MAERKLIN_IDLE).packets;
      assert nmraPool.Packets() == old(nmraPool.Packets());
    }

    /** A command for an NMRA address. */
    method UpdateNmra(adr: int, packet: Bytes, packetSize: nat, fxPacket: Bytes, fxPacketSize: nat)
      requires Valid() && 1 <= adr <= MAX_NMRA_ADDRESS
      requires packetSize <= |packet| && packetSize <= PKTSIZE
      requires fxPacketSize <= |fxPacket| && fxPacketSize <= PKTSIZE
      modifies nmraPool, nmraPool.packets, nmraPool.knownAddresses
      ensures Valid()
      ensures State() == CycleStep(old(State()),
                                   NmraUpdated(adr, [packet[..packetSize], fxPacket[..fxPacketSize]]), Both())
    {
      ghost var was := old(State()).nmra;
      nmraPool.Update(adr, packet, packetSize, fxPacket, fxPacketSize);
      assert State().nmra.packets
          == Update(was, adr, [packet[..packetSize], fxPacket[..fxPacketSize]], NMRA_IDLE).packets;
      assert maerklinPool.Packets() == old(maerklinPool.Packets());
    }

    /** refresh_loco: what it hands to send_packet. */
    method RefreshLoco() returns (packet: Bytes, packetType: int)
      requires Valid()
      modifies this
      ensures Valid()
      ensures State() == CycleStep(old(State()), Refreshed, Both())
      ensures IsCycle(old(State())) && packet == SendTurn(old(State())).sent.bytes
      ensures packetType == if !old(maerklinRefresh) then QNBLOCOPKT
                            else if SendTurn(old(State())).sent.slot == 0 then QM2LOCOPKT else QM2FXPKT
    {
      hide MaerklinPacketPool.Valid, NmraPacketPool.Valid, IsCycle, Advance, Send;
      StateIsCycle();
      if maerklinRefresh {
        packet, packetType := RefreshMaerklin();
      } else {
        packet, packetType := RefreshNmra();
      }
      if enabledMaerklin && enabledNmra {
        maerklinRefresh := !maerklinRefresh;
      }
    }

    /** The part of refresh_loco for the Maerklin pool. */
    method RefreshMaerklin() returns (packet: Bytes, packetType: int)
      requires Valid()
      modifies `lastRefreshedMaerklinLoco, `lastRefreshedMaerklinFx
      ensures Valid()
      ensures State() == old(State()).(maerklin := Advance(old(State()).maerklin, MAERKLIN_SLOTS))
      ensures IsCycle(old(State())) && packet == Send(old(State()).maerklin).bytes
      ensures packetType == if Send(old(State()).maerklin).slot == 0 then QM2LOCOPKT else QM2FXPKT
    {
      hide MaerklinPacketPool.Valid, MaerklinPacketPool.Addresses, MaerklinPacketPool.Packets;
      hide NmraPacketPool.Valid, NmraPacketPool.Addresses, NmraPacketPool.Packets, IsCycle, Send;
      packet, packetType := DueMaerklin();
      maerklinPool.At(lastRefreshedMaerklinLoco);
      lastRefreshedMaerklinFx := lastRefreshedMaerklinFx + 1;
      if lastRefreshedMaerklinFx == 4 {
        lastRefreshedMaerklinFx := -1;
        lastRefreshedMaerklinLoco := lastRefreshedMaerklinLoco + 1;
        if lastRefreshedMaerklinLoco >= maerklinPool.nrOfKnownAddresses {
          lastRefreshedMaerklinLoco := 0;
        }
      }
    }

    method DueMaerklin() returns (packet: Bytes, packetType: int)
      requires Valid()
      ensures IsCycle(State()) && packet == Send(State().maerklin).bytes
      ensures packetType == if Send(State().maerklin).slot == 0 then QM2LOCOPKT else QM2FXPKT
    {
      hide MaerklinPacketPool.Valid, NmraPacketPool.Valid, IsCycle;
      StateIsCycle();
      maerklinPool.At(lastRefreshedMaerklinLoco);
      var adr := maerklinPool.knownAddresses[lastRefreshedMaerklinLoco];
      if lastRefreshedMaerklinFx < 0 {
        packet, packetType := maerklinPool.packets[adr].packet, QM2LOCOPKT;
      } else {
        packet, packetType := maerklinPool.packets[adr].fPackets[lastRefreshedMaerklinFx], QM2FXPKT;
      }
    }

    /** The part of refresh_loco for the NMRA pool. */
    method RefreshNmra() returns (packet: Bytes, packetType: int)
      requires Valid()
      modifies `lastRefreshedNmraLoco, `lastRefreshedNmraFx
      ensures Valid() && packetType == QNBLOCOPKT
      ensures State() == old(State()).(nmra := Advance(old(State()).nmra, NMRA_SLOTS))
      ensures IsCycle(old(State())) && packet == Send(old(State()).nmra).bytes
    {
      hide MaerklinPacketPool.Valid, MaerklinPacketPool.Addresses, MaerklinPacketPool.Packets;
      hide NmraPacketPool.Valid, NmraPacketPool.Addresses, NmraPacketPool.Packets, IsCycle, Send;
      packet, packetType := DueNmra();
      nmraPool.At(lastRefreshedNmraLoco);
      lastRefreshedNmraFx := if lastRefreshedNmraFx < 0 then 0 else 1;
      if lastRefreshedNmraFx == 1 {
        lastRefreshedNmraLoco := lastRefreshedNmraLoco + 1;
        lastRefreshedNmraFx := -1;
        if lastRefreshedNmraLoco >= nmraPool.nrOfKnownAddresses {
          lastRefreshedNmraLoco := 0;
        }
      }
    }

    method DueNmra() returns (packet: Bytes, packetType: int)
      requires Valid()
      ensures packetType == QNBLOCOPKT
      ensures IsCycle(State()) && packet == Send(State().nmra).bytes
    {
      hide MaerklinPacketPool.Valid, NmraPacketPool.Valid, IsCycle;
      StateIsCycle();
      nmraPool.At(lastRefreshedNmraLoco);
      var adr := nmraPool.knownAddresses[lastRefreshedNmraLoco];
      packetType := QNBLOCOPKT;
      var entry := nmraPool.packets[adr].value;
      if lastRefreshedNmraFx < 0 {
        packet := entry.packet[..entry.packetSize];
      } else {
        packet := entry.fxPacket[..entry.fxPacketSize];
      }
    }
  }
}
