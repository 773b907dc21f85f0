/**
  comp_nmra_multi_func from the command to the packet pool and the send queue, with version 3 of the translation.
 */
module MultiFunction {
  import opened Waveform
  import opened TranslateV3
  import opened Builders
  import opened Command
  import opened CommandStrings
  import opened CommandLengths
  import opened PacketPool
  import opened PacketQueue
  import opened Ring
  import opened RefreshCycle
  import DdlData

  const ADDR14BIT_OFFSET := 128

  /** The place of an address in the packet pool: behind the idle entry for long addresses. */
  function PoolIndex(address: Word, mode: nat): int {
    (address as int) + if mode == 2 then ADDR14BIT_OFFSET else 0
  }

  predicate InRange(address: Word, mode: nat) {
    1 <= address <= 10239 && (mode == 1 ==> address <= 127)
  }

  lemma AcceptedInRange(address: Word, direction: Word, speed: Word, nspeed: Word, mode: nat)
    requires Accepted(address, direction, speed, nspeed, mode)
    ensures InRange(address, mode)
  {
  }

  lemma NumberOf(address: Word, mode: nat)
    requires InRange(address, mode)
    ensures 1 <= address as int <= 10239 && (mode == 1 ==> address as int <= 127)
  {
  }

  lemma PlaceInRange(address: Word, mode: nat)
    requires InRange(address, mode)
    ensures 1 <= PoolIndex(address, mode) <= MAX_NMRA_ADDRESS
  {
    NumberOf(address, mode);
  }

  /** Every address of mode 1 or 2 has a place of its own in the pool, which is never that of the idle entry. */
  lemma PlacesAreDistinct(address: Word, mode: nat, address': Word, mode': nat)
    requires InRange(address, mode) && InRange(address', mode')
    requires (mode == 1 || mode == 2) && (mode' == 1 || mode' == 2)
    ensures 1 <= PoolIndex(address, mode) <= MAX_NMRA_ADDRESS && PoolIndex(address, mode) != NMRA_IDLE
    ensures PoolIndex(address, mode) == PoolIndex(address', mode') ==> address == address' && mode == mode'
  {
    hide InRange;
    NumberOf(address, mode);
    NumberOf(address', mode');
    if PoolIndex(address, mode) == PoolIndex(address', mode') { SameNumber(address, address'); }
  }

  /** The place of an address in another mode is that of the idle entry or of an address of mode 1 or 2. */
  lemma OtherModesTakePlaces(address: Word, mode: nat) returns (address': Word, mode': nat)
    requires InRange(address, mode) && mode != 1 && mode != 2
    ensures PoolIndex(address, mode) == NMRA_IDLE
            || (InRange(address', mode') && (mode' == 1 || mode' == 2)
                && PoolIndex(address', mode') == PoolIndex(address, mode))
  {
    address', mode' := address, 1;
    if 128 <= address {
      address', mode' := address - 128, 2;
      LessOffset(address);
    }
  }

  lemma LessOffset(address: Word)
    requires 128 <= address <= 10239
    ensures (address - 128) as int == address as int - ADDR14BIT_OFFSET
    ensures address as int == 128 <==> address == 128
  {
  }

  lemma SameNumber(a: Word, b: Word)
    requires a as int == b as int
    ensures a == b
  {
    assert (a as int) as Word == a && (b as int) as Word == b;
  }

  /** The packets that the pool gets for a command: the second string, if there is none, is the first. */
  function PoolSlots(outputs: seq<seq<bv8>>): seq<seq<bv8>>
    requires outputs != []
  {
    [outputs[0], outputs[|outputs| - 1]]
  }

  lemma SlotsOfOutputs(first: seq<bv8>, second: seq<bv8>, two: bool)
    requires two || second == first
    ensures PoolSlots([first] + if two then [second] else []) == [first, second]
  {
  }

  function EntryFor(output: seq<bv8>, index: int): Entry
    requires |output| <= PKTSIZE
  {
    Entry(QNBLOCOPKT, |output|, Padded(output), index)
  }

  /** A string that fits, in its packet. */
  method Translate(bitstream: Bits) returns (packetstream: array<bv8>, j: nat)
    requires !Jams(bitstream)
    ensures fresh(packetstream) && packetstream.Length == PKTSIZE && j <= PKTSIZE
    ensures if Fits80(bitstream) then packetstream[..j] == Path(Buffer(bitstream), 0) else j == PKTSIZE
  {
    packetstream := new bv8[PKTSIZE];
    var complained;
    j, complained := TranslateBitstream2PacketstreamV3(bitstream, packetstream);
  }

  lemma PathNotEmpty(bitstream: Bits)
    requires |bitstream| > 0
    ensures Path(Buffer(bitstream), 0) != []
  {
    hide Choice;
  }

  function EntriesFor(outputs: seq<seq<bv8>>, index: int): seq<Entry>
    requires 1 <= |outputs| <= 2 && forall i :: 0 <= i < |outputs| ==> |outputs[i]| <= PKTSIZE
  {
    [EntryFor(outputs[0], index)] + if |outputs| == 2 then [EntryFor(outputs[1], index)] else []
  }

  /** Each entry is a packet for the refresh of NMRA locomotives, with its size, and zeros behind it in its field. */
  lemma EntriesCarry(outputs: seq<seq<bv8>>, index: int)
    requires 1 <= |outputs| <= 2 && forall i :: 0 <= i < |outputs| ==> |outputs[i]| <= PKTSIZE
    ensures var entries := EntriesFor(outputs, index);
      && |entries| == |outputs|
      && forall i :: 0 <= i < |entries| ==>
           && entries[i].packetType == QNBLOCOPKT && entries[i].addr == index
           && entries[i].packetSize == |outputs[i]| && |entries[i].packet| == PKTSIZE
           && entries[i].packet[..entries[i].packetSize] == outputs[i]
           && forall k :: entries[i].packetSize <= k < PKTSIZE ==> entries[i].packet[k] == 0
  {
    EntryCarries(outputs[0], index);
    if |outputs| == 2 { EntryCarries(outputs[1], index); }
    hide EntryFor;
  }

  lemma EntryCarries(output: seq<bv8>, index: int)
    requires |output| <= PKTSIZE
    ensures var entry := EntryFor(output, index);
      && entry.packetType == QNBLOCOPKT && entry.addr == index
      && entry.packetSize == |output| && |entry.packet| == PKTSIZE && entry.packet[..entry.packetSize] == output
      && forall k :: entry.packetSize <= k < PKTSIZE ==> entry.packet[k] == 0
  {
  }

  /** The pool has two packets for each address; a command with one string gives it twice. */
  lemma SlotsCarry(outputs: seq<seq<bv8>>)
    requires 1 <= |outputs| <= 2
    ensures PoolSlots(outputs) == if |outputs| == 1 then [outputs[0], outputs[0]] else [outputs[0], outputs[1]]
  {
  }

  /** The end of comp_nmra_multi_func: the packets go to the pool and to the queue. */
  method Deliver(data: DdlData.Data, queue: Queue, adr: int, packetstream: array<bv8>, j: nat,
                 packetstream2: array<bv8>, jj: nat, two: bool)
    requires data.Valid() && queue.Valid() && 1 <= adr <= MAX_NMRA_ADDRESS
    requires packetstream.Length == packetstream2.Length == PKTSIZE && j <= PKTSIZE && jj <= PKTSIZE
    modifies data.nmraPool, data.nmraPool.packets, data.nmraPool.knownAddresses, queue, queue.qData
    ensures data.Valid() && queue.Valid()
    ensures data.State() == CycleStep(old(data.State()),
                                      NmraUpdated(adr, [old(packetstream[..j]), old(packetstream2[..jj])]), data.Both())
    ensures queue.Contents()
         == AllEnqueued(old(queue.Contents()),
                        EntriesFor([old(packetstream[..j])] + (if two then [old(packetstream2[..jj])] else []), adr))
  {
    hide CycleStep, Padded, DdlData.Data.Valid, DdlData.Data.State, Queue.Valid, Queue.Contents;
    ghost var first, second := packetstream[..j], packetstream2[..jj];
    var all, all2 := packetstream[..], packetstream2[..];
    assert all[..j] == first && all2[..jj] == second;
    data.UpdateNmra(adr, all, j, all2, jj);
    ghost var was := queue.Contents();
    queue.Add(adr, all, QNBLOCOPKT, j);
    if two {
      queue.Add(adr, all2, QNBLOCOPKT, jj);
    }
    EnqueuedOneOrTwo(was, EntriesFor([first] + (if two then [second] else []), adr));
  }

  lemma EnqueuedOneOrTwo(queue: seq<Entry>, entries: seq<Entry>)
    requires 1 <= |entries| <= 2
    ensures AllEnqueued(queue, entries)
         == var one := Added(queue, entries[0], QSIZE); if |entries| == 2 then Added(one, entries[1], QSIZE) else one
  {
    hide Added;
    var one, rest := Added(queue, entries[0], QSIZE), entries[1..];
    assert AllEnqueued(queue, entries) == AllEnqueued(one, rest);
    if |entries| == 2 {
      assert rest[0] == entries[1] && rest[1..] == [];
      assert AllEnqueued(one, rest) == AllEnqueued(Added(one, rest[0], QSIZE), []);
    } else {
      assert rest == [];
    }
  }

  /** What the translation makes of the strings of a command: one or two packets, none of them cut. */
  ghost function CommandOutputs(address: Word, direction: Word, speed: Word, func: Word, nspeed: Word, nfuncs: int,
                                mode: nat)
    : (outputs: seq<seq<bv8>>)
    ensures 1 <= |outputs| <= 2 && forall i :: 0 <= i < |outputs| ==> |outputs[i]| <= PKTSIZE
  {
    CommandsFit(address, direction, speed, func, nspeed, nfuncs, mode);
    OutputsOf(StringsOf(address, direction, speed, func, nspeed, nfuncs, mode))
  }

  /** The packets that comp_nmra_multi_func makes of a command. */
  method TranslateCommand(address: Word, direction: Word, speed: Word, func: Word, nspeed: Word, nfuncs: int, mode: nat)
    returns (accepted: bool, packetstream: array<bv8>, j: nat, packetstream2: array<bv8>, jj: nat, two: bool)
    ensures accepted <==> Accepted(address, direction, speed, nspeed, mode)
    ensures fresh(packetstream) && fresh(packetstream2) && packetstream.Length == packetstream2.Length == PKTSIZE
    ensures j <= PKTSIZE && jj <= PKTSIZE
    ensures accepted ==> j > 0 && jj > 0 && InRange(address, mode) && 1 <= PoolIndex(address, mode) <= MAX_NMRA_ADDRESS
    ensures accepted ==>
              && CommandOutputs(address, direction, speed, func, nspeed, nfuncs, mode)
                 == [packetstream[..j]] + (if two then [packetstream2[..jj]] else [])
              && (!two ==> packetstream2[..jj] == packetstream[..j])
  {
    hide Accepted, StringsOf, Signals, Path, Jams, Fits80, InRange;
    packetstream, packetstream2, j, jj, two := new bv8[PKTSIZE], new bv8[PKTSIZE], 0, 0, false;
    var request := Command.CompNmraMultiFunc(address, direction, speed, func, nspeed, nfuncs, mode);
    accepted := !request.Refused?;
    if !accepted {
      return;
    }
    StringsAreRequested(address, direction, speed, func, nspeed, nfuncs, mode, request.first, request.second);
    StringsDoNotJam(address, direction, speed, func, nspeed, nfuncs, mode);
    CommandsFit(address, direction, speed, func, nspeed, nfuncs, mode);
    ghost var strings := StringsOf(address, direction, speed, func, nspeed, nfuncs, mode);
    assert strings[0] == request.first && (request.second.Some? ==> strings[1] == request.second.value);
    AcceptedInRange(address, direction, speed, nspeed, mode);
    PlaceInRange(address, mode);
    packetstream, j := Translate(request.first);
    PathNotEmpty(request.first);
    packetstream2, jj := packetstream, j;
    two := request.second.Some?;
    if two {
      packetstream2, jj := Translate(request.second.value);
      PathNotEmpty(request.second.value);
    }
  }

  /** comp_nmra_multi_func. */
  method CompNmraMultiFunc(data: DdlData.Data, queue: Queue, address: Word, direction: Word, speed: Word, func: Word,
                           nspeed: Word, nfuncs: int, mode: nat)
    returns (rc: int)
    requires data.Valid() && queue.Valid()
    modifies data.nmraPool, data.nmraPool.packets, data.nmraPool.knownAddresses, queue, queue.qData
    ensures data.Valid() && queue.Valid()
    ensures rc == if Accepted(address, direction, speed, nspeed, mode) then 0 else 1
    ensures rc == 1 ==> data.State() == old(data.State()) && queue.Contents() == old(queue.Contents())
    ensures var outputs := CommandOutputs(address, direction, speed, func, nspeed, nfuncs, mode);
            var index := PoolIndex(address, mode);
      rc == 0 ==>
        && data.State() == CycleStep(old(data.State()), NmraUpdated(index, PoolSlots(outputs)), data.Both())
        && queue.Contents() == AllEnqueued(old(queue.Contents()), EntriesFor(outputs, index))
  {
    hide Accepted, CommandOutputs, CycleStep, EntriesFor, AllEnqueued, PoolSlots, InRange, DdlData.Data.Valid,
      DdlData.Data.State, Queue.Valid, Queue.Contents;
    var accepted, packetstream, j, packetstream2, jj, two :=
      TranslateCommand(address, direction, speed, func, nspeed, nfuncs, mode);
    if !accepted {
      return 1;
    }
    var adr := address as int;
    if mode == 2 {
      adr := adr + ADDR14BIT_OFFSET;
    }
    ghost var outputs := CommandOutputs(address, direction, speed, func, nspeed, nfuncs, mode);
    ghost var first, second := packetstream[..j], packetstream2[..jj];
    assert outputs == [first] + (if two then [second] else []);
    SlotsOfOutputs(first, second, two);
    assert adr == PoolIndex(address, mode);
    hide PoolIndex;
    // neither size is zero, which the source would answer with 1
    Deliver(data, queue, adr, packetstream, j, packetstream2, jj, two);
    return 0;
  }

  lemma StringsDoNotJam(address: Word, direction: Word, speed: Word, func: Word, nspeed: Word, nfuncs: int, mode: nat)
    ensures forall i :: 0 <= i < |StringsOf(address, direction, speed, func, nspeed, nfuncs, mode)| ==>
      var s := StringsOf(address, direction, speed, func, nspeed, nfuncs, mode)[i];
      |s| > 0 && !Jams(s)
  {
    hide Jams, Signals, FirstCodes, OtherCodes, HeadOf;
    CodesThere(direction, speed, func, nspeed, nfuncs);
    CommandsDoNotJam(HeadOf(address, mode), FirstCodes(direction, speed, func, nspeed, nfuncs));
    CommandsDoNotJam(HeadOf(address, mode), OtherCodes(func, nfuncs));
  }
}
