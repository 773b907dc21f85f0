/**
  The part of ddl.c that hands a command for an NMRA locomotive from the server to comp_nmra_multi_func. The protocol
  version becomes the mode of the packets, but for addresses above 127.
 */
module Dispatch {
  import opened Waveform
  import opened PropertiesV3
  import opened Framing
  import opened Builders
  import opened Decoders
  import opened Command
  import opened CommandMeaning
  import opened CommandStrings
  import opened Track
  import opened MultiFunction
  import opened PacketPool
  import opened PacketQueue
  import opened RefreshCycle
  import DdlData

  /** A protocol version, an address and a number of speed steps; init_gl_DDL lets some of these pass, and no others. */
  predicate IsLoco(version: nat, id: Word, steps: Word) {
    1 <= version <= 5 && id < 10240 && (steps == 14 || steps == 28 || steps == 128)
  }

  function ModeOf(version: nat, id: Word): nat {
    if SignedLess(127, id) then 2 else version
  }

  /** An emergency halt, direction 2, goes out as speed 1 backwards; other speeds count from 2, as 1 is the emergency
      halt. */
  function DirectionSent(direction: Word): Word {
    if direction != 2 then direction else 0
  }

  function SpeedSent(direction: Word, speed: Word): Word {
    if direction != 2 then (if speed != 0 then speed + 1 else speed) else 1
  }

  /** The bytes that go out for a command. */
  function LineOf(version: nat, id: Word, direction: Word, speed: Word, func: Word, steps: Word, nfuncs: int)
    : seq<bv8>
  {
    Concat(OutputsOf(StringsOf(id, DirectionSent(direction), SpeedSent(direction, speed), func, steps, nfuncs,
                               ModeOf(version, id))))
  }

  predicate Sent(version: nat, id: Word, direction: Word, speed: Word, steps: Word) {
    Accepted(id, DirectionSent(direction), SpeedSent(direction, speed), steps, ModeOf(version, id))
  }

  /** A command for such a locomotive goes out if and only if the address is not 0, the direction is one of the
      three, and the speed is within the steps, or -1, which goes out as a stop; no speed is asked of an emergency
      halt. */
  lemma SentExactly(version: nat, id: Word, direction: Word, speed: Word, steps: Word)
    requires IsLoco(version, id, steps)
    ensures Sent(version, id, direction, speed, steps)
       <==> id != 0 && (direction == 2
                        || (direction <= 1 && (speed <= steps || speed == 0xffff_ffff)))
  {
    SpeedRange(speed, steps);
    AddressRange(version, id);
    DirectionAccepted(direction);
    hide SignedLess;
  }

  lemma SpeedRange(speed: Word, steps: Word)
    requires steps == 14 || steps == 28 || steps == 128
    ensures !SignedLess(1, 0) && !SignedLess(steps + 1, 1) && !SignedLess(0, 0) && !SignedLess(1, 0)
    ensures var sent := if speed != 0 then speed + 1 else speed;
      !SignedLess(sent, 0) && !SignedLess(steps + 1, sent)
      <==> speed <= steps || speed == 0xffff_ffff
  {
  }

  lemma AddressRange(version: nat, id: Word)
    requires id < 10240
    ensures SignedLess(id, 1) <==> id == 0
    ensures !SignedLess(10239, id) && !(SignedLess(127, id) && ModeOf(version, id) == 1)
  {
  }

  // ---------------------------------------------------------------- who obeys

  lemma WholeIsMode(version: nat, id: Word)
    requires 1 <= version <= 5 && 0 < id < 10240
    ensures ModeOf(version, id) == 1 || ModeOf(version, id) == 2 <==> version <= 2 || id > 127
    ensures !(version <= 2 || id > 127) ==> id & 0xff != 0
    ensures ModeOf(version, id) == 1 ==> version == 1 && id <= 127
    ensures ModeOf(version, id) == 2 ==> version == 2 || id > 127
  {
    IdIsPositive(id);
  }

  lemma IdIsPositive(id: Word)
    requires id < 10240
    ensures SignedLess(127, id) <==> id > 127
    ensures 0 < id <= 127 ==> id & 0xff != 0
  {
  }

  /** The decoder has what the command asks for: an emergency halt is speed 1 backwards, and step s is speed s + 1. */
  ghost predicate Obeys(d: Decoder, d': Decoder, direction: Word, speed: Word, func: Word, steps: Word, nfuncs: int)
    requires IsDecoder(d) && IsDecoder(d')
  {
    && (direction == 2 ==> !d'.forward && d'.speed == 1)
    && (direction != 2 ==>
          && d'.forward == (direction == 1)
          && d'.speed == if speed == 0 then 0 else if speed + 1 <= 127 then speed + 1 else 127)
    && HasFunctions(d, d', func, steps, nfuncs)
  }

  lemma ObeyedIs(d: Decoder, d': Decoder, direction: Word, speed: Word, func: Word, steps: Word, nfuncs: int)
    requires IsDecoder(d) && IsDecoder(d')
    requires d'.forward == (DirectionSent(direction) == 1) && HasFunctions(d, d', func, steps, nfuncs)
    requires d'.speed == if SpeedSent(direction, speed) <= 127 then SpeedSent(direction, speed) else 127
    ensures Obeys(d, d', direction, speed, func, steps, nfuncs)
  {
    hide HasFunctions;
  }

  /** From the server to the decoder, exactly: the packets on the line have no errors if and only if the version is 1 or
      2 or the address is above 127. Then a decoder at the address, which is long for version 2 and above 127, obeys and
      every other one stays as it was; otherwise all do. */
  lemma DispatchReachesDecoderExactly(d: Decoder, version: nat, id: Word, direction: Word, speed: Word, func: Word,
                                      steps: Word, nfuncs: int)
    requires IsDecoder(d) && UsualSteps(d.steps, steps)
    requires IsLoco(version, id, steps) && Sent(version, id, direction, speed, steps)
    ensures var line := LineOf(version, id, direction, speed, func, steps, nfuncs);
      && line != [] && ReadHighLow(line).Some?
      && var packets := Packets(ReadHighLow(line).value);
         var d' := ExecuteAll(d, packets);
         && packets != []
         && (forall i :: 0 <= i < |packets| ==> (Intact(packets[i]) <==> version <= 2 || id > 127))
         && (if (version <= 2 || id > 127) && d.address == (if version == 2 || id > 127 then Long(id) else Short(id))
             then Obeys(d, d', direction, speed, func, steps, nfuncs)
             else d' == d)
  {
    hide Accepted, Concat, ReadHighLow, Packets, PacketsOfCommand, OutputsOf, StringsOf, ExecuteAll, Intact,
      HasFunctions, ModeOf, DirectionSent, SpeedSent, SignedLess, Obeys, UsualSteps;
    var mode, dir, sp := ModeOf(version, id), DirectionSent(direction), SpeedSent(direction, speed);
    SentNotZero(version, id, direction, speed, steps);
    WholeIsMode(version, id);
    UsualStepsFor(d.steps, steps);
    CommandIsHeard(id, dir, sp, func, steps, nfuncs, mode);
    SomePacket(id, dir, sp, func, steps, nfuncs, mode);
    var packets := PacketsOfCommand(id, dir, sp, func, steps, nfuncs, mode);
    if version <= 2 || id > 127 {
      CommandIsIntact(id, dir, sp, func, steps, nfuncs, mode);
      CommandMeansWhatItSays(d, id, dir, sp, func, steps, nfuncs, mode);
      if d.address == AddressFor(id, mode) {
        ObeyedIs(d, ExecuteAll(d, packets), direction, speed, func, steps, nfuncs);
      }
    } else {
      NoneIsIntact(id, dir, sp, func, steps, nfuncs, mode);
      SpoiltPacketsAreIgnored(d, packets);
    }
  }

  lemma SentNotZero(version: nat, id: Word, direction: Word, speed: Word, steps: Word)
    requires IsLoco(version, id, steps) && Sent(version, id, direction, speed, steps)
    ensures id != 0
  {
    SentExactly(version, id, direction, speed, steps);
  }

  lemma SomePacket(id: Word, direction: Word, speed: Word, func: Word, steps: Word, nfuncs: int, mode: nat)
    ensures PacketsOfCommand(id, direction, speed, func, steps, nfuncs, mode) != []
  {
    hide CodesOfCommand, HeadOf;
    SomeCode(direction, speed, func, steps, nfuncs);
    PacketsAreCodes(id, direction, speed, func, steps, nfuncs, mode);
  }

  lemma NoneIsIntact(id: Word, direction: Word, speed: Word, func: Word, steps: Word, nfuncs: int, mode: nat)
    requires mode != 1 && mode != 2 && id & 0xff != 0
    ensures var packets := PacketsOfCommand(id, direction, speed, func, steps, nfuncs, mode);
      forall i :: 0 <= i < |packets| ==> !Intact(packets[i])
  {
    hide PacketsOfCommand, Intact;
    var d := Decoder(Short(id), Steps14, true, 0, seq(29, _ => false));
    OtherModesAreLost(d, id, direction, speed, func, steps, nfuncs, mode);
  }

  /** The bytes that entries of the queue put on the line. */
  function BytesOf(entries: seq<Entry>): seq<bv8>
    requires forall i :: 0 <= i < |entries| ==> entries[i].packetSize <= |entries[i].packet|
    decreases |entries|
  {
    if entries == [] then [] else entries[0].packet[..entries[0].packetSize] + BytesOf(entries[1..])
  }

  lemma {:induction false} BytesAreConcat(entries: seq<Entry>, outputs: seq<seq<bv8>>)
    requires |entries| == |outputs|
    requires forall i :: 0 <= i < |entries| ==>
      entries[i].packetSize <= |entries[i].packet| && entries[i].packet[..entries[i].packetSize] == outputs[i]
    ensures BytesOf(entries) == Concat(outputs)
    decreases |entries|
  {
    if entries != [] { BytesAreConcat(entries[1..], outputs[1..]); }
  }

  /** What SendNmra puts into the queue is the line that the decoder hears. */
  lemma LineIsQueued(version: nat, id: Word, direction: Word, speed: Word, func: Word, steps: Word, nfuncs: int)
    ensures var outputs := CommandOutputs(id, DirectionSent(direction), SpeedSent(direction, speed), func, steps,
                                          nfuncs, ModeOf(version, id));
            var entries := EntriesFor(outputs, PoolIndex(id, ModeOf(version, id)));
      && (forall i :: 0 <= i < |entries| ==> entries[i].packetSize <= |entries[i].packet|)
      && BytesOf(entries) == LineOf(version, id, direction, speed, func, steps, nfuncs)
  {
    hide EntriesFor, OutputsOf, StringsOf, Concat, BytesOf, PoolIndex;
    var outputs := CommandOutputs(id, DirectionSent(direction), SpeedSent(direction, speed), func, steps, nfuncs,
                                  ModeOf(version, id));
    var index := PoolIndex(id, ModeOf(version, id));
    EntriesCarry(outputs, index);
    BytesAreConcat(EntriesFor(outputs, index), outputs);
  }

  // ---------------------------------------------------------------- places in the pool

  predicate IsId(id: Word) {
    0 < id < 10240
  }

  /** However they are numbered, different locomotives have different places in the packet pool, and none has that of
      the idle packet. */
  lemma DispatchedPlacesAreDistinct(version: nat, id: Word, version': nat, id': Word)
    requires IsId(id) && IsId(id')
    ensures var index := PoolIndex(id, ModeOf(version, id));
      && 1 <= index <= MAX_NMRA_ADDRESS && index != NMRA_IDLE
      && (index == PoolIndex(id', ModeOf(version', id')) ==> id == id')
  {
    hide ModeOf, PoolIndex, IsId;
    IdRange(version, id);
    IdRange(version', id');
    SameWhenSameNumber(id, id');
    PlacesApart(id as int, version, id' as int, version');
  }

  lemma PlacesApart(n: int, version: nat, n': int, version': nat)
    requires 1 <= n <= 10239 && 1 <= n' <= 10239
    ensures var place := n + if n > 127 || version == 2 then ADDR14BIT_OFFSET else 0;
      && 1 <= place <= MAX_NMRA_ADDRESS && place != NMRA_IDLE
      && (place == n' + (if n' > 127 || version' == 2 then ADDR14BIT_OFFSET else 0) ==> n == n')
  {
  }

  lemma SameWhenSameNumber(a: Word, b: Word)
    ensures a as int == b as int ==> a == b
  {
    if a as int == b as int { SameNumber(a, b); }
  }

  lemma IdRange(version: nat, id: Word)
    requires IsId(id)
    ensures 1 <= id as int <= 10239
    ensures PoolIndex(id, ModeOf(version, id))
         == (id as int) + if id as int > 127 || version == 2 then ADDR14BIT_OFFSET else 0
  {
    IdNumber(id);
  }

  lemma IdNumber(id: Word)
    requires 0 < id < 10240
    ensures 1 <= id as int <= 10239 && (SignedLess(127, id) <==> id as int > 127)
  {
  }

  // ---------------------------------------------------------------- the routine

  /** The case of an NMRA locomotive in the loop of thr_sendrec_DDL. */
  method SendNmra(data: DdlData.Data, queue: Queue, version: nat, id: Word, direction: Word, speed: Word, func: Word,
                  steps: Word, nfuncs: int)
    returns (rc: int)
    requires data.Valid() && queue.Valid()
    modifies data.nmraPool, data.nmraPool.packets, data.nmraPool.knownAddresses, queue, queue.qData
    ensures data.Valid() && queue.Valid()
    ensures rc == if Sent(version, id, direction, speed, steps) then 0 else 1
    ensures rc == 1 ==> data.State() == old(data.State()) && queue.Contents() == old(queue.Contents())
    ensures var outputs := CommandOutputs(id, DirectionSent(direction), SpeedSent(direction, speed), func, steps,
                                          nfuncs, ModeOf(version, id));
            var index := PoolIndex(id, ModeOf(version, id));
      rc == 0 ==>
        && data.State() == CycleStep(old(data.State()), NmraUpdated(index, PoolSlots(outputs)), data.Both())
        && queue.Contents() == AllEnqueued(old(queue.Contents()), EntriesFor(outputs, index))
  {
    hide Accepted, CommandOutputs, CycleStep, EntriesFor, DdlData.Data.Valid, DdlData.Data.State, Queue.Valid,
      Queue.Contents;
    var pv := version;
    if SignedLess(127, id) {
      pv := 2;
    }
    var sp := speed;
    if sp != 0 {
      sp := sp + 1;
    }
    if direction != 2 {
      rc := MultiFunction.CompNmraMultiFunc(data, queue, id, direction, sp, func, steps, nfuncs, pv);
    } else {
      rc := MultiFunction.CompNmraMultiFunc(data, queue, id, 0, 1, func, steps, nfuncs, pv);
    }
  }
}
