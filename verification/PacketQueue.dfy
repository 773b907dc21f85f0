/**
  The send queue of ddl.c: a ring of QSIZE entries between the command threads and the refresh cycle.
 */
module PacketQueue {
  import opened Ring
  import opened TranslateV3

  const QSIZE := 2000

  const QEMPTY := -1
  const QNOVALIDPKT := 0

  datatype Entry = Entry(packetType: int, packetSize: nat, packet: seq<bv8>, addr: int)

  /** A packet in a field of PKTSIZE bytes, zeros behind it. */
  function Padded(packet: seq<bv8>): (field: seq<bv8>)
    requires |packet| <= PKTSIZE
    ensures |field| == PKTSIZE
  {
    packet + seq(PKTSIZE - |packet|, _ => 0)
  }

  // ---------------------------------------------------------------- what the queue does, on sequences

  function Removed(queue: seq<Entry>): seq<Entry> {
    if queue == [] then [] else queue[1..]
  }

  class Queue {
    var queueIn: nat
    var queueOut: nat
    var queueInitialized: bool
    const qData: array<Entry>

    ghost predicate Valid()
      reads this, qData
    {
      && qData.Length == QSIZE
      && queueIn < QSIZE && queueOut < QSIZE
      && (forall i :: 0 <= i < QSIZE ==> |qData[i].packet| == PKTSIZE)
    }

    ghost function Contents(): seq<Entry>
      reads this, qData
      requires Valid()
    {
      Entries(qData[..], queueOut, queueIn)
    }

    /** queue_init. */
    constructor ()
      ensures Valid() && Contents() == [] && queueInitialized && fresh(qData)
    {
      queueIn, queueOut := 0, 0;
      queueInitialized := true;
      qData := new Entry[QSIZE](_ => Entry(QNOVALIDPKT, 0, seq(PKTSIZE, _ => 0), 0));
    }

    /** queue_add. */
    method Add(addr: int, packet: seq<bv8>, packetType: int, packetSize: nat)
      requires Valid() && packetSize <= PKTSIZE && packetSize <= |packet|
      modifies this, qData
      ensures Valid() && queueInitialized == old(queueInitialized)
      ensures Contents() == Added(old(Contents()), Entry(packetType, packetSize, Padded(packet[..packetSize]), addr),
                                  QSIZE)
    {
      ghost var data, end := qData[..], queueIn;
      qData[queueIn] := qData[queueIn].(packet := seq(PKTSIZE, _ => 0));
      qData[queueIn] := qData[queueIn].(packet := packet[..packetSize] + qData[queueIn].packet[packetSize..]);
      qData[queueIn] := qData[queueIn].(packetType := packetType);
      qData[queueIn] := qData[queueIn].(packetSize := packetSize);
      qData[queueIn] := qData[queueIn].(addr := addr);
      ghost var entry := Entry(packetType, packetSize, Padded(packet[..packetSize]), addr);
      assert qData[queueIn] == entry;
      queueIn := queueIn + 1;
      if queueIn == QSIZE {
        queueIn := 0;
      }
      assert qData[..] == data[end := entry];
      EntriesAfterWrite(data, queueOut, end, entry);
    }

    /** queue_get. */
    method Get() returns (packetType: int, addr: int, packet: seq<bv8>, packetSize: nat)
      requires Valid()
      modifies this, qData
      ensures Valid() && queueInitialized == old(queueInitialized)
      ensures if old(queueInitialized) && old(Contents()) != []
              then && Entry(packetType, packetSize, packet, addr) == old(Contents())[0]
                   && Contents() == Removed(old(Contents()))
              else packetType == QEMPTY && Contents() == old(Contents())
    {
      packetType, addr, packet, packetSize := QEMPTY, 0, [], 0;
      if !queueInitialized || queueIn == queueOut {
        return;
      }
      packet := qData[queueOut].packet;
      packetType := qData[queueOut].packetType;
      packetSize := qData[queueOut].packetSize;
      addr := qData[queueOut].addr;
      qData[queueOut] := qData[queueOut].(packetType := QNOVALIDPKT);
      queueOut := queueOut + 1;
      if queueOut == QSIZE {
        queueOut := 0;
      }
    }
  }

  // ---------------------------------------------------------------- whole runs

  datatype Call = AddCall(entry: Entry) | GetCall

  /** The queue after a run of calls, and what the calls of queue_get returned. */
  function Run(queue: seq<Entry>, calls: seq<Call>): (seq<Entry>, seq<Entry>)
    decreases |calls|
  {
    if calls == [] then (queue, [])
    else if calls[0].AddCall? then Run(Added(queue, calls[0].entry, QSIZE), calls[1..])
    else
      var (rest, got) := Run(Removed(queue), calls[1..]);
      (rest, (if queue == [] then [] else [queue[0]]) + got)
  }

  function AllAdded(calls: seq<Call>): seq<Entry>
    decreases |calls|
  {
    if calls == [] then []
    else (if calls[0].AddCall? then [calls[0].entry] else []) + AllAdded(calls[1..])
  }

  /** No call of queue_add finds QSIZE - 1 entries outstanding. */
  predicate NeverFull(queue: seq<Entry>, calls: seq<Call>)
    decreases |calls|
  {
    calls == [] ||
    if calls[0].AddCall? then |queue| < QSIZE - 1 && NeverFull(Added(queue, calls[0].entry, QSIZE), calls[1..])
    else NeverFull(Removed(queue), calls[1..])
  }

  /** The queue is a FIFO: what has been got, followed by what is left, is what has been added, in order. */
  lemma {:induction false} QueueIsFifo(queue: seq<Entry>, calls: seq<Call>)
    requires NeverFull(queue, calls)
    ensures var (rest, got) := Run(queue, calls); got + rest == queue + AllAdded(calls)
    decreases |calls|
  {
    if calls != [] {
      if calls[0].AddCall? {
        QueueIsFifo(Added(queue, calls[0].entry, QSIZE), calls[1..]);
        assert queue + [calls[0].entry] + AllAdded(calls[1..]) == queue + ([calls[0].entry] + AllAdded(calls[1..]));
      } else {
        QueueIsFifo(Removed(queue), calls[1..]);
        var (rest, got) := Run(Removed(queue), calls[1..]);
        if queue != [] {
          assert [queue[0]] + got + rest == [queue[0]] + (got + rest);
          assert [queue[0]] + (Removed(queue) + AllAdded(calls[1..])) == queue + AllAdded(calls[1..]);
        }
      }
    }
  }

  /** The bound is exact: the call that finds QSIZE - 1 entries outstanding loses all of them and its own. */
  lemma AddKeepsExactlyWhen(queue: seq<Entry>, entry: Entry)
    requires |queue| <= QSIZE - 1
    ensures Added(queue, entry, QSIZE) == queue + [entry] <==> |queue| < QSIZE - 1
    ensures |queue| == QSIZE - 1 ==> Added(queue, entry, QSIZE) == []
  {
    assert |queue + [entry]| == |queue| + 1;
  }

  /** Several entries, one after the other. */
  function AllEnqueued(queue: seq<Entry>, entries: seq<Entry>): seq<Entry>
    decreases |entries|
  {
    if entries == [] then queue else AllEnqueued(Added(queue, entries[0], QSIZE), entries[1..])
  }

  lemma {:induction false} EnqueuedLength(queue: seq<Entry>, entries: seq<Entry>)
    requires |queue| <= QSIZE - 1
    ensures |AllEnqueued(queue, entries)| <= |queue| + |entries|
    ensures |queue| + |entries| > QSIZE - 1 ==> |AllEnqueued(queue, entries)| < |queue| + |entries|
    decreases |entries|
  {
    if entries != [] { EnqueuedLength(Added(queue, entries[0], QSIZE), entries[1..]); }
  }

  /** They are kept, and what is outstanding with them, if and only if there is room for all. */
  lemma {:induction false} EnqueuesKeepExactlyWhen(queue: seq<Entry>, entries: seq<Entry>)
    requires |queue| <= QSIZE - 1
    ensures AllEnqueued(queue, entries) == queue + entries <==> |queue| + |entries| <= QSIZE - 1
    decreases |entries|
  {
    EnqueuedLength(queue, entries);
    if |queue| + |entries| <= QSIZE - 1 && entries != [] {
      EnqueuesKeepExactlyWhen(Added(queue, entries[0], QSIZE), entries[1..]);
      assert queue + [entries[0]] + entries[1..] == queue + entries;
    }
  }
}
