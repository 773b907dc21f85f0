/**
  srcp-fb.c as the program runs it, for one bus: an array of contacts, a ring of openings that wait, and the
  messages to clients. Its methods do to this state what FeedbackBoard says of a board.
 */
module Feedback {
  import opened Ring
  import opened FeedbackBoard
  import opened FeedbackProperties

  type Word = bv32

  const QUEUELENGTH_FB := 1000

  const SRCP_OK := 200
  const SRCP_NODATA := 416
  const SRCP_WRONGVALUE := 412

  /** The contact that a module reports with one of its bits: modules count from 1, and so do ports. */
  function ContactOf(modul: int, ports: int, i: int): int {
    (modul - 1) * ports + 1 + i
  }

  /** The mask that picks one bit. */
  function Mask(bit: nat): Word
    requires bit < 16
  {
    1 << bit
  }

  predicate Picks(values: Word, mask: Word) {
    values & mask != 0
  }

  predicate BitIsSet(values: Word, bit: nat)
    requires bit < 16
  {
    Picks(values, Mask(bit))
  }

  function Shifted(mask: Word, order0: bool): Word {
    if order0 then mask << 1 else mask >> 1
  }

  lemma MaskMoves(bit: nat)
    requires bit < 15
    ensures Mask(bit) << 1 == Mask(bit + 1) && Mask(bit + 1) >> 1 == Mask(bit)
  {
    if bit == 0 {} else if bit == 1 {} else if bit == 2 {} else if bit == 3 {}
    else if bit == 4 {} else if bit == 5 {} else if bit == 6 {} else if bit == 7 {}
    else if bit == 8 {} else if bit == 9 {} else if bit == 10 {} else if bit == 11 {}
    else if bit == 12 {} else if bit == 13 {} else { assert bit == 14; }
  }

  /** The bit of a module report that belongs to its i-th contact, in either order. */
  function BitNumber(i: nat, ports: nat, order0: bool): (bit: nat)
    requires i < ports
    ensures bit < ports
  {
    if order0 then i else ports - 1 - i
  }

  /** A module report is a report for each of its contacts. */
  function ModuleEvents(modul: int, values: Word, ports: nat, order0: bool, clock: seq<int>, n: nat): seq<Event>
    requires n <= ports <= 16 && |clock| == ports
  {
    if n == 0 then []
    else
      ModuleEvents(modul, values, ports, order0, clock, n - 1) +
      [Reported(ContactOf(modul, ports, n - 1),
                if BitIsSet(values, BitNumber(n - 1, ports, order0)) then 1 else 0, clock[n - 1])]
  }

  ghost predicate NothingWaits(b: Board) {
    forall p :: 0 <= p < |b.cells| ==> b.cells[p].change == 0
  }

  lemma {:induction false} ModuleRuns(b: Board, modul: int, values: Word, ports: nat, order0: bool, clock: seq<int>,
                                      n: nat, port: int)
    requires n <= ports <= 16 && |clock| == ports && NothingWaits(b) && 1 <= port <= |b.cells|
    ensures var b' := Run(b, ModuleEvents(modul, values, ports, order0, clock, n), 0);
      && NothingWaits(b') && |b'.cells| == |b.cells|
      && var i := port - ContactOf(modul, ports, 0);
         if 0 <= i < n
         then b'.cells[port - 1].state == (if BitIsSet(values, BitNumber(i, ports, order0)) then 1 else 0)
         else b'.cells[port - 1] == b.cells[port - 1]
    decreases n
  {
    hide Picks, BitIsSet, Run;
    if n == 0 {
      RunNothing(b, modul, values, ports, order0, clock, 0);
    } else {
      ModuleRuns(b, modul, values, ports, order0, clock, n - 1, port);
      ModuleStep(b, modul, values, ports, order0, clock, n - 1, 0);
    }
  }

  /** The numbers that the sixteen bits stand for. */
  function BitNumbered(bit: nat): Word
    requires bit < 16
  {
    match bit
    case 0 => 1 case 1 => 2 case 2 => 4 case 3 => 8
    case 4 => 16 case 5 => 32 case 6 => 64 case 7 => 128
    case 8 => 256 case 9 => 512 case 10 => 1024 case 11 => 2048
    case 12 => 4096 case 13 => 8192 case 14 => 16384 case _ => 32768
  }

  predicate BitAt(values: Word, bit: nat)
    requires bit < 16
  {
    values & BitNumbered(bit) != 0
  }

  /** Bit i of a module report, from either end. */
  predicate ReportedBit(values: Word, i: nat, ports: nat, order0: bool)
    requires i < ports <= 16
  {
    if order0 then BitAt(values, i) else BitAt(values, ports - 1 - i)
  }

  lemma ReportedBitIs(values: Word, i: nat, ports: nat, order0: bool)
    requires i < ports <= 16
    ensures ReportedBit(values, i, ports, order0) <==> BitIsSet(values, BitNumber(i, ports, order0))
  {
    hide BitIsSet, BitAt;
    SameBit(values, BitNumber(i, ports, order0));
  }

  lemma SameBit(values: Word, bit: nat)
    requires bit < 16
    ensures BitIsSet(values, bit) <==> BitAt(values, bit)
  {
    hide Mask, BitNumbered;
    MaskIs(bit);
  }

  lemma MaskIs(bit: nat)
    requires bit < 16
    ensures Mask(bit) == BitNumbered(bit)
  {
    if bit == 0 {} else if bit == 1 {} else if bit == 2 {} else if bit == 3 {}
    else if bit == 4 {} else if bit == 5 {} else if bit == 6 {} else if bit == 7 {}
    else if bit == 8 {} else if bit == 9 {} else if bit == 10 {} else if bit == 11 {}
    else if bit == 12 {} else if bit == 13 {} else if bit == 14 {} else { assert bit == 15; }
  }

  /** Without a minimum time, the bits of a module report are shown at the contacts that they stand for, as far as these
      exist, and all other contacts stay as they were: modules of so many ports count from 1, and so do contacts. */
  lemma ModuleShowsItsBits(b: Board, modul: int, values: Word, ports: nat, order0: bool, clock: seq<int>, port: int)
    requires ports <= 16 && |clock| == ports && NothingWaits(b) && 1 <= port <= |b.cells|
    ensures var b' := Run(b, ModuleEvents(modul, values, ports, order0, clock, ports), 0);
      && NothingWaits(b') && |b'.cells| == |b.cells|
      && var i := port - 1 - (modul - 1) * ports;
         if 0 <= i < ports
         then b'.cells[port - 1].state == (if ReportedBit(values, i, ports, order0) then 1 else 0)
         else b'.cells[port - 1] == b.cells[port - 1]
  {
    hide BitIsSet, ReportedBit, BitNumber, Run, ModuleEvents;
    ModuleRuns(b, modul, values, ports, order0, clock, ports, port);
    var i := port - 1 - (modul - 1) * ports;
    if 0 <= i < ports { ReportedBitIs(values, i, ports, order0); }
  }

  lemma CheckUnfolds(b: Board, now: int, minTime: int)
    requires IsBoard(b) && b.queue != []
    ensures var r, rest := b.queue[0], b.(queue := b.queue[1..]);
      Check(b, now, minTime) ==
        if b.cells[r.port].change == 0 then Check(rest, now, minTime)
        else if now - r.timestamp < minTime then b
        else Check(Show(rest, r.port, Cell(r.timestamp, 0, 0)), now, minTime)
  {
  }

  lemma InRange(b: Board)
    requires IsBoard(b) && b.queue != []
    ensures b.queue[0].port < |b.cells|
  {
  }

  /** Both ways of taking the first opening off the queue keep the board. */
  lemma PopKeeps(b: Board)
    requires IsBoard(b) && b.queue != []
    ensures b.queue[0].port < |b.cells|
    ensures var r, rest := b.queue[0], b.(queue := b.queue[1..]);
      && (b.cells[r.port].change == 0 ==> IsBoard(rest))
      && IsBoard(Show(rest, r.port, Cell(r.timestamp, 0, 0)))
  {
    var r, rest := b.queue[0], b.(queue := b.queue[1..]);
    PopKeepsBoard(b, Cell(r.timestamp, 0, 0), Show(rest, r.port, Cell(r.timestamp, 0, 0)).log);
    if b.cells[r.port].change == 0 {
      assert b.cells[r.port := b.cells[r.port]] == b.cells;
      PopKeepsBoard(b, b.cells[r.port], b.log);
    }
  }

  lemma ReportGrows(b: Board, port: int, value: int, now: int, minTime: int)
    ensures |Report(b, port, value, now, minTime).queue| <= |b.queue| + 1
  {
  }

  lemma NextMask(i: nat, ports: nat, order0: bool, mask: Word)
    requires i + 1 < ports <= 16 && mask == Mask(BitNumber(i, ports, order0))
    ensures Shifted(mask, order0) == Mask(BitNumber(i + 1, ports, order0))
  {
    var bit := BitNumber(i, ports, order0);
    MaskMoves(if order0 then bit else bit - 1);
    hide Mask;
  }

  lemma RunNothing(b: Board, modul: int, values: Word, ports: nat, order0: bool, clock: seq<int>, minTime: int)
    requires ports <= 16 && |clock| == ports
    ensures Run(b, ModuleEvents(modul, values, ports, order0, clock, 0), minTime) == b
  {
  }

  lemma ModuleStep(b: Board, modul: int, values: Word, ports: nat, order0: bool, clock: seq<int>, i: nat, minTime: int)
    requires i < ports <= 16 && |clock| == ports
    ensures Run(b, ModuleEvents(modul, values, ports, order0, clock, i + 1), minTime)
         == Report(Run(b, ModuleEvents(modul, values, ports, order0, clock, i), minTime), ContactOf(modul, ports, i),
                   if BitIsSet(values, BitNumber(i, ports, order0)) then 1 else 0, clock[i], minTime)
  {
    hide Report, BitIsSet, Run;
    RunSplit(b, ModuleEvents(modul, values, ports, order0, clock, i),
             Reported(ContactOf(modul, ports, i),
                      if BitIsSet(values, BitNumber(i, ports, order0)) then 1 else 0, clock[i]), minTime);
  }

  class Bus {
    const fbstate: array<Cell>
    const resetQueue: array<Reset>
    const minTime: int
    var queueIn: nat
    var queueOut: nat
    var messages: seq<Message>

    ghost predicate Valid()
      reads this, fbstate, resetQueue
    {
      && resetQueue.Length == QUEUELENGTH_FB
      && queueIn < QUEUELENGTH_FB && queueOut < QUEUELENGTH_FB
      && IsBoard(State())
    }

    ghost function State(): Board
      reads this, fbstate, resetQueue
      requires queueIn < resetQueue.Length && queueOut < resetQueue.Length
    {
      Board(fbstate[..], Entries(resetQueue[..], queueOut, queueIn), messages)
    }

    /** startup_FB, init_FB and set_min_time. */
    constructor (number: nat, minTimeInMs: int, now: int)
      ensures Valid() && fresh(fbstate) && fresh(resetQueue)
      ensures State() == Fresh(number, now) && minTime == minTimeInMs * 1000
    {
      fbstate := new Cell[number](_ => Cell(now, 0, 0));
      resetQueue := new Reset[QUEUELENGTH_FB](_ => Reset(0, 0));
      minTime := minTimeInMs * 1000;
      queueIn, queueOut, messages := 0, 0, [];
      new;
      assert State() == Fresh(number, now);
    }

    /** getFB: the state of a contact. */
    method GetFB(port: int) returns (rc: int, timestamp: int, value: int)
      requires Valid()
      ensures rc == if 1 <= port <= fbstate.Length then SRCP_OK else SRCP_NODATA
      ensures rc == SRCP_OK ==> value == States(State().cells)[port - 1] && timestamp == fbstate[port - 1].timestamp
    {
      var p := port - 1;
      if fbstate.Length <= 0 || p < 0 || p >= fbstate.Length {
        return SRCP_NODATA, 0, 0;
      }
      return SRCP_OK, fbstate[p].timestamp, fbstate[p].state;
    }

    /** enqueueInfoFB: the message is made of the contact as it is now. */
    method EnqueueInfoFB(port: int)
      requires 1 <= port <= fbstate.Length
      modifies `messages
      ensures messages == old(messages) + [Message(port, fbstate[port - 1].timestamp, fbstate[port - 1].state)]
    {
      messages := messages + [Message(port, fbstate[port - 1].timestamp, fbstate[port - 1].state)];
    }

    /** queue_reset_fb when the ring is not full. */
    method QueueResetFB(port: nat, now: int)
      requires resetQueue.Length == QUEUELENGTH_FB && queueIn < QUEUELENGTH_FB && queueOut < QUEUELENGTH_FB
      requires |State().queue| < QUEUELENGTH_FB - 1
      modifies `queueIn, resetQueue
      ensures queueIn < QUEUELENGTH_FB
      ensures State() == old(State()).(queue := old(State()).queue + [Reset(port, now)])
    {
      ghost var data, end := resetQueue[..], queueIn;
      resetQueue[queueIn] := resetQueue[queueIn].(port := port);
      resetQueue[queueIn] := resetQueue[queueIn].(timestamp := now);
      queueIn := queueIn + 1;
      if queueIn == QUEUELENGTH_FB {
        queueIn := 0;
      }
      assert resetQueue[..] == data[end := Reset(port, now)];
      EntriesAfterWrite(data, queueOut, end, Reset(port, now));
    }

    /** updateFB. */
    method UpdateFB(port: int, value: int, now: int) returns (rc: int)
      requires Valid() && |State().queue| < QUEUELENGTH_FB - 1
      modifies this, fbstate, resetQueue
      ensures Valid() && State() == Report(old(State()), port, value, now, minTime)
      ensures rc == if 1 <= port <= fbstate.Length then SRCP_OK else SRCP_WRONGVALUE
    {
      ReportKeepsBoard(State(), port, value, now, minTime);
      if port > fbstate.Length || port < 1 {
        return SRCP_WRONGVALUE;
      }
      var p := port - 1;
      if fbstate[p].state != value {
        if value == 0 {
          if minTime == 0 {
            fbstate[p] := Cell(now, value, 0);
            EnqueueInfoFB(port);
          } else {
            fbstate[p] := fbstate[p].(change := -1);
            QueueResetFB(p, now);
          }
        } else if fbstate[p].change < 0 {
          fbstate[p] := fbstate[p].(change := 0);
        } else {
          fbstate[p] := Cell(now, ToShort(value), 0);
          EnqueueInfoFB(port);
        }
      }
      return SRCP_OK;
    }

    /** check_reset_fb, with the clock as it is read from opening to opening: what the check does is what it would do
        by the last reading alone. */
    method CheckResetFB(clock: seq<int>) returns (now: int)
      requires Valid() && |clock| > |State().queue|
      requires forall i, j :: 0 <= i < j < |clock| ==> clock[i] <= clock[j]
      modifies this, fbstate
      ensures Valid() && now in clock && State() == Check(old(State()), now, minTime)
    {
      hide IsBoard, Check, Entries;
      var waits, i := false, 0;
      now := clock[0];
      Ends(State());
      while queueIn != queueOut && !waits
        invariant Valid() && queueIn == old(queueIn)
        invariant 0 <= i && now in clock && (!waits ==> i + |State().queue| < |clock|)
        invariant i < |clock| ==> now <= clock[i]
        invariant !waits ==> forall t :: t >= now ==> Check(State(), t, minTime) == Check(old(State()), t, minTime)
        invariant waits ==> State() == Check(old(State()), now, minTime)
        invariant queueIn == queueOut ==> forall t :: Check(State(), t, minTime) == State()
        decreases |State().queue|, !waits
      {
        now := clock[i];
        waits := CheckNext(now);
        i := i + 1;
        Ends(State());
      }
    }

    lemma Ends(b: Board)
      requires Valid() && b == State()
      ensures queueIn == queueOut ==> forall t :: Check(b, t, minTime) == b
    {
      EntriesEmpty(resetQueue[..], queueOut, queueIn);
    }

    /** The body of the loop in check_reset_fb: it tells whether the first opening has to wait. */
    method CheckNext(now: int) returns (waits: bool)
      requires Valid() && queueIn != queueOut
      modifies `queueOut, `messages, fbstate
      ensures Valid()
      ensures waits ==> Check(State(), now, minTime) == State() == old(State())
      ensures !waits ==> forall t :: t >= now ==> Check(State(), t, minTime) == Check(old(State()), t, minTime)
      ensures !waits ==> |State().queue| < |old(State()).queue|
    {
      hide Check, Entries;
      ghost var was := State();
      EntriesAfterRead(resetQueue[..], queueOut, queueIn);
      var reset := resetQueue[queueOut];
      assert was.queue[0] == reset;
      InRange(was);
      CheckUnfolds(was, now, minTime);
      forall t | t >= now { CheckUnfolds(was, t, minTime); }
      PopKeeps(was);
      hide IsBoard;
      if fbstate[reset.port].change == 0 {
        UnqueueNextFB();
        return false;
      }
      if now - reset.timestamp < minTime {
        return true;
      }
      UnqueueNextFB();
      ShowReset(reset);
      return false;
    }

    /** unqueueNextFB. */
    method UnqueueNextFB()
      requires resetQueue.Length == QUEUELENGTH_FB && queueIn < QUEUELENGTH_FB && queueOut < QUEUELENGTH_FB
      requires queueIn != queueOut
      modifies `queueOut
      ensures queueOut < QUEUELENGTH_FB
      ensures old(State()).queue != [] && old(State()).queue[0] == resetQueue[old(queueOut)]
      ensures State() == old(State()).(queue := old(State()).queue[1..])
    {
      EntriesAfterRead(resetQueue[..], queueOut, queueIn);
      hide Entries;
      queueOut := queueOut + 1;
      if queueOut == QUEUELENGTH_FB {
        queueOut := 0;
      }
    }

    /** The reset of a contact. */
    method ShowReset(reset: Reset)
      requires queueIn < resetQueue.Length && queueOut < resetQueue.Length && reset.port < fbstate.Length
      modifies `messages, fbstate
      ensures State() == Show(old(State()), reset.port, Cell(reset.timestamp, 0, 0))
    {
      hide Entries;
      fbstate[reset.port] := Cell(reset.timestamp, 0, 0);
      EnqueueInfoFB(reset.port + 1);
    }

    /** setFBmodul, where the flags have become the number of ports and the order of the bits. */
    method SetFBmodul(modul: int, values: Word, ports: nat, order0: bool, clock: seq<int>) returns (rc: int)
      requires Valid() && (ports == 4 || ports == 8 || ports == 16) && |clock| == ports
      requires |State().queue| + ports <= QUEUELENGTH_FB - 1
      modifies this, fbstate, resetQueue
      ensures Valid() && State() == Run(old(State()), ModuleEvents(modul, values, ports, order0, clock, ports), minTime)
      ensures rc == if 1 <= ContactOf(modul, ports, ports - 1) <= fbstate.Length then SRCP_OK else SRCP_WRONGVALUE
    {
      hide IsBoard, Report, Entries, Mask, Run, ModuleEvents, Picks, Shifted;
      rc := SRCP_OK;
      ghost var was := State();
      RunNothing(was, modul, values, ports, order0, clock, minTime);
      var mask := Mask(if order0 then 0 else ports - 1);
      var contact := modul - 1;
      contact := contact * ports;
      contact := contact + 1;
      for i := 0 to ports
        invariant Valid() && contact == ContactOf(modul, ports, i)
        invariant State() == Run(was, ModuleEvents(modul, values, ports, order0, clock, i), minTime)
        invariant |State().queue| <= |was.queue| + i
        invariant i < ports ==> mask == Mask(BitNumber(i, ports, order0))
        invariant i > 0 ==>
          rc == if 1 <= ContactOf(modul, ports, i - 1) <= fbstate.Length then SRCP_OK else SRCP_WRONGVALUE
      {
        var c := if Picks(values, mask) then 1 else 0;
        ModuleStep(was, modul, values, ports, order0, clock, i, minTime);
        ReportGrows(State(), contact, c, clock[i], minTime);
        rc := UpdateFB(contact, c, clock[i]);
        contact := contact + 1;
        if i + 1 < ports { NextMask(i, ports, order0, mask); }
        mask := Shifted(mask, order0);
      }
    }
  }
}
