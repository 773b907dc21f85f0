/**
  What a client of the feedback contacts can rely on over whole runs: when an opening is shown, and when the
  state that is shown is the one that was last reported.
 */
module FeedbackProperties {
  import opened FeedbackBoard

  lemma {:induction false} RunSplit(b: Board, es: seq<Event>, e: Event, minTime: int)
    ensures Run(b, es + [e], minTime) == Step(Run(b, es, minTime), e, minTime)
    decreases |es|
  {
    hide Step;
    if es == [] {
      assert [e][1..] == [] && [] + [e] == [e];
    } else {
      assert (es + [e])[0] == es[0] && (es + [e])[1..] == es[1..] + [e];
      RunSplit(Step(b, es[0], minTime), es[1..], e, minTime);
    }
  }

  // ---------------------------------------------------------------- an opening is shown after the minimum time

  /** A message, and the clock when it went out. */
  datatype Shown = Shown(message: Message, now: int)

  function Stamped(log: seq<Message>, now: int): seq<Shown>
  {
    seq(|log|, i requires 0 <= i < |log| => Shown(log[i], now))
  }

  /** The messages of one step. */
  function NewMessages(b: Board, e: Event, minTime: int): seq<Shown> {
    var log := Step(b, e, minTime).log;
    if |b.log| <= |log| then Stamped(log[|b.log|..], e.now) else []
  }

  /** The messages of a run. */
  function ShownBy(b: Board, es: seq<Event>, minTime: int): seq<Shown> {
    if es == [] then []
    else
      var n := |es| - 1;
      ShownBy(b, es[..n], minTime) + NewMessages(Run(b, es[..n], minTime), es[n], minTime)
  }

  /** The reports are of the states 0 and 1. */
  predicate Binary(es: seq<Event>) {
    forall i :: 0 <= i < |es| && es[i].Reported? ==> es[i].value == 0 || es[i].value == 1
  }

  /** The opening has been reported. */
  ghost predicate OpeningReported(es: seq<Event>, port: int, time: int) {
    exists i :: 0 <= i < |es| && es[i] == Reported(port, 0, time)
  }

  ghost predicate QueueIsReported(queue: seq<Reset>, es: seq<Event>) {
    forall i :: 0 <= i < |queue| ==> OpeningReported(es, queue[i].port + 1, queue[i].timestamp)
  }

  lemma ReportedStill(es: seq<Event>, e: Event, port: int, time: int)
    requires OpeningReported(es, port, time)
    ensures OpeningReported(es + [e], port, time)
  {
    var i :| 0 <= i < |es| && es[i] == Reported(port, 0, time);
    assert (es + [e])[i] == es[i];
  }

  /** The openings that a message of a check, or the queue after it, speaks of were in the queue before. */
  lemma {:induction false} CheckSources(b: Board, now: int, minTime: int, es: seq<Event>)
    requires QueueIsReported(b.queue, es)
    ensures var b' := Check(b, now, minTime);
      && QueueIsReported(b'.queue, es) && b.log <= b'.log
      && forall i :: |b.log| <= i < |b'.log| ==>
           && b'.log[i].state == 0 && now - b'.log[i].timestamp >= minTime
           && OpeningReported(es, b'.log[i].port, b'.log[i].timestamp)
    decreases |b.queue|
  {
    hide OpeningReported;
    if b.queue != [] && b.queue[0].port < |b.cells| {
      var r, rest := b.queue[0], b.(queue := b.queue[1..]);
      if b.cells[r.port].change == 0 {
        CheckSources(rest, now, minTime, es);
      } else if now - r.timestamp >= minTime {
        CheckSources(Show(rest, r.port, Cell(r.timestamp, 0, 0)), now, minTime, es);
      }
    }
  }

  /** Every message of an opening goes out the minimum time or more after a report of that opening, whose time it
      bears, in every run with a minimum time. */
  lemma {:induction false} OpeningsAreShownInTime(b: Board, es: seq<Event>, minTime: int)
    requires minTime != 0 && b.queue == [] && Binary(es)
    ensures QueueIsReported(Run(b, es, minTime).queue, es)
    ensures forall i :: 0 <= i < |ShownBy(b, es, minTime)| ==>
      var shown := ShownBy(b, es, minTime)[i];
      shown.message.state == 0 ==>
        && shown.now - shown.message.timestamp >= minTime
        && OpeningReported(es, shown.message.port, shown.message.timestamp)
    decreases |es|
  {
    hide OpeningReported, Report, Check;
    if es != [] {
      var n := |es| - 1;
      var before := Run(b, es[..n], minTime);
      assert es == es[..n] + [es[n]];
      RunSplit(b, es[..n], es[n], minTime);
      OpeningsAreShownInTime(b, es[..n], minTime);
      forall port, time | OpeningReported(es[..n], port, time) ensures OpeningReported(es, port, time) {
        ReportedStill(es[..n], es[n], port, time);
      }
      if es[n].Checked? {
        CheckSources(before, es[n].now, minTime, es);
      } else {
        ReportSources(before, es[n], minTime, es);
      }
    }
  }

  lemma ReportSources(b: Board, e: Event, minTime: int, es: seq<Event>)
    requires e.Reported? && e in es && (e.value == 0 || e.value == 1) && minTime != 0
    requires QueueIsReported(b.queue, es)
    ensures var b' := Step(b, e, minTime);
      && QueueIsReported(b'.queue, es) && b.log <= b'.log
      && forall i :: |b.log| <= i < |b'.log| ==> b'.log[i].state == 1
  {
    var b' := Step(b, e, minTime);
    assert OpeningReported(es, e.port, e.now) || e.value != 0;
    hide OpeningReported;
  }

  // ---------------------------------------------------------------- a closing is shown at once

  /** A closing of an open contact is shown with its time, in the cell and by one message, and nothing else changes; any
      value but 0 that fits a short is one. */
  lemma ClosingIsShown(b: Board, port: int, value: int, now: int, minTime: int)
    requires IsBoard(b) && 1 <= port <= |b.cells| && b.cells[port - 1].state == 0
    requires value != 0 && -32768 <= value <= 32767
    ensures Report(b, port, value, now, minTime)
         == Board(b.cells[port - 1 := Cell(now, value, 0)], b.queue, b.log + [Message(port, now, value)])
  {
    assert b.cells[port - 1].change < 0 ==> Pending(b, port - 1);
  }

  /** An opening of a closed contact is shown with its time if there is no minimum time; otherwise it is queued with it,
      and nothing is shown. */
  lemma OpeningIsShownOrWaits(b: Board, port: int, now: int, minTime: int)
    requires 1 <= port <= |b.cells| && b.cells[port - 1].state != 0
    ensures var b', was := Report(b, port, 0, now, minTime), b.cells[port - 1];
      if minTime == 0
      then b' == Board(b.cells[port - 1 := Cell(now, 0, 0)], b.queue, b.log + [Message(port, now, 0)])
      else b' == Board(b.cells[port - 1 := Cell(was.timestamp, was.state, -1)], b.queue + [Reset(port - 1, now)], b.log)
  {
  }

  ghost predicate ClosingReported(es: seq<Event>, port: int, time: int) {
    exists i :: 0 <= i < |es| && es[i] == Reported(port, 1, time)
  }

  /** Every message of a closing goes out with the report of this closing and bears its time. */
  lemma {:induction false} ClosingsAreShownAtOnce(b: Board, es: seq<Event>, minTime: int)
    requires Binary(es)
    ensures forall i :: 0 <= i < |ShownBy(b, es, minTime)| ==>
      var shown := ShownBy(b, es, minTime)[i];
      shown.message.state != 0 ==>
        && shown.message.state == 1 && shown.message.timestamp == shown.now
        && ClosingReported(es, shown.message.port, shown.now)
    decreases |es|
  {
    hide ClosingReported, Report, Check;
    if es != [] {
      var n := |es| - 1;
      var before := Run(b, es[..n], minTime);
      ClosingsAreShownAtOnce(b, es[..n], minTime);
      forall port, time | ClosingReported(es[..n], port, time) ensures ClosingReported(es, port, time) {
        ClosingStill(es, port, time);
      }
      if es[n].Checked? {
        CheckShowsOpenings(before, es[n].now, minTime);
      } else {
        ReportShowsClosing(before, es[n], minTime, es);
      }
    }
  }

  lemma ClosingStill(es: seq<Event>, port: int, time: int)
    requires es != [] && ClosingReported(es[..|es| - 1], port, time)
    ensures ClosingReported(es, port, time)
  {
    var i :| 0 <= i < |es| - 1 && es[..|es| - 1][i] == Reported(port, 1, time);
    assert es[i] == Reported(port, 1, time);
  }

  lemma {:induction false} CheckShowsOpenings(b: Board, now: int, minTime: int)
    ensures var b' := Check(b, now, minTime);
      b.log <= b'.log && forall i :: |b.log| <= i < |b'.log| ==> b'.log[i].state == 0
    decreases |b.queue|
  {
    if b.queue != [] && b.queue[0].port < |b.cells| {
      var r, rest := b.queue[0], b.(queue := b.queue[1..]);
      if b.cells[r.port].change == 0 {
        CheckShowsOpenings(rest, now, minTime);
      } else if now - r.timestamp >= minTime {
        CheckShowsOpenings(Show(rest, r.port, Cell(r.timestamp, 0, 0)), now, minTime);
      }
    }
  }

  lemma ReportShowsClosing(b: Board, e: Event, minTime: int, es: seq<Event>)
    requires e.Reported? && e in es && (e.value == 0 || e.value == 1)
    ensures var b' := Step(b, e, minTime);
      b.log <= b'.log && forall i :: |b.log| <= i < |b'.log| && b'.log[i].state != 0 ==>
        b'.log[i].state == 1 && b'.log[i].timestamp == e.now && ClosingReported(es, b'.log[i].port, e.now)
  {
    assert e.value == 1 ==> ClosingReported(es, e.port, e.now);
    hide ClosingReported;
  }

  // ---------------------------------------------------------------- no cancelling

  /** A report takes the mark off a contact exactly when it is neither 0 nor the state that is shown. */
  lemma CancelsExactlyWhen(b: Board, port: int, value: int, now: int, minTime: int)
    requires Pending(b, port - 1) && minTime != 0
    ensures !Pending(Report(b, port, value, now, minTime), port - 1)
       <==> value != 0 && value != b.cells[port - 1].state
  {
  }

  ghost predicate ShowsBinary(b: Board) {
    forall p :: 0 <= p < |b.cells| ==> b.cells[p].state == 0 || b.cells[p].state == 1
  }

  lemma {:induction false} CheckShowsBinary(b: Board, now: int, minTime: int)
    requires ShowsBinary(b)
    ensures ShowsBinary(Check(b, now, minTime))
    decreases |b.queue|
  {
    if b.queue != [] && b.queue[0].port < |b.cells| {
      var r, rest := b.queue[0], b.(queue := b.queue[1..]);
      if b.cells[r.port].change == 0 {
        CheckShowsBinary(rest, now, minTime);
      } else if now - r.timestamp >= minTime {
        CheckShowsBinary(Show(rest, r.port, Cell(r.timestamp, 0, 0)), now, minTime);
      }
    }
  }

  lemma {:induction false} RunShowsBinary(b: Board, es: seq<Event>, minTime: int)
    requires ShowsBinary(b) && Binary(es)
    ensures ShowsBinary(Run(b, es, minTime))
    decreases |es|
  {
    hide Check;
    if es != [] {
      if es[0].Checked? { CheckShowsBinary(b, es[0].now, minTime); }
      RunShowsBinary(Step(b, es[0], minTime), es[1..], minTime);
    }
  }

  /** With reports of 0 and 1 only, no report ever cancels an opening that waits: it changes nothing but the queue. */
  lemma NothingIsCancelled(start: Board, es: seq<Event>, port: int, value: int, now: int, minTime: int)
    requires ShowsBinary(start) && IsBoard(start) && Binary(es) && (value == 0 || value == 1) && minTime != 0
    requires Pending(Run(start, es, minTime), port - 1)
    ensures var b := Run(start, es, minTime);
            var b' := Report(b, port, value, now, minTime);
            b'.cells == b.cells && b'.log == b.log
  {
    RunShowsBinary(start, es, minTime);
    RunKeepsBoard(start, es, minTime);
    var b := Run(start, es, minTime);
    assert b.cells[port - 1].state == 1 && b.cells[port - 1].change == -1;
    assert b.cells == b.cells[port - 1 := b.cells[port - 1]];
  }

  // ---------------------------------------------------------------- what is shown and what was reported

  /** The last report of a port, or its state at the start. */
  function LastReport(es: seq<Event>, port: int, start: int): int {
    if es == [] then start
    else
      var n := |es| - 1;
      if es[n].Reported? && es[n].port == port then es[n].value else LastReport(es[..n], port, start)
  }

  /** The last report of a port was of a closing, made while an opening waited. */
  predicate Swallowed(b: Board, es: seq<Event>, port: int, minTime: int) {
    es != [] &&
    var n := |es| - 1;
    if es[n].Reported? && es[n].port == port
    then es[n].value == 1 && Pending(Run(b, es[..n], minTime), port - 1)
    else Swallowed(b, es[..n], port, minTime)
  }

  /** What the shown state of one port has to do with its last report. */
  ghost predicate Agrees(cell: Cell, last: int, swallowed: bool) {
    && (cell.state == 0 || cell.state == 1) && -1 <= cell.change <= 0
    && (cell.change < 0 ==> cell.state == 1)
    && (last == 0 || last == 1)
    && (last == 0 ==> !swallowed && (cell.change < 0 || cell.state == 0))
    && (last == 1 && !swallowed ==> cell.state == 1 && cell.change == 0)
    && (last == 1 && swallowed ==> cell.change < 0 || cell.state == 0)
  }

  lemma StepAgrees(b: Board, e: Event, minTime: int, port: int, last: int, swallowed: bool)
    requires IsBoard(b) && Sorted(b.queue) && minTime != 0 && 1 <= port <= |b.cells|
    requires e.Reported? ==> e.value == 0 || e.value == 1
    requires Agrees(b.cells[port - 1], last, swallowed)
    ensures var own := e.Reported? && e.port == port;
            var b' := Step(b, e, minTime);
            |b'.cells| == |b.cells| &&
            Agrees(b'.cells[port - 1], if own then e.value else last,
                   if own then e.value == 1 && Pending(b, port - 1) else swallowed)
  {
    if e.Checked? {
      CheckExactly(b, e.now, minTime, port - 1);
    }
  }

  lemma {:induction false} RunAgrees(b: Board, es: seq<Event>, minTime: int, from: int, port: int)
    requires IsBoard(b) && Sorted(b.queue) && UpTo(b.queue, from) && minTime != 0
    requires Monotone(es, from) && Binary(es) && 1 <= port <= |b.cells|
    requires Agrees(b.cells[port - 1], b.cells[port - 1].state, false)
    ensures var b' := Run(b, es, minTime);
            |b'.cells| == |b.cells| &&
            Agrees(b'.cells[port - 1], LastReport(es, port, b.cells[port - 1].state), Swallowed(b, es, port, minTime))
    decreases |es|
  {
    hide Agrees, IsBoard, Sorted, UpTo, Step;
    if es != [] {
      var n := |es| - 1;
      assert es == es[..n] + [es[n]];
      MonotonePrefix(es, from, n);
      RunAgrees(b, es[..n], minTime, from, port);
      RunSplit(b, es[..n], es[n], minTime);
      RunKeepsBoard(b, es[..n], minTime);
      RunKeepsOrder(b, es[..n], minTime, from);
      StepAgrees(Run(b, es[..n], minTime), es[n], minTime, port, LastReport(es[..n], port, b.cells[port - 1].state),
                 Swallowed(b, es[..n], port, minTime));
    }
  }

  lemma {:induction false} MonotonePrefix(es: seq<Event>, from: int, n: nat)
    requires Monotone(es, from) && n <= |es|
    ensures Monotone(es[..n], from)
    decreases n
  {
    if n > 0 {
      assert es[..n][1..] == es[1..][..n - 1];
      MonotonePrefix(es[1..], es[0].now, n - 1);
    }
  }

  /** When no opening of a contact waits, it shows what was last reported if and only if that was not a closing
      reported while an opening waited. */
  lemma ShowsLastReportExactlyWhen(number: nat, start: int, es: seq<Event>, minTime: int, port: int)
    requires minTime != 0 && Monotone(es, start) && Binary(es) && 1 <= port <= number
    requires !Pending(Run(Fresh(number, start), es, minTime), port - 1)
    ensures var b := Run(Fresh(number, start), es, minTime);
      |b.cells| == number &&
      (b.cells[port - 1].state == LastReport(es, port, 0) <==> !Swallowed(Fresh(number, start), es, port, minTime))
  {
    FreshIsBoard(number, start);
    RunAgrees(Fresh(number, start), es, minTime, start, port);
  }

  lemma RunCons(b: Board, e: Event, es: seq<Event>, minTime: int)
    ensures Run(b, [e] + es, minTime) == Run(Step(b, e, minTime), es, minTime)
  {
    hide Step;
    assert ([e] + es)[1..] == es;
  }

  /** A contact that opens for a moment only is shown as open once the minimum time has passed, although it has been
      reported as closed since. */
  lemma BounceIsShown(minTime: int)
    requires minTime > 1
    ensures var es :=
      [Reported(1, 1, 0)] + ([Reported(1, 0, 1)] + ([Reported(1, 1, 2)] + ([Checked(1 + minTime)] + [])));
      && Run(Fresh(1, 0), es, minTime).cells == [Cell(1, 0, 0)]
      && LastReport(es, 1, 0) == 1
  {
    var closed := Board([Cell(0, 1, 0)], [], [Message(1, 0, 1)]);
    var waits := Board([Cell(0, 1, -1)], [Reset(0, 1)], [Message(1, 0, 1)]);
    var open := Board([Cell(1, 0, 0)], [], [Message(1, 0, 1), Message(1, 1, 0)]);
    assert Step(Fresh(1, 0), Reported(1, 1, 0), minTime) == closed;
    assert Step(closed, Reported(1, 0, 1), minTime) == waits;
    assert Step(waits, Reported(1, 1, 2), minTime) == waits;
    assert Step(waits, Checked(1 + minTime), minTime) == open;
    hide Step, LastReport;
    RunCons(Fresh(1, 0), Reported(1, 1, 0),
            [Reported(1, 0, 1)] + ([Reported(1, 1, 2)] + ([Checked(1 + minTime)] + [])), minTime);
    RunCons(closed, Reported(1, 0, 1), [Reported(1, 1, 2)] + ([Checked(1 + minTime)] + []), minTime);
    RunCons(waits, Reported(1, 1, 2), [Checked(1 + minTime)] + [], minTime);
    RunCons(waits, Checked(1 + minTime), [], minTime);
    BounceReports(1 + minTime);
  }

  lemma BounceReports(check: int)
    ensures LastReport([Reported(1, 1, 0)] + ([Reported(1, 0, 1)] + ([Reported(1, 1, 2)] + ([Checked(check)] + []))),
                       1, 0)
         == 1
  {
    var es := [Reported(1, 1, 0)] + ([Reported(1, 0, 1)] + ([Reported(1, 1, 2)] + ([Checked(check)] + [])));
    assert es[..3][2] == Reported(1, 1, 2);
  }

  // ---------------------------------------------------------------- openings that are left over

  lemma DueInFront(queue: seq<Reset>, r: Reset, now: int, minTime: int)
    requires now - r.timestamp < minTime
    ensures Due(queue + [r], r.port, now, minTime) <==> Due(queue, r.port, now, minTime)
  {
    var all := queue + [r];
    if Due(queue, r.port, now, minTime) {
      var i :| 0 <= i < |queue| && queue[i].port == r.port && now - queue[i].timestamp >= minTime;
      assert all[i] == queue[i];
    }
    if Due(all, r.port, now, minTime) {
      var i :| 0 <= i < |all| && all[i].port == r.port && now - all[i].timestamp >= minTime;
      assert i < |queue| && queue[i] == all[i];
    }
  }

  /** A contact that is closed opens at time t. A check before the minimum time has passed shows it as open if and only
      if an opening of the same contact that was queued before is due: one left over from an earlier closing. */
  lemma OpensEarlyExactlyWhen(b: Board, port: nat, t: int, now: int, minTime: int)
    requires IsBoard(b) && Sorted(b.queue) && UpTo(b.queue, t) && 1 <= port <= |b.cells|
    requires b.cells[port - 1].state != 0 && !Pending(b, port - 1)
    requires t <= now < t + minTime
    ensures var b' := Check(Report(b, port, 0, t, minTime), now, minTime);
      |b'.cells| == |b.cells| && (b'.cells[port - 1].state == 0 <==> Due(b.queue, port - 1, now, minTime))
  {
    hide Check, Due;
    var reported := Report(b, port, 0, t, minTime);
    ReportKeepsBoard(b, port, 0, t, minTime);
    CheckExactly(reported, now, minTime, port - 1);
    DueInFront(b.queue, Reset(port - 1, t), now, minTime);
    assert Pending(reported, port - 1);
  }

  /** No opening of the port in the queue is older than t. */
  ghost predicate NoneBefore(queue: seq<Reset>, port: int, t: int) {
    forall i :: 0 <= i < |queue| && queue[i].port == port ==> queue[i].timestamp >= t
  }

  /** No message from here on shows the port as open. */
  ghost predicate ShowsNoOpening(before: seq<Message>, after: seq<Message>, port: int) {
    before <= after && forall i :: |before| <= i < |after| && after[i].port == port ==> after[i].state == 1
  }

  lemma {:induction false} CheckIsQuiet(b: Board, now: int, minTime: int, port: int, t: int)
    requires NoneBefore(b.queue, port - 1, t) && now < t + minTime
    ensures var b' := Check(b, now, minTime);
      NoneBefore(b'.queue, port - 1, t) && ShowsNoOpening(b.log, b'.log, port)
    decreases |b.queue|
  {
    if b.queue != [] && b.queue[0].port < |b.cells| {
      var r, rest := b.queue[0], b.(queue := b.queue[1..]);
      assert NoneBefore(rest.queue, port - 1, t);
      if b.cells[r.port].change == 0 {
        CheckIsQuiet(rest, now, minTime, port, t);
      } else if now - r.timestamp >= minTime {
        CheckIsQuiet(Show(rest, r.port, Cell(r.timestamp, 0, 0)), now, minTime, port, t);
      }
    }
  }

  lemma ReportIsQuiet(b: Board, e: Event, minTime: int, port: int, t: int)
    requires NoneBefore(b.queue, port - 1, t) && e.Reported? && t <= e.now && minTime != 0
    requires e.value == 0 || e.value == 1
    ensures var b' := Step(b, e, minTime);
      NoneBefore(b'.queue, port - 1, t) && ShowsNoOpening(b.log, b'.log, port)
  {
  }

  /** With no opening of the port in the queue that is older than t, no message of an opening of this port goes out
      before t and the minimum time, whatever is reported and whenever it is checked. */
  lemma {:induction false} QuietUntil(b: Board, es: seq<Event>, minTime: int, port: int, t: int)
    requires NoneBefore(b.queue, port - 1, t) && minTime != 0 && Binary(es)
    requires forall i :: 0 <= i < |es| ==> t <= es[i].now < t + minTime
    ensures var b' := Run(b, es, minTime);
      NoneBefore(b'.queue, port - 1, t) && ShowsNoOpening(b.log, b'.log, port)
    decreases |es|
  {
    hide Step, NoneBefore;
    if es != [] {
      var b' := Step(b, es[0], minTime);
      StepIsQuiet(b, es[0], minTime, port, t);
      QuietUntil(b', es[1..], minTime, port, t);
    }
  }

  lemma StepIsQuiet(b: Board, e: Event, minTime: int, port: int, t: int)
    requires NoneBefore(b.queue, port - 1, t) && minTime != 0 && t <= e.now < t + minTime
    requires e.Reported? ==> e.value == 0 || e.value == 1
    ensures var b' := Step(b, e, minTime);
      NoneBefore(b'.queue, port - 1, t) && ShowsNoOpening(b.log, b'.log, port)
  {
    if e.Reported? {
      ReportIsQuiet(b, e, minTime, port, t);
    } else {
      CheckIsQuiet(b, e.now, minTime, port, t);
    }
  }

  /** If no opening of a port is left over when it opens at time t, none is shown before the minimum time has passed. */
  lemma NothingLeftOverNothingEarly(b: Board, es: seq<Event>, minTime: int, port: int, t: int)
    requires !Queued(b.queue, port - 1) && minTime != 0 && Binary(es)
    requires forall i :: 0 <= i < |es| ==> t <= es[i].now < t + minTime
    ensures ShowsNoOpening(b.log, Run(b, [Reported(port, 0, t)] + es, minTime).log, port)
  {
    hide Run;
    ReportIsQuiet(b, Reported(port, 0, t), minTime, port, t);
    QuietUntil(Step(b, Reported(port, 0, t), minTime), es, minTime, port, t);
    RunCons(b, Reported(port, 0, t), es, minTime);
  }

  /** Openings are queued as often as they are reported, and one that is left over from a closing before can end the
      next one early: here contact 1 opens at minTime + 2 and is shown as open one tick later, as of time 3. */
  lemma LeftOverOpeningIsShown(minTime: int)
    requires minTime > 3
    ensures var es := [Reported(1, 1, 0)] + ([Reported(2, 1, 0)] + ([Reported(1, 0, 1)] + ([Reported(2, 0, 2)] +
                      ([Reported(1, 0, 3)] + ([Checked(minTime + 1)] + ([Reported(1, 1, minTime + 2)] +
                      ([Reported(1, 0, minTime + 2)] + ([Checked(minTime + 3)] + []))))))));
      Run(Fresh(2, 0), es, minTime).cells == [Cell(3, 0, 0), Cell(2, 0, 0)]
  {
    var m := minTime;
    var log := [Message(1, 0, 1)];
    var b1 := Board([Cell(0, 1, 0), Cell(0, 0, 0)], [], log);
    var log2 := log + [Message(2, 0, 1)];
    var b2 := Board([Cell(0, 1, 0), Cell(0, 1, 0)], [], log2);
    var b3 := Board([Cell(0, 1, -1), Cell(0, 1, 0)], [Reset(0, 1)], log2);
    var b4 := Board([Cell(0, 1, -1), Cell(0, 1, -1)], [Reset(0, 1), Reset(1, 2)], log2);
    var b5 := Board([Cell(0, 1, -1), Cell(0, 1, -1)], [Reset(0, 1), Reset(1, 2), Reset(0, 3)], log2);
    var log6 := log2 + [Message(1, 1, 0)];
    var b6 := Board([Cell(1, 0, 0), Cell(0, 1, -1)], [Reset(1, 2), Reset(0, 3)], log6);
    var log7 := log6 + [Message(1, m + 2, 1)];
    var b7 := Board([Cell(m + 2, 1, 0), Cell(0, 1, -1)], [Reset(1, 2), Reset(0, 3)], log7);
    var b8 := Board([Cell(m + 2, 1, -1), Cell(0, 1, -1)], [Reset(1, 2), Reset(0, 3), Reset(0, m + 2)], log7);
    assert Step(Fresh(2, 0), Reported(1, 1, 0), m) == b1;
    assert Step(b1, Reported(2, 1, 0), m) == b2;
    assert Step(b2, Reported(1, 0, 1), m) == b3;
    assert Step(b3, Reported(2, 0, 2), m) == b4;
    assert Step(b4, Reported(1, 0, 3), m) == b5;
    FirstCheck(m, b5, b6);
    assert Step(b6, Reported(1, 1, m + 2), m) == b7;
    assert Step(b7, Reported(1, 0, m + 2), m) == b8;
    var b9 := SecondCheck(m, b8);
    hide Step;
    var e9 := [Checked(m + 3)] + [];
    var e8 := [Reported(1, 0, m + 2)] + e9;
    var e7 := [Reported(1, 1, m + 2)] + e8;
    var e6 := [Checked(m + 1)] + e7;
    var e5 := [Reported(1, 0, 3)] + e6;
    var e4 := [Reported(2, 0, 2)] + e5;
    var e3 := [Reported(1, 0, 1)] + e4;
    var e2 := [Reported(2, 1, 0)] + e3;
    RunCons(Fresh(2, 0), Reported(1, 1, 0), e2, m);
    RunCons(b1, Reported(2, 1, 0), e3, m);
    RunCons(b2, Reported(1, 0, 1), e4, m);
    RunCons(b3, Reported(2, 0, 2), e5, m);
    RunCons(b4, Reported(1, 0, 3), e6, m);
    RunCons(b5, Checked(m + 1), e7, m);
    RunCons(b6, Reported(1, 1, m + 2), e8, m);
    RunCons(b7, Reported(1, 0, m + 2), e9, m);
    RunCons(b8, Checked(m + 3), [], m);
  }

  lemma FirstCheck(m: int, b: Board, b': Board)
    requires m > 3 && b.cells == [Cell(0, 1, -1), Cell(0, 1, -1)]
    requires b.queue == [Reset(0, 1), Reset(1, 2), Reset(0, 3)]
    requires b' == Board([Cell(1, 0, 0), Cell(0, 1, -1)], [Reset(1, 2), Reset(0, 3)], b.log + [Message(1, 1, 0)])
    ensures Check(b, m + 1, m) == b'
  {
    assert b.queue[1..] == b'.queue;
    assert b.cells[0 := Cell(1, 0, 0)] == b'.cells;
  }

  lemma SecondCheck(m: int, b: Board) returns (b': Board)
    requires m > 3 && b.cells == [Cell(m + 2, 1, -1), Cell(0, 1, -1)]
    requires b.queue == [Reset(1, 2), Reset(0, 3), Reset(0, m + 2)]
    ensures Check(b, m + 3, m) == b' && b'.cells == [Cell(3, 0, 0), Cell(2, 0, 0)]
  {
    var b1 := Show(b.(queue := [Reset(0, 3), Reset(0, m + 2)]), 1, Cell(2, 0, 0));
    var b2 := Show(b1.(queue := [Reset(0, m + 2)]), 0, Cell(3, 0, 0));
    b' := b2.(queue := []);
    assert b.queue[1..] == b1.queue && b1.queue[1..] == b2.queue && b2.queue[1..] == [];
    assert Check(b2, m + 3, m) == b';
    assert Check(b1, m + 3, m) == b';
  }
}
