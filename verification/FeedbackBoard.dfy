/**
  The feedback contacts of srcp-fb.c, as values. A contact that closes is shown at once. One that opens is shown
  only when a minimum time has passed: it is marked, and the opening is queued with its time. Everything that is
  shown goes into a log of info messages.
 */
module FeedbackBoard {

  /** One contact; a negative change marks an opening that has not been shown. */
  datatype Cell = Cell(timestamp: int, state: int, change: int)

  /** An opening that waits. Ports in the queue count from 0. */
  datatype Reset = Reset(port: nat, timestamp: int)

  /** An info message. Ports in messages count from 1. */
  datatype Message = Message(port: int, timestamp: int, state: int)

  datatype Board = Board(cells: seq<Cell>, queue: seq<Reset>, log: seq<Message>)

  /** The state of a contact is a C short of 16 bits. */
  function ToShort(value: int): int {
    (value + 0x8000) % 0x1_0000 - 0x8000
  }

  predicate Pending(b: Board, port: int) {
    0 <= port < |b.cells| && b.cells[port].change < 0
  }

  function Show(b: Board, port: nat, cell: Cell): Board
    requires port < |b.cells|
  {
    b.(cells := b.cells[port := cell], log := b.log + [Message(port + 1, cell.timestamp, cell.state)])
  }

  /** updateFB, where port counts from 1 and now is the clock. */
  function Report(b: Board, port: int, value: int, now: int, minTime: int): Board {
    if port > |b.cells| || port < 1 || b.cells[port - 1].state == value then b
    else
      var cell := b.cells[port - 1];
      if value == 0 then
        if minTime == 0 then Show(b, port - 1, Cell(now, value, 0))
        else b.(cells := b.cells[port - 1 := cell.(change := -1)], queue := b.queue + [Reset(port - 1, now)])
      else if cell.change < 0 then b.(cells := b.cells[port - 1 := cell.(change := 0)])
      else Show(b, port - 1, Cell(now, ToShort(value), 0))
  }

  /** check_reset_fb, at one reading of the clock. */
  function Check(b: Board, now: int, minTime: int): Board
    decreases |b.queue|
  {
    if b.queue == [] || b.queue[0].port >= |b.cells| then b
    else
      var r, rest := b.queue[0], b.(queue := b.queue[1..]);
      if b.cells[r.port].change == 0 then Check(rest, now, minTime)
      else if now - r.timestamp < minTime then b
      else Check(Show(rest, r.port, Cell(r.timestamp, 0, 0)), now, minTime)
  }

  // ---------------------------------------------------------------- runs

  datatype Event = Reported(port: int, value: int, now: int) | Checked(now: int)

  function Step(b: Board, e: Event, minTime: int): Board {
    match e
    case Reported(port, value, now) => Report(b, port, value, now, minTime)
    case Checked(now) => Check(b, now, minTime)
  }

  function Run(b: Board, es: seq<Event>, minTime: int): Board
    decreases |es|
  {
    if es == [] then b else Run(Step(b, es[0], minTime), es[1..], minTime)
  }

  /** The clock does not go back. */
  predicate Monotone(es: seq<Event>, from: int)
    decreases |es|
  {
    es == [] || (from <= es[0].now && Monotone(es[1..], es[0].now))
  }

  function Last(es: seq<Event>, from: int): int {
    if es == [] then from else es[|es| - 1].now
  }

  /** init_FB. */
  function Fresh(number: nat, now: int): Board {
    Board(seq(number, _ => Cell(now, 0, 0)), [], [])
  }

  // ---------------------------------------------------------------- what every step keeps

  ghost predicate Queued(queue: seq<Reset>, port: int) {
    exists i :: 0 <= i < |queue| && queue[i].port == port
  }

  ghost predicate Sorted(queue: seq<Reset>) {
    forall i, j :: 0 <= i < j < |queue| ==> queue[i].timestamp <= queue[j].timestamp
  }

  ghost predicate UpTo(queue: seq<Reset>, now: int) {
    forall i :: 0 <= i < |queue| ==> queue[i].timestamp <= now
  }

  /** Every contact that is marked is shown as closed, and its opening is in the queue. */
  ghost predicate IsBoard(b: Board) {
    && (forall i :: 0 <= i < |b.queue| ==> b.queue[i].port < |b.cells|)
    && (forall p :: 0 <= p < |b.cells| ==> -1 <= b.cells[p].change <= 0)
    && (forall p :: Pending(b, p) ==> b.cells[p].state != 0 && Queued(b.queue, p))
  }

  lemma QueuedLater(queue: seq<Reset>, r: Reset, port: int)
    requires Queued(queue, port) || r.port == port
    ensures Queued(queue + [r], port)
  {
    if r.port == port {
      assert (queue + [r])[|queue|] == r;
    } else {
      var i :| 0 <= i < |queue| && queue[i].port == port;
      assert (queue + [r])[i] == queue[i];
    }
  }

  lemma ReportKeepsBoard(b: Board, port: int, value: int, now: int, minTime: int)
    requires IsBoard(b)
    ensures IsBoard(Report(b, port, value, now, minTime))
  {
    var b' := Report(b, port, value, now, minTime);
    if |b'.queue| > |b.queue| {
      forall p | Pending(b', p) ensures b'.cells[p].state != 0 && Queued(b'.queue, p) {
        assert p == port - 1 || Pending(b, p);
        QueuedLater(b.queue, Reset(port - 1, now), p);
      }
    } else {
      forall p | Pending(b', p) ensures b'.cells[p].state != 0 && Queued(b'.queue, p) {
        assert Pending(b, p);
      }
    }
  }

  lemma QueuedBehind(queue: seq<Reset>, port: int)
    requires Queued(queue, port) && queue[0].port != port
    ensures Queued(queue[1..], port)
  {
    var i :| 0 <= i < |queue| && queue[i].port == port;
    assert queue[1..][i - 1] == queue[i];
  }

  /** Taking the first opening off the queue keeps the board, if its contact is not marked afterwards. */
  lemma PopKeepsBoard(b: Board, cell: Cell, log: seq<Message>)
    requires IsBoard(b) && b.queue != [] && cell.change == 0
    ensures IsBoard(Board(b.cells[b.queue[0].port := cell], b.queue[1..], log))
  {
    var b' := Board(b.cells[b.queue[0].port := cell], b.queue[1..], log);
    forall p | Pending(b', p) ensures b'.cells[p].state != 0 && Queued(b'.queue, p) {
      assert Pending(b, p) && p != b.queue[0].port;
      QueuedBehind(b.queue, p);
    }
  }

  lemma {:induction false} CheckKeepsBoard(b: Board, now: int, minTime: int)
    requires IsBoard(b)
    ensures IsBoard(Check(b, now, minTime))
    decreases |b.queue|
  {
    if b.queue != [] {
      var r, rest := b.queue[0], b.(queue := b.queue[1..]);
      if b.cells[r.port].change == 0 {
        assert b.cells == b.cells[r.port := b.cells[r.port]];
        PopKeepsBoard(b, b.cells[r.port], b.log);
        CheckKeepsBoard(rest, now, minTime);
      } else if now - r.timestamp >= minTime {
        var b' := Show(rest, r.port, Cell(r.timestamp, 0, 0));
        PopKeepsBoard(b, Cell(r.timestamp, 0, 0), b'.log);
        CheckKeepsBoard(b', now, minTime);
      }
    }
  }

  /** In every run from the start, a marked contact is shown as closed and has an opening in the queue. */
  lemma {:induction false} RunKeepsBoard(b: Board, es: seq<Event>, minTime: int)
    requires IsBoard(b)
    ensures IsBoard(Run(b, es, minTime))
    decreases |es|
  {
    hide IsBoard, Report, Check;
    if es != [] {
      if es[0].Reported? {
        ReportKeepsBoard(b, es[0].port, es[0].value, es[0].now, minTime);
      } else {
        CheckKeepsBoard(b, es[0].now, minTime);
      }
      RunKeepsBoard(Step(b, es[0], minTime), es[1..], minTime);
    }
  }

  // ---------------------------------------------------------------- the log

  /** What a client knows that has read the messages. */
  function Replay(states: seq<int>, log: seq<Message>): seq<int>
    decreases |log|
  {
    if log == [] then states
    else
      var m := log[|log| - 1];
      var before := Replay(states, log[..|log| - 1]);
      if 1 <= m.port <= |before| then before[m.port - 1 := m.state] else before
  }

  function States(cells: seq<Cell>): (states: seq<int>)
    ensures |states| == |cells| && forall p :: 0 <= p < |cells| ==> states[p] == cells[p].state
  {
    seq(|cells|, p requires 0 <= p < |cells| => cells[p].state)
  }

  ghost predicate Logged(b: Board, states: seq<int>) {
    Replay(states, b.log) == States(b.cells)
  }

  lemma ShowIsLogged(b: Board, port: nat, cell: Cell, states: seq<int>)
    requires Logged(b, states) && port < |b.cells|
    ensures Logged(Show(b, port, cell), states)
  {
    var log := Show(b, port, cell).log;
    assert log[..|log| - 1] == b.log;
    assert States(b.cells[port := cell]) == States(b.cells)[port := cell.state];
  }

  lemma {:induction false} CheckIsLogged(b: Board, now: int, minTime: int, states: seq<int>)
    requires Logged(b, states)
    ensures Logged(Check(b, now, minTime), states) && |Check(b, now, minTime).cells| == |b.cells|
    decreases |b.queue|
  {
    if b.queue != [] && b.queue[0].port < |b.cells| {
      var r, rest := b.queue[0], b.(queue := b.queue[1..]);
      if b.cells[r.port].change == 0 {
        CheckIsLogged(rest, now, minTime, states);
      } else if now - r.timestamp >= minTime {
        ShowIsLogged(rest, r.port, Cell(r.timestamp, 0, 0), states);
        CheckIsLogged(Show(rest, r.port, Cell(r.timestamp, 0, 0)), now, minTime, states);
      }
    }
  }

  lemma ReportIsLogged(b: Board, port: int, value: int, now: int, minTime: int, states: seq<int>)
    requires Logged(b, states)
    ensures Logged(Report(b, port, value, now, minTime), states)
    ensures |Report(b, port, value, now, minTime).cells| == |b.cells|
  {
    hide States, Replay, ToShort;
    if !(port > |b.cells| || port < 1) {
      var cell := b.cells[port - 1];
      ShowIsLogged(b, port - 1, Cell(now, value, 0), states);
      ShowIsLogged(b, port - 1, Cell(now, ToShort(value), 0), states);
      assert States(b.cells[port - 1 := cell.(change := -1)]) == States(b.cells);
      assert States(b.cells[port - 1 := cell.(change := 0)]) == States(b.cells);
    }
  }

  /** The log is faithful: replayed from the states at the start, the messages give the states at the end. */
  lemma {:induction false} RunIsLogged(b: Board, es: seq<Event>, minTime: int, states: seq<int>)
    requires Logged(b, states)
    ensures Logged(Run(b, es, minTime), states) && |Run(b, es, minTime).cells| == |b.cells|
    decreases |es|
  {
    hide Logged, Report, Check;
    if es != [] {
      if es[0].Reported? {
        ReportIsLogged(b, es[0].port, es[0].value, es[0].now, minTime, states);
      } else {
        CheckIsLogged(b, es[0].now, minTime, states);
      }
      RunIsLogged(Step(b, es[0], minTime), es[1..], minTime, states);
    }
  }

  lemma FreshIsBoard(number: nat, now: int)
    ensures IsBoard(Fresh(number, now)) && Logged(Fresh(number, now), seq(number, _ => 0))
  {
  }

  // ---------------------------------------------------------------- time

  lemma {:induction false} CheckKeepsOrder(b: Board, now: int, minTime: int)
    requires Sorted(b.queue) && UpTo(b.queue, now)
    ensures Sorted(Check(b, now, minTime).queue) && UpTo(Check(b, now, minTime).queue, now)
    decreases |b.queue|
  {
    if b.queue != [] && b.queue[0].port < |b.cells| {
      var r, rest := b.queue[0], b.(queue := b.queue[1..]);
      if b.cells[r.port].change == 0 {
        CheckKeepsOrder(rest, now, minTime);
      } else if now - r.timestamp >= minTime {
        CheckKeepsOrder(Show(rest, r.port, Cell(r.timestamp, 0, 0)), now, minTime);
      }
    }
  }

  /** Under a clock that does not go back, the queue stays in the order of time. */
  lemma {:induction false} RunKeepsOrder(b: Board, es: seq<Event>, minTime: int, from: int)
    requires Sorted(b.queue) && UpTo(b.queue, from) && Monotone(es, from)
    ensures Sorted(Run(b, es, minTime).queue) && UpTo(Run(b, es, minTime).queue, Last(es, from))
    decreases |es|
  {
    hide Check;
    if es != [] {
      var b' := Step(b, es[0], minTime);
      assert Sorted(b'.queue) && UpTo(b'.queue, es[0].now) by {
        if es[0].Checked? { CheckKeepsOrder(b, es[0].now, minTime); }
      }
      RunKeepsOrder(b', es[1..], minTime, es[0].now);
    }
  }

  /** An opening of the port is at least the minimum time old. */
  ghost predicate Due(queue: seq<Reset>, port: int, now: int, minTime: int) {
    exists i :: 0 <= i < |queue| && queue[i].port == port && now - queue[i].timestamp >= minTime
  }

  /** The time of the first opening of a port in the queue. */
  function FirstTime(queue: seq<Reset>, port: int): int
    decreases |queue|
  {
    if queue == [] then 0 else if queue[0].port == port then queue[0].timestamp else FirstTime(queue[1..], port)
  }

  lemma DueBehind(queue: seq<Reset>, port: int, now: int, minTime: int)
    requires queue != [] && queue[0].port != port
    ensures Due(queue, port, now, minTime) <==> Due(queue[1..], port, now, minTime)
  {
    if Due(queue, port, now, minTime) {
      var i :| 0 <= i < |queue| && queue[i].port == port && now - queue[i].timestamp >= minTime;
      assert queue[1..][i - 1] == queue[i];
    }
    if Due(queue[1..], port, now, minTime) {
      var i :| 0 <= i < |queue[1..]| && queue[1..][i].port == port && now - queue[1..][i].timestamp >= minTime;
      assert queue[1..][i] == queue[i + 1];
    }
  }

  /** What a check does, exactly: it resets the marked contacts with an opening that is due, to the time of their
      first opening in the queue, and touches no other contact; what stays in the queue is not due. */
  lemma {:induction false} CheckExactly(b: Board, now: int, minTime: int, port: nat)
    requires IsBoard(b) && Sorted(b.queue) && port < |b.cells|
    ensures var b' := Check(b, now, minTime);
      && |b'.cells| == |b.cells|
      && b'.cells[port] == (if Pending(b, port) && Due(b.queue, port, now, minTime)
                            then Cell(FirstTime(b.queue, port), 0, 0) else b.cells[port])
      && (forall i :: 0 <= i < |b'.queue| ==> now - b'.queue[i].timestamp < minTime)
    decreases |b.queue|
  {
    if b.queue != [] {
      var r, rest := b.queue[0], b.(queue := b.queue[1..]);
      if b.cells[r.port].change == 0 {
        assert b.cells == b.cells[r.port := b.cells[r.port]];
        PopKeepsBoard(b, b.cells[r.port], b.log);
        if r.port != port { DueBehind(b.queue, port, now, minTime); }
        CheckExactly(rest, now, minTime, port);
      } else if now - r.timestamp >= minTime {
        var b' := Show(rest, r.port, Cell(r.timestamp, 0, 0));
        PopKeepsBoard(b, Cell(r.timestamp, 0, 0), b'.log);
        if r.port != port { DueBehind(b.queue, port, now, minTime); }
        CheckExactly(b', now, minTime, port);
      }
    }
  }
}
