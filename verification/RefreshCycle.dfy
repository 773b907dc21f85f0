/**
  The refresh cycle over both packet pools: refresh_loco of ddl.c takes a turn of one pool, and with both
  protocols enabled the pools take turns.
 */
module RefreshCycle {
  import opened Refresh

  const MAERKLIN_SLOTS := 5
  const MAERKLIN_IDLE := 81

  const NMRA_SLOTS := 2
  const NMRA_IDLE := 128

  datatype Cycle = Cycle(maerklin: Pool, nmra: Pool, maerklinTurn: bool)

  datatype CycleEvent = MaerklinUpdated(addr: int, slots: Slots) | NmraUpdated(addr: int, slots: Slots) | Refreshed

  datatype CycleSent = MaerklinSent(sent: Sent) | NmraSent(sent: Sent)

  ghost predicate IsCycle(c: Cycle) {
    IsPool(c.maerklin, MAERKLIN_SLOTS) && IsPool(c.nmra, NMRA_SLOTS)
  }

  predicate AreCycleEvents(es: seq<CycleEvent>) {
    forall i :: 0 <= i < |es| ==>
      && (es[i].MaerklinUpdated? ==> |es[i].slots| == MAERKLIN_SLOTS)
      && (es[i].NmraUpdated? ==> |es[i].slots| == NMRA_SLOTS)
  }

  /** One turn of refresh_loco; both tells whether both protocols are enabled. */
  function RefreshOnce(c: Cycle, both: bool): Cycle {
    var turned := if c.maerklinTurn then c.(maerklin := Advance(c.maerklin, MAERKLIN_SLOTS))
                  else c.(nmra := Advance(c.nmra, NMRA_SLOTS));
    turned.(maerklinTurn := if both then !c.maerklinTurn else c.maerklinTurn)
  }

  function CycleStep(c: Cycle, e: CycleEvent, both: bool): Cycle {
    match e
    case MaerklinUpdated(addr, slots) => c.(maerklin := Update(c.maerklin, addr, slots, MAERKLIN_IDLE))
    case NmraUpdated(addr, slots) => c.(nmra := Update(c.nmra, addr, slots, NMRA_IDLE))
    case Refreshed => RefreshOnce(c, both)
  }

  function CycleRun(c: Cycle, es: seq<CycleEvent>, both: bool): Cycle
    decreases |es|
  {
    if es == [] then c else CycleRun(CycleStep(c, es[0], both), es[1..], both)
  }

  lemma CycleStepKeeps(c: Cycle, e: CycleEvent, both: bool)
    requires IsCycle(c) && AreCycleEvents([e])
    ensures IsCycle(CycleStep(c, e, both))
    ensures c.maerklin.known[c.maerklin.loco] in c.maerklin.packets && c.nmra.known[c.nmra.loco] in c.nmra.packets
  {
    assert [e][0] == e;
    TurnKeepsPool(c.maerklin, MAERKLIN_SLOTS);
    TurnKeepsPool(c.nmra, NMRA_SLOTS);
    match e
    case MaerklinUpdated(addr, slots) => UpdateKeepsPool(c.maerklin, addr, slots, MAERKLIN_IDLE);
    case NmraUpdated(addr, slots) => UpdateKeepsPool(c.nmra, addr, slots, NMRA_IDLE);
    case Refreshed =>
  }

  lemma HeadEvents(es: seq<CycleEvent>)
    requires AreCycleEvents(es) && es != []
    ensures AreCycleEvents([es[0]]) && AreCycleEvents(es[1..])
  {
  }

  /** What refresh_loco hands to send_packet. */
  ghost function SendTurn(c: Cycle): CycleSent
    requires IsCycle(c)
  {
    TurnKeepsPool(c.maerklin, MAERKLIN_SLOTS);
    TurnKeepsPool(c.nmra, NMRA_SLOTS);
    if c.maerklinTurn then MaerklinSent(Send(c.maerklin)) else NmraSent(Send(c.nmra))
  }

  ghost function CycleSends(c: Cycle, es: seq<CycleEvent>, both: bool): seq<CycleSent>
    requires IsCycle(c) && AreCycleEvents(es)
    decreases |es|
  {
    if es == [] then []
    else
      HeadEvents(es);
      CycleStepKeeps(c, es[0], both);
      (if es[0].Refreshed? then [SendTurn(c)] else []) + CycleSends(CycleStep(c, es[0], both), es[1..], both)
  }

  function Refreshes(es: seq<CycleEvent>): nat
    decreases |es|
  {
    if es == [] then 0 else (if es[0].Refreshed? then 1 else 0) + Refreshes(es[1..])
  }

  // ---------------------------------------------------------------- one pool at a time

  /** The event that one pool sees, if any. */
  function MaerklinEvent(e: CycleEvent, turn: bool): seq<Event> {
    match e
    case MaerklinUpdated(addr, slots) => [Updated(addr, slots)]
    case NmraUpdated(_, _) => []
    case Refreshed => if turn then [Turn] else []
  }

  function NmraEvent(e: CycleEvent, turn: bool): seq<Event> {
    match e
    case MaerklinUpdated(_, _) => []
    case NmraUpdated(addr, slots) => [Updated(addr, slots)]
    case Refreshed => if turn then [] else [Turn]
  }

  predicate NextTurn(e: CycleEvent, turn: bool, both: bool) {
    if both && e.Refreshed? then !turn else turn
  }

  function MaerklinPart(es: seq<CycleEvent>, turn: bool, both: bool): seq<Event>
    decreases |es|
  {
    if es == [] then [] else MaerklinEvent(es[0], turn) + MaerklinPart(es[1..], NextTurn(es[0], turn, both), both)
  }

  function NmraPart(es: seq<CycleEvent>, turn: bool, both: bool): seq<Event>
    decreases |es|
  {
    if es == [] then [] else NmraEvent(es[0], turn) + NmraPart(es[1..], NextTurn(es[0], turn, both), both)
  }

  ghost function MaerklinOnly(sends: seq<CycleSent>): seq<Sent>
    decreases |sends|
  {
    if sends == [] then []
    else (if sends[0].MaerklinSent? then [sends[0].sent] else []) + MaerklinOnly(sends[1..])
  }

  ghost function NmraOnly(sends: seq<CycleSent>): seq<Sent>
    decreases |sends|
  {
    if sends == [] then []
    else (if sends[0].NmraSent? then [sends[0].sent] else []) + NmraOnly(sends[1..])
  }

  lemma {:induction false} PartsAreEvents(es: seq<CycleEvent>, turn: bool, both: bool)
    requires AreCycleEvents(es)
    ensures AreEvents(MaerklinPart(es, turn, both), MAERKLIN_SLOTS)
    ensures AreEvents(NmraPart(es, turn, both), NMRA_SLOTS)
    decreases |es|
  {
    if es != [] {
      HeadEvents(es);
      PartsAreEvents(es[1..], NextTurn(es[0], turn, both), both);
    }
  }

  /** A run of one pool that begins with at most one event. */
  lemma RunFirst(p: Pool, first: seq<Event>, rest: seq<Event>, slots: nat, idle: int)
    requires |first| <= 1
    ensures Run(p, first + rest, slots, idle)
         == Run(if first == [] then p else Step(p, first[0], slots, idle), rest, slots, idle)
  {
    hide Step;
    if first == [] { assert first + rest == rest; }
    else { assert (first + rest)[1..] == rest && (first + rest)[0] == first[0] && first[1..] == []; }
  }

  lemma TurnsFirst(first: seq<Event>, rest: seq<Event>)
    requires |first| <= 1
    ensures Turns(first + rest) == (if first == [Turn] then 1 else 0) + Turns(rest)
  {
    if first == [] { assert first + rest == rest; }
    else { assert (first + rest)[1..] == rest && (first + rest)[0] == first[0]; }
  }

  lemma SendsFirst(p: Pool, first: seq<Event>, rest: seq<Event>, slots: nat, idle: int)
    requires |first| <= 1 && IsPool(p, slots) && AreEvents(first + rest, slots)
    ensures AreEvents(rest, slots)
    ensures var p' := if first == [] then p else Step(p, first[0], slots, idle);
      && IsPool(p', slots) && p.known[p.loco] in p.packets && |p.packets[p.known[p.loco]]| == slots
      && Sends(p, first + rest, slots, idle)
         == (if first == [Turn] then [Send(p)] else []) + Sends(p', rest, slots, idle)
  {
    hide Update, Advance, IsPool, Send;
    assert forall i :: 0 <= i < |rest| ==> rest[i] == (first + rest)[|first| + i];
    PoolCursor(p, slots);
    TurnKeepsPool(p, slots);
    if first == [] {
      assert first + rest == rest;
      assert [] + Sends(p, rest, slots, idle) == Sends(p, rest, slots, idle);
    } else {
      assert (first + rest)[1..] == rest && (first + rest)[0] == first[0];
      StepKeepsPool(p, first[0], slots, idle);
    }
  }

  /** Each pool goes through the turns and updates of its own. */
  lemma {:induction false} PoolsRunApart(c: Cycle, es: seq<CycleEvent>, both: bool)
    ensures var end := CycleRun(c, es, both);
            && end.maerklin == Run(c.maerklin, MaerklinPart(es, c.maerklinTurn, both), MAERKLIN_SLOTS, MAERKLIN_IDLE)
            && end.nmra == Run(c.nmra, NmraPart(es, c.maerklinTurn, both), NMRA_SLOTS, NMRA_IDLE)
    decreases |es|
  {
    hide Update, Advance;
    if es != [] {
      var c' := CycleStep(c, es[0], both);
      PoolsRunApart(c', es[1..], both);
      RunFirst(c.maerklin, MaerklinEvent(es[0], c.maerklinTurn), MaerklinPart(es[1..], c'.maerklinTurn, both),
               MAERKLIN_SLOTS, MAERKLIN_IDLE);
      RunFirst(c.nmra, NmraEvent(es[0], c.maerklinTurn), NmraPart(es[1..], c'.maerklinTurn, both),
               NMRA_SLOTS, NMRA_IDLE);
    }
  }

  lemma OnlyFirst(s: CycleSent, rest: seq<CycleSent>)
    ensures MaerklinOnly([s] + rest) == (if s.MaerklinSent? then [s.sent] else []) + MaerklinOnly(rest)
    ensures NmraOnly([s] + rest) == (if s.NmraSent? then [s.sent] else []) + NmraOnly(rest)
  {
    assert ([s] + rest)[1..] == rest;
  }

  /** What is sent from each pool is what it would send alone. */
  lemma {:induction false} PoolsSendApart(c: Cycle, es: seq<CycleEvent>, both: bool)
    requires IsCycle(c) && AreCycleEvents(es)
    ensures AreEvents(MaerklinPart(es, c.maerklinTurn, both), MAERKLIN_SLOTS)
    ensures AreEvents(NmraPart(es, c.maerklinTurn, both), NMRA_SLOTS)
    ensures MaerklinOnly(CycleSends(c, es, both))
         == Sends(c.maerklin, MaerklinPart(es, c.maerklinTurn, both), MAERKLIN_SLOTS, MAERKLIN_IDLE)
    ensures NmraOnly(CycleSends(c, es, both))
         == Sends(c.nmra, NmraPart(es, c.maerklinTurn, both), NMRA_SLOTS, NMRA_IDLE)
    decreases |es|
  {
    hide Update, Advance, IsPool, Send;
    PartsAreEvents(es, c.maerklinTurn, both);
    if es != [] {
      HeadEvents(es);
      CycleStepKeeps(c, es[0], both);
      var c' := CycleStep(c, es[0], both);
      PoolsSendApart(c', es[1..], both);
      SendsFirst(c.maerklin, MaerklinEvent(es[0], c.maerklinTurn), MaerklinPart(es[1..], c'.maerklinTurn, both),
                 MAERKLIN_SLOTS, MAERKLIN_IDLE);
      SendsFirst(c.nmra, NmraEvent(es[0], c.maerklinTurn), NmraPart(es[1..], c'.maerklinTurn, both),
                 NMRA_SLOTS, NMRA_IDLE);
      var rest := CycleSends(c', es[1..], both);
      if es[0].Refreshed? {
        OnlyFirst(SendTurn(c), rest);
      } else {
        assert [] + rest == rest;
      }
    }
  }

  /** With both protocols enabled, the turns alternate strictly. */
  lemma {:induction false} TurnsAlternate(c: Cycle, es: seq<CycleEvent>, i: nat)
    requires IsCycle(c) && AreCycleEvents(es)
    requires i < |CycleSends(c, es, true)|
    ensures CycleSends(c, es, true)[i].MaerklinSent? <==> (c.maerklinTurn == (i % 2 == 0))
    decreases |es|
  {
    hide Update, Advance, IsPool, Send;
    HeadEvents(es);
    CycleStepKeeps(c, es[0], true);
    var c' := CycleStep(c, es[0], true);
    if !es[0].Refreshed? {
      TurnsAlternate(c', es[1..], i);
    } else if i > 0 {
      TurnsAlternate(c', es[1..], i - 1);
    }
  }

  lemma {:induction false} TurnsAreHalved(es: seq<CycleEvent>, turn: bool)
    ensures Turns(MaerklinPart(es, turn, true)) == (Refreshes(es) + if turn then 1 else 0) / 2
    ensures Turns(NmraPart(es, turn, true)) == (Refreshes(es) + if turn then 0 else 1) / 2
    decreases |es|
  {
    if es != [] {
      var turn' := NextTurn(es[0], turn, true);
      TurnsAreHalved(es[1..], turn');
      TurnsFirst(MaerklinEvent(es[0], turn), MaerklinPart(es[1..], turn', true));
      TurnsFirst(NmraEvent(es[0], turn), NmraPart(es[1..], turn', true));
    }
  }

  /** With one protocol enabled, all turns are of its pool. */
  lemma {:induction false} TurnsAreAll(es: seq<CycleEvent>, turn: bool)
    ensures Turns(MaerklinPart(es, turn, false)) == if turn then Refreshes(es) else 0
    ensures Turns(NmraPart(es, turn, false)) == if turn then 0 else Refreshes(es)
    decreases |es|
  {
    if es != [] {
      TurnsAreAll(es[1..], turn);
      TurnsFirst(MaerklinEvent(es[0], turn), MaerklinPart(es[1..], turn, false));
      TurnsFirst(NmraEvent(es[0], turn), NmraPart(es[1..], turn, false));
    }
  }

  // ---------------------------------------------------------------- fairness

  ghost predicate HasMaerklinUpdate(es: seq<CycleEvent>, addr: int) {
    exists i :: 0 <= i < |es| && es[i].MaerklinUpdated? && es[i].addr == addr
  }

  ghost predicate HasNmraUpdate(es: seq<CycleEvent>, addr: int) {
    exists i :: 0 <= i < |es| && es[i].NmraUpdated? && es[i].addr == addr
  }

  lemma {:induction false} MaerklinUpdates(es: seq<CycleEvent>, turn: bool, both: bool, addr: int)
    requires IsUpdated(MaerklinPart(es, turn, both), addr)
    ensures HasMaerklinUpdate(es, addr)
    decreases |es|
  {
    var part := MaerklinPart(es, turn, both);
    var i :| 0 <= i < |part| && part[i].Updated? && part[i].addr == addr;
    var first, rest := MaerklinEvent(es[0], turn), MaerklinPart(es[1..], NextTurn(es[0], turn, both), both);
    if i < |first| {
      assert es[0].MaerklinUpdated? && es[0].addr == addr;
    } else {
      assert rest[i - |first|] == part[i];
      MaerklinUpdates(es[1..], NextTurn(es[0], turn, both), both, addr);
      var j :| 0 <= j < |es[1..]| && es[1..][j].MaerklinUpdated? && es[1..][j].addr == addr;
      assert es[j + 1] == es[1..][j];
    }
  }

  lemma {:induction false} NmraUpdates(es: seq<CycleEvent>, turn: bool, both: bool, addr: int)
    requires IsUpdated(NmraPart(es, turn, both), addr)
    ensures HasNmraUpdate(es, addr)
    decreases |es|
  {
    var part := NmraPart(es, turn, both);
    var i :| 0 <= i < |part| && part[i].Updated? && part[i].addr == addr;
    var first, rest := NmraEvent(es[0], turn), NmraPart(es[1..], NextTurn(es[0], turn, both), both);
    if i < |first| {
      assert es[0].NmraUpdated? && es[0].addr == addr;
    } else {
      assert rest[i - |first|] == part[i];
      NmraUpdates(es[1..], NextTurn(es[0], turn, both), both, addr);
      var j :| 0 <= j < |es[1..]| && es[1..][j].NmraUpdated? && es[1..][j].addr == addr;
      assert es[j + 1] == es[1..][j];
    }
  }

  /** The packet of an address is sent; as it was at the start, if the address has not been updated. */
  ghost predicate Served(p: Pool, sends: seq<Sent>, addr: int, slot: nat, updated: bool) {
    && IsSent(sends, addr, slot)
    && (updated || (addr in p.packets && slot < |p.packets[addr]|
                    && IsSentAs(sends, addr, slot, p.packets[addr][slot])))
  }

  /** There are enough turns of the pool for each address that is known at the end. */
  lemma MaerklinIsServed(c: Cycle, es: seq<CycleEvent>, both: bool, addr: int, slot: nat)
    requires IsCycle(c) && AreCycleEvents(es)
    requires c.maerklin.known != [MAERKLIN_IDLE] && addr in c.maerklin.known && slot < MAERKLIN_SLOTS
    requires Turns(MaerklinPart(es, c.maerklinTurn, both)) >= MAERKLIN_SLOTS * |CycleRun(c, es, both).maerklin.known|
    ensures Served(c.maerklin, MaerklinOnly(CycleSends(c, es, both)), addr, slot, HasMaerklinUpdate(es, addr))
  {
    hide Update, Advance, IsPool, Send, CycleSends, Sends, IsSent, IsSentAs, Turns, MaerklinPart, CycleRun, Run,
      HasMaerklinUpdate, IsUpdated;
    var part := MaerklinPart(es, c.maerklinTurn, both);
    PoolsRunApart(c, es, both);
    PoolsSendApart(c, es, both);
    RefreshIsFair(c.maerklin, part, MAERKLIN_SLOTS, MAERKLIN_IDLE, addr, slot);
    if IsUpdated(part, addr) { MaerklinUpdates(es, c.maerklinTurn, both, addr); }
  }

  lemma NmraIsServed(c: Cycle, es: seq<CycleEvent>, both: bool, addr: int, slot: nat)
    requires IsCycle(c) && AreCycleEvents(es)
    requires c.nmra.known != [NMRA_IDLE] && addr in c.nmra.known && slot < NMRA_SLOTS
    requires Turns(NmraPart(es, c.maerklinTurn, both)) >= NMRA_SLOTS * |CycleRun(c, es, both).nmra.known|
    ensures Served(c.nmra, NmraOnly(CycleSends(c, es, both)), addr, slot, HasNmraUpdate(es, addr))
  {
    hide Update, Advance, IsPool, Send, CycleSends, Sends, IsSent, IsSentAs, Turns, NmraPart, CycleRun, Run,
      HasNmraUpdate, IsUpdated;
    var part := NmraPart(es, c.maerklinTurn, both);
    PoolsRunApart(c, es, both);
    PoolsSendApart(c, es, both);
    RefreshIsFair(c.nmra, part, NMRA_SLOTS, NMRA_IDLE, addr, slot);
    if IsUpdated(part, addr) { NmraUpdates(es, c.maerklinTurn, both, addr); }
  }

  /** With both protocols enabled, ten turns of refresh_loco for each Maerklin address send every packet of every
      Maerklin address, and four for each NMRA address every packet of every NMRA address: of all the addresses
      known at the start, over as many addresses as are known at the end. */
  lemma BothPoolsAreServed(c: Cycle, es: seq<CycleEvent>, addr: int, slot: nat)
    requires IsCycle(c) && AreCycleEvents(es)
    ensures c.maerklin.known != [MAERKLIN_IDLE] && addr in c.maerklin.known && slot < MAERKLIN_SLOTS
            && Refreshes(es) >= 2 * MAERKLIN_SLOTS * |CycleRun(c, es, true).maerklin.known|
        ==> Served(c.maerklin, MaerklinOnly(CycleSends(c, es, true)), addr, slot, HasMaerklinUpdate(es, addr))
    ensures c.nmra.known != [NMRA_IDLE] && addr in c.nmra.known && slot < NMRA_SLOTS
            && Refreshes(es) >= 2 * NMRA_SLOTS * |CycleRun(c, es, true).nmra.known|
        ==> Served(c.nmra, NmraOnly(CycleSends(c, es, true)), addr, slot, HasNmraUpdate(es, addr))
  {
    hide IsCycle, CycleSends, Served, Turns, MaerklinPart, NmraPart, CycleRun, HasMaerklinUpdate, HasNmraUpdate;
    TurnsAreHalved(es, c.maerklinTurn);
    if c.maerklin.known != [MAERKLIN_IDLE] && addr in c.maerklin.known && slot < MAERKLIN_SLOTS
       && Refreshes(es) >= 2 * MAERKLIN_SLOTS * |CycleRun(c, es, true).maerklin.known| {
      MaerklinIsServed(c, es, true, addr, slot);
    }
    if c.nmra.known != [NMRA_IDLE] && addr in c.nmra.known && slot < NMRA_SLOTS
       && Refreshes(es) >= 2 * NMRA_SLOTS * |CycleRun(c, es, true).nmra.known| {
      NmraIsServed(c, es, true, addr, slot);
    }
  }

  /** With one protocol enabled, five turns for each Maerklin address or two for each NMRA address are enough. */
  lemma OnePoolIsServed(c: Cycle, es: seq<CycleEvent>, addr: int, slot: nat)
    requires IsCycle(c) && AreCycleEvents(es)
    ensures c.maerklinTurn && c.maerklin.known != [MAERKLIN_IDLE] && addr in c.maerklin.known && slot < MAERKLIN_SLOTS
            && Refreshes(es) >= MAERKLIN_SLOTS * |CycleRun(c, es, false).maerklin.known|
        ==> Served(c.maerklin, MaerklinOnly(CycleSends(c, es, false)), addr, slot, HasMaerklinUpdate(es, addr))
    ensures !c.maerklinTurn && c.nmra.known != [NMRA_IDLE] && addr in c.nmra.known && slot < NMRA_SLOTS
            && Refreshes(es) >= NMRA_SLOTS * |CycleRun(c, es, false).nmra.known|
        ==> Served(c.nmra, NmraOnly(CycleSends(c, es, false)), addr, slot, HasNmraUpdate(es, addr))
  {
    hide IsCycle, CycleSends, Served, Turns, MaerklinPart, NmraPart, CycleRun, HasMaerklinUpdate, HasNmraUpdate;
    TurnsAreAll(es, c.maerklinTurn);
    if c.maerklinTurn && c.maerklin.known != [MAERKLIN_IDLE] && addr in c.maerklin.known && slot < MAERKLIN_SLOTS
       && Refreshes(es) >= MAERKLIN_SLOTS * |CycleRun(c, es, false).maerklin.known| {
      MaerklinIsServed(c, es, false, addr, slot);
    }
    if !c.maerklinTurn && c.nmra.known != [NMRA_IDLE] && addr in c.nmra.known && slot < NMRA_SLOTS
       && Refreshes(es) >= NMRA_SLOTS * |CycleRun(c, es, false).nmra.known| {
      NmraIsServed(c, es, false, addr, slot);
    }
  }
}
