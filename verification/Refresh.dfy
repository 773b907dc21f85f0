/**
  The packet pools and the refresh cycle of ddl.c, as values: a growing list of known addresses, the
  latest packets for each, and a cursor that goes round. Maerklin addresses have five packets, NMRA
  addresses two.
 */
module Refresh {

  type Bytes = seq<bv8>

  /** The packets of one address. */
  type Slots = seq<Bytes>

  datatype Pool = Pool(known: seq<int>, packets: map<int, Slots>, loco: nat, slot: nat)

  /** No address twice, packets for every address and no other, and a cursor that stands somewhere. */
  ghost predicate IsPool(p: Pool, slots: nat) {
    && p.known != []
    && (forall i, j :: 0 <= i < j < |p.known| ==> p.known[i] != p.known[j])
    && p.packets.Keys == (set a | a in p.known)
    && (forall a :: a in p.packets ==> |p.packets[a]| == slots)
    && p.loco < |p.known| && p.slot < slots
  }

  // ---------------------------------------------------------------- updates

  /** The list of addresses: the first address displaces the idle entry, a new one goes to the end. */
  function Known(known: seq<int>, addr: int, idle: int): seq<int> {
    if known == [idle] then [addr]
    else if addr in known then known
    else known + [addr]
  }

  function Repacked(packets: map<int, Slots>, known: seq<int>, addr: int, slots: Slots): map<int, Slots> {
    map a | a in known && (a == addr || a in packets) :: if a == addr then slots else packets[a]
  }

  function Update(p: Pool, addr: int, slots: Slots, idle: int): Pool {
    var known := Known(p.known, addr, idle);
    p.(known := known, packets := Repacked(p.packets, known, addr, slots))
  }

  lemma UpdateKeepsPool(p: Pool, addr: int, slots: Slots, idle: int)
    requires IsPool(p, |slots|)
    ensures IsPool(Update(p, addr, slots, idle), |slots|)
    ensures |Update(p, addr, slots, idle).known| >= |p.known|
  {
    var p' := Update(p, addr, slots, idle);
    if p.known == [idle] {
      assert forall a :: a in p'.known <==> a == addr;
    } else {
      assert forall a :: a in p'.known <==> a in p.known || a == addr;
    }
  }

  // ---------------------------------------------------------------- turns

  /** What one turn of the refresh cycle sends. */
  datatype Sent = Sent(addr: int, slot: nat, bytes: Bytes)

  function Send(p: Pool): Sent
    requires p.loco < |p.known| && p.known[p.loco] in p.packets && p.slot < |p.packets[p.known[p.loco]]|
  {
    var addr := p.known[p.loco];
    Sent(addr, p.slot, p.packets[addr][p.slot])
  }

  /** The cursor goes through the packets of an address, then to the next address, then round. */
  function Advance(p: Pool, slots: nat): Pool {
    if p.slot + 1 < slots then p.(slot := p.slot + 1)
    else p.(slot := 0, loco := if p.loco + 1 >= |p.known| then 0 else p.loco + 1)
  }

  lemma TurnKeepsPool(p: Pool, slots: nat)
    requires IsPool(p, slots)
    ensures IsPool(Advance(p, slots), slots)
    ensures p.known[p.loco] in p.packets && |p.packets[p.known[p.loco]]| == slots
  {
    assert p.known[p.loco] in p.known;
  }

  // ---------------------------------------------------------------- runs

  datatype Event = Updated(addr: int, slots: Slots) | Turn

  predicate IsEvent(e: Event, slots: nat) {
    e.Updated? ==> |e.slots| == slots
  }

  predicate AreEvents(es: seq<Event>, slots: nat) {
    forall i :: 0 <= i < |es| ==> IsEvent(es[i], slots)
  }

  function Step(p: Pool, e: Event, slots: nat, idle: int): Pool {
    match e
    case Updated(addr, s) => Update(p, addr, s, idle)
    case Turn => Advance(p, slots)
  }

  function Run(p: Pool, es: seq<Event>, slots: nat, idle: int): Pool
    decreases |es|
  {
    if es == [] then p else Run(Step(p, es[0], slots, idle), es[1..], slots, idle)
  }

  lemma StepKeepsPool(p: Pool, e: Event, slots: nat, idle: int)
    requires IsPool(p, slots) && IsEvent(e, slots)
    ensures IsPool(Step(p, e, slots, idle), slots) && |Step(p, e, slots, idle).known| >= |p.known|
  {
    match e
    case Updated(addr, s) => UpdateKeepsPool(p, addr, s, idle);
    case Turn => TurnKeepsPool(p, slots);
  }

  lemma {:induction false} RunKeepsPool(p: Pool, es: seq<Event>, slots: nat, idle: int)
    requires IsPool(p, slots) && AreEvents(es, slots)
    ensures IsPool(Run(p, es, slots, idle), slots) && |Run(p, es, slots, idle).known| >= |p.known|
    decreases |es|
  {
    hide IsPool, Step;
    if es != [] {
      StepKeepsPool(p, es[0], slots, idle);
      RunKeepsPool(Step(p, es[0], slots, idle), es[1..], slots, idle);
    }
  }

  /** Everything that a run sends, in order. */
  ghost function Sends(p: Pool, es: seq<Event>, slots: nat, idle: int): seq<Sent>
    requires IsPool(p, slots) && AreEvents(es, slots)
    decreases |es|
  {
    if es == [] then []
    else
      StepKeepsPool(p, es[0], slots, idle);
      TurnKeepsPool(p, slots);
      (if es[0].Turn? then [Send(p)] else []) + Sends(Step(p, es[0], slots, idle), es[1..], slots, idle)
  }

  function Turns(es: seq<Event>): nat
    decreases |es|
  {
    if es == [] then 0 else (if es[0].Turn? then 1 else 0) + Turns(es[1..])
  }

  // ---------------------------------------------------------------- the list of addresses, exactly

  function WithoutLeading(addrs: seq<int>, idle: int): seq<int>
    decreases |addrs|
  {
    if addrs == [] || addrs[0] != idle then addrs else WithoutLeading(addrs[1..], idle)
  }

  /** The addresses in the order of their first occurrence. */
  function FirstOccurrences(addrs: seq<int>): seq<int> {
    if addrs == [] then []
    else
      var n := |addrs| - 1;
      var before := FirstOccurrences(addrs[..n]);
      if addrs[n] in before then before else before + [addrs[n]]
  }

  function Addresses(es: seq<Event>): seq<int> {
    if es == [] then []
    else
      var n := |es| - 1;
      Addresses(es[..n]) + (if es[n].Updated? then [es[n].addr] else [])
  }

  /** The addresses that have been updated, but for idle ones in front; the idle entry if there are none. */
  function ExpectedKnown(addrs: seq<int>, idle: int): seq<int> {
    var rest := WithoutLeading(addrs, idle);
    if rest == [] then [idle] else FirstOccurrences(rest)
  }

  lemma {:induction false} WithoutLeadingAppend(addrs: seq<int>, addr: int, idle: int)
    ensures WithoutLeading(addrs + [addr], idle)
         == if WithoutLeading(addrs, idle) == [] then (if addr == idle then [] else [addr])
            else WithoutLeading(addrs, idle) + [addr]
    decreases |addrs|
  {
    if addrs == [] {
      assert [addr][1..] == [] && [] + [addr] == [addr];
    } else {
      assert (addrs + [addr])[0] == addrs[0] && (addrs + [addr])[1..] == addrs[1..] + [addr];
      if addrs[0] == idle { WithoutLeadingAppend(addrs[1..], addr, idle); }
    }
  }

  lemma {:induction false} FirstOccurrencesNotIdle(rest: seq<int>, idle: int)
    requires rest != [] && rest[0] != idle
    ensures FirstOccurrences(rest) != [] && FirstOccurrences(rest)[0] == rest[0]
    decreases |rest|
  {
    var n := |rest| - 1;
    if n > 0 {
      FirstOccurrencesNotIdle(rest[..n], idle);
    } else {
      assert rest[..0] == [];
    }
  }

  lemma WithoutLeadingStart(addrs: seq<int>, idle: int)
    ensures var rest := WithoutLeading(addrs, idle); rest == [] || rest[0] != idle
    decreases |addrs|
  {
  }

  lemma ExpectedKnownAppend(addrs: seq<int>, addr: int, idle: int)
    ensures ExpectedKnown(addrs + [addr], idle) == Known(ExpectedKnown(addrs, idle), addr, idle)
  {
    var rest := WithoutLeading(addrs, idle);
    WithoutLeadingAppend(addrs, addr, idle);
    WithoutLeadingStart(addrs, idle);
    if rest == [] {
      assert [addr][..0] == [];
    } else {
      FirstOccurrencesNotIdle(rest, idle);
      assert (rest + [addr])[..|rest|] == rest;
    }
  }

  lemma {:induction false} RunSplit(p: Pool, es: seq<Event>, e: Event, slots: nat, idle: int)
    ensures Run(p, es + [e], slots, idle) == Step(Run(p, es, slots, idle), e, slots, idle)
    decreases |es|
  {
    hide Step;
    if es == [] {
      assert [e][1..] == [] && [] + [e] == [e];
    } else {
      assert (es + [e])[0] == es[0] && (es + [e])[1..] == es[1..] + [e];
      RunSplit(Step(p, es[0], slots, idle), es[1..], e, slots, idle);
    }
  }

  /** After any run from the idle entry alone, the list holds exactly the addresses that have been updated,
      in the order of their first update, with idle ones in front left out. */
  lemma {:induction false} KnownExactly(p: Pool, es: seq<Event>, slots: nat, idle: int)
    requires p.known == [idle]
    ensures Run(p, es, slots, idle).known == ExpectedKnown(Addresses(es), idle)
    decreases |es|
  {
    if es != [] {
      var n := |es| - 1;
      KnownExactly(p, es[..n], slots, idle);
      assert es == es[..n] + [es[n]];
      RunSplit(p, es[..n], es[n], slots, idle);
      if es[n].Updated? {
        ExpectedKnownAppend(Addresses(es[..n]), es[n].addr, idle);
      } else {
        assert Addresses(es) == Addresses(es[..n]);
      }
    }
  }

  // ---------------------------------------------------------------- the latest packets

  /** The packets of the last update of an address, or those from before. */
  function Latest(es: seq<Event>, addr: int, before: Slots): Slots {
    if es == [] then before
    else
      var n := |es| - 1;
      if es[n].Updated? && es[n].addr == addr then es[n].slots else Latest(es[..n], addr, before)
  }

  /** A known address has the packets of its last update, whatever happened in between. */
  lemma {:induction false} LatestPackets(p: Pool, es: seq<Event>, slots: nat, idle: int, addr: int)
    requires addr in Run(p, es, slots, idle).packets
    ensures Run(p, es, slots, idle).packets[addr]
         == Latest(es, addr, if addr in p.packets then p.packets[addr] else [])
    decreases |es|
  {
    if es != [] {
      var n := |es| - 1;
      assert es == es[..n] + [es[n]];
      RunSplit(p, es[..n], es[n], slots, idle);
      if es[n].Turn? || es[n].addr != addr {
        LatestPackets(p, es[..n], slots, idle, addr);
      }
    }
  }

  // ---------------------------------------------------------------- what is sent is current

  /** The place of a turn among the events. */
  function TurnAt(es: seq<Event>, i: nat): (n: nat)
    requires i < Turns(es)
    ensures n < |es| && es[n].Turn?
    decreases |es|
  {
    if !es[0].Turn? then 1 + TurnAt(es[1..], i)
    else if i == 0 then 0
    else 1 + TurnAt(es[1..], i - 1)
  }

  lemma {:induction false} EveryTurnSends(p: Pool, es: seq<Event>, slots: nat, idle: int)
    requires IsPool(p, slots) && AreEvents(es, slots)
    ensures |Sends(p, es, slots, idle)| == Turns(es)
    decreases |es|
  {
    hide IsPool, Step, Send;
    if es != [] {
      StepKeepsPool(p, es[0], slots, idle);
      TurnKeepsPool(p, slots);
      PoolCursor(p, slots);
      EveryTurnSends(Step(p, es[0], slots, idle), es[1..], slots, idle);
    }
  }

  lemma AnyPrefix(p: Pool, es: seq<Event>, n: nat, slots: nat, idle: int)
    requires IsPool(p, slots) && AreEvents(es, slots) && n <= |es|
    ensures var q := Run(p, es[..n], slots, idle);
      IsPool(q, slots) && q.loco < |q.known| && q.slot < slots
      && q.known[q.loco] in q.packets && |q.packets[q.known[q.loco]]| == slots
  {
    hide IsPool;
    RunKeepsPool(p, es[..n], slots, idle);
    PoolCursor(Run(p, es[..n], slots, idle), slots);
    TurnKeepsPool(Run(p, es[..n], slots, idle), slots);
  }

  /** A turn sends what the cursor stands on after everything before it. */
  lemma {:induction false} TurnSendsCurrent(p: Pool, es: seq<Event>, slots: nat, idle: int, i: nat)
    requires IsPool(p, slots) && AreEvents(es, slots) && i < |Sends(p, es, slots, idle)| == Turns(es)
    requires var q := Run(p, es[..TurnAt(es, i)], slots, idle);
      q.loco < |q.known| && q.known[q.loco] in q.packets && q.slot < |q.packets[q.known[q.loco]]|
    ensures Sends(p, es, slots, idle)[i] == Send(Run(p, es[..TurnAt(es, i)], slots, idle))
    decreases |es|
  {
    hide IsPool, Step, Send;
    var n := TurnAt(es, i);
    StepKeepsPool(p, es[0], slots, idle);
    TurnKeepsPool(p, slots);
    PoolCursor(p, slots);
    if n == 0 {
      assert es[..0] == [];
    } else {
      var p', rest := Step(p, es[0], slots, idle), es[1..];
      EveryTurnSends(p', rest, slots, idle);
      assert es[..n][0] == es[0] && es[..n][1..] == rest[..n - 1];
      TurnSendsCurrent(p', rest, slots, idle, if es[0].Turn? then i - 1 else i);
    }
  }

  function PacketsOf(p: Pool, addr: int): Slots {
    if addr in p.packets then p.packets[addr] else []
  }

  /** What is sent for an address comes from its last update before the turn, or from the start. */
  lemma SendsAreLatest(p: Pool, es: seq<Event>, slots: nat, idle: int, i: nat)
    requires IsPool(p, slots) && AreEvents(es, slots) && i < |Sends(p, es, slots, idle)|
    ensures i < Turns(es)
    ensures var sent := Sends(p, es, slots, idle)[i];
      var latest := Latest(es[..TurnAt(es, i)], sent.addr, PacketsOf(p, sent.addr));
      sent.slot < |latest| && sent.bytes == latest[sent.slot]
  {
    hide IsPool, Latest;
    EveryTurnSends(p, es, slots, idle);
    var n := TurnAt(es, i);
    var q := Run(p, es[..n], slots, idle);
    AnyPrefix(p, es, n, slots, idle);
    TurnSendsCurrent(p, es, slots, idle, i);
    LatestPackets(p, es[..n], slots, idle, q.known[q.loco]);
  }

  predicate IsUpdated(es: seq<Event>, addr: int) {
    exists i :: 0 <= i < |es| && es[i].Updated? && es[i].addr == addr
  }

  lemma {:induction false} LatestIsOld(es: seq<Event>, n: nat, addr: int, before: Slots)
    requires n <= |es| && !IsUpdated(es, addr)
    ensures Latest(es[..n], addr, before) == before
    decreases n
  {
    if n > 0 {
      assert es[..n][..n - 1] == es[..n - 1] && es[..n][n - 1] == es[n - 1];
      LatestIsOld(es, n - 1, addr, before);
    }
  }

  // ---------------------------------------------------------------- fairness

  /** Once an address other than the idle entry is known, the list only grows at its end. */
  lemma UpdateExtends(p: Pool, e: Event, slots: nat, idle: int)
    requires IsPool(p, slots) && p.known != [idle]
    ensures p.known <= Step(p, e, slots, idle).known && Step(p, e, slots, idle).known != [idle]
  {
  }

  /** The packets of all addresses in one row. */
  function Place(slots: nat, loco: nat, slot: nat): nat {
    slots * loco + slot
  }

  lemma PlaceNext(slots: nat, loco: nat)
    requires slots > 0
    ensures Place(slots, loco, slots - 1) + 1 == Place(slots, loco + 1, 0)
  {
  }

  lemma {:induction false} Grows(slots: nat, a: nat, b: nat)
    requires a < b
    ensures slots * a + slots <= slots * b
    decreases b
  {
    assert slots * b == slots * (b - 1) + slots;
    if a < b - 1 { Grows(slots, a, b - 1); }
  }

  lemma PlaceOrder(slots: nat, a: nat, b: nat, i: nat, j: nat)
    requires i < slots && j < slots && a < b
    ensures Place(slots, a, i) < Place(slots, b, 0) <= Place(slots, b, j)
  {
    Grows(slots, a, b);
  }

  /** The turns before the cursor stands on a packet, if the list has at most n addresses when it goes round. */
  function Distance(p: Pool, place: nat, slot: nat, slots: nat, n: nat): int {
    var here, there := Place(slots, p.loco, p.slot), Place(slots, place, slot);
    if there >= here then there - here else Place(slots, n, 0) - here + there
  }

  ghost predicate IsSent(sends: seq<Sent>, addr: int, slot: nat) {
    exists i :: 0 <= i < |sends| && sends[i].addr == addr && sends[i].slot == slot
  }

  ghost predicate IsSentAs(sends: seq<Sent>, addr: int, slot: nat, bytes: Bytes) {
    exists i :: 0 <= i < |sends| && sends[i] == Sent(addr, slot, bytes)
  }

  lemma TurnComesCloser(p: Pool, place: nat, slot: nat, slots: nat, n: nat)
    requires p.loco < |p.known| && p.slot < slots && place < |p.known| <= n && slot < slots
    requires p.loco != place || p.slot != slot
    ensures Distance(Advance(p, slots), place, slot, slots, n) < Distance(p, place, slot, slots, n)
  {
    var p' := Advance(p, slots);
    var here, there := Place(slots, p.loco, p.slot), Place(slots, place, slot);
    assert here != there by {
      if p.loco < place { PlaceOrder(slots, p.loco, place, p.slot, slot); }
      if place < p.loco { PlaceOrder(slots, place, p.loco, slot, p.slot); }
    }
    if p.slot + 1 == slots {
      PlaceNext(slots, p.loco);
      if p.loco + 1 == |p.known| {
        PlaceOrder(slots, place, |p.known|, slot, 0);
        if |p.known| < n { PlaceOrder(slots, |p.known|, n, 0, 0); }
        assert Place(slots, p'.loco, p'.slot) == 0;
      }
    }
    if p.slot + 1 < slots || p.loco + 1 < |p.known| {
      assert Place(slots, p'.loco, p'.slot) == here + 1;
    }
    hide Place;
  }

  lemma DistanceBound(p: Pool, place: nat, slot: nat, slots: nat, n: nat)
    requires p.loco < n && p.slot < slots && place < n && slot < slots
    ensures 0 <= Distance(p, place, slot, slots, n) < slots * n
  {
    PlaceOrder(slots, p.loco, n, p.slot, 0);
    PlaceOrder(slots, place, n, slot, 0);
  }

  lemma SentLater(first: seq<Sent>, rest: seq<Sent>, addr: int, slot: nat)
    requires IsSent(rest, addr, slot)
    ensures IsSent(first + rest, addr, slot)
  {
    var i :| 0 <= i < |rest| && rest[i].addr == addr && rest[i].slot == slot;
    assert (first + rest)[|first| + i] == rest[i];
  }

  lemma {:induction false} ReachedInTime(p: Pool, es: seq<Event>, slots: nat, idle: int, place: nat, slot: nat, n: nat)
    requires IsPool(p, slots) && AreEvents(es, slots) && p.known != [idle]
    requires place < |p.known| && slot < slots && |Run(p, es, slots, idle).known| <= n
    requires Turns(es) > Distance(p, place, slot, slots, n)
    ensures IsSent(Sends(p, es, slots, idle), p.known[place], slot)
    decreases |es|
  {
    hide Advance, Update, Distance;
    StepKeepsRun(p, es, slots, idle);
    DistanceBound(p, place, slot, slots, n);
    var p' := Step(p, es[0], slots, idle);
    UpdateExtends(p, es[0], slots, idle);
    assert p'.known[place] == p.known[place];
    TurnKeepsPool(p, slots);
    if es[0].Turn? && p.loco == place && p.slot == slot {
      assert Sends(p, es, slots, idle)[0] == Send(p);
    } else {
      StepComesCloser(p, es[0], place, slot, slots, idle, n);
      ReachedInTime(p', es[1..], slots, idle, place, slot, n);
      var rest := Sends(p', es[1..], slots, idle);
      SentLater(if es[0].Turn? then [Send(p)] else [], rest, p.known[place], slot);
    }
  }

  lemma StepKeepsRun(p: Pool, es: seq<Event>, slots: nat, idle: int)
    requires IsPool(p, slots) && AreEvents(es, slots)
    ensures IsPool(Run(p, es, slots, idle), slots)
    ensures |p.known| <= |Run(p, es, slots, idle).known|
    ensures es != [] ==> IsPool(Step(p, es[0], slots, idle), slots)
    ensures es != [] ==> |Step(p, es[0], slots, idle).known| <= |Run(p, es, slots, idle).known|
  {
    hide IsPool, Step;
    if es != [] {
      StepKeepsPool(p, es[0], slots, idle);
      RunKeepsPool(Step(p, es[0], slots, idle), es[1..], slots, idle);
    }
  }

  lemma StepComesCloser(p: Pool, e: Event, place: nat, slot: nat, slots: nat, idle: int, n: nat)
    requires p.loco < |p.known| && p.slot < slots && place < |p.known| <= n && slot < slots
    requires e.Turn? ==> p.loco != place || p.slot != slot
    ensures e.Turn? ==> Distance(Step(p, e, slots, idle), place, slot, slots, n) < Distance(p, place, slot, slots, n)
    ensures e.Updated? ==>
              Distance(Step(p, e, slots, idle), place, slot, slots, n) == Distance(p, place, slot, slots, n)
  {
    if e.Turn? { TurnComesCloser(p, place, slot, slots, n); }
  }

  lemma SentAsBefore(p: Pool, es: seq<Event>, slots: nat, idle: int, addr: int, slot: nat)
    requires IsPool(p, slots) && AreEvents(es, slots) && addr in p.packets && slot < |p.packets[addr]|
    requires IsSent(Sends(p, es, slots, idle), addr, slot) && !IsUpdated(es, addr)
    ensures IsSentAs(Sends(p, es, slots, idle), addr, slot, p.packets[addr][slot])
  {
    hide IsPool, Latest, Sends;
    var sends := Sends(p, es, slots, idle);
    var i :| 0 <= i < |sends| && sends[i].addr == addr && sends[i].slot == slot;
    SendsAreLatest(p, es, slots, idle, i);
    LatestIsOld(es, TurnAt(es, i), addr, p.packets[addr]);
    assert sends[i] == Sent(addr, slot, p.packets[addr][slot]);
  }

  lemma KnownHasPackets(p: Pool, slots: nat, addr: int)
    requires IsPool(p, slots) && addr in p.known
    ensures addr in p.packets && |p.packets[addr]| == slots
  {
  }

  /** The refresh cycle is fair: while at most n addresses are known, slots * n turns send every packet of every
      address that was known at the start, whatever is updated in between; the packets of an address that is not
      updated go out as they are. */
  lemma RefreshIsFair(p: Pool, es: seq<Event>, slots: nat, idle: int, addr: int, slot: nat)
    requires IsPool(p, slots) && AreEvents(es, slots) && p.known != [idle]
    requires addr in p.known && slot < slots
    requires Turns(es) >= slots * |Run(p, es, slots, idle).known|
    ensures IsSent(Sends(p, es, slots, idle), addr, slot)
    ensures addr in p.packets && slot < |p.packets[addr]|
    ensures !IsUpdated(es, addr) ==> IsSentAs(Sends(p, es, slots, idle), addr, slot, p.packets[addr][slot])
  {
    hide IsPool, Advance, Update, Distance, IsSent, IsSentAs, IsUpdated;
    KnownHasPackets(p, slots, addr);
    var n := |Run(p, es, slots, idle).known|;
    StepKeepsRun(p, es, slots, idle);
    var place :| 0 <= place < |p.known| && p.known[place] == addr;
    PoolCursor(p, slots);
    DistanceBound(p, place, slot, slots, n);
    ReachedInTime(p, es, slots, idle, place, slot, n);
    if !IsUpdated(es, addr) { SentAsBefore(p, es, slots, idle, addr, slot); }
  }

  lemma PoolCursor(p: Pool, slots: nat)
    requires IsPool(p, slots)
    ensures p.loco < |p.known| && p.slot < slots
  {
  }
}
