/**
  What version 3 of the translation promises: on which strings it works, how long its packets are,
  what a receiver reads, and that packets may follow each other on the line.
 */
module PropertiesV3 {
  import opened Waveform
  import opened TableV3
  import opened TranslateV3

  // ---------------------------------------------------------------- on which strings it works

  /** The loop, stopped after a number of rounds if it has not stopped before. */
  function RunFor(b: Bits, c: Cursor, rounds: nat): (c': Cursor)
    requires Shaped(b, c)
    ensures Shaped(b, c')
    decreases rounds
  {
    if rounds == 0 || !Running(b, c) then c
    else RunFor(b, Iterate(b, c), rounds - 1)
  }

  /** The loop has stopped and what it has written carries the buffer as far as it was read. */
  ghost predicate Delivered(b: Bits, c: Cursor)
    requires Shaped(b, c)
  {
    !Running(b, c) && Carried(b, c.out[..c.gen], c.read) && !c.complained
  }

  ghost predicate Succeeds(bitstream: Bits) {
    exists rounds: nat :: Delivered(Buffer(bitstream), RunFor(Buffer(bitstream), Start(), rounds))
  }

  lemma {:induction false} LoopStops(b: Bits, c: Cursor) returns (rounds: nat)
    requires Shaped(b, c) && c.read <= |b| && Inv(b, c)
    ensures var c' := RunFor(b, c, rounds); Inv(b, c') && !Running(b, c')
    decreases |b| - Front(b, c), InDeadEnd(b, c), |b| - c.read
  {
    hide Iterate, Carried, Ordinary, Flooded, Front, InDeadEnd;
    rounds := 0;
    if Running(b, c) {
      RoundProgresses(b, c);
      var more := LoopStops(b, Iterate(b, c));
      rounds := more + 1;
    }
  }

  /** Five ones in front: the first byte takes all of them, and its last half is too short for the zero. */
  ghost predicate Spoilt(b: Bits, c: Cursor) {
    && Shaped(b, c)
    && c.gen >= 1 && c.out[0] == 0x55
    && (c.restartGen >= 1 || (c.gen == 1 && c.read == 5))
  }

  lemma SpoiltStep(b: Bits, c: Cursor)
    requires Spoilt(b, c) && Running(b, c) && !b[5]
    ensures Spoilt(b, Iterate(b, c))
  {
    hide Table;
  }

  lemma {:induction false} StaysSpoilt(b: Bits, c: Cursor, rounds: nat)
    requires Shaped(b, c) && Spoilt(b, c) && !b[5]
    ensures Spoilt(b, RunFor(b, c, rounds))
    decreases rounds
  {
    hide Iterate, Spoilt;
    if rounds > 0 && Running(b, c) {
      SpoiltStep(b, c);
      StaysSpoilt(b, Iterate(b, c), rounds - 1);
    }
  }

  lemma HalvesOf0x55(more: seq<bv8>)
    ensures var halves := Halves(Line([0x55] + more)); |halves| >= 10 && halves[9] == 1
  {
    hide Halves, Line;
    HalvesOfBytes([0x55], more);
    assert Frame(0x55) == Spread(false, [1, 1, 1, 1, 1, 1, 1, 1, 1, 1]);
    FrameRuns(0x55, [1, 1, 1, 1, 1, 1, 1, 1, 1, 1]);
  }

  lemma SpoiltCarriesNothing(b: Bits, c: Cursor)
    requires |b| >= 6 && !b[5] && Spoilt(b, c)
    ensures !Carried(b, c.out[..c.gen], c.read)
  {
    hide Halves, Line;
    var bytes := c.out[..c.gen];
    assert bytes == [0x55] + bytes[1..];
    HalvesOf0x55(bytes[1..]);
    if Carried(b, bytes, c.read) {
      assert false;
    }
  }

  /** Ten or more ones in front: the loop comes back to the first window for ever. */
  ghost predicate Circling(b: Bits, c: Cursor) {
    && Shaped(b, c)
    && c.restartRead == c.restartGen == 0
    && c.read == 5 * c.gen && 5 * c.gen + 5 <= OnesAt(b, 0)
  }

  lemma CirclingStep(b: Bits, c: Cursor)
    requires Circling(b, c) && Dead(b, 0) && 10 <= OnesAt(b, 0) <= 5 * PKTSIZE && Running(b, c)
    ensures Circling(b, Iterate(b, c))
  {
    OnesAtLater(b, 0, c.read);
    Window(b, c.read);
    Window(b, 0);
  }

  lemma {:induction false} CirclesForEver(b: Bits, c: Cursor, rounds: nat)
    requires Circling(b, c) && Dead(b, 0) && 10 <= OnesAt(b, 0) <= 5 * PKTSIZE && OnesAt(b, 0) < |b| - 6
    ensures Circling(b, RunFor(b, c, rounds)) && Running(b, RunFor(b, c, rounds))
    decreases rounds
  {
    hide Iterate, Dead, OnesAt;
    if rounds > 0 {
      CirclingStep(b, c);
      CirclesForEver(b, Iterate(b, c), rounds - 1);
    }
  }

  lemma {:induction false} RunOn(b: Bits, c: Cursor, m: nat, n: nat)
    requires Shaped(b, c)
    ensures RunFor(b, RunFor(b, c, m), n) == RunFor(b, c, m + n)
    decreases m
  {
    hide Iterate;
    if m > 0 && Running(b, c) { RunOn(b, Iterate(b, c), m - 1, n); }
  }

  /** What one round of the circle does to the variables of the restart. */
  lemma CirclingRound(b: Bits, c: Cursor)
    requires Circling(b, c) && Dead(b, 0) && 10 <= OnesAt(b, 0) <= 5 * PKTSIZE && OnesAt(b, 0) < |b| - 6
    ensures Running(b, c)
    ensures var c' := Iterate(b, c);
      if c.read + 5 < OnesAt(b, 0)
      then c'.read == c.read + 5 && c'.lastRestart == c.lastRestart && c'.complained == c.complained
      else c'.lastRestart == 0 && (c.complained || c.lastRestart == 0 ==> c'.complained)
  {
    OnesAtLater(b, 0, c.read);
    Window(b, c.read);
    Window(b, 0);
  }

  /** Once around: the next restart is from the first window again. */
  lemma {:induction false} OnceAround(b: Bits, c: Cursor) returns (rounds: nat)
    requires Circling(b, c) && Dead(b, 0) && 10 <= OnesAt(b, 0) <= 5 * PKTSIZE && OnesAt(b, 0) < |b| - 6
    ensures var c' := RunFor(b, c, rounds);
      && Circling(b, c') && c'.lastRestart == 0
      && (c.complained || c.lastRestart == 0 ==> c'.complained)
    decreases OnesAt(b, 0) - c.read
  {
    hide Iterate, Dead, OnesAt;
    CirclingRound(b, c);
    CirclingStep(b, c);
    var next := Iterate(b, c);
    rounds := 0;
    if c.read + 5 < OnesAt(b, 0) {
      rounds := OnceAround(b, next);
    }
    rounds := rounds + 1;
  }

  /** No restart is made twice from the same position. */
  ghost predicate Calm(b: Bits, c: Cursor) {
    && Shaped(b, c) && c.read <= |b| && !c.complained
    && if Dead(b, c.read) then
         var s := c.restartRead;
         && s + 6 <= |b| && !Dead(b, s) && Six(b, s) / 2 != 31 && c.lastRestart < s
         && var first := Table(Six(b, s) / 2, false).length;
            s + first <= |b| && Dead(b, s + first)
       else c.lastRestart < c.read
  }

  lemma CalmStep(b: Bits, c: Cursor)
    requires Calm(b, c) && Running(b, c)
    ensures Calm(b, Iterate(b, c))
  {
    hide Table, Six, Dead, Iterate;
    if !Dead(b, c.read) {
      OpenWindow(b, c.read);
      ChoiceFirst(b, c.read);
      FirstTryCoversTwo(Six(b, c.read) / 2);
      RoundForward(b, c);
    } else if Six(b, c.read) == 0x3e {
      OpenWindow(b, c.restartRead);
      SecondTryEscapes(b, c.restartRead);
      RoundBack(b, c);
    } else {
      DeadWindow(b, c.read);
      RoundForward(b, c);
    }
  }

  lemma {:induction false} StaysCalm(b: Bits, c: Cursor, rounds: nat)
    requires Calm(b, c)
    ensures !RunFor(b, c, rounds).complained
    decreases rounds
  {
    hide Dead, Iterate;
    if rounds > 0 && Running(b, c) {
      CalmStep(b, c);
      StaysCalm(b, Iterate(b, c), rounds - 1);
    }
  }

  lemma {:induction false} StaysSilent(b: Bits, c: Cursor, rounds: nat)
    requires Shaped(b, c) && Inv(b, c)
    ensures !RunFor(b, c, rounds).complained
    decreases rounds
  {
    hide Iterate, Carried, Ordinary, Flooded;
    if rounds > 0 && Running(b, c) {
      InvStep(b, c);
      StaysSilent(b, Iterate(b, c), rounds - 1);
    }
  }

  /** Five ones in front: the first round is a restart already, and the others are calm. */
  lemma CalmAfterFive(b: Bits)
    requires |b| > 6 && OnesAt(b, 0) == 5
    ensures Calm(b, Iterate(b, Start()))
  {
    Window(b, 0);
    OnesAtLater(b, 0, 5);
  }

  /** The loop logs that the restart does not work. */
  ghost predicate Logs(bitstream: Bits) {
    exists rounds: nat :: RunFor(Buffer(bitstream), Start(), rounds).complained
  }

  /** The message is logged if and only if the string jams with eight ones in front or more: then the second restart is
      from where the first was. */
  lemma LogsExactlyWhen(bitstream: Bits)
    ensures Logs(bitstream) <==> Jams(bitstream) && OnesAt(bitstream, 0) >= 8
  {
    hide Dead, Iterate, Calm, Inv;
    JamsIsDead(bitstream);
    var b := Buffer(bitstream);
    if Jams(bitstream) && OnesAt(bitstream, 0) >= 8 {
      OnesOfBuffer(bitstream);
      hide OnesAt;
      var first := OnceAround(b, Start());
      var second := OnceAround(b, RunFor(b, Start(), first));
      RunOn(b, Start(), first, second);
    } else {
      forall rounds: nat ensures !RunFor(b, Start(), rounds).complained {
        NeverLogged(bitstream, rounds);
      }
    }
  }

  lemma NeverLogged(bitstream: Bits, rounds: nat)
    requires !(Jams(bitstream) && OnesAt(bitstream, 0) >= 8)
    ensures !RunFor(Buffer(bitstream), Start(), rounds).complained
  {
    hide Iterate, Calm, Inv;
    JamsIsDead(bitstream);
    var b := Buffer(bitstream);
    if Jams(bitstream) {
      OnesOfBuffer(bitstream);
      CalmAfterFive(b);
      if rounds > 0 { StaysCalm(b, Iterate(b, Start()), rounds - 1); }
    } else {
      InvStart(b);
      StaysSilent(b, Start(), rounds);
    }
  }

  lemma OnesOfBuffer(bitstream: Bits)
    requires Jams(bitstream)
    ensures OnesAt(Buffer(bitstream), 0) == OnesAt(bitstream, 0) + 2
    ensures OnesAt(Buffer(bitstream), 0) < |Buffer(bitstream)| - 6
  {
    var k := OnesAt(bitstream, 0);
    OnesAtIs(Buffer(bitstream), 0, k + 2);
  }

  lemma NeverDelivered(b: Bits, rounds: nat)
    requires |b| >= 6 && Dead(b, 0) && OnesAt(b, 0) <= 5 * PKTSIZE && OnesAt(b, 0) < |b| - 6
    ensures !Delivered(b, RunFor(b, Start(), rounds))
  {
    hide Table, Six, Carried;
    if OnesAt(b, 0) >= 10 {
      CirclesForEver(b, Start(), rounds);
    } else if rounds > 0 {
      Window(b, 0);
      FirstRoundSpoils(b);
      StaysSpoilt(b, Iterate(b, Start()), rounds - 1);
      SpoiltCarriesNothing(b, RunFor(b, Start(), rounds));
    }
  }

  lemma FirstRoundSpoils(b: Bits)
    requires |b| > 6 && Six(b, 0) == 0x3e
    ensures !b[5] && Spoilt(b, Iterate(b, Start()))
  {
  }

  lemma JammedFails(bitstream: Bits)
    requires Jams(bitstream)
    ensures !Succeeds(bitstream)
  {
    hide Delivered;
    JamsIsDead(bitstream);
    var b := Buffer(bitstream);
    assert OnesAt(b, 0) < |b| - 6;
    forall rounds: nat
      ensures !Delivered(b, RunFor(b, Start(), rounds))
    {
      NeverDelivered(b, rounds);
    }
  }

  /** The loop delivers its string if and only if the string does not jam it. */
  lemma WorksExactlyWhen(bitstream: Bits)
    ensures Succeeds(bitstream) <==> !Jams(bitstream)
  {
    var b := Buffer(bitstream);
    if Jams(bitstream) {
      JammedFails(bitstream);
    } else {
      JamsIsDead(bitstream);
      InvStart(b);
      var rounds := LoopStops(b, Start());
      assert Delivered(b, RunFor(b, Start(), rounds));
    }
  }

  /** What the simple form makes of a string that fits carries the string. */
  lemma PathConveys(bitstream: Bits)
    requires !Jams(bitstream) && Fits80(bitstream)
    ensures Conveys(Path(Buffer(bitstream), 0), bitstream)
  {
    hide Inv, Conveys, Path;
    var b := Buffer(bitstream);
    JamsIsDead(bitstream);
    InvStart(b);
    var rounds := LoopStops(b, Start());
    Stopped(bitstream, RunFor(b, Start(), rounds));
  }

  // ---------------------------------------------------------------- how long its packets are

  /** Second tries of a single bit never happen: every byte stands for two bits at least. */
  lemma {:induction false} PathIsShort(b: Bits, r: nat)
    requires |b| >= 6 && r <= |b| && !Dead(b, r)
    ensures r + 6 < |b| ==> 2 * |Path(b, r)| <= |b| - 6 - r + 1
    decreases |b| - r
  {
    hide Choice, Dead, Sends;
    if r + 6 < |b| {
      ChoiceIsRight(b, r);
      PathIsShort(b, r + Choice(b, r).length);
    }
  }

  /** A run of ones costs a byte for five of them. */
  lemma {:induction false} PathThroughOnes(b: Bits, r: nat, bytes: nat)
    requires r + 5 * bytes + 6 <= |b| && OnesAt(b, r) > 5 * bytes && !Dead(b, r)
    ensures |Path(b, r)| == bytes + |Path(b, r + 5 * bytes)| && !Dead(b, r + 5 * bytes)
    decreases bytes
  {
    hide Table, Six, Sends, Choice, Dead, OnesAt;
    if bytes > 0 {
      Window(b, r);
      OpenWindow(b, r);
      ChoiceIsRight(b, r);
      ChoiceFirst(b, r);
      WindowRow(b, r, false);
      OnesAtLater(b, r, 5);
      PathThroughOnes(b, r + 5, bytes - 1);
    }
  }

  lemma NotDead(bitstream: Bits)
    requires !Jams(bitstream) && |bitstream| <= 5 * PKTSIZE
    ensures !Dead(Buffer(bitstream), 0)
  {
    JamsIsDead(bitstream);
    assert OnesAt(Buffer(bitstream), 0) <= |Buffer(bitstream)|;
  }

  /** Half a byte for each bit, and less where the ones in front, with the two of the buffer, fill
      some bytes with a one to spare. */
  lemma SizeBound(bitstream: Bits, filled: nat)
    requires !Jams(bitstream) && |bitstream| <= 5 * PKTSIZE
    requires 5 * filled < OnesAt(bitstream, 0) + 2
    ensures 2 * |Path(Buffer(bitstream), 0)| <= |bitstream| + 3 - 3 * filled
  {
    hide Jams, Dead, Path;
    var b, k := Buffer(bitstream), OnesAt(bitstream, 0);
    assert OnesAt(b, 0) >= k + 2 by {
      if k < |bitstream| { OnesAtIs(b, 0, k + 2); } else { OnesAtIs(b, 0, |b|); }
    }
    NotDead(bitstream);
    PathThroughOnes(b, 0, filled);
    PathIsShort(b, 5 * filled);
  }

  /** No string of up to 158 bits is cut, and its packet has at most (n + 3) / 2 bytes. */
  lemma ShortStringsFit(bitstream: Bits)
    requires !Jams(bitstream) && |bitstream| <= 2 * PKTSIZE - 2
    ensures Fits80(bitstream) && |Path(Buffer(bitstream), 0)| <= (|bitstream| + 3) / 2
  {
    hide Path, Jams, Dead;
    NotDead(bitstream);
    PathIsShort(Buffer(bitstream), 0);
  }

  /** No byte is zero, so string functions see the whole packet. */
  lemma {:induction false} NoZeroByte(b: Bits, r: nat)
    requires |b| >= 6
    ensures 0 !in Path(b, r)
    decreases |b| - r
  {
    hide Choice;
    if r + 6 < |b| {
      ChoiceNotZero(b, r);
      NoZeroByte(b, r + Choice(b, r).length);
    }
  }

  lemma ChoiceNotZero(b: Bits, r: nat)
    requires r + 6 <= |b|
    ensures Choice(b, r).value != 0
  {
    hide Six, Dead;
  }

  // ---------------------------------------------------------------- what a receiver reads

  /** The receiver finds the string after a single one, and nothing but ones behind it; the line starts
      and ends with half of a one. */
  lemma ReceiverReads(bytes: seq<bv8>, bits: Bits)
    requires Conveys(bytes, bits)
    ensures exists k :: 0 <= k <= 4 && ReadHighLow(bytes) == Some([true] + bits + Ones(k))
    ensures var halves := Halves(Line(bytes)); halves[0] == 1 == halves[|halves| - 1]
  {
    var halves := Halves(Line(bytes));
    var k :| 1 <= k <= 5 && CarriesShared(halves, Ones(2) + bits + Ones(k));
    var all := Ones(2) + bits + Ones(k);
    SharedReadsBack(halves, all);
    assert all[1..|all| - 1] == [true] + bits + Ones(k - 1);
    assert Fits(halves[0], all[0]) && Fits(halves[|halves| - 1], all[|all| - 1]);
  }

  // ---------------------------------------------------------------- packets after each other

  /** The strings in their order, with ones before, between and behind them. */
  ghost predicate InOrder(bits: Bits, strings: seq<Bits>)
    decreases |strings|
  {
    if strings == [] then bits == Ones(|bits|)
    else exists k, rest :: k > 0 && bits == Ones(k) + strings[0] + rest && InOrder(rest, strings[1..])
  }

  function Concat(packets: seq<seq<bv8>>): seq<bv8> {
    if packets == [] then [] else packets[0] + Concat(packets[1..])
  }

  lemma MoreOnesInFront(k: nat, bits: Bits, strings: seq<Bits>)
    requires InOrder(bits, strings)
    ensures InOrder(Ones(k) + bits, strings)
  {
    if strings == [] {
      assert Ones(k) + bits == Ones(k + |bits|);
    } else {
      var n, rest :| n > 0 && bits == Ones(n) + strings[0] + rest && InOrder(rest, strings[1..]);
      assert Ones(k) + bits == Ones(k + n) + strings[0] + rest;
    }
  }

  lemma SeamOfStrings(text: Bits, k: nat, more: Bits)
    requires k > 0
    ensures (Ones(2) + text + Ones(k))[..|text| + 1 + k] + ([true] + more + [true])
         == [true] + (Ones(1) + text + (Ones(k) + more)) + [true]
    ensures Ones(2) + text + Ones(k) == [true] + (Ones(1) + text + Ones(k - 1)) + [true]
  {
  }

  /** Packets sent one after the other carry their strings one after the other, joined by ones. */
  lemma {:induction false} PacketsCompose(packets: seq<seq<bv8>>, strings: seq<Bits>) returns (middle: Bits)
    requires |packets| == |strings| > 0
    requires forall i :: 0 <= i < |packets| ==> Conveys(packets[i], strings[i])
    ensures Concat(packets) != [] && CarriesShared(Halves(Line(Concat(packets))), [true] + middle + [true])
    ensures InOrder(middle, strings)
    decreases |packets|
  {
    hide Halves, Line, CarriesShared, Bounded;
    var halves, text := Halves(Line(packets[0])), strings[0];
    assert Conveys(packets[0], text);
    var k :| 1 <= k <= 5 && CarriesShared(halves, Ones(2) + text + Ones(k));
    if |packets| == 1 {
      assert Concat(packets) == packets[0] + [] == packets[0];
      middle := Ones(1) + text + Ones(k - 1);
      SeamOfStrings(text, k, []);
      assert strings[1..] == [] && InOrder(Ones(k - 1), strings[1..]);
    } else {
      var more := PacketsCompose(packets[1..], strings[1..]);
      middle := Ones(1) + text + (Ones(k) + more);
      HalvesOfBytes(packets[0], Concat(packets[1..]));
      SharedJoin(halves, Ones(2) + text + Ones(k), Halves(Line(Concat(packets[1..]))), [true] + more + [true]);
      SeamOfStrings(text, k, more);
      MoreOnesInFront(k, more, strings[1..]);
    }
  }

  /** A receiver reads them so. */
  lemma ComposedReads(packets: seq<seq<bv8>>, strings: seq<Bits>) returns (read: Bits)
    requires |packets| == |strings| > 0
    requires forall i :: 0 <= i < |packets| ==> Conveys(packets[i], strings[i])
    ensures Concat(packets) != [] && ReadHighLow(Concat(packets)) == Some(read) && InOrder(read, strings)
  {
    hide Halves, Line, CarriesShared, ReadBits, Conveys, InOrder, Concat;
    read := PacketsCompose(packets, strings);
    SharedReadsBack(Halves(Line(Concat(packets))), [true] + read + [true]);
    assert ([true] + read + [true])[1..|read| + 1] == read;
  }
}
