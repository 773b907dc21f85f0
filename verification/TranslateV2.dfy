/**
  Version 2 of the translation of a DCC bit string into UART bytes
  (translateBitstream2Packetstream_v2). A byte carries whole bits, so the string has to be cut into
  the patterns of a table. The routine tries long patterns first and takes its last choice back when
  none fits.
 */
module TranslateV2 {
  import opened Waveform
  import opened TranslateV3

  const DATA_CNT := 15

  datatype Entry = Entry(pattern: Bits, value: bv8)

  /** TranslateData. */
  function Table(i: nat): (entry: Entry)
    requires i < DATA_CNT
    ensures 1 <= |entry.pattern| <= 5
  {
    match i
    case 0 => Entry([false], 0xf0)
    case 1 => Entry([false, false], 0xc6)
    case 2 => Entry([false, true], 0x78)
    case 3 => Entry([true, false], 0xe1)
    case 4 => Entry([false, false, true], 0x66)
    case 5 => Entry([false, true, false], 0x96)
    case 6 => Entry([false, true, true], 0x5c)
    case 7 => Entry([true, false, false], 0x99)
    case 8 => Entry([true, false, true], 0x71)
    case 9 => Entry([true, true, false], 0xc5)
    case 10 => Entry([false, true, true, true], 0x56)
    case 11 => Entry([true, false, true, true], 0x59)
    case 12 => Entry([true, true, false, true], 0x65)
    case 13 => Entry([true, true, true, false], 0x95)
    case _ => Entry([true, true, true, true, true], 0x55)
  }

  ghost predicate Sends(value: bv8, bits: Bits) {
    CarriesWhole(Halves(Line([value])), bits) && Bounded(Halves(Line([value])))
  }

  lemma SendsRuns(value: bv8, runs: seq<nat>, bits: Bits)
    requires Frame(value) == Spread(false, runs)
    requires forall i :: 0 <= i < |runs| ==> 1 <= runs[i] <= 9
    requires CarriesWhole(runs, bits)
    ensures Sends(value, bits)
  {
    FrameRuns(value, runs);
  }

  lemma Entry0() ensures Sends(0xf0, [false])
  {
    assert Frame(0xf0) == Spread(false, [5, 5]);
    SendsRuns(0xf0, [5, 5], [false]);
  }

  lemma Entry1() ensures Sends(0xc6, [false, false])
  {
    assert Frame(0xc6) == Spread(false, [2, 2, 3, 3]);
    SendsRuns(0xc6, [2, 2, 3, 3], [false, false]);
  }

  lemma Entry2() ensures Sends(0x78, [false, true])
  {
    assert Frame(0x78) == Spread(false, [4, 4, 1, 1]);
    SendsRuns(0x78, [4, 4, 1, 1], [false, true]);
  }

  lemma Entry3() ensures Sends(0xe1, [true, false])
  {
    assert Frame(0xe1) == Spread(false, [1, 1, 4, 4]);
    SendsRuns(0xe1, [1, 1, 4, 4], [true, false]);
  }

  lemma Entry4() ensures Sends(0x66, [false, false, true])
  {
    assert Frame(0x66) == Spread(false, [2, 2, 2, 2, 1, 1]);
    SendsRuns(0x66, [2, 2, 2, 2, 1, 1], [false, false, true]);
  }

  lemma Entry5() ensures Sends(0x96, [false, true, false])
  {
    assert Frame(0x96) == Spread(false, [2, 2, 1, 1, 2, 2]);
    SendsRuns(0x96, [2, 2, 1, 1, 2, 2], [false, true, false]);
  }

  lemma Entry6() ensures Sends(0x5c, [false, true, true])
  {
    assert Frame(0x5c) == Spread(false, [3, 3, 1, 1, 1, 1]);
    SendsRuns(0x5c, [3, 3, 1, 1, 1, 1], [false, true, true]);
  }

  lemma Entry7() ensures Sends(0x99, [true, false, false])
  {
    assert Frame(0x99) == Spread(false, [1, 1, 2, 2, 2, 2]);
    SendsRuns(0x99, [1, 1, 2, 2, 2, 2], [true, false, false]);
  }

  lemma Entry8() ensures Sends(0x71, [true, false, true])
  {
    assert Frame(0x71) == Spread(false, [1, 1, 3, 3, 1, 1]);
    SendsRuns(0x71, [1, 1, 3, 3, 1, 1], [true, false, true]);
  }

  lemma Entry9() ensures Sends(0xc5, [true, true, false])
  {
    assert Frame(0xc5) == Spread(false, [1, 1, 1, 1, 3, 3]);
    SendsRuns(0xc5, [1, 1, 1, 1, 3, 3], [true, true, false]);
  }

  lemma Entry10() ensures Sends(0x56, [false, true, true, true])
  {
    assert Frame(0x56) == Spread(false, [2, 2, 1, 1, 1, 1, 1, 1]);
    SendsRuns(0x56, [2, 2, 1, 1, 1, 1, 1, 1], [false, true, true, true]);
  }

  lemma Entry11() ensures Sends(0x59, [true, false, true, true])
  {
    assert Frame(0x59) == Spread(false, [1, 1, 2, 2, 1, 1, 1, 1]);
    SendsRuns(0x59, [1, 1, 2, 2, 1, 1, 1, 1], [true, false, true, true]);
  }

  lemma Entry12() ensures Sends(0x65, [true, true, false, true])
  {
    assert Frame(0x65) == Spread(false, [1, 1, 1, 1, 2, 2, 1, 1]);
    SendsRuns(0x65, [1, 1, 1, 1, 2, 2, 1, 1], [true, true, false, true]);
  }

  lemma Entry13() ensures Sends(0x95, [true, true, true, false])
  {
    assert Frame(0x95) == Spread(false, [1, 1, 1, 1, 1, 1, 2, 2]);
    SendsRuns(0x95, [1, 1, 1, 1, 1, 1, 2, 2], [true, true, true, false]);
  }

  lemma Entry14() ensures Sends(0x55, [true, true, true, true, true])
  {
    assert Frame(0x55) == Spread(false, [1, 1, 1, 1, 1, 1, 1, 1, 1, 1]);
    SendsRuns(0x55, [1, 1, 1, 1, 1, 1, 1, 1, 1, 1], [true, true, true, true, true]);
  }

  lemma EntrySends(i: nat)
    requires i < DATA_CNT
    ensures Sends(Table(i).value, Table(i).pattern)
  {
    hide Sends;
    match i
    case 0 => Entry0();
    case 1 => Entry1();
    case 2 => Entry2();
    case 3 => Entry3();
    case 4 => Entry4();
    case 5 => Entry5();
    case 6 => Entry6();
    case 7 => Entry7();
    case 8 => Entry8();
    case 9 => Entry9();
    case 10 => Entry10();
    case 11 => Entry11();
    case 12 => Entry12();
    case 13 => Entry13();
    case _ => Entry14();
  }

  // ---------------------------------------------------------------- what can be translated

  predicate Matches(s: Bits, i: nat)
    requires i < DATA_CNT
  {
    Table(i).pattern <= s
  }

  /** The end that one byte 0x55 stands for. */
  predicate IsTail(s: Bits) {
    1 <= |s| <= 5 && s == Ones(|s|)
  }

  /** The string can be cut into patterns of the table, with a tail of one to five ones or without. */
  ghost predicate Tiles(s: Bits)
    decreases |s|
  {
    s == [] || IsTail(s) || exists i: nat :: Leads(s, i)
  }

  ghost predicate Leads(s: Bits, i: nat)
    decreases |s|, i
  {
    i < DATA_CNT && Matches(s, i) && |Table(i).pattern| <= |s| && Tiles(s[|Table(i).pattern|..])
  }

  /** A pattern up to number i starts a way to cut the string. */
  ghost predicate Below(s: Bits, i: int) {
    exists k: nat :: k <= i && Leads(s, k)
  }

  // ---------------------------------------------------------------- the stack of choices

  predicate IsStack(st: seq<nat>) {
    forall l :: 0 <= l < |st| ==> st[l] < DATA_CNT
  }

  /** The number of bits that the chosen patterns cover. */
  function Total(st: seq<nat>): nat
    requires IsStack(st)
  {
    if st == [] then 0 else Total(st[..|st| - 1]) + |Table(st[|st| - 1]).pattern|
  }

  function Codes(st: seq<nat>): (bytes: seq<bv8>)
    requires IsStack(st)
    ensures |bytes| == |st|
  {
    if st == [] then [] else Codes(st[..|st| - 1]) + [Table(st[|st| - 1]).value]
  }

  /** The chosen patterns, one after the other, start the string. */
  ghost predicate Cut(bits: Bits, st: seq<nat>)
    requires IsStack(st)
  {
    && Total(st) <= |bits|
    && (st != [] ==>
          var n := |st| - 1;
          && Cut(bits, st[..n])
          && Total(st[..n]) <= |bits|
          && Matches(bits[Total(st[..n])..], st[n]))
  }

  /** One of the choices has a smaller alternative that leads to a way to cut the string. */
  ghost predicate Open(bits: Bits, st: seq<nat>)
    requires IsStack(st)
  {
    st != [] &&
    var n := |st| - 1;
    (Total(st[..n]) <= |bits| && Below(bits[Total(st[..n])..], st[n] as int - 1)) || Open(bits, st[..n])
  }

  /** What the search may still find at the end of its choices, having patterns up to number i to try. */
  ghost predicate Here(s: Bits, i: int) {
    if i == DATA_CNT - 1 then Tiles(s) else Below(s, i)
  }

  // ---------------------------------------------------------------- the work that is left

  /** The rounds it takes to find that no pattern up to number i leads anywhere. */
  function Work(s: Bits, i: int): nat
    requires i < DATA_CNT
    decreases |s|, if i < 0 then 0 else i + 1
  {
    if i < 0 then 1
    else if Matches(s, i) then 1 + Work(s[|Table(i).pattern|..], DATA_CNT - 1) + Work(s, i - 1)
    else Work(s, i - 1)
  }

  function Pending(bits: Bits, st: seq<nat>): nat
    requires IsStack(st) && Total(st) <= |bits|
  {
    if st == [] then 0
    else
      var n := |st| - 1;
      Pending(bits, st[..n]) + Work(bits[Total(st[..n])..], st[n] as int - 1)
  }

  // ---------------------------------------------------------------- what the choices carry

  lemma {:induction false} CodesCarry(bits: Bits, st: seq<nat>)
    requires IsStack(st) && Cut(bits, st)
    ensures CarriesWhole(Halves(Line(Codes(st))), bits[..Total(st)])
    ensures Bounded(Halves(Line(Codes(st))))
  {
    hide Halves, Line, Table;
    if st == [] {
      NoBytes();
    } else {
      var n := |st| - 1;
      var before, entry := Total(st[..n]), Table(st[n]);
      CodesCarry(bits, st[..n]);
      EntrySends(st[n]);
      HalvesOfBytes(Codes(st[..n]), [entry.value]);
      WholeJoin(Halves(Line(Codes(st[..n]))), bits[..before], Halves(Line([entry.value])), entry.pattern);
      assert bits[before..][..|entry.pattern|] == entry.pattern;
      assert bits[..Total(st)] == bits[..before] + entry.pattern;
    }
  }

  lemma NoBytes()
    ensures Halves(Line([])) == []
  {
  }

  lemma {:induction false} EveryChoiceCoversABit(st: seq<nat>)
    requires IsStack(st)
    ensures |st| <= Total(st)
  {
    hide Table;
    if st != [] {
      EveryChoiceCoversABit(st[..|st| - 1]);
    }
  }

  /** The bytes carry the string in whole bits, with up to four ones behind it. */
  ghost predicate Conveys(bytes: seq<bv8>, bits: Bits) {
    && Bounded(Halves(Line(bytes)))
    && exists k :: 0 <= k <= 4 && CarriesWhole(Halves(Line(bytes)), bits + Ones(k))
  }

  lemma TailCarries(bits: Bits, st: seq<nat>)
    requires IsStack(st) && Cut(bits, st) && IsTail(bits[Total(st)..])
    ensures Conveys(Codes(st) + [0x55], bits)
  {
    hide Halves, Line, Table, Codes;
    var tail := bits[Total(st)..];
    CodesCarry(bits, st);
    Entry14();
    HalvesOfBytes(Codes(st), [0x55]);
    WholeJoin(Halves(Line(Codes(st))), bits[..Total(st)], Halves(Line([0x55])), Ones(5));
    assert Ones(5) == [true, true, true, true, true];
    assert bits[..Total(st)] + Ones(5) == bits + Ones(5 - |tail|);
  }

  lemma PushKeepsCut(bits: Bits, st: seq<nat>, i: nat)
    requires IsStack(st) && Cut(bits, st) && i < DATA_CNT && Matches(bits[Total(st)..], i)
    ensures Cut(bits, st + [i]) && Total(st + [i]) == Total(st) + |Table(i).pattern|
    ensures Codes(st + [i]) == Codes(st) + [Table(i).value]
    ensures Pending(bits, st + [i]) == Pending(bits, st) + Work(bits[Total(st)..], i as int - 1)
    ensures Open(bits, st + [i]) <==> Below(bits[Total(st)..], i as int - 1) || Open(bits, st)
  {
    hide Table, Work, Below;
    assert (st + [i])[..|st|] == st;
  }

  /** A string that is neither empty nor a tail is cut only by starting with a pattern. */
  lemma HereIsBelow(s: Bits, i: int)
    requires -1 <= i < DATA_CNT && s != [] && !IsTail(s)
    ensures Here(s, i) ==> Below(s, i)
  {
    if i == DATA_CNT - 1 && Tiles(s) {
      TilesLeads(s);
    }
  }

  lemma TilesLeads(s: Bits)
    requires Tiles(s) && s != [] && !IsTail(s)
    ensures exists k: nat :: k < DATA_CNT && Leads(s, k)
  {
    var k: nat :| Leads(s, k);
    assert k < DATA_CNT;
  }

  lemma SkipPattern(s: Bits, i: nat)
    requires i < DATA_CNT && !Matches(s, i)
    ensures Below(s, i) ==> Below(s, i as int - 1)
    ensures Work(s, i) == Work(s, i as int - 1)
  {
  }

  lemma TakePattern(s: Bits, i: nat)
    requires i < DATA_CNT && Matches(s, i)
    ensures var rest := s[|Table(i).pattern|..];
      && (Below(s, i) ==> Tiles(rest) || Below(s, i as int - 1))
      && Work(s, i) == 1 + Work(rest, DATA_CNT - 1) + Work(s, i as int - 1)
  {
    hide Table, Tiles;
    if Below(s, i) && !Below(s, i as int - 1) {
      var k: nat :| k <= i && Leads(s, k);
      assert k == i;
    }
  }

  /** Where the search stands: the choices start the string, and every way to cut it is still open. */
  ghost predicate Searching(bits: Bits, st: seq<nat>, i: int) {
    && -1 <= i < DATA_CNT
    && IsStack(st) && Cut(bits, st) && Total(st) <= |bits|
    && (Tiles(bits) ==> Open(bits, st) || Here(bits[Total(st)..], i))
  }

  function Left(bits: Bits, st: seq<nat>, i: int): nat
    requires IsStack(st) && Total(st) <= |bits| && i < DATA_CNT
  {
    Pending(bits, st) + Work(bits[Total(st)..], i)
  }

  lemma StartOfSearch(bits: Bits)
    ensures IsStack([]) && Searching(bits, [], DATA_CNT - 1) && Total([]) == 0 && Codes([]) == []
  {
    hide Tiles;
    assert bits[0..] == bits;
  }

  /** Patterns that do not match are passed over. */
  lemma {:induction false} SkipDown(bits: Bits, st: seq<nat>, i: int, i': int)
    requires Searching(bits, st, i) && -1 <= i' <= i && Total(st) < |bits| && !IsTail(bits[Total(st)..])
    requires forall k :: i' < k <= i ==> !Matches(bits[Total(st)..], k)
    ensures Searching(bits, st, i') && Left(bits, st, i') == Left(bits, st, i)
    decreases i - i'
  {
    hide Table, Tiles, Below, Work, Matches, Open, Cut;
    var s := bits[Total(st)..];
    HereIsBelow(s, i);
    if i' < i {
      SkipPattern(s, i);
      SkipDown(bits, st, i - 1, i');
    }
  }

  /** Without a pattern, the last choice is taken back. */
  lemma Backtrack(bits: Bits, st: seq<nat>)
    requires Searching(bits, st, -1)
    ensures st == [] ==> !Tiles(bits)
    ensures st != [] ==>
              var n := |st| - 1;
              && IsStack(st[..n]) && st[n] < DATA_CNT && Searching(bits, st[..n], st[n] as int - 1)
              && Total(st[..n]) == Total(st) - |Table(st[n]).pattern|
              && Codes(st[..n]) == Codes(st)[..n]
              && Left(bits, st[..n], st[n] as int - 1) < Left(bits, st, -1)
  {
    hide Table, Work, Tiles, Matches;
    assert Work(bits[Total(st)..], -1) == 1 by { NothingBelow(bits[Total(st)..]); }
  }

  lemma NothingBelow(s: Bits)
    ensures Work(s, -1) == 1
  {
  }

  /** A pattern that matches is chosen. */
  lemma Advance(bits: Bits, st: seq<nat>, i: nat)
    requires Searching(bits, st, i) && i < DATA_CNT && Matches(bits[Total(st)..], i)
    requires Total(st) < |bits| && !IsTail(bits[Total(st)..])
    ensures IsStack(st + [i]) && Searching(bits, st + [i], DATA_CNT - 1) && Total(st + [i]) <= |bits|
    ensures Total(st + [i]) == Total(st) + |Table(i).pattern|
    ensures Codes(st + [i]) == Codes(st) + [Table(i).value]
    ensures Left(bits, st + [i], DATA_CNT - 1) < Left(bits, st, i)
  {
    hide Table, Tiles, Below, Work, Open, Cut, Pending;
    var s := bits[Total(st)..];
    HereIsBelow(s, i);
    TakePattern(s, i);
    PushKeepsCut(bits, st, i);
    assert bits[Total(st + [i])..] == s[|Table(i).pattern|..];
  }

  /** What has been cut up to a point where the rest can be cut, can be cut. */
  lemma {:induction false} CutTiles(bits: Bits, st: seq<nat>)
    requires IsStack(st) && Cut(bits, st) && Tiles(bits[Total(st)..])
    ensures Tiles(bits)
    decreases |st|
  {
    hide Table;
    if st == [] {
      assert bits[0..] == bits;
    } else {
      var n := |st| - 1;
      var s, i := bits[Total(st[..n])..], st[n];
      assert bits[Total(st)..] == s[|Table(i).pattern|..];
      assert Leads(s, i);
      CutTiles(bits, st[..n]);
    }
  }

  ghost predicate ConveysPart(bytes: seq<bv8>, bits: Bits) {
    exists n :: |bytes| <= n <= |bits| && CarriesWhole(Halves(Line(bytes)), bits[..n])
  }

  /** The choices have reached the end, but for a tail. */
  ghost predicate Complete(bits: Bits, st: seq<nat>) {
    && IsStack(st) && Cut(bits, st) && Total(st) <= |bits|
    && (Total(st) == |bits| || IsTail(bits[Total(st)..]))
  }

  /** The three ways out of the search. */
  lemma EndInTail(bits: Bits, st: seq<nat>, i: int)
    requires Searching(bits, st, i) && IsTail(bits[Total(st)..])
    ensures Tiles(bits) && Conveys(Codes(st) + [0x55], bits) && Complete(bits, st)
  {
    hide Table, Codes;
    CutTiles(bits, st);
    TailCarries(bits, st);
  }

  lemma EndWithFullPacket(bits: Bits, st: seq<nat>, i: int)
    requires Searching(bits, st, i)
    ensures ConveysPart(Codes(st), bits) && |st| <= |bits|
  {
    hide Table, Codes;
    CodesCarry(bits, st);
    EveryChoiceCoversABit(st);
  }

  lemma EndOfString(bits: Bits, st: seq<nat>, i: int)
    requires Searching(bits, st, i) && Total(st) == |bits|
    ensures Tiles(bits) && Conveys(Codes(st), bits) && Complete(bits, st)
  {
    hide Table, Codes;
    CutTiles(bits, st);
    CodesCarry(bits, st);
    assert bits[..Total(st)] == bits + Ones(0);
  }

  // ---------------------------------------------------------------- how deep the search has been

  /** Every pattern that has been tried in vain starts no way to cut what it was tried on, which was no tail. */
  ghost predicate TriedBelow(bits: Bits, st: seq<nat>)
    requires IsStack(st)
  {
    st != [] ==>
      var n := |st| - 1;
      && TriedBelow(bits, st[..n])
      && Total(st[..n]) <= |bits| && !IsTail(bits[Total(st[..n])..])
      && forall k :: st[n] < k < DATA_CNT ==> !Leads(bits[Total(st[..n])..], k)
  }

  ghost predicate Tried(bits: Bits, st: seq<nat>, i: int) {
    && IsStack(st) && Total(st) <= |bits| && TriedBelow(bits, st)
    && forall k: nat :: i < k < DATA_CNT ==> !Leads(bits[Total(st)..], k)
  }

  /** Other choices part from the current ones at some level: there they took a longer pattern, in vain. */
  ghost predicate Parted(bits: Bits, st: seq<nat>, i: int, other: seq<nat>, l: nat)
    requires IsStack(st) && IsStack(other)
  {
    && l < |other| && l <= |st| && other[..l] == st[..l]
    && other[l] > (if l < |st| then st[l] else i)
    && Total(other[..l + 1]) <= |bits| && !Tiles(bits[Total(other[..l + 1])..])
  }

  /** The deepest choices so far are among the current ones, or have been taken back. */
  ghost predicate Explored(bits: Bits, st: seq<nat>, i: int, deepest: seq<nat>) {
    && Tried(bits, st, i)
    && IsStack(deepest) && Cut(bits, deepest)
    && Behind(bits, st, i, deepest)
  }

  ghost predicate Behind(bits: Bits, st: seq<nat>, i: int, deepest: seq<nat>)
    requires IsStack(st) && IsStack(deepest)
  {
    deepest <= st || exists l: nat :: Parted(bits, st, i, deepest, l)
  }

  lemma ExploredStart(bits: Bits)
    ensures Explored(bits, [], DATA_CNT - 1, [])
  {
  }

  lemma ExploredSkip(bits: Bits, st: seq<nat>, i: int, i': int, deepest: seq<nat>)
    requires Explored(bits, st, i, deepest) && i' <= i
    requires forall k :: i' < k <= i && 0 <= k < DATA_CNT ==> !Matches(bits[Total(st)..], k)
    ensures Explored(bits, st, i', deepest)
  {
    hide Table, Tiles, Cut, Total, TriedBelow;
    if !(deepest <= st) {
      var l: nat :| Parted(bits, st, i, deepest, l);
      assert Parted(bits, st, i', deepest, l);
    }
  }

  /** Where nothing is left to try, nothing can be cut. */
  lemma NothingLeads(bits: Bits, st: seq<nat>)
    requires Tried(bits, st, -1) && Total(st) < |bits| && !IsTail(bits[Total(st)..])
    ensures !Tiles(bits[Total(st)..])
  {
    var s := bits[Total(st)..];
    if Tiles(s) {
      TilesLeads(s);
    }
  }

  lemma ExploredBack(bits: Bits, st: seq<nat>, deepest: seq<nat>)
    requires st != [] && Explored(bits, st, -1, deepest) && Searching(bits, st, -1)
    requires Total(st) < |bits| && !IsTail(bits[Total(st)..])
    ensures Explored(bits, st[..|st| - 1], st[|st| - 1] as int - 1, deepest)
  {
    NothingLeads(bits, st);
    var n := |st| - 1;
    var before, i := st[..n], st[n];
    BackTried(bits, st);
    BackDeepest(bits, st, deepest);
  }

  lemma BackDeepest(bits: Bits, st: seq<nat>, deepest: seq<nat>)
    requires st != [] && IsStack(st) && IsStack(deepest) && Behind(bits, st, -1, deepest)
    requires Total(st) <= |bits| && !Tiles(bits[Total(st)..])
    ensures Behind(bits, st[..|st| - 1], st[|st| - 1] as int - 1, deepest)
  {
    hide Table, Tiles, Total, Parted;
    var n := |st| - 1;
    if deepest <= st {
      if |deepest| == |st| {
        BackToParent(bits, st, deepest);
        assert Parted(bits, st[..n], st[n] as int - 1, deepest, n);
      } else {
        assert deepest <= st[..n];
      }
    } else {
      var l: nat :| Parted(bits, st, -1, deepest, l);
      PartedBack(bits, st, deepest, l);
      assert Parted(bits, st[..n], st[n] as int - 1, deepest, if l < n then l else n);
    }
  }

  lemma PartedBack(bits: Bits, st: seq<nat>, deepest: seq<nat>, l: nat)
    requires st != [] && IsStack(st) && IsStack(deepest) && Parted(bits, st, -1, deepest, l)
    requires Total(st) <= |bits| && !Tiles(bits[Total(st)..])
    ensures var n := |st| - 1; Parted(bits, st[..n], st[n] as int - 1, deepest, if l < n then l else n)
  {
    hide Table, Tiles, Total;
    var n := |st| - 1;
    if l <= n {
      PartedAbove(bits, st, deepest, l);
    } else {
      assert deepest[..l] == st;
      hide Parted;
      BackToParent(bits, st, deepest);
    }
  }

  lemma PartedAbove(bits: Bits, st: seq<nat>, deepest: seq<nat>, l: nat)
    requires st != [] && IsStack(st) && IsStack(deepest) && Parted(bits, st, -1, deepest, l) && l < |st|
    ensures var n := |st| - 1; Parted(bits, st[..n], st[n] as int - 1, deepest, l)
  {
    hide Table, Tiles, Total;
    var n := |st| - 1;
    assert st[..n][..l] == st[..l];
    assert l < n ==> st[..n][l] == st[l];
  }

  lemma BackToParent(bits: Bits, st: seq<nat>, deepest: seq<nat>)
    requires st != [] && IsStack(st) && IsStack(deepest) && st <= deepest
    requires Total(st) <= |bits| && !Tiles(bits[Total(st)..])
    ensures var n := |st| - 1; Parted(bits, st[..n], st[n] as int - 1, deepest, n)
  {
    hide Table, Tiles, Total;
    var n := |st| - 1;
    assert deepest[..n + 1] == st && deepest[..n] == st[..n][..n];
  }

  lemma BackTried(bits: Bits, st: seq<nat>)
    requires st != [] && Tried(bits, st, -1) && Cut(bits, st) && !Tiles(bits[Total(st)..])
    ensures Tried(bits, st[..|st| - 1], st[|st| - 1] as int - 1)
  {
    hide Table, Tiles;
    var n := |st| - 1;
    var s := bits[Total(st[..n])..];
    assert bits[Total(st)..] == s[|Table(st[n]).pattern|..];
    assert !Leads(s, st[n]);
  }

  lemma ExploredPush(bits: Bits, st: seq<nat>, i: nat, deepest: seq<nat>)
    requires i < DATA_CNT && Explored(bits, st, i, deepest) && |st| < |deepest| && Total(st + [i]) <= |bits|
    requires !IsTail(bits[Total(st)..])
    ensures Explored(bits, st + [i], DATA_CNT - 1, deepest)
  {
    hide Table, Tiles, Cut, Total;
    PushTried(bits, st, i);
    var l: nat :| Parted(bits, st, i, deepest, l);
    assert (st + [i])[..l] == st[..l];
    assert Parted(bits, st + [i], DATA_CNT - 1, deepest, l);
  }

  lemma ExploredDeeper(bits: Bits, st: seq<nat>, i: nat, deepest: seq<nat>)
    requires i < DATA_CNT && Explored(bits, st, i, deepest) && Total(st + [i]) <= |bits|
    requires Cut(bits, st + [i]) && !IsTail(bits[Total(st)..])
    ensures Explored(bits, st + [i], DATA_CNT - 1, st + [i])
  {
    hide Table, Tiles, Cut, Total;
    PushTried(bits, st, i);
  }

  /** The deepest choices after another one. */
  lemma ExploredAdvance(bits: Bits, st: seq<nat>, i: nat, deepest: seq<nat>) returns (deepest': seq<nat>)
    requires i < DATA_CNT && Explored(bits, st, i, deepest) && Searching(bits, st + [i], DATA_CNT - 1)
    requires |st| <= |deepest| && Total(st) <= |bits| && !IsTail(bits[Total(st)..])
    ensures Explored(bits, st + [i], DATA_CNT - 1, deepest') && |st| + 1 <= |deepest'|
    ensures |deepest'| == if |st| < |deepest| then |deepest| else |st| + 1
  {
    hide Table, Tiles, Cut, Total, Tried, Behind;
    if |st| < |deepest| {
      ExploredPush(bits, st, i, deepest);
      return deepest;
    }
    ExploredDeeper(bits, st, i, deepest);
    return st + [i];
  }

  lemma PushTried(bits: Bits, st: seq<nat>, i: nat)
    requires i < DATA_CNT && Tried(bits, st, i) && Total(st + [i]) <= |bits| && !IsTail(bits[Total(st)..])
    ensures Tried(bits, st + [i], DATA_CNT - 1)
  {
    hide Table, Tiles, Leads;
    assert (st + [i])[..|st|] == st;
  }

  // ---------------------------------------------------------------- the last choices are the deepest

  /** What is left of a pattern behind its first bits is a pattern again, or nothing but ones. */
  lemma RestOfPattern(i: nat, off: nat) returns (k: nat)
    requires i < DATA_CNT && 0 < off < |Table(i).pattern|
    ensures k < DATA_CNT
    ensures Table(k).pattern == Table(i).pattern[off..] || Table(i).pattern[off..] == Ones(|Table(i).pattern| - off)
  {
    var rest := Table(i).pattern[off..];
    if rest == [false] { k := 0; }
    else if rest == [false, false] { k := 1; }
    else if rest == [false, true] { k := 2; }
    else if rest == [true, false] { k := 3; }
    else if rest == [false, true, true] { k := 6; }
    else if rest == [true, false, true] { k := 8; }
    else if rest == [true, true, false] { k := 9; }
    else { k := 0; }
  }

  lemma OnlyFiveOnes(k: nat, n: nat)
    requires k < DATA_CNT && Table(k).pattern == Ones(n)
    ensures n == 5
  {
    var pattern := Table(k).pattern;
    assert pattern[0] && (n > 1 ==> pattern[1]) && (n > 2 ==> pattern[2]) && (n > 3 ==> pattern[3]);
    hide Ones;
  }

  lemma SamePattern(i: nat, k: nat)
    requires i < DATA_CNT && k < DATA_CNT && Table(i).pattern == Table(k).pattern
    ensures i == k
  {
    hide Ones;
    if i < 4 {} else if i < 10 {} else {}
  }

  lemma PatternsGrow(i: nat, k: nat)
    requires i <= k < DATA_CNT
    ensures |Table(i).pattern| <= |Table(k).pattern|
  {
  }

  /** Of two patterns that a string starts with, the one with the higher number is longer. */
  lemma HigherIsLonger(s: Bits, i: nat, k: nat)
    requires i < k < DATA_CNT && Matches(s, i) && Matches(s, k)
    ensures |Table(i).pattern| < |Table(k).pattern|
  {
    hide Table;
    PatternsGrow(i, k);
    if |Table(i).pattern| == |Table(k).pattern| {
      SamePattern(i, k);
    }
  }

  lemma {:induction false} CutAt(bits: Bits, st: seq<nat>, n: nat)
    requires IsStack(st) && Cut(bits, st) && n < |st|
    ensures Total(st[..n + 1]) == Total(st[..n]) + |Table(st[n]).pattern| <= |bits|
    ensures Matches(bits[Total(st[..n])..], st[n])
    decreases |st|
  {
    hide Table;
    if n == |st| - 1 {
      assert st[..n + 1] == st;
    } else {
      CutAt(bits, st[..|st| - 1], n);
      assert st[..|st| - 1][..n] == st[..n] && st[..|st| - 1][..n + 1] == st[..n + 1];
    }
  }

  lemma {:induction false} CutTilesAt(bits: Bits, st: seq<nat>, n: nat)
    requires IsStack(st) && Cut(bits, st) && n <= |st| && Tiles(bits[Total(st)..])
    ensures Total(st[..n]) <= |bits| && Tiles(bits[Total(st[..n])..])
    decreases |st| - n
  {
    hide Table, Tiles, Total;
    if n == |st| {
      assert st[..n] == st;
    } else {
      CutTilesAt(bits, st, n + 1);
      CutAt(bits, st, n);
      LeadsOn(bits, Total(st[..n]), st[n]);
    }
  }

  /** A pattern, and a way to cut the string behind it. */
  lemma LeadsOn(bits: Bits, at: nat, k: nat)
    requires at <= |bits| && k < DATA_CNT && Matches(bits[at..], k) && at + |Table(k).pattern| <= |bits|
    requires Tiles(bits[at + |Table(k).pattern|..])
    ensures Tiles(bits[at..])
  {
    hide Table;
    var s := bits[at..];
    assert bits[at + |Table(k).pattern|..] == s[|Table(k).pattern|..];
    assert Leads(s, k);
  }

  lemma BehindTheEnd(bits: Bits, st: seq<nat>, at: nat)
    requires Complete(bits, st) && Total(st) < at <= |bits|
    ensures Tiles(bits[at..])
  {
    hide Table;
    var tail := bits[Total(st)..];
    assert bits[at..] == tail[at - Total(st)..];
    assert at == |bits| || IsTail(bits[at..]);
  }

  /** Where the choices of the one stand inside a pattern of the other and can not be completed, they go beyond it. */
  lemma GoesBeyond(bits: Bits, f: nat, i: nat, a: nat, k: nat)
    requires i < DATA_CNT && k < DATA_CNT && f < a < f + |Table(i).pattern| <= |bits|
    requires Matches(bits[f..], i) && Matches(bits[a..], k) && Tiles(bits[f + |Table(i).pattern|..])
    requires !Tiles(bits[a..])
    ensures a + |Table(k).pattern| > f + |Table(i).pattern|
  {
    hide Table, Tiles;
    var off, p, q := a - f, Table(i).pattern, Table(k).pattern;
    var rest := p[off..];
    assert bits[f..][..|p|] == p;
    assert bits[a..][..|p| - off] == rest;
    var m := RestOfPattern(i, off);
    if Table(m).pattern == rest {
      LeadsOn(bits, a, m);
    } else if |q| <= |p| - off {
      assert q == rest[..|q|] == Ones(|q|);
      OnlyFiveOnes(k, |q|);
    }
  }

  /** Level by level, choices that have parted from complete ones and lead nowhere stay ahead of them. */
  lemma {:induction false} StaysAhead(bits: Bits, st: seq<nat>, i: int, other: seq<nat>, l: nat, n: nat)
    requires Complete(bits, st) && IsStack(other) && Cut(bits, other)
    requires Parted(bits, st, i, other, l) && l < |st| && l < n <= |other|
    ensures n <= |st| && Total(st[..n]) < Total(other[..n]) <= |bits| && !Tiles(bits[Total(other[..n])..])
    decreases n
  {
    hide Table, Tiles, Cut, Total, Complete, Matches;
    CompleteTiles(bits, st);
    CutAt(bits, other, n - 1);
    if n == l + 1 {
      CutAt(bits, st, l);
      HigherIsLonger(bits[Total(st[..l])..], st[l], other[l]);
    } else {
      StaysAhead(bits, st, i, other, l, n - 1);
      var a := Total(other[..n - 1]);
      if n - 1 == |st| {
        assert st[..n - 1] == st;
        BehindTheEnd(bits, st, a);
      } else {
        CutAt(bits, st, n - 1);
        CutTilesAt(bits, st, n);
        var f := Total(st[..n - 1]);
        if Total(st[..n]) > a {
          GoesBeyond(bits, f, st[n - 1], a, other[n - 1]);
        }
        if Tiles(bits[Total(other[..n])..]) {
          LeadsOn(bits, a, other[n - 1]);
        }
      }
    }
  }

  lemma CompleteTiles(bits: Bits, st: seq<nat>)
    requires Complete(bits, st)
    ensures IsStack(st) && Cut(bits, st) && Total(st) <= |bits| && Tiles(bits[Total(st)..])
  {
  }

  /** When the string has been cut, the choices are as many as they have ever been. */
  lemma DeepestAtEnd(bits: Bits, st: seq<nat>, i: int, deepest: seq<nat>)
    requires Complete(bits, st) && Explored(bits, st, i, deepest)
    ensures |deepest| <= |st|
  {
    hide Table, Tiles, Cut, Total, Tried;
    if !(deepest <= st) {
      var l: nat :| Parted(bits, st, i, deepest, l);
      if l < |st| {
        StaysAhead(bits, st, i, deepest, l, |deepest|);
      } else {
        NothingBehindTheEnd(bits, st, deepest);
      }
    }
  }

  /** Choices that go on behind the end of the string, or of a tail, can be completed. */
  lemma NothingBehindTheEnd(bits: Bits, st: seq<nat>, other: seq<nat>)
    requires Complete(bits, st) && IsStack(other) && Cut(bits, other) && |st| < |other| && other[..|st|] == st
    ensures Total(other[..|st| + 1]) <= |bits| && Tiles(bits[Total(other[..|st| + 1])..])
  {
    hide Table, Tiles, Cut, Total, Matches;
    CutAt(bits, other, |st|);
    BehindTheEnd(bits, st, Total(other[..|st| + 1]));
  }

  // ---------------------------------------------------------------- the first way to cut the string

  /** The choices that come first when patterns with higher numbers are preferred, from number i downwards. */
  function FirstBelow(s: Bits, i: int): (f: Option<seq<nat>>)
    requires i < DATA_CNT
    ensures f.Some? ==> IsStack(f.value)
    decreases |s|, if i < 0 then 0 else i + 1
  {
    if i < 0 then None
    else
      var rest := if Matches(s, i) then First(s[|Table(i).pattern|..]) else None;
      if rest.Some? then Some([i] + rest.value) else FirstBelow(s, i - 1)
  }

  function First(s: Bits): (f: Option<seq<nat>>)
    ensures f.Some? ==> IsStack(f.value)
    decreases |s|, DATA_CNT + 1
  {
    if s == [] || IsTail(s) then Some([]) else FirstBelow(s, DATA_CNT - 1)
  }

  /** There is one if and only if the string can be cut at all. */
  lemma {:induction false} FirstExists(s: Bits)
    ensures First(s).Some? <==> Tiles(s)
    decreases |s|, DATA_CNT + 1
  {
    if s != [] && !IsTail(s) {
      FirstBelowExists(s, DATA_CNT - 1);
      if Tiles(s) {
        TilesLeads(s);
        var k: nat :| k < DATA_CNT && Leads(s, k);
        assert Below(s, DATA_CNT - 1);
      }
    }
  }

  lemma {:induction false} FirstBelowExists(s: Bits, i: int)
    requires i < DATA_CNT
    ensures FirstBelow(s, i).Some? <==> Below(s, i)
    decreases |s|, if i < 0 then 0 else i + 1
  {
    hide Table, Tiles;
    if i >= 0 {
      FirstBelowExists(s, i - 1);
      if Matches(s, i) {
        FirstExists(s[|Table(i).pattern|..]);
        assert FirstBelow(s, i).Some? && !FirstBelow(s, i - 1).Some? ==> Leads(s, i);
      }
      if Below(s, i) && !Below(s, i - 1) {
        var k: nat :| k <= i && Leads(s, k);
        assert k == i;
      }
    }
  }

  /** Patterns that lead nowhere are passed over. */
  lemma {:induction false} FirstSkips(s: Bits, i: int, i': int)
    requires -1 <= i' <= i < DATA_CNT
    requires forall k: nat :: i' < k <= i ==> !Leads(s, k)
    ensures FirstBelow(s, i) == FirstBelow(s, i')
    decreases i - i'
  {
    hide Table, Tiles;
    if i' < i {
      if Matches(s, i) { FirstExists(s[|Table(i).pattern|..]); }
      assert !Leads(s, i);
      FirstSkips(s, i - 1, i');
    }
  }

  /** The choices of the search, followed by the first ones for the rest, are the first ones. */
  lemma {:induction false} FirstThrough(bits: Bits, st: seq<nat>, f: seq<nat>)
    requires IsStack(st) && Cut(bits, st) && TriedBelow(bits, st) && Total(st) <= |bits|
    requires First(bits[Total(st)..]) == Some(f)
    ensures First(bits) == Some(st + f)
    decreases |st|
  {
    hide Table, Tiles, Cut, TriedBelow, First, FirstBelow, Total, Leads;
    if st == [] {
      NoChoice(bits);
      assert [] + f == f;
    } else {
      var n := |st| - 1;
      var before, k := st[..n], st[n];
      LastChoice(bits, st);
      var s := bits[Total(before)..];
      FirstSkips(s, DATA_CNT - 1, k);
      FirstTakes(s, k, f);
      FirstThrough(bits, before, [k] + f);
      assert before + ([k] + f) == st + f;
    }
  }

  lemma NoChoice(bits: Bits)
    ensures IsStack([]) && Total([]) == 0 && bits[0..] == bits
  {
  }

  lemma LastChoice(bits: Bits, st: seq<nat>)
    requires IsStack(st) && Cut(bits, st) && TriedBelow(bits, st) && st != [] && Total(st) <= |bits|
    ensures var n := |st| - 1;
      var before, k := st[..n], st[n];
      && IsStack(before) && Cut(bits, before) && TriedBelow(bits, before) && Total(before) <= |bits| && k < DATA_CNT
      && var s := bits[Total(before)..];
         && Matches(s, k) && !IsTail(s) && bits[Total(st)..] == s[|Table(k).pattern|..]
         && forall k' :: k < k' < DATA_CNT ==> !Leads(s, k')
  {
    hide Table, Leads;
  }

  lemma FirstTakes(s: Bits, k: nat, f: seq<nat>)
    requires k < DATA_CNT && Matches(s, k) && First(s[|Table(k).pattern|..]) == Some(f)
    ensures FirstBelow(s, k) == Some([k] + f) && s != []
    ensures !IsTail(s) ==> First(s) == FirstBelow(s, DATA_CNT - 1)
  {
  }

  /** When the search succeeds, its choices are the first ones. */
  lemma EndsWithFirst(bits: Bits, st: seq<nat>, i: int, deepest: seq<nat>)
    requires Complete(bits, st) && Explored(bits, st, i, deepest)
    ensures First(bits) == Some(st)
  {
    hide Table, Tiles, Cut, TriedBelow, Behind, FirstBelow;
    FirstThrough(bits, st, []);
    assert st + [] == st;
  }

  /** The first choice is one that leads on, and no higher one does. */
  lemma {:induction false} FirstLeads(s: Bits, i: int, f: seq<nat>)
    requires -1 <= i < DATA_CNT && FirstBelow(s, i) == Some(f)
    ensures f != [] && f[0] <= i && Matches(s, f[0]) && |Table(f[0]).pattern| <= |s|
    ensures First(s[|Table(f[0]).pattern|..]) == Some(f[1..])
    ensures forall k: nat :: f[0] < k <= i ==> !Leads(s, k)
    decreases i
  {
    hide Table, Tiles, First;
    var rest := if Matches(s, i) then First(s[|Table(i).pattern|..]) else None;
    if Matches(s, i) { FirstExists(s[|Table(i).pattern|..]); }
    if rest.None? { FirstLeads(s, i - 1, f); }
  }

  lemma FirstAtEnd(s: Bits)
    requires s == [] || IsTail(s)
    ensures First(s) == Some([])
  {
  }

  lemma FirstBeforeEnd(s: Bits)
    requires s != [] && !IsTail(s)
    ensures First(s) == FirstBelow(s, DATA_CNT - 1)
  {
  }

  lemma {:induction false} FirstCompletes(bits: Bits, st: seq<nat>, f: seq<nat>)
    requires IsStack(st) && Cut(bits, st) && Total(st) <= |bits| && First(bits[Total(st)..]) == Some(f)
    ensures Complete(bits, st + f)
    decreases |f|
  {
    hide Table, Tiles, Cut, FirstBelow, Open, Pending, Work, Below, Total, Codes, Leads, First;
    var s := bits[Total(st)..];
    if s == [] || IsTail(s) {
      FirstAtEnd(s);
      assert st + f == st;
    } else {
      FirstBeforeEnd(s);
      FirstLeads(s, DATA_CNT - 1, f);
      PushKeepsCut(bits, st, f[0]);
      assert bits[Total(st + [f[0]])..] == s[|Table(f[0]).pattern|..];
      FirstCompletes(bits, st + [f[0]], f[1..]);
      assert st + [f[0]] + f[1..] == st + f;
    }
  }

  lemma {:induction false} TriedAt(bits: Bits, st: seq<nat>, n: nat)
    requires IsStack(st) && TriedBelow(bits, st) && n < |st|
    ensures Total(st[..n]) <= |bits| && !IsTail(bits[Total(st[..n])..])
    ensures forall k :: st[n] < k < DATA_CNT ==> !Leads(bits[Total(st[..n])..], k)
    decreases |st|
  {
    hide Table, Leads, Total;
    if n == |st| - 1 {
      assert st[..n] == st[..|st| - 1];
    } else {
      TriedAt(bits, st[..|st| - 1], n);
      assert st[..|st| - 1][..n] == st[..n];
    }
  }

  /** The search never makes more choices than the first way to cut the string has. */
  lemma {:induction false} NeverDeeper(bits: Bits, f: seq<nat>, st: seq<nat>, l: nat)
    requires Complete(bits, f) && IsStack(st) && Cut(bits, st) && TriedBelow(bits, st)
    requires l <= |st| && l <= |f| && f[..l] == st[..l] && Total(st[..l]) <= |bits|
    requires First(bits[Total(st[..l])..]) == Some(f[l..])
    ensures |st| <= |f|
    decreases |st| - l
  {
    hide Table, Tiles, Cut, TriedBelow, FirstBelow, Total, Matches, Leads, Complete;
    if l < |st| {
      var s := bits[Total(st[..l])..];
      TriedAt(bits, st, l);
      CutAt(bits, st, l);
      NotAtEnd(s, st[l]);
      FirstLeads(s, DATA_CNT - 1, f[l..]);
      assert f[l..][0] == f[l] && f[l..][1..] == f[l + 1..];
      if f[l] == st[l] {
        assert f[..l + 1] == st[..l + 1];
        assert bits[Total(st[..l + 1])..] == s[|Table(st[l]).pattern|..];
        NeverDeeper(bits, f, st, l + 1);
      } else {
        FirstIsBelow(s, f[l], st[l]);
        assert bits[Total(st[..l + 1])..] == s[|Table(st[l]).pattern|..];
        CompleteTiles(bits, f);
        assert Parted(bits, f, 0, st, l);
        StaysAhead(bits, f, 0, st, l, |st|);
      }
    }
  }

  lemma NotAtEnd(s: Bits, k: nat)
    requires k < DATA_CNT && Matches(s, k) && !IsTail(s)
    ensures First(s) == FirstBelow(s, DATA_CNT - 1)
  {
  }

  /** A pattern other than the first that leads on is above it and leads nowhere, or is below it. */
  lemma FirstIsBelow(s: Bits, first: nat, k: nat)
    requires first < DATA_CNT && k < DATA_CNT && first != k && Matches(s, first) && Matches(s, k)
    requires First(s[|Table(first).pattern|..]).Some?
    requires forall k': nat :: first < k' < DATA_CNT ==> !Leads(s, k')
    requires forall k' :: k < k' < DATA_CNT ==> !Leads(s, k')
    ensures first < k && !Tiles(s[|Table(k).pattern|..])
  {
    hide Table, Tiles, First;
    FirstExists(s[|Table(first).pattern|..]);
    assert Leads(s, first);
    assert !Leads(s, k);
  }

  /** With so many choices, the first way to cut the string has as many. */
  lemma FullMeansFirstIsLong(bits: Bits, st: seq<nat>, i: int, deepest: seq<nat>)
    requires Searching(bits, st, i) && Explored(bits, st, i, deepest) && First(bits).Some?
    ensures |st| <= |First(bits).value|
  {
    hide Table, Tiles, Cut, TriedBelow, Behind, FirstBelow, First, Complete, Open, Below;
    var f := First(bits).value;
    NoChoice(bits);
    NothingIsCut(bits);
    FirstCompletes(bits, [], f);
    assert [] + f == f && f[0..] == f && f[..0] == st[..0] == [];
    NeverDeeper(bits, f, st, 0);
  }

  lemma NothingIsCut(bits: Bits)
    ensures Cut(bits, [])
  {
  }

  // ---------------------------------------------------------------- the routine

  /** The bytes for a string: those of the first way to cut it, if it has fewer than PKTSIZE patterns, and one for the
      tail. */
  function Encoded(bits: Bits): Option<seq<bv8>> {
    var f := First(bits);
    if f.None? || |f.value| >= PKTSIZE then None
    else Some(Codes(f.value) + if Total(f.value) == |bits| then [] else [0x55])
  }

  lemma EncodedAtEnd(bits: Bits, st: seq<nat>, i: int, deepest: seq<nat>)
    requires Complete(bits, st) && Explored(bits, st, i, deepest) && |st| < PKTSIZE
    ensures Encoded(bits) == Some(Codes(st) + if Total(st) == |bits| then [] else [0x55])
  {
    hide First, Explored, Complete;
    EndsWithFirst(bits, st, i, deepest);
  }

  lemma NotEncoded(bits: Bits, st: seq<nat>, i: int, deepest: seq<nat>)
    requires Searching(bits, st, i) && Explored(bits, st, i, deepest)
    requires !Tiles(bits) || |st| == PKTSIZE
    ensures Encoded(bits) == None
  {
    hide First, Explored, Searching, Tiles;
    FirstExists(bits);
    if First(bits).Some? { FullMeansFirstIsLong(bits, st, i, deepest); }
  }

  /** The lines that the routine may log. */
  datatype Log = Silent | CannotTranslate | BufferTooSmall

  /** The inner loop of translateBitstream2Packetstream_v2: the first pattern that matches, from number i downwards. */
  method FindPattern(rest: Bits, first: int) returns (found: bool, i: int)
    requires -1 <= first < DATA_CNT
    ensures -1 <= i <= first && (found <==> i >= 0)
    ensures found ==> Matches(rest, i)
    ensures forall k :: i < k <= first ==> !Matches(rest, k)
  {
    hide Matches;
    found, i := false, first;
    while i >= 0
      invariant -1 <= i <= first
      invariant forall k :: i < k <= first ==> !Matches(rest, k)
      invariant !found
    {
      if Matches(rest, i) {
        found := true;
        break;
      }
      i := i - 1;
    }
  }

  /** translateBitstream2Packetstream_v2. It succeeds exactly for the strings that can be encoded. The number returned
      is one more than the bytes written; the byte that is counted in is zero, unless it lies behind the packet. */
  method TranslateBitstream2PacketstreamV2(bitstream: Bits, packetstream: array<bv8>) returns (size: nat, log: Log)
    requires packetstream.Length == PKTSIZE
    modifies packetstream
    ensures log.Silent? <==> size > 0
    ensures size > 0 ==>
              size <= PKTSIZE + 1 && Tiles(bitstream) && Conveys(packetstream[..size - 1], bitstream)
    ensures Encoded(bitstream) == if size > 0 then Some(packetstream[..size - 1]) else None
    ensures 0 < size <= PKTSIZE ==> packetstream[size - 1] == 0
    ensures log.CannotTranslate? ==> !Tiles(bitstream)
    ensures log.BufferTooSmall? ==> ConveysPart(packetstream[..], bitstream) && |bitstream| >= PKTSIZE
  {
    hide Table, Tiles, Searching, Matches, Total, Left, Codes, Conveys, ConveysPart, Explored, Complete,
      IsStack, Encoded;
    var i: int := DATA_CNT - 1;
    var j := 0;
    var stack := new nat[PKTSIZE];
    var pos := 0;
    forall k | 0 <= k < PKTSIZE {
      packetstream[k] := 0;
    }
    ghost var st: seq<nat> := [];
    ghost var deepest: seq<nat> := [];
    StartOfSearch(bitstream);
    ExploredStart(bitstream);
    while pos < |bitstream|
      invariant 0 <= j < PKTSIZE && stack[..j] == st && -1 <= i < DATA_CNT
      invariant IsStack(st) && pos == Total(st) <= |bitstream| && Searching(bitstream, st, i)
      invariant packetstream[..j] == Codes(st)
      invariant Explored(bitstream, st, i, deepest) && |st| <= |deepest|
      invariant forall k :: |deepest| <= k < PKTSIZE ==> packetstream[k] == 0
      decreases Left(bitstream, st, i)
    {
      var rest := bitstream[pos..];
      if |rest| <= 5 && rest == Ones(|rest|) {
        packetstream[j] := 0x55;
        EndInTail(bitstream, st, i);
        DeepestAtEnd(bitstream, st, i, deepest);
        EncodedAtEnd(bitstream, st, i, deepest);
        assert packetstream[..j + 1] == Codes(st) + [0x55];
        return j + 2, Silent;
      }
      ghost var first := i;
      var found;
      found, i := FindPattern(rest, i);
      SkipDown(bitstream, st, first, i);
      ExploredSkip(bitstream, st, first, i, deepest);
      if !found {
        Backtrack(bitstream, st);
        if j > 0 {
          ExploredBack(bitstream, st, deepest);
          j := j - 1;
          i := stack[j];
          pos := pos - |Table(i).pattern|;
          i := i - 1;
          st := st[..j];
        } else {
          NotEncoded(bitstream, st, i, deepest);
          return 0, CannotTranslate;
        }
      } else {
        Advance(bitstream, st, i);
        deepest := ExploredAdvance(bitstream, st, i, deepest);
        packetstream[j] := Table(i).value;
        pos := pos + |Table(i).pattern|;
        stack[j] := i;
        j := j + 1;
        st := st + [i];
        i := DATA_CNT - 1;
      }
      if j >= PKTSIZE {
        EndWithFullPacket(bitstream, st, i);
        NotEncoded(bitstream, st, i, deepest);
        assert packetstream[..] == packetstream[..j] == Codes(st);
        return 0, BufferTooSmall;
      }
    }
    EndOfString(bitstream, st, i);
    DeepestAtEnd(bitstream, st, i, deepest);
    EncodedAtEnd(bitstream, st, i, deepest);
    assert Codes(st) + [] == Codes(st);
    return j + 1, Silent;
  }
}
