/**
  Version 3 of the translation of a DCC bit string into UART bytes
  (translateBitstream2Packetstream_v3). A byte starts in the middle of one bit and ends in the middle
  of another, so neighbouring bytes share a bit. A window of six bits picks a byte from a table. The
  one window without a byte, 111110, sends the loop back to the last window that left a choice.
 */
module TranslateV3 {
  import opened Waveform
  import opened TableV3

  const PKTSIZE: nat := 80
  const BUFFERSIZE: nat := 1000

  // ---------------------------------------------------------------- the loop

  /** The buffer of the source: two ones in front, the string, six ones behind. */
  function Buffer(bitstream: Bits): Bits {
    Ones(2) + Text(bitstream) + Ones(6)
  }

  /** The part of the string that strncat copies. */
  function Text(bitstream: Bits): Bits {
    if |bitstream| < BUFFERSIZE then bitstream else bitstream[..BUFFERSIZE - 1]
  }

  /** The variables of the loop; pointers into the buffer are positions. */
  datatype Cursor = Cursor(
    read: nat,            // read_ptr
    gen: nat,             // generate_packet
    restartRead: nat,     // restart_read
    restartGen: nat,      // restart_packet
    lastRestart: int,     // last_restart
    out: seq<bv8>,        // Packetstream
    complained: bool)     // the message that the restart does not work was logged

  function Start(): Cursor {
    Cursor(0, 0, 0, 0, -1, seq(PKTSIZE, _ => 0), false)
  }

  predicate Shaped(b: Bits, c: Cursor) {
    && |b| >= 6
    && c.restartRead <= c.read
    && c.restartGen <= c.gen <= PKTSIZE == |c.out|
  }

  predicate Running(b: Bits, c: Cursor)
    requires |b| >= 6
  {
    c.gen < PKTSIZE && c.read < |b| - 6
  }

  /** One round of the loop. */
  function Iterate(b: Bits, c: Cursor): (c': Cursor)
    requires Shaped(b, c) && Running(b, c)
    ensures Shaped(b, c')
  {
    var again := Six(b, c.read) == 0x3e;
    var read, gen := if again then c.restartRead else c.read, if again then c.restartGen else c.gen;
    var six := Six(b, read);
    var row := Table(six / 2, again);
    Cursor(read + row.length, gen + 1,
           if six < 0x3e then read else c.restartRead,
           if six < 0x3e then gen else c.restartGen,
           if again then c.restartRead else c.lastRestart,
           c.out[gen := row.value],
           c.complained || (again && c.restartRead == c.lastRestart))
  }

  // ---------------------------------------------------------------- runs of ones

  function OnesAt(b: Bits, r: nat): (k: nat)
    requires r <= |b|
    ensures r + k <= |b|
    ensures forall i :: r <= i < r + k ==> b[i]
    ensures r + k < |b| ==> !b[r + k]
    decreases |b| - r
  {
    if r < |b| && b[r] then 1 + OnesAt(b, r + 1) else 0
  }

  lemma {:induction false} OnesAtLater(b: Bits, r: nat, k: nat)
    requires r + k <= |b|
    requires k <= OnesAt(b, r)
    ensures OnesAt(b, r + k) == OnesAt(b, r) - k
    decreases k
  {
    if k > 0 {
      OnesAtLater(b, r + 1, k - 1);
    }
  }

  /** From here the windows of ones lead to 111110. */
  predicate Dead(b: Bits, r: nat)
    requires r <= |b|
  {
    var k := OnesAt(b, r);
    k > 0 && k % 5 == 0 && r + k < |b|
  }

  lemma Window(b: Bits, r: nat)
    requires r + 6 <= |b|
    ensures Six(b, r) / 2 == 31 <==> OnesAt(b, r) >= 5
    ensures Six(b, r) == 0x3e <==> OnesAt(b, r) == 5
    ensures Six(b, r) == 0x3e ==> Dead(b, r)
    ensures Six(b, r) == 0x3f <==> OnesAt(b, r) >= 6
  {
    var k := OnesAt(b, r);
    if k < 6 {
      assert !b[r + k];
    }
  }

  lemma IndexBits(b0: bool, b1: bool, b2: bool, b3: bool, b4: bool, index: nat)
    requires index == 16 * Bit(b0) + 8 * Bit(b1) + 4 * Bit(b2) + 2 * Bit(b3) + Bit(b4)
    ensures index < 32
    ensures RowBits(index) == [b0, b1, b2, b3, b4, true]
  {
    assert index / 8 == 2 * Bit(b0) + Bit(b1);
    assert index / 4 == 4 * Bit(b0) + 2 * Bit(b1) + Bit(b2);
    assert index / 2 == 8 * Bit(b0) + 4 * Bit(b1) + 2 * Bit(b2) + Bit(b3);
  }

  lemma WindowBits(b: Bits, r: nat)
    requires r + 6 <= |b|
    ensures b[r..r + 5] == RowBits(Six(b, r) / 2)[..5]
    ensures Six(b, r) / 2 == 31 && Six(b, r) != 0x3e ==> b[r..r + 6] == RowBits(31)
  {
    hide RowBits;
    IndexBits(b[r], b[r + 1], b[r + 2], b[r + 3], b[r + 4], Six(b, r) / 2);
    var bits := [b[r], b[r + 1], b[r + 2], b[r + 3], b[r + 4], true];
    assert b[r..r + 5] == bits[..5];
  }

  /** Every window but 111110 gets a byte that carries the bits it covers. */
  lemma WindowRow(b: Bits, r: nat, second: bool)
    requires r + 6 <= |b| && Six(b, r) != 0x3e
    ensures var row := Table(Six(b, r) / 2, second);
      1 <= row.length <= 5 && (row.length == 5 <==> Six(b, r) / 2 == 31) && Sends(row.value, b[r..r + row.length + 1])
  {
    hide Table, Sends, Six, RowBits;
    var index := Six(b, r) / 2;
    RowIsRightAlways(index, second);
    WindowBits(b, r);
    var n := Table(index, second).length;
    assert b[r..r + n + 1] == b[r..r + 6][..n + 1];
    if n < 5 {
      assert b[r..r + n + 1] == b[r..r + 5][..n + 1];
      assert RowBits(index)[..n + 1] == RowBits(index)[..5][..n + 1];
    }
  }

  lemma FirstTryCoversTwo(index: nat)
    requires index < 32
    ensures Table(index, false).length >= 2
  {
  }

  lemma SecondTryIsShorter(index: nat)
    requires index < 32
    ensures Table(index, true).length == Table(index, false).length - 1 || index in {28, 30, 31}
    ensures Table(index, false).length == 2 <==> index / 4 in {0, 4}
    ensures index == 28 ==> Table(index, false).length == 3
    ensures index == 30 ==> Table(index, false).length == 4
  {
  }

  /** The second try covers one bit less, which is what a dead end needs. */
  lemma SecondTryEscapes(b: Bits, r: nat)
    requires r + 6 <= |b| && Six(b, r) / 2 != 31
    requires r + Table(Six(b, r) / 2, false).length <= |b| && Dead(b, r + Table(Six(b, r) / 2, false).length)
    ensures var first, second := Table(Six(b, r) / 2, false).length, Table(Six(b, r) / 2, true).length;
      first >= 3 && second == first - 1 && !Dead(b, r + second)
  {
    hide Table, Six;
    var index := Six(b, r) / 2;
    var first := Table(index, false).length;
    FirstTryCoversTwo(index);
    SecondTryIsShorter(index);
    WindowBits(b, r);
    assert b[r + 2] == b[r..r + 5][2] && b[r + 3] == b[r..r + 5][3] && b[r + 4] == b[r..r + 5][4];
    assert b[r + first] && !b[r + first + OnesAt(b, r + first)];
  }

  // ---------------------------------------------------------------- the simple form

  /** The same translation without going back: it looks ahead for the dead end. */
  function Choice(b: Bits, r: nat): (row: Row)
    requires r + 6 <= |b|
    ensures 1 <= row.length <= 5
  {
    var index := Six(b, r) / 2;
    var first := Table(index, false);
    if index != 31 && Dead(b, r + first.length) then Table(index, true) else first
  }

  function Path(b: Bits, r: nat): seq<bv8>
    requires |b| >= 6
    decreases |b| - r
  {
    if r + 6 >= |b| then [] else [Choice(b, r).value] + Path(b, r + Choice(b, r).length)
  }

  lemma OpenWindow(b: Bits, r: nat)
    requires r + 6 <= |b| && !Dead(b, r)
    ensures Six(b, r) != 0x3e && (Six(b, r) < 0x3e <==> Six(b, r) / 2 != 31)
    ensures Six(b, r) / 2 == 31 ==> !Dead(b, r + 5)
  {
    Window(b, r);
    if Six(b, r) / 2 == 31 {
      OnesAtLater(b, r, 5);
    }
  }

  lemma ChoiceIsRight(b: Bits, r: nat)
    requires r + 6 <= |b| && !Dead(b, r)
    ensures var row := Choice(b, r);
      2 <= row.length <= 5 && Sends(row.value, b[r..r + row.length + 1]) && !Dead(b, r + row.length)
  {
    hide Table, Six, Sends, Dead;
    OpenWindow(b, r);
    WindowRow(b, r, false);
    WindowRow(b, r, true);
    var index := Six(b, r) / 2;
    FirstTryCoversTwo(index);
    if index != 31 && Dead(b, r + Table(index, false).length) {
      SecondTryEscapes(b, r);
    }
  }

  lemma {:induction false} PathIsLong(b: Bits, r: nat)
    requires |b| >= 6
    ensures 5 * |Path(b, r)| + r + 6 >= |b|
    decreases |b| - r
  {
    hide Choice;
    if r + 6 < |b| {
      PathIsLong(b, r + Choice(b, r).length);
    }
  }

  // ---------------------------------------------------------------- the loop keeps its promise

  /** The bytes carry the buffer up to the reading position. */
  ghost predicate Carried(b: Bits, bytes: seq<bv8>, read: nat) {
    && read < |b|
    && CarriesShared(Halves(Line(bytes)), b[..read + 1])
    && Bounded(Halves(Line(bytes)))
  }

  lemma CarriedStep(b: Bits, bytes: seq<bv8>, r: nat, row: Row)
    requires Carried(b, bytes, r) && row.length >= 1 && r + row.length < |b|
    requires Sends(row.value, b[r..r + row.length + 1])
    ensures Carried(b, bytes + [row.value], r + row.length)
  {
    var h1, h2 := Halves(Line(bytes)), Halves(Line([row.value]));
    var more := b[r..r + row.length + 1];
    SharedJoin(h1, b[..r + 1], h2, more);
    HalvesOfBytes(bytes, [row.value]);
    assert b[..r + 1][..r] + more == b[..r + row.length + 1];
  }

  /** So far the loop has written what the simple form writes. */
  ghost predicate OnPath(b: Bits, bytes: seq<bv8>, r: nat)
    requires |b| >= 6
  {
    bytes + Path(b, r) == Path(b, 0)
  }

  /** Nothing is written behind what the simple form writes. */
  ghost predicate Blank(b: Bits, out: seq<bv8>)
    requires |b| >= 6
  {
    forall k :: |Path(b, 0)| <= k < |out| ==> out[k] == 0
  }

  /** The loop has entered a run of ones that it cannot leave, from a window with a shorter second try. */
  ghost predicate DeadEnd(b: Bits, c: Cursor)
    requires Shaped(b, c)
  {
    var s := c.restartRead;
    && s + 6 <= |b| && !Dead(b, s) && Six(b, s) / 2 != 31
    && var first := Table(Six(b, s) / 2, false).length;
    && s + first <= c.read && s + first <= |b| && Dead(b, s + first)
    && c.gen > c.restartGen && c.read - (s + first) == 5 * (c.gen - c.restartGen - 1)
    && Carried(b, c.out[..c.restartGen], s)
    && OnPath(b, c.out[..c.restartGen], s)
    && c.lastRestart < s
  }

  ghost predicate Ordinary(b: Bits, c: Cursor)
    requires Shaped(b, c) && c.read < |b|
  {
    && Blank(b, c.out)
    && if Dead(b, c.read) then DeadEnd(b, c)
       else OnPath(b, c.out[..c.gen], c.read) && c.lastRestart < c.read
  }

  /** More leading ones than fit into the packet: the loop never sees what follows them. */
  ghost predicate Flooded(b: Bits, c: Cursor)
    requires Shaped(b, c)
  {
    OnesAt(b, 0) >= 5 * PKTSIZE + 5 && c.read == 5 * c.gen && c.restartRead == c.restartGen == 0
  }

  ghost predicate Inv(b: Bits, c: Cursor) {
    && Shaped(b, c)
    && c.read < |b| - 1
    && Carried(b, c.out[..c.gen], c.read)
    && !c.complained
    && if Dead(b, 0) then Flooded(b, c) else Ordinary(b, c)
  }

  lemma OnPathStep(b: Bits, bytes: seq<bv8>, r: nat)
    requires r + 6 < |b| && OnPath(b, bytes, r)
    ensures |bytes| < |Path(b, 0)|
    ensures OnPath(b, bytes + [Choice(b, r).value], r + Choice(b, r).length)
  {
    hide Choice;
    var row := Choice(b, r);
    var rest := Path(b, r + row.length);
    assert Path(b, r) == [row.value] + rest;
    assert bytes + [row.value] + rest == bytes + ([row.value] + rest);
  }

  /** A round that does not go back writes the first try. */
  lemma RoundForward(b: Bits, c: Cursor)
    requires Shaped(b, c) && Running(b, c) && Six(b, c.read) != 0x3e
    ensures var row := Table(Six(b, c.read) / 2, false);
      Iterate(b, c) == Cursor(c.read + row.length, c.gen + 1,
                              if Six(b, c.read) < 0x3e then c.read else c.restartRead,
                              if Six(b, c.read) < 0x3e then c.gen else c.restartGen,
                              c.lastRestart, c.out[c.gen := row.value], c.complained)
  {
    hide Table, Six;
  }

  /** A round that goes back writes the second try. */
  lemma RoundBack(b: Bits, c: Cursor)
    requires Shaped(b, c) && Running(b, c) && Six(b, c.read) == 0x3e && Six(b, c.restartRead) < 0x3e
    ensures var s, row := c.restartRead, Table(Six(b, c.restartRead) / 2, true);
      Iterate(b, c) == Cursor(s + row.length, c.restartGen + 1, s, c.restartGen, s, c.out[c.restartGen := row.value],
                              c.complained || s == c.lastRestart)
  {
    hide Table, Six;
  }

  lemma CarriedOn(b: Bits, bytes: seq<bv8>, r: nat, second: bool)
    requires r + 6 < |b| && Six(b, r) != 0x3e
    requires Carried(b, bytes, r)
    ensures var row := Table(Six(b, r) / 2, second);
      r + row.length < |b| - 1 && Carried(b, bytes + [row.value], r + row.length)
  {
    hide Table, Six, Sends, Carried;
    WindowRow(b, r, second);
    CarriedStep(b, bytes, r, Table(Six(b, r) / 2, second));
  }

  lemma Written(b: Bits, out: seq<bv8>, gen: nat, value: bv8)
    requires gen < |out|
    ensures out[gen := value][..gen + 1] == out[..gen] + [value]
    ensures forall k :: 0 <= k <= gen ==> out[gen := value][..k] == out[..k]
    ensures |b| >= 6 && gen < |Path(b, 0)| && Blank(b, out) ==> Blank(b, out[gen := value])
  {
    hide Path;
  }

  lemma FloodedStep(b: Bits, c: Cursor)
    requires Inv(b, c) && Running(b, c) && Dead(b, 0)
    ensures Inv(b, Iterate(b, c))
  {
    hide Table, Six, Sends, Carried, Iterate, Ordinary, Dead;
    OnesAtLater(b, 0, c.read);
    Window(b, c.read);
    RoundForward(b, c);
    CarriedOn(b, c.out[..c.gen], c.read, false);
    WindowRow(b, c.read, false);
    Written(b, c.out, c.gen, Table(Six(b, c.read) / 2, false).value);
  }

  lemma ChoiceFirst(b: Bits, r: nat)
    requires r + 6 <= |b| && !Dead(b, r)
    ensures var first := Table(Six(b, r) / 2, false);
      && r + first.length <= |b|
      && if Dead(b, r + first.length) then Six(b, r) < 0x3e else Choice(b, r) == first
  {
    hide Table, Six, Sends, Dead;
    OpenWindow(b, r);
    WindowRow(b, r, false);
  }

  /** Away from a dead end the loop writes what the simple form writes, or enters a dead end. */
  lemma OpenStep(b: Bits, c: Cursor)
    requires Inv(b, c) && Running(b, c) && !Dead(b, 0) && !Dead(b, c.read)
    ensures Inv(b, Iterate(b, c))
  {
    hide Table, Six, Carried, Iterate, OnPath, Path, Dead, Choice, Blank;
    OpenWindow(b, c.read);
    ChoiceFirst(b, c.read);
    RoundForward(b, c);
    CarriedOn(b, c.out[..c.gen], c.read, false);
    OnPathStep(b, c.out[..c.gen], c.read);
    Written(b, c.out, c.gen, Table(Six(b, c.read) / 2, false).value);
  }

  lemma DeadWindow(b: Bits, r: nat)
    requires r + 6 <= |b| && Dead(b, r)
    ensures Six(b, r) == 0x3e || (Six(b, r) == 0x3f && Table(Six(b, r) / 2, false).length == 5 && Dead(b, r + 5))
  {
    Window(b, r);
    if Six(b, r) != 0x3e {
      OnesAtLater(b, r, 5);
    }
  }

  /** In a dead end, before its last window: one more byte of ones. */
  lemma DeadStep(b: Bits, c: Cursor)
    requires Inv(b, c) && Running(b, c) && !Dead(b, 0) && Dead(b, c.read) && Six(b, c.read) != 0x3e
    ensures Inv(b, Iterate(b, c))
  {
    hide Table, Six, Carried, Iterate, OnPath, Path, Dead, Blank;
    DeadWindow(b, c.read);
    RoundForward(b, c);
    CarriedOn(b, c.out[..c.gen], c.read, false);
    DeadEndLeavesRoom(b, c);
    Written(b, c.out, c.gen, Table(Six(b, c.read) / 2, false).value);
  }

  /** At the window 111110: back to the window with the choice, with the second try. */
  lemma RestartStep(b: Bits, c: Cursor)
    requires Inv(b, c) && Running(b, c) && !Dead(b, 0) && Dead(b, c.read) && Six(b, c.read) == 0x3e
    ensures Inv(b, Iterate(b, c)) && !Dead(b, Iterate(b, c).read)
    ensures Iterate(b, c).read > c.restartRead
  {
    hide Table, Six, Carried, Iterate, OnPath, Path, Dead, Blank;
    var s := c.restartRead;
    OpenWindow(b, s);
    SecondTryEscapes(b, s);
    RoundBack(b, c);
    CarriedOn(b, c.out[..c.restartGen], s, true);
    OnPathStep(b, c.out[..c.restartGen], s);
    Written(b, c.out, c.restartGen, Table(Six(b, s) / 2, true).value);
  }

  /** The simple form has more to write than the loop has written in a dead end. */
  lemma DeadEndLeavesRoom(b: Bits, c: Cursor)
    requires Shaped(b, c) && c.read + 6 < |b| && DeadEnd(b, c)
    ensures c.gen < |Path(b, 0)|
  {
    hide Six, Table, Carried;
    var s := c.restartRead;
    var row := Choice(b, s);
    SecondTryEscapes(b, s);
    PathIsLong(b, s + row.length);
    assert |c.out[..c.restartGen]| + |Path(b, s)| == |Path(b, 0)|;
    assert Path(b, s) == [row.value] + Path(b, s + row.length);
  }

  lemma InvStep(b: Bits, c: Cursor)
    requires Inv(b, c) && Running(b, c)
    ensures Inv(b, Iterate(b, c))
  {
    if Dead(b, 0) {
      FloodedStep(b, c);
    } else if !Dead(b, c.read) {
      OpenStep(b, c);
    } else if Six(b, c.read) == 0x3e {
      RestartStep(b, c);
    } else {
      DeadStep(b, c);
    }
  }

  lemma InvStart(b: Bits)
    requires |b| > 6
    requires Dead(b, 0) ==> OnesAt(b, 0) >= 5 * PKTSIZE + 5
    ensures Inv(b, Start())
  {
    hide Dead, OnesAt, Path;
    assert Start().out[..0] == [];
    assert [] + Path(b, 0) == Path(b, 0);
    assert CarriesShared(Halves(Line([])), b[..1]);
  }

  // ---------------------------------------------------------------- termination

  /** Where the simple form stands: a dead end counts as the window it will be left from. */
  function Front(b: Bits, c: Cursor): nat
    requires c.read <= |b|
  {
    if Dead(b, c.read) && !Dead(b, 0) then c.restartRead else c.read
  }

  function InDeadEnd(b: Bits, c: Cursor): nat
    requires c.read <= |b|
  {
    if Dead(b, c.read) then 0 else 1
  }

  /** A round moves the front, or enters a dead end, or walks on inside one. */
  lemma RoundProgresses(b: Bits, c: Cursor)
    requires Inv(b, c) && Running(b, c)
    ensures Inv(b, Iterate(b, c)) && !Iterate(b, c).complained
    ensures Front(b, c) <= |b| && Front(b, Iterate(b, c)) <= |b|
    ensures (|b| - Front(b, c), InDeadEnd(b, c), |b| - c.read
             decreases to |b| - Front(b, Iterate(b, c)), InDeadEnd(b, Iterate(b, c)), |b| - Iterate(b, c).read)
  {
    hide Table, Six, Carried, OnPath, Path, Dead, Blank, Iterate, OnesAt;
    InvStep(b, c);
    if Dead(b, 0) {
      FloodedRound(b, c);
    } else if !Dead(b, c.read) {
      OpenWindow(b, c.read);
      ChoiceFirst(b, c.read);
      RoundForward(b, c);
    } else if Six(b, c.read) == 0x3e {
      OpenWindow(b, c.restartRead);
      RoundBack(b, c);
      RestartStep(b, c);
    } else {
      DeadWindow(b, c.read);
      RoundForward(b, c);
    }
  }

  lemma FloodedRound(b: Bits, c: Cursor)
    requires Inv(b, c) && Running(b, c) && Dead(b, 0)
    ensures Iterate(b, c).read > c.read
  {
    OnesAtLater(b, 0, c.read);
    Window(b, c.read);
    RoundForward(b, c);
  }

  // ---------------------------------------------------------------- the routine

  /** The one kind of string on which the routine fails: the ones in front, with the two of the buffer,
      are a multiple of five, a zero follows, and the packet has room for all of them. */
  predicate Jams(bitstream: Bits) {
    var k := OnesAt(bitstream, 0);
    k < |bitstream| && (k + 2) % 5 == 0 && k + 2 <= 5 * PKTSIZE
  }

  lemma OnesAtIs(b: Bits, r: nat, k: nat)
    requires r + k <= |b|
    requires forall i :: r <= i < r + k ==> b[i]
    requires r + k < |b| ==> !b[r + k]
    ensures OnesAt(b, r) == k
  {
    assert r + OnesAt(b, r) < |b| ==> !b[r + OnesAt(b, r)];
  }

  lemma JamsIsDead(bitstream: Bits)
    ensures var b := Buffer(bitstream);
      Jams(bitstream) <==> Dead(b, 0) && OnesAt(b, 0) < 5 * PKTSIZE + 5
  {
    var b, k := Buffer(bitstream), OnesAt(bitstream, 0);
    if k < |Text(bitstream)| {
      OnesAtIs(b, 0, k + 2);
    } else {
      OnesAtIs(b, 0, |b|);
    }
  }

  /** The bytes carry the string with a one in front and up to four behind, between two halves of ones. */
  ghost predicate Conveys(bytes: seq<bv8>, bits: Bits) {
    && bytes != []
    && Bounded(Halves(Line(bytes)))
    && exists k :: 1 <= k <= 5 && CarriesShared(Halves(Line(bytes)), Ones(2) + bits + Ones(k))
  }

  /** The bytes carry as much of the string as their number allows. */
  ghost predicate ConveysPart(bytes: seq<bv8>, bitstream: Bits) {
    exists r :: Carried(Buffer(bitstream), bytes, r)
  }

  /** A string whose translation fits into a packet. */
  predicate Fits80(bitstream: Bits) {
    |Path(Buffer(bitstream), 0)| <= PKTSIZE
  }

  lemma CarriedConveys(bitstream: Bits, bytes: seq<bv8>, r: nat)
    requires var b := Buffer(bitstream); |b| - 6 <= r < |b| - 1 && Carried(b, bytes, r)
    ensures Conveys(bytes, Text(bitstream))
  {
    var b := Buffer(bitstream);
    var k := r + 1 - (|b| - 6);
    assert b[..r + 1] == Ones(2) + Text(bitstream) + Ones(k);
    assert |Halves(Line([]))| == 0;
  }

  lemma FloodedOverflows(b: Bits, c: Cursor)
    requires Inv(b, c) && Dead(b, 0)
    requires forall i :: |b| - 6 <= i < |b| ==> b[i]
    ensures |Path(b, 0)| > PKTSIZE
  {
    PathIsLong(b, 0);
  }

  lemma StoppedOnPath(b: Bits, c: Cursor)
    requires Inv(b, c) && !Running(b, c) && !Dead(b, 0)
    requires forall i :: |b| - 6 <= i < |b| ==> b[i]
    ensures if |Path(b, 0)| <= PKTSIZE
            then c.read >= |b| - 6 && c.out[..c.gen] == Path(b, 0) && Blank(b, c.out)
            else c.gen == PKTSIZE
  {
    hide Table, Six, Carried, Iterate, Blank, Choice;
    if c.read >= |b| - 6 {
      assert !Dead(b, c.read);
    } else {
      hide Dead;
      PathIsLong(b, c.read);
      if Dead(b, c.read) {
        DeadEndLeavesRoom(b, c);
      }
    }
  }

  /** A string whose translation fits is never cut by strncat. */
  lemma FittingIsWhole(bitstream: Bits)
    requires Fits80(bitstream)
    ensures Text(bitstream) == bitstream
  {
    PathIsLong(Buffer(bitstream), 0);
  }

  /** When the loop stops, it has done what the simple form does, or filled the packet. */
  lemma Stopped(bitstream: Bits, c: Cursor)
    requires var b := Buffer(bitstream); Inv(b, c) && !Running(b, c)
    ensures ConveysPart(c.out[..c.gen], bitstream)
    ensures if Fits80(bitstream)
            then && c.out[..c.gen] == Path(Buffer(bitstream), 0)
                 && Conveys(c.out[..c.gen], bitstream)
                 && forall k :: c.gen <= k < PKTSIZE ==> c.out[k] == 0
            else c.gen == PKTSIZE
  {
    hide Table, Six, Iterate, Dead, Carried, Path, Conveys, OnPath;
    var b := Buffer(bitstream);
    assert Carried(b, c.out[..c.gen], c.read);
    if Dead(b, 0) {
      FloodedOverflows(b, c);
    } else {
      StoppedOnPath(b, c);
      if Fits80(bitstream) {
        CarriedConveys(bitstream, c.out[..c.gen], c.read);
        FittingIsWhole(bitstream);
      }
    }
  }

  /** translateBitstream2Packetstream_v3. */
  method TranslateBitstream2PacketstreamV3(bitstream: Bits, packetstream: array<bv8>)
    returns (generatePacket: nat, complained: bool)
    requires packetstream.Length == PKTSIZE
    requires !Jams(bitstream)
    modifies packetstream
    ensures !complained
    ensures generatePacket <= PKTSIZE
    ensures ConveysPart(packetstream[..generatePacket], bitstream)
    ensures if Fits80(bitstream)
            then && packetstream[..generatePacket] == Path(Buffer(bitstream), 0)
                 && Conveys(packetstream[..generatePacket], bitstream)
                 && forall k :: generatePacket <= k < PKTSIZE ==> packetstream[k] == 0
            else generatePacket == PKTSIZE
  {
    hide Table, Six, Dead, Carried, Path, Conveys, OnPath, Inv, Jams, ConveysPart, Fits80, Front, InDeadEnd;
    var buffer := Buffer(bitstream);
    var bufEnd := |buffer| - 6;
    var readPtr, restartRead, lastRestart := 0, 0, -1;
    var restartPacket := 0;
    var secondTry := false;
    generatePacket, complained := 0, false;
    forall i | 0 <= i < PKTSIZE {
      packetstream[i] := 0;
    }
    ghost var c := Start();
    assert packetstream[..] == Start().out;
    JamsIsDead(bitstream);
    InvStart(buffer);

    while generatePacket < PKTSIZE && readPtr < bufEnd
      invariant Inv(buffer, c)
      invariant Shaped(buffer, c)
      invariant c.read < |buffer|
      invariant (c.read, c.gen, c.restartRead, c.restartGen, c.lastRestart)
             == (readPtr, generatePacket, restartRead, restartPacket, lastRestart)
      invariant c.complained == complained == false
      invariant c.out == packetstream[..]
      invariant !secondTry
      decreases |buffer| - Front(buffer, c), InDeadEnd(buffer, c), |buffer| - readPtr
    {
      RoundProgresses(buffer, c);
      var actSix := Six(buffer, readPtr);
      if actSix == 0x3e {
        secondTry := true;
        generatePacket := restartPacket;
        if restartRead == lastRestart {
          complained := true;
        }
        lastRestart := restartRead;
        readPtr := restartRead;
        actSix := Six(buffer, readPtr);
      }
      packetstream[generatePacket] := Table(actSix / 2, secondTry).value;
      if actSix < 0x3e {
        restartPacket := generatePacket;
        restartRead := readPtr;
      }
      readPtr := readPtr + Table(actSix / 2, secondTry).length;
      generatePacket := generatePacket + 1;
      secondTry := false;
      c := Iterate(buffer, c);
    }
    Stopped(bitstream, c);
  }
}
