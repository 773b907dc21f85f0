/**
  The signal on the serial line, and how a DCC receiver reads it.

  A UART sends a byte as a low start bit, eight data bits with the least significant first, and a
  high stop bit. A DCC receiver measures how long the line keeps one level: section A of NMRA S-9.1
  makes two short halves a one bit and two long halves a zero bit.
 */
module Waveform {

  type Bits = seq<bool>

  datatype Option<+T> = None | Some(value: T)

  /** The ten levels that one byte puts on the line. */
  function Frame(b: bv8): (levels: seq<bool>)
    ensures |levels| == 10
  {
    [false, b & 1 != 0, b & 2 != 0, b & 4 != 0, b & 8 != 0,
     b & 16 != 0, b & 32 != 0, b & 64 != 0, b & 128 != 0, true]
  }

  function Line(bytes: seq<bv8>): (levels: seq<bool>)
    ensures |levels| == 10 * |bytes|
    ensures bytes != [] ==> !levels[0] && levels[|levels| - 1]
  {
    if bytes == [] then [] else Line(bytes[..|bytes| - 1]) + Frame(bytes[|bytes| - 1])
  }

  /** One more level at the end of a list of run lengths. */
  function Grow(runs: seq<nat>, changed: bool): seq<nat> {
    if changed || runs == [] then runs + [1] else runs[|runs| - 1 := runs[|runs| - 1] + 1]
  }

  /** The lengths, in serial units, of the stretches of constant level. */
  function Halves(line: seq<bool>): (runs: seq<nat>)
    ensures line != [] ==> runs != []
  {
    var n := |line|;
    if n == 0 then []
    else if n == 1 then [1]
    else Grow(Halves(line[..n - 1]), line[n - 1] != line[n - 2])
  }

  /** What section A of S-9.1 lets a half of a bit be: one unit for a one, two or more for a zero. */
  predicate Fits(half: nat, bit: bool) {
    if bit then half == 1 else half >= 2
  }

  /** The receiver: two halves of the same kind make a bit, two of different kinds make none. */
  function ReadBits(halves: seq<nat>): Option<Bits> {
    if |halves| < 2 then Some([])
    else
      var first, second := halves[0], halves[1];
      var rest := ReadBits(halves[2..]);
      if rest.None? then None
      else if Fits(first, true) && Fits(second, true) then Some([true] + rest.value)
      else if Fits(first, false) && Fits(second, false) then Some([false] + rest.value)
      else None
  }

  /** A receiver that goes on behind two halves of different kinds: the bits in front of them, and what comes behind. */
  function ReadStretches(halves: seq<nat>): (stretches: seq<Bits>)
    ensures stretches != []
  {
    if |halves| < 2 then [[]]
    else
      var first, second := halves[0], halves[1];
      var rest := ReadStretches(halves[2..]);
      if Fits(first, true) && Fits(second, true) then [[true] + rest[0]] + rest[1..]
      else if Fits(first, false) && Fits(second, false) then [[false] + rest[0]] + rest[1..]
      else [[]] + rest
  }

  /** A receiver that takes each bit to begin with its low half. */
  function ReadLowHigh(bytes: seq<bv8>): Option<Bits> {
    ReadBits(Halves(Line(bytes)))
  }

  /** A receiver that takes each bit to begin with its high half; the first low half completes a bit
      that began before the first byte. */
  function ReadHighLow(bytes: seq<bv8>): Option<Bits>
    requires bytes != []
  {
    assert Halves(Line(bytes)) != [];
    ReadBits(Halves(Line(bytes))[1..])
  }

  /** The halves are those of the bits in turn, the first and the last bit giving only one half. */
  ghost predicate CarriesShared(halves: seq<nat>, bits: Bits) {
    && |bits| > 0
    && |halves| == 2 * (|bits| - 1)
    && forall i :: 0 <= i < |halves| ==> Fits(halves[i], bits[(i + 1) / 2])
  }

  /** The halves are those of the bits in turn, two for each bit. */
  ghost predicate CarriesWhole(halves: seq<nat>, bits: Bits) {
    && |halves| == 2 * |bits|
    && forall i :: 0 <= i < |halves| ==> Fits(halves[i], bits[i / 2])
  }

  ghost predicate Bounded(halves: seq<nat>) {
    forall i :: 0 <= i < |halves| ==> halves[i] <= 9
  }

  function Ones(n: nat): (bits: Bits)
    ensures |bits| == n
    ensures forall i :: 0 <= i < n ==> bits[i]
  {
    seq(n, _ => true)
  }

  // ---------------------------------------------------------------- joining

  /** Levels that differ at the seam keep their runs apart. */
  lemma {:induction false} HalvesJoin(a: seq<bool>, b: seq<bool>)
    requires a != [] && b != [] && a[|a| - 1] != b[0]
    ensures Halves(a + b) == Halves(a) + Halves(b)
  {
    var ab, n := a + b, |b|;
    assert ab[..|ab| - 1] == a + b[..n - 1];
    if n == 1 {
      assert a + b[..0] == a;
    } else {
      HalvesJoin(a, b[..n - 1]);
      assert ab[|ab| - 2] == b[n - 2];
    }
  }

  lemma {:induction false} LineJoin(a: seq<bv8>, b: seq<bv8>)
    ensures Line(a + b) == Line(a) + Line(b)
  {
    hide Frame;
    if b == [] {
      assert a + b == a;
    } else {
      var n := |b|;
      assert (a + b)[..|a + b| - 1] == a + b[..n - 1];
      LineJoin(a, b[..n - 1]);
    }
  }

  /** Bytes keep their runs apart: each starts low and ends high. */
  lemma HalvesOfBytes(a: seq<bv8>, b: seq<bv8>)
    ensures Halves(Line(a + b)) == Halves(Line(a)) + Halves(Line(b))
  {
    LineJoin(a, b);
    if a == [] {
      assert Line(a) + Line(b) == Line(b);
    } else if b == [] {
      assert Line(a) + Line(b) == Line(a);
    } else {
      HalvesJoin(Line(a), Line(b));
    }
  }

  // ---------------------------------------------------------------- one byte

  /** The line that keeps a level for runs[0] units, the other level for runs[1] units, and so on. */
  function Spread(level: bool, runs: seq<nat>): seq<bool>
    decreases runs
  {
    if runs == [] then [] else seq(runs[0], _ => level) + Spread(!level, runs[1..])
  }

  lemma {:induction false} HalvesOfConstant(level: bool, n: nat)
    requires n > 0
    ensures Halves(seq(n, _ => level)) == [n]
  {
    var line := seq(n, _ => level);
    if n > 1 {
      HalvesOfConstant(level, n - 1);
      assert line[..n - 1] == seq(n - 1, _ => level);
    }
  }

  lemma {:induction false} HalvesOfSpread(level: bool, runs: seq<nat>)
    requires forall i :: 0 <= i < |runs| ==> runs[i] > 0
    ensures Halves(Spread(level, runs)) == runs
    decreases runs
  {
    if runs != [] {
      var head := seq(runs[0], _ => level);
      HalvesOfConstant(level, runs[0]);
      HalvesOfSpread(!level, runs[1..]);
      if |runs| == 1 {
        assert Spread(level, runs) == head;
      } else {
        var tail := Spread(!level, runs[1..]);
        assert tail[0] == !level;
        HalvesJoin(head, tail);
      }
    }
  }

  lemma FrameRuns(b: bv8, runs: seq<nat>)
    requires Frame(b) == Spread(false, runs)
    requires forall i :: 0 <= i < |runs| ==> runs[i] > 0
    ensures Halves(Line([b])) == runs
  {
    assert Line([b]) == Frame(b);
    HalvesOfSpread(false, runs);
  }

  /** Two signals that share a bit: its first half ends the one, its second half starts the other. */
  lemma SharedJoin(h1: seq<nat>, bits1: Bits, h2: seq<nat>, bits2: Bits)
    requires CarriesShared(h1, bits1) && CarriesShared(h2, bits2)
    requires bits1[|bits1| - 1] == bits2[0]
    ensures CarriesShared(h1 + h2, bits1[..|bits1| - 1] + bits2)
  {
    var n := |bits1| - 1;
    var h, bits := h1 + h2, bits1[..n] + bits2;
    forall i | 0 <= i < |h|
      ensures Fits(h[i], bits[(i + 1) / 2])
    {
      if i >= |h1| {
        assert Fits(h2[i - |h1|], bits2[(i - |h1| + 1) / 2]);
      }
    }
  }

  lemma WholeJoin(h1: seq<nat>, bits1: Bits, h2: seq<nat>, bits2: Bits)
    requires CarriesWhole(h1, bits1) && CarriesWhole(h2, bits2)
    ensures CarriesWhole(h1 + h2, bits1 + bits2)
  {
    var h, bits := h1 + h2, bits1 + bits2;
    forall i | 0 <= i < |h|
      ensures Fits(h[i], bits[i / 2])
    {
      if i >= |h1| {
        assert Fits(h2[i - |h1|], bits2[(i - |h1|) / 2]);
      }
    }
  }

  // ---------------------------------------------------------------- reading back

  lemma {:induction false} WholeReadsBack(halves: seq<nat>, bits: Bits)
    requires CarriesWhole(halves, bits)
    ensures ReadBits(halves) == Some(bits)
  {
    if bits != [] {
      assert Fits(halves[0], bits[0]) && Fits(halves[1], bits[0]);
      forall i | 0 <= i < |halves[2..]|
        ensures Fits(halves[2..][i], bits[1..][i / 2])
      {
        assert Fits(halves[i + 2], bits[(i + 2) / 2]);
      }
      WholeReadsBack(halves[2..], bits[1..]);
      assert bits == [bits[0]] + bits[1..];
    }
  }

  /** Both receivers agree on a line without such halves. */
  lemma {:induction false} StretchIsRead(halves: seq<nat>)
    ensures ReadBits(halves).Some? <==> |ReadStretches(halves)| == 1
    ensures ReadBits(halves).Some? ==> ReadStretches(halves) == [ReadBits(halves).value]
    decreases |halves|
  {
    if |halves| >= 2 { StretchIsRead(halves[2..]); }
  }

  /** Whole bits in front of a line come in front of its first stretch. */
  lemma {:induction false} StretchGrows(halves: seq<nat>, bits: Bits, more: seq<nat>)
    requires CarriesWhole(halves, bits)
    ensures var rest := ReadStretches(more); ReadStretches(halves + more) == [bits + rest[0]] + rest[1..]
    decreases |bits|
  {
    var all := halves + more;
    if bits == [] {
      var rest := ReadStretches(more);
      assert all == more && [] + rest[0] == rest[0] && [rest[0]] + rest[1..] == rest;
    } else {
      assert Fits(halves[0], bits[0]) && Fits(halves[1], bits[0]);
      forall i | 0 <= i < |halves[2..]|
        ensures Fits(halves[2..][i], bits[1..][i / 2])
      {
        assert Fits(halves[i + 2], bits[(i + 2) / 2]);
      }
      StretchGrows(halves[2..], bits[1..], more);
      assert all[2..] == halves[2..] + more && all[0] == halves[0] && all[1] == halves[1];
      assert [bits[0]] + (bits[1..] + ReadStretches(more)[0]) == bits + ReadStretches(more)[0];
    }
  }

  lemma {:induction false} ReadIgnoresLastHalf(halves: seq<nat>)
    requires |halves| % 2 == 1
    ensures ReadBits(halves) == ReadBits(halves[..|halves| - 1])
  {
    var n := |halves|;
    if n > 1 {
      ReadIgnoresLastHalf(halves[2..]);
      assert halves[..n - 1][2..] == halves[2..][..n - 3];
    }
  }

  lemma SharedInner(halves: seq<nat>, bits: Bits)
    requires CarriesShared(halves, bits) && |bits| > 1
    ensures CarriesWhole(halves[1..|halves| - 1], bits[1..|bits| - 1])
  {
    var inner, middle := halves[1..|halves| - 1], bits[1..|bits| - 1];
    forall i | 0 <= i < |inner|
      ensures Fits(inner[i], middle[i / 2])
    {
      assert Fits(halves[i + 1], bits[(i + 2) / 2]);
    }
  }

  lemma SharedEnds(halves: seq<nat>, bits: Bits)
    requires CarriesShared(halves, bits) && |bits| > 1
    ensures ReadBits(halves[1..]) == ReadBits(halves[1..|halves| - 1])
  {
    assert |halves| == 2 * (|bits| - 1);
    hide ReadBits, CarriesShared;
    var tail := halves[1..];
    ReadIgnoresLastHalf(tail);
    assert tail[..|tail| - 1] == halves[1..|halves| - 1];
  }

  /** Dropping the half bits at both ends, the receiver finds exactly the bits in between. */
  lemma SharedReadsBack(halves: seq<nat>, bits: Bits)
    requires CarriesShared(halves, bits) && |bits| > 1
    ensures ReadBits(halves[1..]) == Some(bits[1..|bits| - 1])
  {
    SharedInner(halves, bits);
    SharedEnds(halves, bits);
    hide ReadBits, CarriesShared, CarriesWhole;
    WholeReadsBack(halves[1..|halves| - 1], bits[1..|bits| - 1]);
  }
}
