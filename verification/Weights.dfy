/**
  A finer count of the bytes of version 3 of the translation. A byte for n bits weighs 3 n less one for every one
  among the bits behind its first; with few exceptions that is 6 at least, so many ones make few bytes.
 */
module Weights {
  import opened Waveform
  import opened TableV3
  import opened TranslateV3
  import opened Lengths

  // ---------------------------------------------------------------- ones in a stretch of bits

  function Count(b: Bits, i: nat, j: nat): (count: nat)
    requires j <= |b|
    ensures i < j ==> count <= j - i
    ensures i >= j ==> count == 0
    decreases j - i
  {
    if i >= j then 0 else Bit(b[i]) + Count(b, i + 1, j)
  }

  lemma {:induction false} CountSplit(b: Bits, i: nat, k: nat, j: nat)
    requires i <= k <= j <= |b|
    ensures Count(b, i, j) == Count(b, i, k) + Count(b, k, j)
    decreases k - i
  {
    if i < k { CountSplit(b, i + 1, k, j); }
  }

  // ---------------------------------------------------------------- what a byte weighs

  /** A byte for two bits behind which there is a one: it gives way to a dead end, so that exactly one of the two is a
      one, and the byte behind it goes far. */
  lemma ShortByte(b: Bits, r: nat)
    requires r + 6 <= |b| && !Dead(b, r) && Choice(b, r).length == 2 && (b[r + 1] || b[r + 2])
    ensures b[r + 1] != b[r + 2] && r + 8 <= |b| && !Dead(b, r + 2) && Choice(b, r + 2).length >= 4
    ensures Dead(b, r + 3)
  {
    hide Table, Six, Choice, OnesAt;
    ChoiceLength(b, r);
    SixBits(b, r);
    RowLengths(b[r], b[r + 1], b[r + 2], b[r + 3], b[r + 4]);
    assert Dead(b, r + 3);
    DeadIsOne(b, r + 3);
    ChoiceIsRight(b, r);
    BehindShortByte(b, r);
  }

  lemma BehindShortByte(b: Bits, r: nat)
    requires r + 8 <= |b| && Dead(b, r + 3) && !Dead(b, r + 2) && (b[r + 1] || b[r + 2])
    requires !b[r + 1] || !b[r + 2]
    ensures Choice(b, r + 2).length >= 4
  {
    hide Table, Six, Choice;
    DeadIsOne(b, r + 3);
    OnesAtLater(b, r + 3, 3);
    hide OnesAt;
    ChoiceAtLeast(b, r + 2);
  }

  // ---------------------------------------------------------------- what is left to send, by weight

  /** The bytes from r on, of which m at most come from the place e on: six for each are paid by the weight of the
      bits up to e, and c. */
  ghost predicate Paid(b: Bits, e: nat, m: nat, c: nat, r: nat) {
    r <= e <= |b| && |b| >= 6 && (!Dead(b, r) ==> 6 * |Path(b, r)| <= 6 * m + 3 * (e - r) - Count(b, r + 1, e) + c)
  }

  lemma PaidAtEnd(b: Bits, e: nat, m: nat, c: nat)
    requires Costs(b, e, m) && e <= |b|
    ensures Paid(b, e, m, c, e)
  {
  }

  /** A last byte that reaches the end. */
  lemma PaidOnce(b: Bits, e: nat, m: nat, r: nat)
    requires Costs(b, e, m) && e + 6 <= |b| && r < e && !Dead(b, r) && r + Choice(b, r).length >= e
    ensures Paid(b, e, m, 4, r)
  {
    hide Choice, Dead, Path;
    PathOnce(b, r);
  }

  lemma Weight(b: Bits, e: nat, r: nat, n: nat)
    requires r + n <= e <= |b|
    ensures Count(b, r + 1, e) <= Count(b, r + n + 1, e) + n
    ensures n == 2 && !b[r + 1] && (e > r + 2 ==> !b[r + 2]) ==> Count(b, r + 1, e) == Count(b, r + 3, e)
    ensures n == 2 && e > r + 2 && b[r + 1] != b[r + 2] ==> Count(b, r + 1, e) == Count(b, r + 3, e) + 1
  {
    if r + n + 1 <= e { CountSplit(b, r + 1, r + n + 1, e); }
  }

  /** A byte that does not, and weighs enough. */
  lemma PaidStep(b: Bits, e: nat, m: nat, c: nat, r: nat)
    requires e + 6 <= |b| && r < e && !Dead(b, r) && r + Choice(b, r).length <= e
    requires Choice(b, r).length >= 3 || (Choice(b, r).length == 2 && !b[r + 1] && !b[r + 2])
    requires Paid(b, e, m, c, r + Choice(b, r).length)
    ensures Paid(b, e, m, c, r)
  {
    hide Choice, Dead, Path;
    PathOnce(b, r);
    Weight(b, e, r, Choice(b, r).length);
    hide Count;
  }

  /** A byte that weighs too little, and the one behind it, which weighs more than enough. */
  lemma PaidTwoSteps(b: Bits, e: nat, m: nat, c: nat, r: nat)
    requires e + 6 <= |b| && r + 2 < e && !Dead(b, r) && !Dead(b, r + 2)
    requires Choice(b, r).length == 2 && b[r + 1] != b[r + 2] && Choice(b, r + 2).length >= 4
    requires if r + 2 + Choice(b, r + 2).length >= e then c >= 4 && Costs(b, e, m)
             else Paid(b, e, m, c, r + 2 + Choice(b, r + 2).length)
    ensures Paid(b, e, m, c, r)
  {
    hide Choice, Dead, Path;
    PathOnce(b, r);
    PathOnce(b, r + 2);
    var n := Choice(b, r + 2).length;
    Weight(b, e, r, 2);
    if r + 2 + n < e { Weight(b, e, r + 2, n); }
    hide Count;
  }

  /** Up to a place from which m bytes are enough. */
  lemma {:induction false} PaidUpTo(b: Bits, e: nat, m: nat, r: nat)
    requires Costs(b, e, m) && e + 6 <= |b| && r <= e
    ensures Paid(b, e, m, 4, r)
    decreases e - r
  {
    hide Choice, Dead, Path, Count, Costs, Paid;
    if r == e {
      PaidAtEnd(b, e, m, 4);
    } else if Dead(b, r) {
      PaidIfDead(b, e, m, 4, r);
    } else {
      ChoiceAtLeast(b, r);
      var n := Choice(b, r).length;
      if r + n >= e {
        PaidOnce(b, e, m, r);
      } else if n >= 3 || !(b[r + 1] || b[r + 2]) {
        PaidUpTo(b, e, m, r + n);
        PaidStep(b, e, m, 4, r);
      } else {
        ShortByte(b, r);
        if r + 2 + Choice(b, r + 2).length < e { PaidUpTo(b, e, m, r + 2 + Choice(b, r + 2).length); }
        PaidTwoSteps(b, e, m, 4, r);
      }
    }
  }

  lemma PaidIfDead(b: Bits, e: nat, m: nat, c: nat, r: nat)
    requires r <= e <= |b| && |b| >= 6 && Dead(b, r)
    ensures Paid(b, e, m, c, r)
  {
  }

  // ---------------------------------------------------------------- six ones between zeros

  /** Three zeros, six ones and a zero. */
  ghost predicate SixOnes(b: Bits, q: nat) {
    && q + 10 <= |b|
    && !b[q] && !b[q + 1] && !b[q + 2] && !b[q + 9]
    && b[q + 3] && b[q + 4] && b[q + 5] && b[q + 6] && b[q + 7] && b[q + 8]
  }

  lemma SixOnesRuns(b: Bits, q: nat)
    requires SixOnes(b, q)
    ensures !Dead(b, q) && !Dead(b, q + 1) && !Dead(b, q + 2) && !Dead(b, q + 3) && Dead(b, q + 4) && !Dead(b, q + 6)
  {
    OnesAtIs(b, q + 3, 6);
    OnesAtIs(b, q + 4, 5);
    OnesAtIs(b, q + 6, 3);
    hide OnesAt;
    NotDeadBefore(b, q, 0);
    NotDeadBefore(b, q + 1, 0);
    NotDeadBefore(b, q + 2, 0);
  }

  lemma SixOnesCount(b: Bits, q: nat, e: nat)
    requires SixOnes(b, q) && q + 11 <= e <= |b|
    ensures Count(b, q + 2, e) == 6 + Count(b, q + 9, e) && Count(b, q + 3, e) == 6 + Count(b, q + 10, e)
    ensures Count(b, q + 4, e) == 5 + Count(b, q + 9, e) && Count(b, q + 10, e) <= 1 + Count(b, q + 11, e)
  {
    CountSplit(b, q + 2, q + 9, e);
    CountSplit(b, q + 3, q + 10, e);
    CountSplit(b, q + 4, q + 9, e);
    CountSplit(b, q + 10, q + 11, e);
    assert Count(b, q + 8, q + 9) == 1 && Count(b, q + 8, q + 10) == 1;
    assert Count(b, q + 6, q + 9) == 3 && Count(b, q + 6, q + 10) == 3;
    assert Count(b, q + 4, q + 9) == 5 && Count(b, q + 4, q + 10) == 5;
  }

  /** They save three of the weight. */
  lemma PaidAtSixOnes(b: Bits, e: nat, m: nat, q: nat)
    requires Costs(b, e, m) && e + 6 <= |b| && q + 16 <= e && SixOnes(b, q)
    ensures Paid(b, e, m, 1, q) && Paid(b, e, m, 1, q + 1) && Paid(b, e, m, 1, q + 2)
    ensures Paid(b, e, m, 1, q + 3) && Paid(b, e, m, 1, q + 4)
  {
    hide Choice, Dead, Path, Count, Costs;
    SixOnesRuns(b, q);
    SixOnesCount(b, q, e);
    PaidUpTo(b, e, m, q + 8);
    PaidUpTo(b, e, m, q + 9);
    PaidUpTo(b, e, m, q + 10);
    PathOnce(b, q + 1);
    PathOnce(b, q + 2);
    PathOnce(b, q + 3);
    PathOnce(b, q + 6);
    ChoiceAtLeast(b, q);
    ChoiceAtLeast(b, q + 1);
    ChoiceAtLeast(b, q + 2);
    ChoiceAtLeast(b, q + 3);
    ChoiceAtLeast(b, q + 6);
    assert Choice(b, q + 3).length == 5;
    assert Choice(b, q + 2).length == 4;
    assert Choice(b, q + 6).length == 3 || Choice(b, q + 6).length == 4;
    PaidStep(b, e, m, 1, q);
  }

  lemma {:induction false} PaidUpToSixOnes(b: Bits, e: nat, m: nat, q: nat, r: nat)
    requires Costs(b, e, m) && e + 6 <= |b| && q + 16 <= e && SixOnes(b, q) && r <= q + 4
    ensures Paid(b, e, m, 1, r)
    decreases q + 4 - r
  {
    hide Choice, Dead, Path, Count, Costs, Paid, SixOnes;
    if r >= q {
      PaidAtSixOnes(b, e, m, q);
    } else if Dead(b, r) {
      PaidIfDead(b, e, m, 1, r);
    } else {
      ChoiceAtLeast(b, r);
      ChoiceIsRight(b, r);
      var n := Choice(b, r).length;
      if n >= 3 || !(b[r + 1] || b[r + 2]) {
        PaidUpToSixOnes(b, e, m, q, r + n);
        PaidStep(b, e, m, 1, r);
      } else {
        ShortByte(b, r);
        DeadIsFarOff(b, q, r);
        ChoiceIsRight(b, r + 2);
        PaidUpToSixOnes(b, e, m, q, r + 2 + Choice(b, r + 2).length);
        PaidTwoSteps(b, e, m, 1, r);
      }
    }
  }

  lemma DeadIsFarOff(b: Bits, q: nat, r: nat)
    requires SixOnes(b, q) && r < q && r + 3 <= |b| && Dead(b, r + 3)
    ensures r + 3 < q
  {
    hide Dead;
    SixOnesRuns(b, q);
  }

  // ---------------------------------------------------------------- the start of a packet with a long address

  /** Two ones, a zero and two ones. */
  ghost predicate LongStart(b: Bits, t: nat) {
    t + 9 <= |b| && b[t] && b[t + 1] && !b[t + 2] && b[t + 3] && b[t + 4]
  }

  lemma LongStartCount(b: Bits, t: nat, e: nat)
    requires LongStart(b, t) && t + 9 <= e <= |b|
    ensures Count(b, t + 1, e) == 3 + Count(b, t + 5, e)
    ensures Count(b, t + 1, e) <= 7 + Count(b, t + 9, e)
  {
    CountSplit(b, t + 1, t + 5, e);
    assert Count(b, t + 3, t + 5) == 2;
    CountSplit(b, t + 5, t + 9, e);
  }

  /** It saves another three. */
  lemma PaidFromLongStart(b: Bits, e: nat, m: nat, q: nat, t: nat)
    requires Costs(b, e, m) && e + 6 <= |b| && q + 16 <= e && SixOnes(b, q) && LongStart(b, t) && t + 8 <= q
    ensures 6 * |Path(b, t)| <= 6 * m + 3 * (e - t) - Count(b, t + 1, e) - 2
  {
    hide Choice, Path, Count, Costs, SixOnes;
    OnesAtIs(b, t, 2);
    LongStartCount(b, t, e);
    ChoiceAtLeast(b, t);
    PathOnce(b, t);
    if Dead(b, t + 4) {
      DeadIsOne(b, t + 4);
      OnesAtLater(b, t + 3, 1);
      hide OnesAt, Dead;
      ChoiceAtLeast(b, t + 3);
      PathOnce(b, t + 3);
      PaidUpToSixOnes(b, e, m, q, t + 8);
    } else {
      hide OnesAt, Dead;
      PaidUpToSixOnes(b, e, m, q, t + 4);
    }
  }
}
