/**
  How many bytes version 3 of the translation needs for the strings of commands. A byte stands for two bits at
  least, for three where the bits are known to begin with two ones, and for five in a run of ones.
 */
module Lengths {
  import opened Waveform
  import opened TableV3
  import opened TranslateV3

  // ---------------------------------------------------------------- how far a byte goes

  lemma RowLengths(b0: bool, b1: bool, b2: bool, b3: bool, b4: bool)
    ensures var index := 16 * Bit(b0) + 8 * Bit(b1) + 4 * Bit(b2) + 2 * Bit(b3) + Bit(b4);
      && index < 32
      && var n := Table(index, false).length;
      && (b1 || b2 ==> n >= 3)
      && (b0 && b1 && b2 && b3 ==> n >= 4)
      && (b2 && b3 && b4 && (b0 || b1) ==> n >= 4)
      && (b0 && b1 && !b2 && b3 && b4 ==> n == 4)
      && (!b1 && !b2 ==> n == 2)
      && (!b0 && !b1 ==> n <= 3)
      && (index == 31 <==> b0 && b1 && b2 && b3 && b4)
      && (n == 5 ==> index == 31)
      && (index == 31 ==> n == 5)
  {
  }

  /** The two cases of a choice: the first try, or one bit less before a dead end. */
  lemma ChoiceLength(b: Bits, r: nat)
    requires r + 6 <= |b| && !Dead(b, r)
    ensures var first := Table(Six(b, r) / 2, false).length;
      && r + first <= |b|
      && Choice(b, r).length == if Six(b, r) / 2 != 31 && Dead(b, r + first) then first - 1 else first
  {
    hide Table, Six, Dead;
    OpenWindow(b, r);
    WindowRow(b, r, false);
    var first := Table(Six(b, r) / 2, false).length;
    if Six(b, r) / 2 != 31 && Dead(b, r + first) {
      SecondTryEscapes(b, r);
    }
  }

  lemma SixBits(b: Bits, r: nat)
    requires r + 6 <= |b|
    ensures Six(b, r) / 2 == 16 * Bit(b[r]) + 8 * Bit(b[r + 1]) + 4 * Bit(b[r + 2]) + 2 * Bit(b[r + 3]) + Bit(b[r + 4])
  {
  }

  lemma DeadIsOne(b: Bits, r: nat)
    requires r <= |b| && Dead(b, r)
    ensures r + 5 < |b| && b[r] && b[r + 1] && b[r + 2] && b[r + 3] && b[r + 4]
  {
  }

  /** Bits that are known tell how far a byte goes at least. */
  lemma ChoiceAtLeast(b: Bits, r: nat)
    requires r + 6 <= |b| && !Dead(b, r)
    ensures var n := Choice(b, r).length;
      && n >= 2
      && (!b[r + 1] && !b[r + 2] ==> n == 2)
      && (!b[r] && !b[r + 1] && Dead(b, r + 3) ==> n == 2)
      && (n == 5 ==> b[r] && b[r + 1] && b[r + 2] && b[r + 3] && b[r + 4])
      && (b[r] && b[r + 1] && !b[r + 2] && b[r + 3] && b[r + 4] ==> n == if Dead(b, r + 4) then 3 else 4)
      && (b[r] && b[r + 1] ==> n >= 3)
      && (b[r] && b[r + 1] && b[r + 2] && b[r + 3] ==> n >= 4)
      && (b[r] && b[r + 1] && b[r + 2] && b[r + 3] && b[r + 4] ==> n == 5)
      && (b[r + 1] && b[r + 2] ==> n >= 3)
      && ((b[r + 1] || b[r + 2]) && !Dead(b, r + 3) ==> n >= 3)
      && (b[r + 2] && b[r + 3] && b[r + 4] && (b[r] || b[r + 1]) && !Dead(b, r + 4) ==> n >= 4)
  {
    hide Table, Six, Dead, Choice;
    ChoiceIsRight(b, r);
    ChoiceLength(b, r);
    SixBits(b, r);
    RowLengths(b[r], b[r + 1], b[r + 2], b[r + 3], b[r + 4]);
    var first := Table(Six(b, r) / 2, false).length;
    if Dead(b, r + first) { DeadIsOne(b, r + first); }
  }

  // ---------------------------------------------------------------- what is left to send

  /** From t on, wherever the translation comes through, it needs m more bytes at most. */
  ghost predicate Costs(b: Bits, t: nat, m: nat) {
    |b| >= 6 && forall r: nat :: t <= r <= |b| && !Dead(b, r) ==> |Path(b, r)| <= m
  }

  lemma CostsNothing(b: Bits)
    requires |b| >= 6
    ensures Costs(b, |b| - 6, 0)
  {
  }

  lemma CostsLater(b: Bits, t: nat, t': nat, m: nat, m': nat)
    requires Costs(b, t, m) && t <= t' && m <= m'
    ensures Costs(b, t', m')
  {
  }

  lemma PathOnce(b: Bits, r: nat)
    requires |b| >= 6 && r <= |b| && !Dead(b, r)
    ensures if r + 6 >= |b| then |Path(b, r)| == 0
            else var r' := r + Choice(b, r).length; r' <= |b| && !Dead(b, r') && |Path(b, r)| == 1 + |Path(b, r')|
  {
    hide Choice, Dead;
    if r + 6 < |b| { ChoiceIsRight(b, r); }
  }

  /** One byte: if every choice before t' gets as far as t'. */
  lemma CostsOne(b: Bits, t: nat, t': nat, m: nat)
    requires Costs(b, t', m)
    requires forall r: nat :: t <= r < t' && r + 6 < |b| && !Dead(b, r) ==> r + Choice(b, r).length >= t'
    ensures Costs(b, t, m + 1)
  {
    hide Choice, Dead, Path;
    forall r: nat | t <= r <= |b| && !Dead(b, r) ensures |Path(b, r)| <= m + 1 {
      PathOnce(b, r);
    }
  }

  /** Any bits: two bits a byte. */
  lemma {:induction false} CostsTwos(b: Bits, t: nat, bytes: nat, m: nat)
    requires Costs(b, t + 2 * bytes, m)
    ensures Costs(b, t, m + bytes)
    decreases bytes
  {
    hide Choice, Dead, Costs;
    if bytes > 0 {
      CostsTwos(b, t + 2, bytes - 1, m);
      CostsTwo(b, t, m + bytes - 1);
    }
  }

  lemma CostsTwo(b: Bits, t: nat, m: nat)
    requires Costs(b, t + 2, m)
    ensures Costs(b, t, m + 1)
  {
    hide Choice, Dead;
    forall r: nat | t <= r < t + 2 && r + 6 < |b| && !Dead(b, r) ensures r + Choice(b, r).length >= t + 2 {
      ChoiceIsRight(b, r);
    }
    hide Costs;
    CostsOne(b, t, t + 2, m);
  }

  /** Two ones, or a one with no dead end behind it: three bits for a byte. */
  lemma CostsThree(b: Bits, t: nat, m: nat)
    requires Costs(b, t + 3, m)
    requires t + 6 < |b| ==>
      (b[t] && b[t + 1]) || (b[t + 1] && b[t + 2]) || ((b[t + 1] || b[t + 2]) && !Dead(b, t + 3))
    ensures Costs(b, t, m + 1)
  {
    hide Choice, Dead;
    forall r: nat | t <= r < t + 3 && r + 6 < |b| && !Dead(b, r) ensures r + Choice(b, r).length >= t + 3 {
      ChoiceAtLeast(b, r);
    }
    hide Costs;
    CostsOne(b, t, t + 3, m);
  }

  /** Three ones behind two bits that are not both zero. */
  lemma CostsFour(b: Bits, t: nat, m: nat)
    requires Costs(b, t + 4, m)
    requires t + 6 < |b| ==> (b[t] || b[t + 1]) && b[t + 2] && b[t + 3] && b[t + 4] && !Dead(b, t + 4)
    ensures Costs(b, t, m + 1)
  {
    hide Choice, Dead;
    forall r: nat | t <= r < t + 4 && r + 6 < |b| && !Dead(b, r) ensures r + Choice(b, r).length >= t + 4 {
      ChoiceAtLeast(b, r);
    }
    hide Costs;
    CostsOne(b, t, t + 4, m);
  }

  ghost predicate AreOnes(b: Bits, t: nat, t': nat) {
    t' <= |b| && forall i :: t <= i < t' ==> b[i]
  }

  /** A run of ones: five bits a byte. */
  lemma {:induction false} CostsOnes(b: Bits, t: nat, bytes: nat, m: nat)
    requires Costs(b, t + 5 * bytes, m) && AreOnes(b, t, t + 5 * bytes)
    ensures Costs(b, t, m + bytes)
    decreases bytes
  {
    hide Choice, Dead, Costs;
    if bytes > 0 {
      CostsOnes(b, t + 5, bytes - 1, m);
      CostsFive(b, t, m + bytes - 1);
    }
  }

  lemma CostsFive(b: Bits, t: nat, m: nat)
    requires Costs(b, t + 5, m) && AreOnes(b, t, t + 5)
    ensures Costs(b, t, m + 1)
  {
    hide Choice, Dead;
    forall r: nat | t <= r < t + 5 && r + 6 < |b| && !Dead(b, r) ensures r + Choice(b, r).length >= t + 5 {
      ChoiceAtLeast(b, r);
    }
    hide Costs;
    CostsOne(b, t, t + 5, m);
  }

  // ---------------------------------------------------------------- packets

  /** A packet that begins at z and ends before a gap, from two ones in front of it to two ones in front of the next:
      its last bit is f bits behind its first, and with the fifty ones of the gap it makes 51. */
  lemma PacketCosts(b: Bits, z: nat, f: nat, long: bool, m: nat)
    requires z >= 2 && f >= 4 && z + f + 51 <= |b|
    requires AreOnes(b, z - 2, z) && (long ==> AreOnes(b, z + 1, z + 3)) && AreOnes(b, z + f, z + f + 51)
    requires Costs(b, z + f + 49, m)
    ensures Costs(b, z - 2, m + if long then (f - 3) / 2 + 12 else f / 2 + 11)
  {
    hide Dead, Costs;
    var start := if long then 4 else 1;
    var bytes := (f - start + 1) / 2;
    var there := z + start + 2 * bytes;
    assert there == z + f || there == z + f + 1;
    CostsLater(b, z + f + 49, there + 50, m, m);
    CostsOnes(b, there, 10, m);
    CostsTwos(b, z + start, bytes, m + 10);
    PacketHeadCosts(b, z, long, m + 10 + bytes);
  }

  lemma PacketHeadCosts(b: Bits, z: nat, long: bool, m: nat)
    requires z >= 2 && z + 3 <= |b|
    requires AreOnes(b, z - 2, z) && (long ==> AreOnes(b, z + 1, z + 3))
    requires Costs(b, if long then z + 4 else z + 1, m)
    ensures Costs(b, z - 2, m + if long then 2 else 1)
  {
    hide Dead, Costs;
    if long {
      CostsThree(b, z + 1, m);
      CostsThree(b, z - 2, m + 1);
    } else {
      CostsThree(b, z - 2, m);
    }
  }

  /** The last packet after a short address: its bits end six bits before the buffer does. */
  lemma LastShortCosts(b: Bits, z: nat)
    requires z >= 2 && |b| == z + 37 + 6 && AreOnes(b, z - 2, z)
    ensures Costs(b, z - 2, 19)
  {
    hide Dead, Costs;
    CostsNothing(b);
    CostsTwos(b, z + 1, 18, 0);
    PacketHeadCosts(b, z, false, 18);
  }

  lemma NotDeadBefore(b: Bits, r: nat, i: nat)
    requires r + i < |b| && i < 5 && !b[r + i]
    ensures !Dead(b, r)
  {
    hide Dead;
    if Dead(b, r) { DeadIsOne(b, r); }
  }

  lemma NotDeadAtEnd(b: Bits, r: nat)
    requires r <= |b| && AreOnes(b, r, |b|)
    ensures !Dead(b, r)
  {
  }

  /** The last packet after a long address, which has an expansion instruction. */
  lemma LastLongCosts(b: Bits, z: nat)
    requires z >= 2 && |b| == z + 46 + 6
    requires AreOnes(b, z - 2, z) && AreOnes(b, z + 1, z + 3) && AreOnes(b, z + 45, |b|)
    requires b[z + 19] && !b[z + 21] && b[z + 22] && b[z + 23] && b[z + 24] && b[z + 25] && !b[z + 27]
    ensures Costs(b, z - 2, 21)
  {
    hide Dead, Costs;
    CostsNothing(b);
    NotDeadAtEnd(b, z + 46);
    CostsThree(b, z + 43, 0);
    CostsTwos(b, z + 25, 9, 1);
    NotDeadBefore(b, z + 25, 2);
    CostsFour(b, z + 21, 10);
    NotDeadBefore(b, z + 21, 0);
    CostsThree(b, z + 18, 11);
    CostsTwos(b, z + 4, 7, 12);
    PacketHeadCosts(b, z, true, 19);
  }

  /** The same packet, from its first bit. */
  lemma LastLongCostsFromStart(b: Bits, z: nat)
    requires |b| == z + 46 + 6
    requires AreOnes(b, z + 1, z + 3) && AreOnes(b, z + 45, |b|)
    requires b[z + 19] && b[z + 20] && !b[z + 21] && b[z + 22] && b[z + 23] && b[z + 24] && b[z + 25] && !b[z + 27]
    ensures Costs(b, z, 20)
  {
    hide Dead, Costs;
    CostsNothing(b);
    NotDeadAtEnd(b, z + 46);
    CostsThree(b, z + 43, 0);
    CostsTwos(b, z + 27, 8, 1);
    CostsThree(b, z + 24, 9);
    NotDeadBefore(b, z + 24, 3);
    CostsFour(b, z + 20, 10);
    NotDeadBefore(b, z + 20, 1);
    CostsThree(b, z + 17, 11);
    CostsTwos(b, z + 3, 7, 12);
    CostsThree(b, z, 19);
  }

  /** A packet with a long address and an instruction 1011 before a gap, from its first bit to that of the next. */
  lemma GroupCostsFromStart(b: Bits, z: nat, m: nat)
    requires z + 90 <= |b| && AreOnes(b, z + 1, z + 3) && AreOnes(b, z + 36, z + 87) && !b[z + 87]
    requires b[z + 19] && !b[z + 20] && b[z + 21] && b[z + 22]
    requires Costs(b, z + 87, m)
    ensures Costs(b, z, m + 27)
  {
    OnesAtIs(b, z + 39, 48);
    assert !Dead(b, z + 39);
    hide Dead, Costs, OnesAt;
    CostsThree(b, z + 84, m);
    CostsOnes(b, z + 39, 9, m + 1);
    CostsFour(b, z + 35, m + 10);
    CostsTwos(b, z + 23, 6, m + 11);
    CostsThree(b, z + 20, m + 17);
    NotDeadBefore(b, z + 20, 0);
    CostsThree(b, z + 17, m + 18);
    CostsTwos(b, z + 3, 7, m + 19);
    CostsThree(b, z, m + 26);
  }

  /** The buffer begins with seventeen ones. */
  lemma PreambleCosts(b: Bits, m: nat)
    requires Costs(b, 15, m) && AreOnes(b, 0, 17) && !Dead(b, 0)
    ensures |Path(b, 0)| <= m + 3
  {
    CostsOnes(b, 0, 3, m);
  }
}
