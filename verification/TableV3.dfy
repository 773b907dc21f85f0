/**
  The table of version 3 of the translation (TranslateData_v3) and what its bytes put on the line.
  A byte starts in the middle of one bit and ends in the middle of another.
 */
module TableV3 {
  import opened Waveform

  /** A byte and the number of bits by which it moves the reading position. */
  datatype Row = Row(value: bv8, length: nat)

  /** TranslateData_v3: for five bits of a window, the byte of the first try and that of the second. */
  function Table(index: nat, second: bool): (row: Row)
    requires index < 32
    ensures 1 <= row.length <= 5
  {
    var (first, other) := match index
      case 0 => (Row(0xcc, 2), Row(0xf0, 1))
      case 1 => (Row(0xcc, 2), Row(0xf0, 1))
      case 2 => (Row(0xcc, 2), Row(0xf0, 1))
      case 3 => (Row(0xcc, 2), Row(0xf0, 1))
      case 4 => (Row(0xa6, 3), Row(0x1c, 2))
      case 5 => (Row(0xa6, 3), Row(0x1c, 2))
      case 6 => (Row(0x4c, 3), Row(0x1c, 2))
      case 7 => (Row(0x4c, 3), Row(0x1c, 2))
      case 8 => (Row(0x9a, 3), Row(0xe8, 2))
      case 9 => (Row(0x9a, 3), Row(0xe8, 2))
      case 10 => (Row(0x34, 3), Row(0xe8, 2))
      case 11 => (Row(0x34, 3), Row(0xe8, 2))
      case 12 => (Row(0xd4, 3), Row(0x40, 2))
      case 13 => (Row(0xd4, 3), Row(0x40, 2))
      case 14 => (Row(0x50, 3), Row(0x40, 2))
      case 15 => (Row(0x54, 4), Row(0x50, 3))
      case 16 => (Row(0xc7, 2), Row(0xff, 1))
      case 17 => (Row(0xc7, 2), Row(0xff, 1))
      case 18 => (Row(0xc7, 2), Row(0xff, 1))
      case 19 => (Row(0xc7, 2), Row(0xff, 1))
      case 20 => (Row(0xd3, 3), Row(0x0f, 2))
      case 21 => (Row(0xd3, 3), Row(0x0f, 2))
      case 22 => (Row(0x47, 3), Row(0x0f, 2))
      case 23 => (Row(0x53, 4), Row(0x47, 3))
      case 24 => (Row(0xcd, 3), Row(0xfd, 2))
      case 25 => (Row(0xcd, 3), Row(0xfd, 2))
      case 26 => (Row(0x1d, 3), Row(0xfd, 2))
      case 27 => (Row(0x4d, 4), Row(0x1d, 3))
      case 28 => (Row(0xf5, 3), Row(0xf5, 3))
      case 29 => (Row(0x35, 4), Row(0xf5, 3))
      case 30 => (Row(0xd5, 4), Row(0xd5, 4))
      case _ => (Row(0x55, 5), Row(0x55, 5));
    if second then other else first
  }

  function Bit(b: bool): nat { if b then 1 else 0 }

  /** The number that read_next_six_bits makes of six bits. */
  function Six(b: Bits, r: nat): (six: nat)
    requires r + 6 <= |b|
    ensures six < 64
  {
    32 * Bit(b[r]) + 16 * Bit(b[r + 1]) + 8 * Bit(b[r + 2]) + 4 * Bit(b[r + 3]) + 2 * Bit(b[r + 4]) + Bit(b[r + 5])
  }

  // ---------------------------------------------------------------- the table is right

  /** A byte puts on the line the bits of `bits`, sharing the first and the last one. */
  ghost predicate Sends(value: bv8, bits: Bits) {
    CarriesShared(Halves(Line([value])), bits) && Bounded(Halves(Line([value])))
  }

  lemma SendsRuns(value: bv8, runs: seq<nat>, bits: Bits)
    requires Frame(value) == Spread(false, runs)
    requires forall i :: 0 <= i < |runs| ==> 1 <= runs[i] <= 9
    requires CarriesShared(runs, bits)
    ensures Sends(value, bits)
  {
    FrameRuns(value, runs);
  }

  lemma Sends_ll()
    ensures Sends(0xf0, [false, false])
  {
    assert Frame(0xf0) == Spread(false, [5, 5]);
    SendsRuns(0xf0, [5, 5], [false, false]);
  }

  lemma Sends_lLl()
    ensures Sends(0xcc, [false, false, false])
  {
    assert Frame(0xcc) == Spread(false, [3, 2, 2, 3]);
    SendsRuns(0xcc, [3, 2, 2, 3], [false, false, false]);
  }

  lemma Sends_lLh()
    ensures Sends(0x1c, [false, false, true])
  {
    assert Frame(0x1c) == Spread(false, [3, 3, 3, 1]);
    SendsRuns(0x1c, [3, 3, 3, 1], [false, false, true]);
  }

  lemma Sends_lLHl()
    ensures Sends(0xa6, [false, false, true, false])
  {
    assert Frame(0xa6) == Spread(false, [2, 2, 2, 1, 1, 2]);
    SendsRuns(0xa6, [2, 2, 2, 1, 1, 2], [false, false, true, false]);
  }

  lemma Sends_lLHh()
    ensures Sends(0x4c, [false, false, true, true])
  {
    assert Frame(0x4c) == Spread(false, [3, 2, 2, 1, 1, 1]);
    SendsRuns(0x4c, [3, 2, 2, 1, 1, 1], [false, false, true, true]);
  }

  lemma Sends_lHl()
    ensures Sends(0xe8, [false, true, false])
  {
    assert Frame(0xe8) == Spread(false, [4, 1, 1, 4]);
    SendsRuns(0xe8, [4, 1, 1, 4], [false, true, false]);
  }

  lemma Sends_lHLl()
    ensures Sends(0x9a, [false, true, false, false])
  {
    assert Frame(0x9a) == Spread(false, [2, 1, 1, 2, 2, 2]);
    SendsRuns(0x9a, [2, 1, 1, 2, 2, 2], [false, true, false, false]);
  }

  lemma Sends_lHLh()
    ensures Sends(0x34, [false, true, false, true])
  {
    assert Frame(0x34) == Spread(false, [3, 1, 1, 2, 2, 1]);
    SendsRuns(0x34, [3, 1, 1, 2, 2, 1], [false, true, false, true]);
  }

  lemma Sends_lHh()
    ensures Sends(0x40, [false, true, true])
  {
    assert Frame(0x40) == Spread(false, [7, 1, 1, 1]);
    SendsRuns(0x40, [7, 1, 1, 1], [false, true, true]);
  }

  lemma Sends_lHHl()
    ensures Sends(0xd4, [false, true, true, false])
  {
    assert Frame(0xd4) == Spread(false, [3, 1, 1, 1, 1, 3]);
    SendsRuns(0xd4, [3, 1, 1, 1, 1, 3], [false, true, true, false]);
  }

  lemma Sends_lHHh()
    ensures Sends(0x50, [false, true, true, true])
  {
    assert Frame(0x50) == Spread(false, [5, 1, 1, 1, 1, 1]);
    SendsRuns(0x50, [5, 1, 1, 1, 1, 1], [false, true, true, true]);
  }

  lemma Sends_lHHHh()
    ensures Sends(0x54, [false, true, true, true, true])
  {
    assert Frame(0x54) == Spread(false, [3, 1, 1, 1, 1, 1, 1, 1]);
    SendsRuns(0x54, [3, 1, 1, 1, 1, 1, 1, 1], [false, true, true, true, true]);
  }

  lemma Sends_hl()
    ensures Sends(0xff, [true, false])
  {
    assert Frame(0xff) == Spread(false, [1, 9]);
    SendsRuns(0xff, [1, 9], [true, false]);
  }

  lemma Sends_hLl()
    ensures Sends(0xc7, [true, false, false])
  {
    assert Frame(0xc7) == Spread(false, [1, 3, 3, 3]);
    SendsRuns(0xc7, [1, 3, 3, 3], [true, false, false]);
  }

  lemma Sends_hLh()
    ensures Sends(0x0f, [true, false, true])
  {
    assert Frame(0x0f) == Spread(false, [1, 4, 4, 1]);
    SendsRuns(0x0f, [1, 4, 4, 1], [true, false, true]);
  }

  lemma Sends_hLHl()
    ensures Sends(0xd3, [true, false, true, false])
  {
    assert Frame(0xd3) == Spread(false, [1, 2, 2, 1, 1, 3]);
    SendsRuns(0xd3, [1, 2, 2, 1, 1, 3], [true, false, true, false]);
  }

  lemma Sends_hLHh()
    ensures Sends(0x47, [true, false, true, true])
  {
    assert Frame(0x47) == Spread(false, [1, 3, 3, 1, 1, 1]);
    SendsRuns(0x47, [1, 3, 3, 1, 1, 1], [true, false, true, true]);
  }

  lemma Sends_hLHHh()
    ensures Sends(0x53, [true, false, true, true, true])
  {
    assert Frame(0x53) == Spread(false, [1, 2, 2, 1, 1, 1, 1, 1]);
    SendsRuns(0x53, [1, 2, 2, 1, 1, 1, 1, 1], [true, false, true, true, true]);
  }

  lemma Sends_hHl()
    ensures Sends(0xfd, [true, true, false])
  {
    assert Frame(0xfd) == Spread(false, [1, 1, 1, 7]);
    SendsRuns(0xfd, [1, 1, 1, 7], [true, true, false]);
  }

  lemma Sends_hHLl()
    ensures Sends(0xcd, [true, true, false, false])
  {
    assert Frame(0xcd) == Spread(false, [1, 1, 1, 2, 2, 3]);
    SendsRuns(0xcd, [1, 1, 1, 2, 2, 3], [true, true, false, false]);
  }

  lemma Sends_hHLh()
    ensures Sends(0x1d, [true, true, false, true])
  {
    assert Frame(0x1d) == Spread(false, [1, 1, 1, 3, 3, 1]);
    SendsRuns(0x1d, [1, 1, 1, 3, 3, 1], [true, true, false, true]);
  }

  lemma Sends_hHLHh()
    ensures Sends(0x4d, [true, true, false, true, true])
  {
    assert Frame(0x4d) == Spread(false, [1, 1, 1, 2, 2, 1, 1, 1]);
    SendsRuns(0x4d, [1, 1, 1, 2, 2, 1, 1, 1], [true, true, false, true, true]);
  }

  lemma Sends_hHHl()
    ensures Sends(0xf5, [true, true, true, false])
  {
    assert Frame(0xf5) == Spread(false, [1, 1, 1, 1, 1, 5]);
    SendsRuns(0xf5, [1, 1, 1, 1, 1, 5], [true, true, true, false]);
  }

  lemma Sends_hHHLh()
    ensures Sends(0x35, [true, true, true, false, true])
  {
    assert Frame(0x35) == Spread(false, [1, 1, 1, 1, 1, 2, 2, 1]);
    SendsRuns(0x35, [1, 1, 1, 1, 1, 2, 2, 1], [true, true, true, false, true]);
  }

  lemma Sends_hHHHl()
    ensures Sends(0xd5, [true, true, true, true, false])
  {
    assert Frame(0xd5) == Spread(false, [1, 1, 1, 1, 1, 1, 1, 3]);
    SendsRuns(0xd5, [1, 1, 1, 1, 1, 1, 1, 3], [true, true, true, true, false]);
  }

  lemma Sends_hHHHHh()
    ensures Sends(0x55, [true, true, true, true, true, true])
  {
    assert Frame(0x55) == Spread(false, [1, 1, 1, 1, 1, 1, 1, 1, 1, 1]);
    SendsRuns(0x55, [1, 1, 1, 1, 1, 1, 1, 1, 1, 1], [true, true, true, true, true, true]);
  }

  /** The five bits that make an index of the table; a sixth one belongs to the last row. */
  function RowBits(index: nat): (bits: Bits)
    requires index < 32
    ensures |bits| == 6
  {
    [index / 16 % 2 == 1, index / 8 % 2 == 1, index / 4 % 2 == 1, index / 2 % 2 == 1, index % 2 == 1, true]
  }

  ghost predicate RowIsRight(index: nat, second: bool)
    requires index < 32
  {
    var row := Table(index, second);
    1 <= row.length <= 5 && (row.length == 5 <==> index == 31) && Sends(row.value, RowBits(index)[..row.length + 1])
  }

  lemma RowsFrom000(index: nat, second: bool)
    requires 0 <= index < 4
    ensures RowIsRight(index, second)
  {
    hide Sends;
    match index
    case 0 =>
      if second { Sends_ll(); assert RowBits(0)[..2] == [false, false]; }
      else { Sends_lLl(); assert RowBits(0)[..3] == [false, false, false]; }
    case 1 =>
      if second { Sends_ll(); assert RowBits(1)[..2] == [false, false]; }
      else { Sends_lLl(); assert RowBits(1)[..3] == [false, false, false]; }
    case 2 =>
      if second { Sends_ll(); assert RowBits(2)[..2] == [false, false]; }
      else { Sends_lLl(); assert RowBits(2)[..3] == [false, false, false]; }
    case _ =>
      if second { Sends_ll(); assert RowBits(3)[..2] == [false, false]; }
      else { Sends_lLl(); assert RowBits(3)[..3] == [false, false, false]; }
  }

  lemma RowsFrom001(index: nat, second: bool)
    requires 4 <= index < 8
    ensures RowIsRight(index, second)
  {
    hide Sends;
    match index
    case 4 =>
      if second { Sends_lLh(); assert RowBits(4)[..3] == [false, false, true]; }
      else { Sends_lLHl(); assert RowBits(4)[..4] == [false, false, true, false]; }
    case 5 =>
      if second { Sends_lLh(); assert RowBits(5)[..3] == [false, false, true]; }
      else { Sends_lLHl(); assert RowBits(5)[..4] == [false, false, true, false]; }
    case 6 =>
      if second { Sends_lLh(); assert RowBits(6)[..3] == [false, false, true]; }
      else { Sends_lLHh(); assert RowBits(6)[..4] == [false, false, true, true]; }
    case _ =>
      if second { Sends_lLh(); assert RowBits(7)[..3] == [false, false, true]; }
      else { Sends_lLHh(); assert RowBits(7)[..4] == [false, false, true, true]; }
  }

  lemma RowsFrom010(index: nat, second: bool)
    requires 8 <= index < 12
    ensures RowIsRight(index, second)
  {
    hide Sends;
    match index
    case 8 =>
      if second { Sends_lHl(); assert RowBits(8)[..3] == [false, true, false]; }
      else { Sends_lHLl(); assert RowBits(8)[..4] == [false, true, false, false]; }
    case 9 =>
      if second { Sends_lHl(); assert RowBits(9)[..3] == [false, true, false]; }
      else { Sends_lHLl(); assert RowBits(9)[..4] == [false, true, false, false]; }
    case 10 =>
      if second { Sends_lHl(); assert RowBits(10)[..3] == [false, true, false]; }
      else { Sends_lHLh(); assert RowBits(10)[..4] == [false, true, false, true]; }
    case _ =>
      if second { Sends_lHl(); assert RowBits(11)[..3] == [false, true, false]; }
      else { Sends_lHLh(); assert RowBits(11)[..4] == [false, true, false, true]; }
  }

  lemma RowsFrom011(index: nat, second: bool)
    requires 12 <= index < 16
    ensures RowIsRight(index, second)
  {
    hide Sends;
    match index
    case 12 =>
      if second { Sends_lHh(); assert RowBits(12)[..3] == [false, true, true]; }
      else { Sends_lHHl(); assert RowBits(12)[..4] == [false, true, true, false]; }
    case 13 =>
      if second { Sends_lHh(); assert RowBits(13)[..3] == [false, true, true]; }
      else { Sends_lHHl(); assert RowBits(13)[..4] == [false, true, true, false]; }
    case 14 =>
      if second { Sends_lHh(); assert RowBits(14)[..3] == [false, true, true]; }
      else { Sends_lHHh(); assert RowBits(14)[..4] == [false, true, true, true]; }
    case _ =>
      if second { Sends_lHHh(); assert RowBits(15)[..4] == [false, true, true, true]; }
      else { Sends_lHHHh(); assert RowBits(15)[..5] == [false, true, true, true, true]; }
  }

  lemma RowsFrom100(index: nat, second: bool)
    requires 16 <= index < 20
    ensures RowIsRight(index, second)
  {
    hide Sends;
    match index
    case 16 =>
      if second { Sends_hl(); assert RowBits(16)[..2] == [true, false]; }
      else { Sends_hLl(); assert RowBits(16)[..3] == [true, false, false]; }
    case 17 =>
      if second { Sends_hl(); assert RowBits(17)[..2] == [true, false]; }
      else { Sends_hLl(); assert RowBits(17)[..3] == [true, false, false]; }
    case 18 =>
      if second { Sends_hl(); assert RowBits(18)[..2] == [true, false]; }
      else { Sends_hLl(); assert RowBits(18)[..3] == [true, false, false]; }
    case _ =>
      if second { Sends_hl(); assert RowBits(19)[..2] == [true, false]; }
      else { Sends_hLl(); assert RowBits(19)[..3] == [true, false, false]; }
  }

  lemma RowsFrom101(index: nat, second: bool)
    requires 20 <= index < 24
    ensures RowIsRight(index, second)
  {
    hide Sends;
    match index
    case 20 =>
      if second { Sends_hLh(); assert RowBits(20)[..3] == [true, false, true]; }
      else { Sends_hLHl(); assert RowBits(20)[..4] == [true, false, true, false]; }
    case 21 =>
      if second { Sends_hLh(); assert RowBits(21)[..3] == [true, false, true]; }
      else { Sends_hLHl(); assert RowBits(21)[..4] == [true, false, true, false]; }
    case 22 =>
      if second { Sends_hLh(); assert RowBits(22)[..3] == [true, false, true]; }
      else { Sends_hLHh(); assert RowBits(22)[..4] == [true, false, true, true]; }
    case _ =>
      if second { Sends_hLHh(); assert RowBits(23)[..4] == [true, false, true, true]; }
      else { Sends_hLHHh(); assert RowBits(23)[..5] == [true, false, true, true, true]; }
  }

  lemma RowsFrom110(index: nat, second: bool)
    requires 24 <= index < 28
    ensures RowIsRight(index, second)
  {
    hide Sends;
    match index
    case 24 =>
      if second { Sends_hHl(); assert RowBits(24)[..3] == [true, true, false]; }
      else { Sends_hHLl(); assert RowBits(24)[..4] == [true, true, false, false]; }
    case 25 =>
      if second { Sends_hHl(); assert RowBits(25)[..3] == [true, true, false]; }
      else { Sends_hHLl(); assert RowBits(25)[..4] == [true, true, false, false]; }
    case 26 =>
      if second { Sends_hHl(); assert RowBits(26)[..3] == [true, true, false]; }
      else { Sends_hHLh(); assert RowBits(26)[..4] == [true, true, false, true]; }
    case _ =>
      if second { Sends_hHLh(); assert RowBits(27)[..4] == [true, true, false, true]; }
      else { Sends_hHLHh(); assert RowBits(27)[..5] == [true, true, false, true, true]; }
  }

  lemma RowsFrom111(index: nat, second: bool)
    requires 28 <= index < 32
    ensures RowIsRight(index, second)
  {
    hide Sends;
    match index
    case 28 =>
      Sends_hHHl(); assert RowBits(28)[..4] == [true, true, true, false];
    case 29 =>
      if second { Sends_hHHl(); assert RowBits(29)[..4] == [true, true, true, false]; }
      else { Sends_hHHLh(); assert RowBits(29)[..5] == [true, true, true, false, true]; }
    case 30 =>
      Sends_hHHHl(); assert RowBits(30)[..5] == [true, true, true, true, false];
    case _ =>
      Sends_hHHHHh(); assert RowBits(31)[..6] == [true, true, true, true, true, true];
  }

  lemma RowIsRightAlways(index: nat, second: bool)
    requires index < 32
    ensures RowIsRight(index, second)
  {
    if
    case 0 <= index < 4 => RowsFrom000(index, second);
    case 4 <= index < 8 => RowsFrom001(index, second);
    case 8 <= index < 12 => RowsFrom010(index, second);
    case 12 <= index < 16 => RowsFrom011(index, second);
    case 16 <= index < 20 => RowsFrom100(index, second);
    case 20 <= index < 24 => RowsFrom101(index, second);
    case 24 <= index < 28 => RowsFrom110(index, second);
    case 28 <= index < 32 => RowsFrom111(index, second);
  }
}
