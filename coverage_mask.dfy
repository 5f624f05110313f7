/**
 * The 64-bit coverage mask of an 8x8 tile: byte r of the `long` holds row r
 * (row 0 in the low byte) and bit c of that byte holds column c.
 */
module CoverageMask {

  /** Row byte `v` moved into byte r of a mask; every other byte empty. */
  function ShiftedRow(v: bv8, r: int): bv64
    requires 0 <= r < 8
  {
    match r
    case 0 => v as bv64
    case 1 => (v as bv64) << 8
    case 2 => (v as bv64) << 16
    case 3 => (v as bv64) << 24
    case 4 => (v as bv64) << 32
    case 5 => (v as bv64) << 40
    case 6 => (v as bv64) << 48
    case _ => (v as bv64) << 56
  }

  /** Row r of a mask: its byte r. */
  function Row(mask: bv64, r: int): bv8
    requires 0 <= r < 8
  {
    (match r
     case 0 => mask & 0xFF
     case 1 => (mask >> 8) & 0xFF
     case 2 => (mask >> 16) & 0xFF
     case 3 => (mask >> 24) & 0xFF
     case 4 => (mask >> 32) & 0xFF
     case 5 => (mask >> 40) & 0xFF
     case 6 => (mask >> 48) & 0xFF
     case _ => (mask >> 56) & 0xFF) as bv8
  }

  /** The mask whose row r is `rows[r]`. */
  function Pack(rows: seq<bv8>): bv64
    requires |rows| == 8
  {
    PackRange(rows, 0, 8)
  }

  /** The mask holding rows lo to hi - 1 of `rows`, each shifted into place; every other row empty. */
  function PackRange(rows: seq<bv8>, lo: int, hi: int): bv64
    requires |rows| == 8 && 0 <= lo <= hi <= 8
    decreases hi - lo
  {
    if lo == hi then 0 else PackRange(rows, lo, hi - 1) | ShiftedRow(rows[hi - 1], hi - 1)
  }

  /** One more row joins the OR of the rows before it. */
  lemma PackStep(rows: seq<bv8>, n: int)
    requires |rows| == 8 && 1 <= n <= 8
    ensures PackRange(rows, 0, n) == PackRange(rows, 0, n - 1) | ShiftedRow(rows[n - 1], n - 1)
  {
  }

  /** The four low rows, ORed. */
  lemma PackLowFour(rows: seq<bv8>)
    requires |rows| == 8
    ensures PackRange(rows, 0, 4) == ShiftedRow(rows[0], 0) | ShiftedRow(rows[1], 1) | ShiftedRow(rows[2], 2) | ShiftedRow(rows[3], 3)
  {
    PackStep(rows, 1);
    PackStep(rows, 2);
    PackStep(rows, 3);
    PackStep(rows, 4);
  }

  /** The packed mask written out as the OR of its eight placed rows. */
  lemma PackExpanded(rows: seq<bv8>)
    requires |rows| == 8
    ensures Pack(rows) == ShiftedRow(rows[0], 0) | ShiftedRow(rows[1], 1) | ShiftedRow(rows[2], 2) | ShiftedRow(rows[3], 3)
                          | ShiftedRow(rows[4], 4) | ShiftedRow(rows[5], 5) | ShiftedRow(rows[6], 6) | ShiftedRow(rows[7], 7)
  {
    PackLowFour(rows);
    PackStep(rows, 5);
    PackStep(rows, 6);
    PackStep(rows, 7);
    PackStep(rows, 8);
  }

  /** Whether bit c of a row byte is set. */
  predicate RowBit(row: bv8, c: int)
    requires 0 <= c < 8
  {
    (row >> c) & 1 == 1
  }

  /** Whether pixel (column c, row r) of the tile is covered by the mask. */
  predicate Covered(mask: bv64, r: int, c: int)
    requires 0 <= r < 8 && 0 <= c < 8
  {
    RowBit(Row(mask, r), c)
  }

  /** The rows of `rows` whose index lies in [lo, hi); every other row empty. */
  function Keep(rows: seq<bv8>, lo: int, hi: int): (k: seq<bv8>)
    requires |rows| == 8
    ensures |k| == 8
    ensures forall r :: 0 <= r < 8 ==> k[r] == if lo <= r < hi then rows[r] else 0
  {
    seq(8, r requires 0 <= r < 8 => if lo <= r < hi then rows[r] else 0)
  }

  /** Eight full rows. */
  const FULL: seq<bv8> := [0xFF, 0xFF, 0xFF, 0xFF, 0xFF, 0xFF, 0xFF, 0xFF]

  /** Each row of a packed mask reads back as the row that was packed into it. */
  lemma RowOfPack(rows: seq<bv8>, r: int)
    requires |rows| == 8 && 0 <= r < 8
    ensures Row(Pack(rows), r) == rows[r]
  {
    PackExpanded(rows);
    if r < 4 {
      RowOfPackLow(rows, r, Pack(rows));
    } else {
      RowOfPackHigh(rows, r, Pack(rows));
    }
  }

  /** RowOfPack for the four low rows, of the mask written out. */
  lemma RowOfPackLow(rows: seq<bv8>, r: int, m: bv64)
    requires |rows| == 8 && 0 <= r < 4
    requires m == ShiftedRow(rows[0], 0) | ShiftedRow(rows[1], 1) | ShiftedRow(rows[2], 2) | ShiftedRow(rows[3], 3)
                  | ShiftedRow(rows[4], 4) | ShiftedRow(rows[5], 5) | ShiftedRow(rows[6], 6) | ShiftedRow(rows[7], 7)
    ensures Row(m, r) == rows[r]
  {
    if r == 0 {} else if r == 1 {} else if r == 2 {} else {}
  }

  /** RowOfPack for the four high rows, of the mask written out. */
  lemma RowOfPackHigh(rows: seq<bv8>, r: int, m: bv64)
    requires |rows| == 8 && 4 <= r < 8
    requires m == ShiftedRow(rows[0], 0) | ShiftedRow(rows[1], 1) | ShiftedRow(rows[2], 2) | ShiftedRow(rows[3], 3)
                  | ShiftedRow(rows[4], 4) | ShiftedRow(rows[5], 5) | ShiftedRow(rows[6], 6) | ShiftedRow(rows[7], 7)
    ensures Row(m, r) == rows[r]
  {
    if r == 4 {} else if r == 5 {} else if r == 6 {} else {}
  }

  /** A mask is determined by its rows. */
  lemma PackOfRows(mask: bv64)
    ensures Pack([Row(mask, 0), Row(mask, 1), Row(mask, 2), Row(mask, 3),
                  Row(mask, 4), Row(mask, 5), Row(mask, 6), Row(mask, 7)]) == mask
  {
    PackExpanded([Row(mask, 0), Row(mask, 1), Row(mask, 2), Row(mask, 3),
                  Row(mask, 4), Row(mask, 5), Row(mask, 6), Row(mask, 7)]);
  }


  /** An empty row shifted anywhere is empty. */
  lemma ShiftedZero(r: int)
    requires 0 <= r < 8
    ensures ShiftedRow(0, r) == 0
  {
  }

  /** OR with the empty mask changes nothing. */
  lemma OrZero(x: bv64)
    ensures x | 0 == x && 0 | x == x
  {
  }

  /** The last two of three ORed masks can trade places. */
  lemma OrRotate(x: bv64, y: bv64, z: bv64)
    ensures (x | y) | z == (x | z) | y
  {
  }

  /**
   * ORing row r, shifted into place, into the mask of rows [lo, r) gives the
   * mask of rows [lo, r + 1): one step of a loop filling rows upward.
   */
  lemma JoinAbove(rows: seq<bv8>, lo: int, r: int, mask: bv64, placed: bv64)
    requires |rows| == 8 && 0 <= lo <= r < 8
    requires mask == PackRange(rows, lo, r) && placed == ShiftedRow(rows[r], r)
    ensures mask | placed == PackRange(rows, lo, r + 1)
  {
  }

  /**
   * ORing row r, shifted into place, into the mask of rows [r + 1, hi) gives
   * the mask of rows [r, hi): one step of a loop filling rows downward.
   */
  lemma {:induction false} JoinBelow(rows: seq<bv8>, r: int, hi: int)
    requires |rows| == 8 && 0 <= r < hi <= 8
    ensures PackRange(rows, r, hi) == PackRange(rows, r + 1, hi) | ShiftedRow(rows[r], r)
    decreases hi
  {
    var placed := ShiftedRow(rows[r], r);
    if hi == r + 1 {
      OrZero(placed);
    } else {
      JoinBelow(rows, r, hi - 1);
      OrRotate(PackRange(rows, r + 1, hi - 1), placed, ShiftedRow(rows[hi - 1], hi - 1));
    }
  }

  /** Rows at or above hi that are empty add nothing to the mask of rows [lo, hi). */
  lemma {:induction false} ExtendUp(rows: seq<bv8>, lo: int, hi: int)
    requires |rows| == 8 && 0 <= lo <= hi <= 8
    requires forall r :: hi <= r < 8 ==> rows[r] == 0
    ensures PackRange(rows, lo, hi) == PackRange(rows, lo, 8)
    decreases 8 - hi
  {
    if hi < 8 {
      ExtendUp(rows, lo, hi + 1);
      ShiftedZero(hi);
      OrZero(PackRange(rows, lo, hi));
    }
  }

  /** Rows below lo that are empty add nothing to the mask of rows [lo, hi). */
  lemma {:induction false} ExtendDown(rows: seq<bv8>, lo: int, hi: int)
    requires |rows| == 8 && 0 <= lo <= hi <= 8
    requires forall r :: 0 <= r < lo ==> rows[r] == 0
    ensures PackRange(rows, lo, hi) == PackRange(rows, 0, hi)
    decreases lo
  {
    if 0 < lo {
      if lo == hi {
        ExtendDown(rows, lo - 1, hi - 1);
        ShiftedZero(lo - 1);
        OrZero(PackRange(rows, lo - 1, hi - 1));
      } else {
        JoinBelow(rows, lo - 1, hi);
        ShiftedZero(lo - 1);
        OrZero(PackRange(rows, lo, hi));
        ExtendDown(rows, lo - 1, hi);
      }
    }
  }

  /** The masks with the k lowest rows full, for k from 0 to 8. */
  const LOW_FULL: seq<bv64> := [0, 0xFF, 0xFFFF, 0xFF_FFFF, 0xFFFF_FFFF, 0xFF_FFFF_FFFF, 0xFFFF_FFFF_FFFF, 0xFF_FFFF_FFFF_FFFF, 0xFFFF_FFFF_FFFF_FFFF]

  /** The masks with the k highest rows full, for k from 0 to 8. */
  const HIGH_FULL: seq<bv64> := [0, 0xFF00_0000_0000_0000, 0xFFFF_0000_0000_0000, 0xFFFF_FF00_0000_0000, 0xFFFF_FFFF_0000_0000, 0xFFFF_FFFF_FF00_0000, 0xFFFF_FFFF_FFFF_0000, 0xFFFF_FFFF_FFFF_FF00, 0xFFFF_FFFF_FFFF_FFFF]

  /** The k lowest rows full, the rest empty: the `long` 2^(8k) - 1. */
  lemma LowRowsFull(k: int)
    requires 0 <= k <= 8
    ensures Pack(Keep(FULL, 0, k)) == ((1 as bv64) << (8 * k)) - 1
  {
    LowRowsTable(k);
    LowFullValues(k);
  }

  /** Packing the k lowest full rows gives the k-th entry of LOW_FULL. */
  lemma LowRowsTable(k: int)
    requires 0 <= k <= 8
    ensures Pack(Keep(FULL, 0, k)) == LOW_FULL[k]
  {
    match k {
      case 0 => assert Keep(FULL, 0, 0) == [0, 0, 0, 0, 0, 0, 0, 0]; assert Pack([0, 0, 0, 0, 0, 0, 0, 0]) == 0;
      case 1 => assert Keep(FULL, 0, 1) == [0xFF, 0, 0, 0, 0, 0, 0, 0]; assert Pack([0xFF, 0, 0, 0, 0, 0, 0, 0]) == 0xFF;
      case 2 => assert Keep(FULL, 0, 2) == [0xFF, 0xFF, 0, 0, 0, 0, 0, 0]; assert Pack([0xFF, 0xFF, 0, 0, 0, 0, 0, 0]) == 0xFFFF;
      case 3 => assert Keep(FULL, 0, 3) == [0xFF, 0xFF, 0xFF, 0, 0, 0, 0, 0]; assert Pack([0xFF, 0xFF, 0xFF, 0, 0, 0, 0, 0]) == 0xFF_FFFF;
      case 4 => assert Keep(FULL, 0, 4) == [0xFF, 0xFF, 0xFF, 0xFF, 0, 0, 0, 0]; assert Pack([0xFF, 0xFF, 0xFF, 0xFF, 0, 0, 0, 0]) == 0xFFFF_FFFF;
      case _ => LowRowsTableUpper(k);
    }
  }

  /** LowRowsTable for five rows or more. */
  lemma LowRowsTableUpper(k: int)
    requires 5 <= k <= 8
    ensures Pack(Keep(FULL, 0, k)) == LOW_FULL[k]
  {
    match k {
      case 5 => assert Keep(FULL, 0, 5) == [0xFF, 0xFF, 0xFF, 0xFF, 0xFF, 0, 0, 0]; assert Pack([0xFF, 0xFF, 0xFF, 0xFF, 0xFF, 0, 0, 0]) == 0xFF_FFFF_FFFF;
      case 6 => assert Keep(FULL, 0, 6) == [0xFF, 0xFF, 0xFF, 0xFF, 0xFF, 0xFF, 0, 0]; assert Pack([0xFF, 0xFF, 0xFF, 0xFF, 0xFF, 0xFF, 0, 0]) == 0xFFFF_FFFF_FFFF;
      case 7 => assert Keep(FULL, 0, 7) == [0xFF, 0xFF, 0xFF, 0xFF, 0xFF, 0xFF, 0xFF, 0]; assert Pack([0xFF, 0xFF, 0xFF, 0xFF, 0xFF, 0xFF, 0xFF, 0]) == 0xFF_FFFF_FFFF_FFFF;
      case _ => assert Keep(FULL, 0, 8) == [0xFF, 0xFF, 0xFF, 0xFF, 0xFF, 0xFF, 0xFF, 0xFF]; assert Pack([0xFF, 0xFF, 0xFF, 0xFF, 0xFF, 0xFF, 0xFF, 0xFF]) == 0xFFFF_FFFF_FFFF_FFFF;
    }
  }

  /** The k-th entry of LOW_FULL is 2^(8k) - 1. */
  lemma LowFullValues(k: int)
    requires 0 <= k <= 8
    ensures ((1 as bv64) << (8 * k)) - 1 == LOW_FULL[k]
  {
    // one case per k, so that every shift amount is a constant
    match k {
      case 0 =>
      case 1 =>
      case 2 =>
      case 3 =>
      case 4 =>
      case 5 =>
      case 6 =>
      case 7 =>
      case _ =>
    }
  }

  /** The k highest rows full, the rest empty: the complement of 2^(64 - 8k) - 1. */
  lemma HighRowsFull(k: int)
    requires 0 <= k <= 8
    ensures Pack(Keep(FULL, 8 - k, 8)) == !(((1 as bv64) << (64 - 8 * k)) - 1)
  {
    HighRowsTable(k);
    HighFullValues(k);
  }

  /** Packing the k highest full rows gives the k-th entry of HIGH_FULL. */
  lemma HighRowsTable(k: int)
    requires 0 <= k <= 8
    ensures Pack(Keep(FULL, 8 - k, 8)) == HIGH_FULL[k]
  {
    match k {
      case 0 => assert Keep(FULL, 8, 8) == [0, 0, 0, 0, 0, 0, 0, 0]; assert Pack([0, 0, 0, 0, 0, 0, 0, 0]) == 0;
      case 1 => assert Keep(FULL, 7, 8) == [0, 0, 0, 0, 0, 0, 0, 0xFF]; assert Pack([0, 0, 0, 0, 0, 0, 0, 0xFF]) == 0xFF00_0000_0000_0000;
      case 2 => assert Keep(FULL, 6, 8) == [0, 0, 0, 0, 0, 0, 0xFF, 0xFF]; assert Pack([0, 0, 0, 0, 0, 0, 0xFF, 0xFF]) == 0xFFFF_0000_0000_0000;
      case 3 => assert Keep(FULL, 5, 8) == [0, 0, 0, 0, 0, 0xFF, 0xFF, 0xFF]; assert Pack([0, 0, 0, 0, 0, 0xFF, 0xFF, 0xFF]) == 0xFFFF_FF00_0000_0000;
      case 4 => assert Keep(FULL, 4, 8) == [0, 0, 0, 0, 0xFF, 0xFF, 0xFF, 0xFF]; assert Pack([0, 0, 0, 0, 0xFF, 0xFF, 0xFF, 0xFF]) == 0xFFFF_FFFF_0000_0000;
      case _ => HighRowsTableUpper(k);
    }
  }

  /** HighRowsTable for five rows or more. */
  lemma HighRowsTableUpper(k: int)
    requires 5 <= k <= 8
    ensures Pack(Keep(FULL, 8 - k, 8)) == HIGH_FULL[k]
  {
    match k {
      case 5 => assert Keep(FULL, 3, 8) == [0, 0, 0, 0xFF, 0xFF, 0xFF, 0xFF, 0xFF]; assert Pack([0, 0, 0, 0xFF, 0xFF, 0xFF, 0xFF, 0xFF]) == 0xFFFF_FFFF_FF00_0000;
      case 6 => assert Keep(FULL, 2, 8) == [0, 0, 0xFF, 0xFF, 0xFF, 0xFF, 0xFF, 0xFF]; assert Pack([0, 0, 0xFF, 0xFF, 0xFF, 0xFF, 0xFF, 0xFF]) == 0xFFFF_FFFF_FFFF_0000;
      case 7 => assert Keep(FULL, 1, 8) == [0, 0xFF, 0xFF, 0xFF, 0xFF, 0xFF, 0xFF, 0xFF]; assert Pack([0, 0xFF, 0xFF, 0xFF, 0xFF, 0xFF, 0xFF, 0xFF]) == 0xFFFF_FFFF_FFFF_FF00;
      case _ => assert Keep(FULL, 0, 8) == [0xFF, 0xFF, 0xFF, 0xFF, 0xFF, 0xFF, 0xFF, 0xFF]; assert Pack([0xFF, 0xFF, 0xFF, 0xFF, 0xFF, 0xFF, 0xFF, 0xFF]) == 0xFFFF_FFFF_FFFF_FFFF;
    }
  }

  /** The k-th entry of HIGH_FULL is the complement of 2^(64 - 8k) - 1. */
  lemma HighFullValues(k: int)
    requires 0 <= k <= 8
    ensures !(((1 as bv64) << (64 - 8 * k)) - 1) == HIGH_FULL[k]
  {
    // one case per k, so that every shift amount is a constant
    match k {
      case 0 =>
      case 1 =>
      case 2 =>
      case 3 =>
      case 4 =>
      case 5 =>
      case 6 =>
      case 7 =>
      case _ =>
    }
  }

  /** A mask built by replicating one row byte with shifts of 8, 16 and 32 bits. */
  lemma ReplicatedRow(v: bv8)
    ensures var m0 := v as bv64;
            var m1 := m0 | (m0 << 8);
            var m2 := m1 | (m1 << 16);
            m2 | (m2 << 32) == Pack([v, v, v, v, v, v, v, v])
  {
    PackExpanded([v, v, v, v, v, v, v, v]);
  }

  /** The byte with bits x through 7 set: columns x to 7 of a row. */
  function HighRun(x: int): bv8
    requires 0 <= x < 8
  {
    match x
    case 0 => 0xFF case 1 => 0xFE case 2 => 0xFC case 3 => 0xF8
    case 4 => 0xF0 case 5 => 0xE0 case 6 => 0xC0 case _ => 0x80
  }

  /** The byte with bits 0 through 7 - x set: columns 0 to 7 - x of a row. */
  function LowRun(x: int): bv8
    requires 0 <= x < 8
  {
    match x
    case 0 => 0xFF case 1 => 0x7F case 2 => 0x3F case 3 => 0x1F
    case 4 => 0x0F case 5 => 0x07 case 6 => 0x03 case _ => 0x01
  }

  /** `HighRun(x)` is the full byte shifted left by x. */
  lemma HighRunIsShift(x: int)
    requires 0 <= x < 8
    ensures HighRun(x) == (0xFF as bv8) << x
  {
    if x == 0 {} else if x == 1 {} else if x == 2 {} else if x == 3 {}
    else if x == 4 {} else if x == 5 {} else if x == 6 {} else {}
  }

  /** `LowRun(x)` is the full byte shifted right by x. */
  lemma LowRunIsShift(x: int)
    requires 0 <= x < 8
    ensures LowRun(x) == (0xFF as bv8) >> x
  {
    if x == 0 {} else if x == 1 {} else if x == 2 {} else if x == 3 {}
    else if x == 4 {} else if x == 5 {} else if x == 6 {} else {}
  }

  /** Bit c of `HighRun(x)` is set exactly from column x upward. */
  lemma HighBitsFrom(x: int, c: int)
    requires 0 <= x < 8 && 0 <= c < 8
    ensures RowBit(HighRun(x), c) <==> c >= x
  {
    if x == 0 {} else if x == 1 {} else if x == 2 {} else if x == 3 {}
    else if x == 4 {} else if x == 5 {} else if x == 6 {} else {}
  }

  /** Bit c of `LowRun(x)` is set exactly up to column 7 - x. */
  lemma LowBitsTo(x: int, c: int)
    requires 0 <= x < 8 && 0 <= c < 8
    ensures RowBit(LowRun(x), c) <==> c <= 7 - x
  {
    if x == 0 {} else if x == 1 {} else if x == 2 {} else if x == 3 {}
    else if x == 4 {} else if x == 5 {} else if x == 6 {} else {}
  }

  /** The empty row has no bit set and the full row has every bit set. */
  lemma EmptyAndFullRows(c: int)
    requires 0 <= c < 8
    ensures !RowBit(0, c) && RowBit(0xFF, c)
  {
  }



  /** A full row is a non-zero mask wherever it is placed. */
  lemma FullRowNonZero(i: int)
    requires 0 <= i < 8
    ensures ShiftedRow(0xFF, i) != 0
  {
    if i == 0 {} else if i == 1 {} else if i == 2 {} else if i == 3 {}
    else if i == 4 {} else if i == 5 {} else if i == 6 {} else {}
  }

  /** A full row in row i, shifted left by 8 bits, is the full row in row i + 1, or nothing past row 7. */
  lemma FullRowUp(i: int, yMask: bv64)
    requires 0 <= i < 8 && yMask == ShiftedRow(0xFF, i)
    ensures yMask << 8 == if i + 1 < 8 then ShiftedRow(0xFF, i + 1) else 0
  {
    if i == 0 {} else if i == 1 {} else if i == 2 {} else if i == 3 {}
    else if i == 4 {} else if i == 5 {} else if i == 6 {} else {}
  }

  /** A full row in row 7 - k, shifted right by 8 bits, is the full row one lower, or nothing below row 0. */
  lemma FullRowDown(r: int, yMask: bv64)
    requires 0 <= r < 8 && yMask == ShiftedRow(0xFF, r)
    ensures yMask >> 8 == if 0 <= r - 1 then ShiftedRow(0xFF, r - 1) else 0
  {
    if r == 0 {} else if r == 1 {} else if r == 2 {} else if r == 3 {}
    else if r == 4 {} else if r == 5 {} else if r == 6 {} else {}
  }

  /** The full-row cursor of an upward loop is non-zero exactly while it is inside the tile. */
  lemma FullRowLiveUp(i: int, yMask: bv64)
    requires 0 <= i <= 8 && yMask == if i < 8 then ShiftedRow(0xFF, i) else 0
    ensures yMask != 0 <==> i < 8
  {
    if i < 8 {
      FullRowNonZero(i);
    }
  }

  /** The full-row cursor of a downward loop is non-zero exactly while it is inside the tile. */
  lemma FullRowLiveDown(r: int, yMask: bv64)
    requires -1 <= r < 8 && yMask == if 0 <= r then ShiftedRow(0xFF, r) else 0
    ensures yMask != 0 <==> 0 <= r
  {
    if 0 <= r {
      FullRowNonZero(r);
    }
  }

  /**
   * The bit offset `8r` of row r as a Java `int`; row -1 gives -8, the value
   * a loop stepping down from row 0 leaves behind.
   */
  function RowShift(r: int): bv32
    requires -1 <= r <= 8
  {
    match r
    case -1 => 0xFFFF_FFF8
    case 0 => 0 case 1 => 8 case 2 => 16 case 3 => 24 case 4 => 32
    case 5 => 40 case 6 => 48 case 7 => 56 case _ => 64
  }

  /** An upward row offset is below 64 exactly while its row is inside the tile. */
  lemma RowShiftLiveUp(i: int, yShift: bv32)
    requires 0 <= i <= 8 && yShift == RowShift(i)
    ensures yShift < 64 <==> i < 8
  {
  }

  /** A downward row offset is non-negative, as a Java `int`, exactly while its row is inside the tile. */
  lemma RowShiftLiveDown(r: int, yShift: bv32)
    requires -1 <= r < 8 && yShift == RowShift(r)
    ensures yShift < 0x8000_0000 <==> 0 <= r
  {
  }

  /** Adding 8 to row i's offset gives row i + 1's. */
  lemma RowShiftUp(i: int, yShift: bv32)
    requires 0 <= i < 8 && yShift == RowShift(i)
    ensures yShift + 8 == RowShift(i + 1)
  {
  }

  /** Subtracting 8 from row 7 - k's offset gives the offset of the row below it. */
  lemma RowShiftDown(r: int, yShift: bv32)
    requires 0 <= r < 8 && yShift == RowShift(r)
    ensures yShift - 8 == RowShift(r - 1)
  {
  }

  /** ORing a placed row byte into a mask is ORing in the shifted row. */
  lemma OrPlacedRow(mask: bv64, v: bv8, wide: bv64, shift: bv32, r: int)
    requires 0 <= r < 8 && shift == RowShift(r) && wide == v as bv64
    ensures shift as int <= 64 && mask | (wide << shift) == mask | ShiftedRow(v, r)
  {
    PlaceRow(v, wide, shift, r);
  }

  /** A row byte widened to a `long` and shifted left by row r's offset lands in row r. */
  lemma PlaceRow(v: bv8, wide: bv64, shift: bv32, r: int)
    requires 0 <= r < 8 && shift == RowShift(r) && wide == v as bv64
    ensures wide << shift == ShiftedRow(v, r)
  {
    if r == 0 {} else if r == 1 {} else if r == 2 {} else if r == 3 {}
    else if r == 4 {} else if r == 5 {} else if r == 6 {} else {}
  }
}
