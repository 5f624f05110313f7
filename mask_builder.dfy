/**
 * The loops of TileEdge.buildMask, one method per edge position. Each
 * builds its 64-bit mask the way the source does (ORing in one row byte per
 * iteration, or replicating one row byte) and is proved to produce the mask
 * EdgeMask.Mask specifies.
 */
module MaskBuilder {
  import opened JavaInt
  import opened EdgeFunction
  import opened EdgeMask
  import CM = CoverageMask

  /** The TOP case of buildMask: whole rows from row 0 upward. */
  method TopMask(start: int, stepA: int, stepB: int) returns (mask: bv64)
    requires MaskAsserts(TOP, start, stepA, stepB)
    ensures mask == Mask(TOP, start, stepA, stepB)
  {
    ghost var rows := MaskRows(TOP, start, stepA, stepB);
    var wy := start;
    var yMask: bv64 := 0xFF;
    mask := 0;
    ghost var i := 0;
    CM.FullRowLiveUp(i, yMask);
    while wy >= 0 && yMask != 0
      invariant 0 <= i <= 8 && wy == RowValue(TOP, start, stepB, i)
      invariant yMask == if i < 8 then CM.ShiftedRow(0xFF, i) else 0
      invariant yMask != 0 <==> i < 8
      invariant mask == CM.PackRange(rows, 0, i)
      decreases 8 - i
    {
      CM.JoinAbove(rows, 0, i, mask, yMask);
      CM.FullRowUp(i, yMask);
      CM.FullRowLiveUp(i + 1, yMask << 8);
      RowValueUp(TOP, start, stepB, i);
      mask := mask | yMask;
      yMask := yMask << 8;
      wy := wy + stepB;
      i := i + 1;
    }
    KeptAbove(TOP, start, stepA, stepB, i);
  }

  /** The BOTTOM case of buildMask: whole rows from row 7 downward. */
  method BottomMask(start: int, stepA: int, stepB: int) returns (mask: bv64)
    requires MaskAsserts(BOTTOM, start, stepA, stepB)
    ensures mask == Mask(BOTTOM, start, stepA, stepB)
  {
    ghost var rows := MaskRows(BOTTOM, start, stepA, stepB);
    var wy := start;
    var yMask: bv64 := 0xFF00_0000_0000_0000;
    mask := 0;
    ghost var r, lo := 7, 8;
    CM.FullRowLiveDown(r, yMask);
    while wy >= 0 && yMask != 0
      invariant -1 <= r < 8 && lo == r + 1 && wy == RowValue(BOTTOM, start, stepB, r)
      invariant yMask == if 0 <= r then CM.ShiftedRow(0xFF, r) else 0
      invariant yMask != 0 <==> 0 <= r
      invariant mask == CM.PackRange(rows, lo, 8)
      decreases r
    {
      CM.JoinBelow(rows, r, 8);
      CM.FullRowDown(r, yMask);
      CM.FullRowLiveDown(r - 1, yMask >> 8);
      RowValueDown(BOTTOM, start, stepB, r);
      mask := mask | yMask;
      yMask := yMask >> 8;
      wy := wy - stepB;
      r, lo := r - 1, r;
    }
    KeptBelow(BOTTOM, start, stepA, stepB, r);
  }

  /** The RIGHT case of buildMask: one row byte replicated into all eight rows. */
  method RightMask(start: int, stepA: int, stepB: int) returns (mask: bv64)
    requires MaskAsserts(RIGHT, start, stepA, stepB)
    ensures mask == Mask(RIGHT, start, stepA, stepB)
  {
    var wy := start;
    var x := 7 - Min(7, Div(-wy, stepA));
    mask := ((0xFF as bv32) >> x) as bv64;
    ghost var v := RightRun(wy, stepA);
    RightRunAsLong(wy, stepA);
    CM.ReplicatedRow(v);
    mask := mask | (mask << 8);
    mask := mask | (mask << 16);
    mask := mask | (mask << 32);
    assert MaskRows(RIGHT, start, stepA, stepB) == [v, v, v, v, v, v, v, v];
  }

  /** The LEFT case of buildMask: one row byte replicated into all eight rows. */
  method LeftMask(start: int, stepA: int, stepB: int) returns (mask: bv64)
    requires MaskAsserts(LEFT, start, stepA, stepB)
    ensures mask == Mask(LEFT, start, stepA, stepB)
  {
    var wy := start;
    var x := 7 - Min(7, Div(wy, stepA));
    mask := (((0xFF as bv32) << x) & 0xFF) as bv64;
    ghost var v := LeftRun(wy, stepA);
    LeftRunAsLong(wy, stepA);
    CM.ReplicatedRow(v);
    mask := mask | (mask << 8);
    mask := mask | (mask << 16);
    mask := mask | (mask << 32);
    assert MaskRows(LEFT, start, stepA, stepB) == [v, v, v, v, v, v, v, v];
  }

  /** `(0xFF << x) & 0xFF` with `x = 7 - min(7, wy / a)`: the row byte of a left edge. */
  method LeftRowBits(wy: int, a: int) returns (yMask: bv32)
    requires wy >= 0 && a > 0
    ensures yMask as bv64 == LeftRun(wy, a) as bv64
  {
    var x := 7 - Min(7, Div(wy, a));
    yMask := ((0xFF as bv32) << x) & 0xFF;
    LeftRunAsLong(wy, a);
  }

  /** `0xFF >> x` with `x = 7 - min(7, -wy / a)`: the row byte of a right edge. */
  method RightRowBits(wy: int, a: int) returns (yMask: bv32)
    requires wy >= 0 && a < 0
    ensures yMask as bv64 == RightRun(wy, a) as bv64
  {
    var x := 7 - Min(7, Div(-wy, a));
    yMask := (0xFF as bv32) >> x;
    RightRunAsLong(wy, a);
  }

  /** `mask | ((long) yMask) << yShift`: the row byte ORed into row r of the mask. */
  method OrRow(mask: bv64, yMask: bv32, yShift: bv32, ghost row: bv8, ghost r: int) returns (result: bv64)
    requires 0 <= r < 8 && yShift == CM.RowShift(r) && yMask as bv64 == row as bv64
    ensures result == mask | CM.ShiftedRow(row, r)
  {
    CM.OrPlacedRow(mask, row, yMask as bv64, yShift, r);
    result := mask | ((yMask as bv64) << yShift);
  }

  /** One step of an upward corner loop: row i joins the rows below it. */
  method OrRowAbove(mask: bv64, yMask: bv32, yShift: bv32, ghost rows: seq<bv8>, ghost i: int) returns (result: bv64)
    requires |rows| == 8 && 0 <= i < 8 && yShift == CM.RowShift(i) && yMask as bv64 == rows[i] as bv64
    requires mask == CM.PackRange(rows, 0, i)
    ensures result == CM.PackRange(rows, 0, i + 1)
  {
    result := OrRow(mask, yMask, yShift, rows[i], i);
    CM.JoinAbove(rows, 0, i, mask, CM.ShiftedRow(rows[i], i));
  }

  /** One step of a downward corner loop: row r joins the rows above it. */
  method OrRowBelow(mask: bv64, yMask: bv32, yShift: bv32, ghost rows: seq<bv8>, ghost r: int) returns (result: bv64)
    requires |rows| == 8 && 0 <= r < 8 && yShift == CM.RowShift(r) && yMask as bv64 == rows[r] as bv64
    requires mask == CM.PackRange(rows, r + 1, 8)
    ensures result == CM.PackRange(rows, r, 8)
  {
    result := OrRow(mask, yMask, yShift, rows[r], r);
    CM.JoinBelow(rows, r, 8);
  }

  /**
   * One step of a downward loop: the value and offset of the row below
   * row r, and whether that row is still inside the tile.
   */
  lemma StepDown(pos: EdgePosition, start: int, stepB: int, r: int, yShift: bv32)
    requires pos.IsBottom() && 0 <= r < 8 && yShift == CM.RowShift(r)
    ensures yShift - 8 == CM.RowShift(r - 1)
    ensures RowValue(pos, start, stepB, r) - stepB == RowValue(pos, start, stepB, r - 1)
  {
    CM.RowShiftDown(r, yShift);
    RowValueDown(pos, start, stepB, r);
  }

  /** The TOP_LEFT case of buildMask: one left run per row from row 0 upward. */
  method TopLeftMask(start: int, stepA: int, stepB: int) returns (mask: bv64)
    requires MaskAsserts(TOP_LEFT, start, stepA, stepB)
    ensures mask == Mask(TOP_LEFT, start, stepA, stepB)
  {
    ghost var rows := MaskRows(TOP_LEFT, start, stepA, stepB);
    var wy := start;
    mask := 0;
    var yShift: bv32 := 0;
    ghost var i := 0;
    CM.RowShiftLiveUp(i, yShift);
    while yShift < 64 && wy >= 0
      invariant 0 <= i <= 8 && wy == RowValue(TOP_LEFT, start, stepB, i)
      invariant yShift == CM.RowShift(i)
      invariant yShift < 64 <==> i < 8
      invariant mask == CM.PackRange(rows, 0, i)
      decreases 8 - i
    {
      var yMask := LeftRowBits(wy, stepA);
      CM.RowShiftUp(i, yShift);
      CM.RowShiftLiveUp(i + 1, yShift + 8);
      RowValueUp(TOP_LEFT, start, stepB, i);
      mask := OrRowAbove(mask, yMask, yShift, rows, i);
      wy := wy + stepB;
      yShift := yShift + 8;
      i := i + 1;
    }
    KeptAbove(TOP_LEFT, start, stepA, stepB, i);
  }

  /** The BOTTOM_LEFT case of buildMask: one left run per row from row 7 downward. */
  method BottomLeftMask(start: int, stepA: int, stepB: int) returns (mask: bv64)
    requires MaskAsserts(BOTTOM_LEFT, start, stepA, stepB)
    ensures mask == Mask(BOTTOM_LEFT, start, stepA, stepB)
  {
    ghost var rows := MaskRows(BOTTOM_LEFT, start, stepA, stepB);
    var wy := start;
    var yShift: bv32 := 8 * 7;
    mask := 0;
    ghost var r, lo := 7, 8;
    CM.RowShiftLiveDown(r, yShift);
    while NonNegative(yShift) && wy >= 0
      invariant -1 <= r < 8 && lo == r + 1 && wy == RowValue(BOTTOM_LEFT, start, stepB, r)
      invariant yShift == CM.RowShift(r)
      invariant NonNegative(yShift) <==> 0 <= r
      invariant mask == CM.PackRange(rows, lo, 8)
      decreases r
    {
      var yMask := LeftRowBits(wy, stepA);
      StepDown(BOTTOM_LEFT, start, stepB, r, yShift);
      CM.RowShiftLiveDown(r - 1, yShift - 8);
      mask := OrRowBelow(mask, yMask, yShift, rows, r);
      wy := wy - stepB;
      yShift := yShift - 8;
      r, lo := r - 1, r;
    }
    KeptBelow(BOTTOM_LEFT, start, stepA, stepB, r);
  }

  /** The TOP_RIGHT case of buildMask: one right run per row from row 0 upward. */
  method TopRightMask(start: int, stepA: int, stepB: int) returns (mask: bv64)
    requires MaskAsserts(TOP_RIGHT, start, stepA, stepB)
    ensures mask == Mask(TOP_RIGHT, start, stepA, stepB)
  {
    ghost var rows := MaskRows(TOP_RIGHT, start, stepA, stepB);
    var wy := start;
    mask := 0;
    var yShift: bv32 := 0;
    ghost var i := 0;
    CM.RowShiftLiveUp(i, yShift);
    while yShift < 64 && wy >= 0
      invariant 0 <= i <= 8 && wy == RowValue(TOP_RIGHT, start, stepB, i)
      invariant yShift == CM.RowShift(i)
      invariant yShift < 64 <==> i < 8
      invariant mask == CM.PackRange(rows, 0, i)
      decreases 8 - i
    {
      var yMask := RightRowBits(wy, stepA);
      CM.RowShiftUp(i, yShift);
      CM.RowShiftLiveUp(i + 1, yShift + 8);
      RowValueUp(TOP_RIGHT, start, stepB, i);
      mask := OrRowAbove(mask, yMask, yShift, rows, i);
      wy := wy + stepB;
      yShift := yShift + 8;
      i := i + 1;
    }
    KeptAbove(TOP_RIGHT, start, stepA, stepB, i);
  }

  /** The BOTTOM_RIGHT case of buildMask: one right run per row from row 7 downward. */
  method BottomRightMask(start: int, stepA: int, stepB: int) returns (mask: bv64)
    requires MaskAsserts(BOTTOM_RIGHT, start, stepA, stepB)
    ensures mask == Mask(BOTTOM_RIGHT, start, stepA, stepB)
  {
    ghost var rows := MaskRows(BOTTOM_RIGHT, start, stepA, stepB);
    var wy := start;
    var yShift: bv32 := 8 * 7;
    mask := 0;
    ghost var r, lo := 7, 8;
    CM.RowShiftLiveDown(r, yShift);
    while NonNegative(yShift) && wy >= 0
      invariant -1 <= r < 8 && lo == r + 1 && wy == RowValue(BOTTOM_RIGHT, start, stepB, r)
      invariant yShift == CM.RowShift(r)
      invariant NonNegative(yShift) <==> 0 <= r
      invariant mask == CM.PackRange(rows, lo, 8)
      decreases r
    {
      var yMask := RightRowBits(wy, stepA);
      StepDown(BOTTOM_RIGHT, start, stepB, r, yShift);
      CM.RowShiftLiveDown(r - 1, yShift - 8);
      mask := OrRowBelow(mask, yMask, yShift, rows, r);
      wy := wy - stepB;
      yShift := yShift - 8;
      r, lo := r - 1, r;
    }
    KeptBelow(BOTTOM_RIGHT, start, stepA, stepB, r);
  }

  /**
   * buildMask: the mask loop of the edge's position, started at the value
   * of the tile corner that position starts from (EdgeMask.StartValue).
   */
  method BuildMask(pos: EdgePosition, start: int, a: int, b: int) returns (mask: bv64)
    requires MaskAsserts(pos, start, a, b)
    ensures mask == Mask(pos, start, a, b)
  {
    match pos {
      case TOP => mask := TopMask(start, a, b);
      case BOTTOM => mask := BottomMask(start, a, b);
      case RIGHT => mask := RightMask(start, a, b);
      case LEFT => mask := LeftMask(start, a, b);
      case TOP_LEFT => mask := TopLeftMask(start, a, b);
      case BOTTOM_LEFT => mask := BottomLeftMask(start, a, b);
      case TOP_RIGHT => mask := TopRightMask(start, a, b);
      case BOTTOM_RIGHT => mask := BottomRightMask(start, a, b);
    }
  }
}
