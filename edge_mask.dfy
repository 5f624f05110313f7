/**
 * The 8x8 coverage mask of one edge over a tile (TileEdge.buildMask).
 *
 * Rows step by `stepB` and columns by `stepA` (the coefficients times the
 * tile's step size). Each corner case starts from the value `wy` at the
 * tile corner known to be inside the edge; a pixel's value is that start
 * value plus its row and column offsets from the corner, and the mask
 * covers exactly the pixels whose value is non-negative.
 */
module EdgeMask {
  import opened JavaInt
  import opened EdgeFunction
  import CM = CoverageMask

  /** The value `wy` each case of buildMask starts from. */
  function StartValue(pos: EdgePosition, x0y0: int, spanA: int, spanB: int): (w: int)
    ensures w == x0y0 + (if pos.IsLeft() then spanA else 0) + (if pos.IsBottom() then spanB else 0)
  {
    match pos
    case TOP | TOP_RIGHT | RIGHT => x0y0
    case BOTTOM | BOTTOM_RIGHT => x0y0 + spanB
    case LEFT | TOP_LEFT => x0y0 + spanA
    case BOTTOM_LEFT => x0y0 + spanA + spanB
  }

  /**
   * The assertions buildMask makes before each case: the start corner is
   * inside, and the steps point the way the edge faces.
   */
  predicate MaskAsserts(pos: EdgePosition, start: int, stepA: int, stepB: int) {
    && start >= 0
    && (pos.IsTop() ==> stepB < 0)
    && (pos.IsBottom() ==> stepB > 0)
    && (pos.IsLeft() ==> stepA > 0)
    && (pos.IsRight() ==> stepA < 0)
  }

  /** The value at column 7 (left edges) or column 0 (other edges) of row r. */
  function RowValue(pos: EdgePosition, start: int, stepB: int, r: int): int {
    if pos.IsTop() then start + r * stepB
    else if pos.IsBottom() then start - (7 - r) * stepB
    else start
  }

  /** The value of pixel (column c, row r) of the mask. */
  function PixelValue(pos: EdgePosition, start: int, stepA: int, stepB: int, r: int, c: int): int {
    RowValue(pos, start, stepB, r) + ColumnOffset(pos, stepA, c)
  }

  /** A left edge's row: the columns from `7 - min(7, wy / a)` upward. */
  function LeftRun(w: int, a: int): bv8
    requires w >= 0 && a > 0
  {
    CM.HighRun(7 - Min(7, Div(w, a)))
  }

  /** A right edge's row: the columns up to `min(7, -wy / a)`. */
  function RightRun(w: int, a: int): bv8
    requires w >= 0 && a < 0
  {
    CM.LowRun(7 - Min(7, Div(-w, a)))
  }

  /** The row byte buildMask produces for a row whose start value is w. */
  function RowBits(pos: EdgePosition, w: int, stepA: int): bv8
    requires pos.IsLeft() ==> stepA > 0
    requires pos.IsRight() ==> stepA < 0
  {
    if w < 0 then 0
    else if pos.IsLeft() then LeftRun(w, stepA)
    else if pos.IsRight() then RightRun(w, stepA)
    else 0xFF
  }

  /** The eight rows of the mask, row 0 first. */
  function MaskRows(pos: EdgePosition, start: int, stepA: int, stepB: int): (rows: seq<bv8>)
    requires MaskAsserts(pos, start, stepA, stepB)
    ensures |rows| == 8
  {
    seq(8, r => RowBits(pos, RowValue(pos, start, stepB, r), stepA))
  }

  /** The mask buildMask returns. */
  function Mask(pos: EdgePosition, start: int, stepA: int, stepB: int): bv64
    requires MaskAsserts(pos, start, stepA, stepB)
  {
    CM.Pack(MaskRows(pos, start, stepA, stepB))
  }

  /** Floor division bounds a multiple: `k * n <= w` exactly when `k <= w / n`. */
  lemma FloorDivBound(w: int, n: int, k: int)
    requires n > 0
    ensures k * n <= w <==> k <= w / n
  {
    var q := w / n;
    assert q * n <= w < q * n + n;
    if k <= q {
      ScaleMonotone(k, q, n);
    } else {
      ScaleMonotone(q + 1, k, n);
      assert (q + 1) * n == q * n + n;
    }
  }

  /** Scaling by a positive factor keeps the order. */
  lemma ScaleMonotone(x: int, y: int, n: int)
    requires n > 0 && x <= y
    ensures x * n <= y * n
  {
    assert y * n - x * n == (y - x) * n;
  }

  /** A non-negative number times a negative one is at most 0. */
  lemma NonNegTimesNeg(k: int, s: int)
    requires k >= 0 && s < 0
    ensures k * s <= 0
  {
    assert k * s == -(k * -s);
  }

  /**
   * Java's `(long) ((0xFF << x) & 0xFF)`, with `x = 7 - min(7, wy / a)`, is
   * the left run widened to a `long`.
   */
  lemma LeftRunAsLong(w: int, a: int)
    requires w >= 0 && a > 0
    ensures (((0xFF as bv32) << (7 - Min(7, Div(w, a)))) & 0xFF) as bv64 == LeftRun(w, a) as bv64
  {
    DivOfNonNegatives(w, a);
    var x := 7 - Min(7, Div(w, a));
    if x == 0 {} else if x == 1 {} else if x == 2 {} else if x == 3 {}
    else if x == 4 {} else if x == 5 {} else if x == 6 {} else {}
  }

  /**
   * Java's `(long) (0xFF >> x)`, with `x = 7 - min(7, -wy / a)`, is the
   * right run widened to a `long`.
   */
  lemma RightRunAsLong(w: int, a: int)
    requires w >= 0 && a < 0
    ensures ((0xFF as bv32) >> (7 - Min(7, Div(-w, a)))) as bv64 == RightRun(w, a) as bv64
  {
    DivOfNegatives(w, a);
    var x := 7 - Min(7, Div(-w, a));
    if x == 0 {} else if x == 1 {} else if x == 2 {} else if x == 3 {}
    else if x == 4 {} else if x == 5 {} else if x == 6 {} else {}
  }

  /** The column offset of pixel c from the row's start value. */
  function ColumnOffset(pos: EdgePosition, stepA: int, c: int): int {
    if pos.IsLeft() then -(7 - c) * stepA else if pos.IsRight() then c * stepA else 0
  }

  /** A left run covers column c exactly when the value there is non-negative. */
  lemma LeftRunCoverage(w: int, a: int, c: int)
    requires w >= 0 && a > 0 && 0 <= c < 8
    ensures CM.RowBit(LeftRun(w, a), c) <==> w - (7 - c) * a >= 0
  {
    DivOfNonNegatives(w, a);
    CM.HighBitsFrom(7 - Min(7, w / a), c);
    FloorDivBound(w, a, 7 - c);
  }

  /** A right run covers column c exactly when the value there is non-negative. */
  lemma RightRunCoverage(w: int, a: int, c: int)
    requires w >= 0 && a < 0 && 0 <= c < 8
    ensures CM.RowBit(RightRun(w, a), c) <==> w + c * a >= 0
  {
    DivOfNegatives(w, a);
    var q := w / -a;
    assert RightRun(w, a) == CM.LowRun(7 - Min(7, q));
    CM.LowBitsTo(7 - Min(7, q), c);
    assert CM.RowBit(RightRun(w, a), c) <==> c <= q;
    FloorDivBound(w, -a, c);
    assert c * -a == -(c * a);
  }

  /** A row byte covers column c exactly when the value there is non-negative. */
  lemma RowCoverage(pos: EdgePosition, w: int, stepA: int, c: int)
    requires pos.IsLeft() ==> stepA > 0
    requires pos.IsRight() ==> stepA < 0
    requires 0 <= c < 8
    ensures CM.RowBit(RowBits(pos, w, stepA), c) <==> w + ColumnOffset(pos, stepA, c) >= 0
  {
    CM.EmptyAndFullRows(c);
    if w < 0 {
      if pos.IsLeft() {
        assert (7 - c) * stepA >= 0;
      } else if pos.IsRight() {
        NonNegTimesNeg(c, stepA);
      }
    } else if pos.IsLeft() {
      LeftRunCoverage(w, stepA, c);
    } else if pos.IsRight() {
      RightRunCoverage(w, stepA, c);
    }
  }

  /**
   * The mask covers exactly the pixels the loops find inside the edge:
   * pixel (c, r) is set if and only if its value, the start value plus its
   * row and column offsets, is non-negative. SampleCoverage turns that value
   * into the edge function at the pixel's sample point.
   */
  lemma MaskCoverage(pos: EdgePosition, start: int, stepA: int, stepB: int, r: int, c: int)
    requires MaskAsserts(pos, start, stepA, stepB)
    requires 0 <= r < 8 && 0 <= c < 8
    ensures CM.Covered(Mask(pos, start, stepA, stepB), r, c) <==> PixelValue(pos, start, stepA, stepB, r, c) >= 0
  {
    var rows := MaskRows(pos, start, stepA, stepB);
    CM.RowOfPack(rows, r);
    RowCoverage(pos, RowValue(pos, start, stepB, r), stepA, c);
  }

  /**
   * How far right of the tile's lower-left corner the mask samples column c:
   * a left edge counts its columns back from the right side of the tile
   * (span), every other edge forward from the left. For a tile wider than
   * eight pixels the two grids differ.
   */
  function SampleX(pos: EdgePosition, span: int, step: int, c: int): int {
    if pos.IsLeft() then span - (7 - c) * step else c * step
  }

  /** How far above the tile's lower-left corner the mask samples row r: a bottom edge counts back from the top. */
  function SampleY(pos: EdgePosition, span: int, step: int, r: int): int {
    if pos.IsBottom() then span - (7 - r) * step else r * step
  }

  /**
   * For a tile whose lower-left corner (x, y) has the edge value x0y0, the
   * value buildMask gives pixel (col, r) is the edge function at that
   * pixel's sample point. The edge must face the corner its position names;
   * for a top or bottom edge a is 0, so the column does not matter, and
   * likewise b for a left or right edge.
   */
  lemma PixelIsEdgeValue(pos: EdgePosition, a: int, b: int, c: int, x: int, y: int, span: int, step: int, r: int, col: int)
    requires NormalFacesCorner(pos, a, b)
    ensures PixelValue(pos, StartValue(pos, EdgeValue(a, b, c, x, y), a * span, b * span), a * step, b * step, r, col)
            == EdgeValue(a, b, c, x + SampleX(pos, span, step, col), y + SampleY(pos, span, step, r))
  {
  }

  /**
   * The mask of a tile whose lower-left corner is (x, y), with step
   * `diameter / 8` and span `diameter - 1`, covers pixel (col, r) exactly
   * when the edge function is non-negative at the pixel's sample point.
   */
  lemma SampleCoverage(pos: EdgePosition, a: int, b: int, c: int, x: int, y: int, span: int, step: int, r: int, col: int)
    requires NormalFacesCorner(pos, a, b)
    requires MaskAsserts(pos, StartValue(pos, EdgeValue(a, b, c, x, y), a * span, b * span), a * step, b * step)
    requires 0 <= r < 8 && 0 <= col < 8
    ensures CM.Covered(Mask(pos, StartValue(pos, EdgeValue(a, b, c, x, y), a * span, b * span), a * step, b * step), r, col)
            <==> EdgeValue(a, b, c, x + SampleX(pos, span, step, col), y + SampleY(pos, span, step, r)) >= 0
  {
    var start := StartValue(pos, EdgeValue(a, b, c, x, y), a * span, b * span);
    MaskCoverage(pos, start, a * step, b * step, r, col);
    PixelIsEdgeValue(pos, a, b, c, x, y, span, step, r, col);
  }

  /** Row r of a TOP mask is inside exactly when r is below the row count k. */
  lemma TopRowInside(start: int, stepB: int, r: int)
    requires start >= 0 && stepB < 0 && 0 <= r < 8
    ensures start + r * stepB >= 0 <==> r < Min(8, start / -stepB + 1)
  {
    FloorDivBound(start, -stepB, r);
    assert r * -stepB == -(r * stepB);
  }

  /** Row r of a BOTTOM mask is inside exactly when r is among the k highest rows. */
  lemma BottomRowInside(start: int, stepB: int, r: int)
    requires start >= 0 && stepB > 0 && 0 <= r < 8
    ensures start - (7 - r) * stepB >= 0 <==> r >= 8 - Min(8, start / stepB + 1)
  {
    FloorDivBound(start, stepB, 7 - r);
  }

  /**
   * A TOP edge fills whole rows from row 0 upward: the k lowest rows, where
   * k is one more than the number of whole steps the start value allows,
   * capped at eight; row 0 is always full.
   */
  lemma TopMaskShape(start: int, stepA: int, stepB: int)
    requires MaskAsserts(TOP, start, stepA, stepB)
    ensures var k := Min(8, start / -stepB + 1);
            1 <= k && Mask(TOP, start, stepA, stepB) == ((1 as bv64) << (8 * k)) - 1
  {
    var k := Min(8, start / -stepB + 1);
    TopRowInside(start, stepB, 0);
    TopRows(start, stepA, stepB);
    CM.LowRowsFull(k);
  }

  /** The rows of a TOP mask: the k lowest rows full, the others empty. */
  lemma TopRows(start: int, stepA: int, stepB: int)
    requires MaskAsserts(TOP, start, stepA, stepB)
    ensures MaskRows(TOP, start, stepA, stepB) == CM.Keep(CM.FULL, 0, Min(8, start / -stepB + 1))
    ensures Mask(TOP, start, stepA, stepB) == CM.Pack(CM.Keep(CM.FULL, 0, Min(8, start / -stepB + 1)))
  {
    var rows := MaskRows(TOP, start, stepA, stepB);
    var full := CM.Keep(CM.FULL, 0, Min(8, start / -stepB + 1));
    forall r | 0 <= r < 8
      ensures rows[r] == full[r]
    {
      TopRowInside(start, stepB, r);
    }
  }

  /**
   * A BOTTOM edge fills whole rows from row 7 downward: the k highest rows,
   * with k computed as for a TOP edge; row 7 is always full.
   */
  lemma BottomMaskShape(start: int, stepA: int, stepB: int)
    requires MaskAsserts(BOTTOM, start, stepA, stepB)
    ensures var k := Min(8, start / stepB + 1);
            1 <= k && Mask(BOTTOM, start, stepA, stepB) == !(((1 as bv64) << (64 - 8 * k)) - 1)
  {
    var k := Min(8, start / stepB + 1);
    BottomRowInside(start, stepB, 7);
    BottomRows(start, stepA, stepB);
    CM.HighRowsFull(k);
  }

  /** The rows of a BOTTOM mask: the k highest rows full, the others empty. */
  lemma BottomRows(start: int, stepA: int, stepB: int)
    requires MaskAsserts(BOTTOM, start, stepA, stepB)
    ensures MaskRows(BOTTOM, start, stepA, stepB) == CM.Keep(CM.FULL, 8 - Min(8, start / stepB + 1), 8)
    ensures Mask(BOTTOM, start, stepA, stepB) == CM.Pack(CM.Keep(CM.FULL, 8 - Min(8, start / stepB + 1), 8))
  {
    var rows := MaskRows(BOTTOM, start, stepA, stepB);
    var full := CM.Keep(CM.FULL, 8 - Min(8, start / stepB + 1), 8);
    forall r | 0 <= r < 8
      ensures rows[r] == full[r]
    {
      BottomRowInside(start, stepB, r);
    }
  }

  /** A LEFT or RIGHT edge does not vary along y: all eight rows are the same byte. */
  lemma SideMaskReplicated(pos: EdgePosition, start: int, stepA: int, stepB: int, r: int)
    requires pos == LEFT || pos == RIGHT
    requires MaskAsserts(pos, start, stepA, stepB)
    requires 0 <= r < 8
    ensures CM.Row(Mask(pos, start, stepA, stepB), r) == CM.Row(Mask(pos, start, stepA, stepB), 0)
  {
    var rows := MaskRows(pos, start, stepA, stepB);
    CM.RowOfPack(rows, r);
    CM.RowOfPack(rows, 0);
  }

  /**
   * The corner masks are staircases: a covered pixel of a top edge has every
   * pixel below it covered, one of a bottom edge every pixel above it; a
   * covered pixel of a left edge has every pixel to its right covered, one
   * of a right edge every pixel to its left.
   */
  lemma MaskIsStaircase(pos: EdgePosition, start: int, stepA: int, stepB: int, r: int, c: int)
    requires MaskAsserts(pos, start, stepA, stepB)
    requires 0 <= r < 7 && 0 <= c < 7
    ensures var m := Mask(pos, start, stepA, stepB);
            && (pos.IsTop() && CM.Covered(m, r + 1, c) ==> CM.Covered(m, r, c))
            && (pos.IsBottom() && CM.Covered(m, r, c) ==> CM.Covered(m, r + 1, c))
            && (pos.IsLeft() && CM.Covered(m, r, c) ==> CM.Covered(m, r, c + 1))
            && (pos.IsRight() && CM.Covered(m, r, c + 1) ==> CM.Covered(m, r, c))
  {
    MaskCoverage(pos, start, stepA, stepB, r, c);
    MaskCoverage(pos, start, stepA, stepB, r + 1, c);
    MaskCoverage(pos, start, stepA, stepB, r, c + 1);
    assert (r + 1) * stepB == r * stepB + stepB;
    assert (7 - r) * stepB == (7 - (r + 1)) * stepB + stepB;
    assert (7 - c) * stepA == (7 - (c + 1)) * stepA + stepA;
    assert (c + 1) * stepA == c * stepA + stepA;
  }

  /** Once a top edge's row value is negative, that row and every row above it are empty. */
  lemma EmptyAbove(pos: EdgePosition, start: int, stepA: int, stepB: int, i: int)
    requires MaskAsserts(pos, start, stepA, stepB) && pos.IsTop()
    requires 0 <= i <= 8 && (i == 8 || start + i * stepB < 0)
    ensures forall j :: 0 <= j < 8 && !(0 <= j < i) ==> MaskRows(pos, start, stepA, stepB)[j] == 0
  {
    forall j | 0 <= j < 8 && !(0 <= j < i)
      ensures MaskRows(pos, start, stepA, stepB)[j] == 0
    {
      NonNegTimesNeg(j - i, stepB);
      assert start + j * stepB == start + i * stepB + (j - i) * stepB;
    }
  }

  /** Once a bottom edge's row value is negative, that row and every row below it are empty. */
  lemma EmptyBelow(pos: EdgePosition, start: int, stepA: int, stepB: int, i: int)
    requires MaskAsserts(pos, start, stepA, stepB) && pos.IsBottom()
    requires 0 <= i <= 8 && (i == 8 || start - i * stepB < 0)
    ensures forall j :: 0 <= j < 8 && !(8 - i <= j < 8) ==> MaskRows(pos, start, stepA, stepB)[j] == 0
  {
    forall j | 0 <= j < 8 && !(8 - i <= j < 8)
      ensures MaskRows(pos, start, stepA, stepB)[j] == 0
    {
      NonNegTimesNeg(7 - j - i, -stepB);
      assert start - (7 - j) * stepB == start - i * stepB + (7 - j - i) * -stepB;
    }
  }

  /** One row up, a top edge's row value grows by stepB: the upward loops' `wy += b`. */
  lemma RowValueUp(pos: EdgePosition, start: int, stepB: int, i: int)
    requires pos.IsTop()
    ensures RowValue(pos, start, stepB, i) + stepB == RowValue(pos, start, stepB, i + 1)
  {
    assert (i + 1) * stepB == i * stepB + stepB;
  }

  /** One row down, a bottom edge's row value shrinks by stepB: the downward loops' `wy -= b`. */
  lemma RowValueDown(pos: EdgePosition, start: int, stepB: int, r: int)
    requires pos.IsBottom()
    ensures RowValue(pos, start, stepB, r) - stepB == RowValue(pos, start, stepB, r - 1)
  {
    assert (7 - (r - 1)) * stepB == (7 - r) * stepB + stepB;
  }

  /**
   * When an upward loop stops at row i, past the last row or at a negative
   * row value, the rows below i that it kept are the whole mask.
   */
  lemma KeptAbove(pos: EdgePosition, start: int, stepA: int, stepB: int, i: int)
    requires MaskAsserts(pos, start, stepA, stepB) && pos.IsTop()
    requires 0 <= i <= 8 && (i == 8 || RowValue(pos, start, stepB, i) < 0)
    ensures CM.PackRange(MaskRows(pos, start, stepA, stepB), 0, i) == Mask(pos, start, stepA, stepB)
  {
    EmptyAbove(pos, start, stepA, stepB, i);
    CM.ExtendUp(MaskRows(pos, start, stepA, stepB), 0, i);
  }

  /**
   * When a downward loop stops at row r, past the first row or at a negative
   * row value, the rows above r that it kept are the whole mask.
   */
  lemma KeptBelow(pos: EdgePosition, start: int, stepA: int, stepB: int, r: int)
    requires MaskAsserts(pos, start, stepA, stepB) && pos.IsBottom()
    requires -1 <= r < 8 && (r == -1 || RowValue(pos, start, stepB, r) < 0)
    ensures CM.PackRange(MaskRows(pos, start, stepA, stepB), r + 1, 8) == Mask(pos, start, stepA, stepB)
  {
    EmptyBelow(pos, start, stepA, stepB, 7 - r);
    CM.ExtendDown(MaskRows(pos, start, stepA, stepB), r + 1, 8);
  }

  /**
   * The corner buildMask starts from is the one opposite the corner
   * classify samples: it holds the sampled value minus the extent, the
   * largest edge value of the tile.
   */
  lemma StartIsOppositeCorner(pos: EdgePosition, a: int, b: int, spanSize: int, x0y0: int)
    requires NormalFacesCorner(pos, a, b) && spanSize >= 0
    ensures StartValue(pos, x0y0, a * spanSize, b * spanSize)
            == CornerValue(pos, x0y0, a * spanSize, b * spanSize) - Extent(a * spanSize, b * spanSize)
  {
    OppositeCorner(pos, a, b, spanSize, x0y0);
    OppositeOffsets(pos, a, b, spanSize);
  }

  /**
   * The assertions of buildMask hold for every tile classify does not put
   * OUTSIDE, when the steps are the coefficients times a positive step size.
   */
  lemma MaskAssertsHold(pos: EdgePosition, a: int, b: int, spanSize: int, stepSize: int, x0y0: int)
    requires NormalFacesCorner(pos, a, b) && spanSize >= 0 && stepSize > 0
    requires ClassOf(CornerValue(pos, x0y0, a * spanSize, b * spanSize), Extent(a * spanSize, b * spanSize)) != OUTSIDE
    ensures MaskAsserts(pos, StartValue(pos, x0y0, a * spanSize, b * spanSize), a * stepSize, b * stepSize)
  {
    var spanA, spanB := a * spanSize, b * spanSize;
    StartIsOppositeCorner(pos, a, b, spanSize, x0y0);
    assert CornerValue(pos, x0y0, spanA, spanB) >= Extent(spanA, spanB);
    StrictScaledSign(a, stepSize);
    StrictScaledSign(b, stepSize);
  }

  /** A coefficient scaled by a positive step keeps its strict sign. */
  lemma StrictScaledSign(a: int, s: int)
    requires s > 0
    ensures a > 0 ==> a * s > 0
    ensures a < 0 ==> a * s < 0
  {
  }
}
