/**
 * The value-level rules behind the occlusion rasterizer's edge classifier
 * (grondag.canvas.chunk.occlusion.TileEdge): where a tile corner is sampled,
 * how the sampled value classifies the tile, how a move between neighbouring
 * tiles updates the cached classification, and why those rules are sound.
 *
 * An edge is the line `a*x + b*y + c = 0`; the polygon lies where the value
 * is non-negative. A tile of the current level spans `spanSize` units (its
 * diameter minus one) from its lower-left corner, whose value is `x0y0`.
 */
module EdgeFunction {
  import opened JavaInt

  /** The classification codes of TileEdge.position. */
  const OUTSIDE: int := 1
  const INTERSECTING: int := 2
  const INSIDE: int := 4
  const POSITION_DIRTY: int := -1
  const POSITION_RECLASSIFY: int := -2

  /** A final classification of a tile against an edge. */
  predicate IsClass(p: int) {
    p == OUTSIDE || p == INTERSECTING || p == INSIDE
  }

  /** A value the position field takes in normal use. */
  predicate IsState(p: int) {
    IsClass(p) || p == POSITION_DIRTY || p == POSITION_RECLASSIFY
  }

  /**
   * The tile corner or side an edge faces (EdgePosition): the side of the
   * tile on which the edge's outside lies.
   */
  datatype EdgePosition =
    | TOP | BOTTOM | LEFT | RIGHT
    | TOP_LEFT | TOP_RIGHT | BOTTOM_LEFT | BOTTOM_RIGHT
  {
    predicate IsTop() { this == TOP || this == TOP_LEFT || this == TOP_RIGHT }
    predicate IsBottom() { this == BOTTOM || this == BOTTOM_LEFT || this == BOTTOM_RIGHT }
    predicate IsLeft() { this == LEFT || this == TOP_LEFT || this == BOTTOM_LEFT }
    predicate IsRight() { this == RIGHT || this == TOP_RIGHT || this == BOTTOM_RIGHT }
  }

  /**
   * The sign convention between an edge's position and its normal (a, b):
   * a LEFT edge grows to the right (a > 0), a RIGHT edge to the left
   * (a < 0), a TOP edge downward (b < 0), a BOTTOM edge upward (b > 0).
   * The assertions of buildMask check these signs. The last part, that a
   * pure side edge does not vary along its side (a == 0 or b == 0), is an
   * assumption about how the caller picks pos(); nothing in TileEdge checks
   * it. This predicate is a hypothesis only of CornerIsExtreme,
   * OppositeCorner, ClassificationSound, DeltaSign, MoveKeepsCacheSound,
   * EdgeMask.StartIsOppositeCorner, EdgeMask.MaskAssertsHold,
   * EdgeMask.PixelIsEdgeValue and EdgeMask.SampleCoverage.
   */
  predicate NormalFacesCorner(pos: EdgePosition, a: int, b: int) {
    && (if pos.IsLeft() then a > 0 else if pos.IsRight() then a < 0 else a == 0)
    && (if pos.IsBottom() then b > 0 else if pos.IsTop() then b < 0 else b == 0)
  }

  /** The value of the edge function at absolute coordinates (compute). */
  function EdgeValue(a: int, b: int, c: int, x: int, y: int): int {
    c + a * x + b * y
  }

  /** The edge value at the tile corner chooseEdgeValue samples. */
  function CornerValue(pos: EdgePosition, x0y0: int, spanA: int, spanB: int): int {
    match pos
    case TOP | TOP_LEFT => x0y0 + spanB
    case LEFT | BOTTOM_LEFT | BOTTOM => x0y0
    case TOP_RIGHT => x0y0 + spanA + spanB
    case RIGHT | BOTTOM_RIGHT => x0y0 + spanA
  }

  /** The x offset, within the tile, of the sampled corner. */
  function CornerX(pos: EdgePosition, spanSize: int): int {
    if pos.IsRight() then spanSize else 0
  }

  /** The y offset, within the tile, of the sampled corner. */
  function CornerY(pos: EdgePosition, spanSize: int): int {
    if pos.IsTop() then spanSize else 0
  }

  /** The classification rule of classify: outside below the extent, inside from zero. */
  function ClassOf(w: int, extent: int): int {
    if w < extent then OUTSIDE
    else if w >= 0 then INSIDE
    else INTERSECTING
  }

  /** The extent prepare computes from the spans. */
  function Extent(spanA: int, spanB: int): int {
    var total: int := Abs(spanA) + Abs(spanB);
    -total
  }

  /**
   * With a non-positive extent the three classes are the three disjoint bands
   * `w < extent`, `extent <= w < 0` and `w >= 0`.
   */
  lemma ClassBands(w: int, extent: int)
    requires extent <= 0
    ensures IsClass(ClassOf(w, extent))
    ensures ClassOf(w, extent) == OUTSIDE <==> w < extent
    ensures ClassOf(w, extent) == INTERSECTING <==> extent <= w < 0
    ensures ClassOf(w, extent) == INSIDE <==> w >= 0
  {
  }

  lemma ProductBounds(k: int, t: int, s: int)
    requires k >= 0 && 0 <= t <= s
    ensures 0 <= k * t <= k * s
  {
    assert k * s - k * t == k * (s - t);
  }

  /**
   * The sampled corner holds the smallest edge value of the tile and no point
   * (px, py) of the tile exceeds it by more than the magnitude of the extent.
   */
  lemma CornerIsExtreme(pos: EdgePosition, a: int, b: int, spanSize: int, x0y0: int, px: int, py: int)
    requires NormalFacesCorner(pos, a, b) && spanSize >= 0
    requires 0 <= px <= spanSize && 0 <= py <= spanSize
    ensures var w := CornerValue(pos, x0y0, a * spanSize, b * spanSize);
            w <= x0y0 + a * px + b * py <= w - Extent(a * spanSize, b * spanSize)
  {
    var s := spanSize;
    var cx, cy := CornerX(pos, s), CornerY(pos, s);
    assert CornerValue(pos, x0y0, a * s, b * s) == x0y0 + a * cx + b * cy;
    AxisBound(a, px, cx, s);
    AxisBound(b, py, cy, s);
  }

  /**
   * Along one axis, a point of the tile exceeds the sampled corner's
   * coordinate c by at most the magnitude of the span: the corner is at the
   * low end when the coefficient is non-negative and at the high end when
   * it is non-positive.
   */
  lemma AxisBound(a: int, p: int, c: int, s: int)
    requires 0 <= p <= s && ((c == 0 && a >= 0) || (c == s && a <= 0))
    ensures 0 <= a * p - a * c <= Abs(a * s)
  {
    var d := if c == s && a < 0 then s - p else p;
    ProductBounds(Abs(a), d, s);
    assert a * p - a * c == Abs(a) * d;
    assert Abs(a * s) == Abs(a) * s;
  }

  /** The corner opposite the sampled one holds the sampled value minus the extent. */
  lemma OppositeCorner(pos: EdgePosition, a: int, b: int, spanSize: int, x0y0: int)
    requires NormalFacesCorner(pos, a, b) && spanSize >= 0
    ensures x0y0 + a * (spanSize - CornerX(pos, spanSize)) + b * (spanSize - CornerY(pos, spanSize))
            == CornerValue(pos, x0y0, a * spanSize, b * spanSize) - Extent(a * spanSize, b * spanSize)
  {
    var s := spanSize;
    ScaledSign(a, s);
    ScaledSign(b, s);
    OppositeOffsets(pos, a, b, s);
  }

  /** The scaled offsets from the sampled corner to the opposite one: 0 or a whole span. */
  lemma OppositeOffsets(pos: EdgePosition, a: int, b: int, s: int)
    ensures a * (s - CornerX(pos, s)) == if pos.IsRight() then 0 else a * s
    ensures b * (s - CornerY(pos, s)) == if pos.IsTop() then 0 else b * s
  {
    if pos.IsRight() { assert s - CornerX(pos, s) == 0; } else { assert CornerX(pos, s) == 0; }
    if pos.IsTop() { assert s - CornerY(pos, s) == 0; } else { assert CornerY(pos, s) == 0; }
  }

  /** A coefficient scaled by a non-negative span keeps its sign. */
  lemma ScaledSign(a: int, s: int)
    requires s >= 0
    ensures a > 0 ==> a * s >= 0
    ensures a < 0 ==> a * s <= 0
    ensures a == 0 ==> a * s == 0
  {
  }

  /**
   * What each class means for the tile, as the comment on prepare states it:
   * INSIDE means every point of the tile is inside or on the edge, OUTSIDE
   * that every point is strictly outside, and INTERSECTING that the sampled
   * corner is outside while the opposite corner is inside.
   */
  lemma ClassificationSound(pos: EdgePosition, a: int, b: int, spanSize: int, x0y0: int)
    requires NormalFacesCorner(pos, a, b) && spanSize >= 0
    ensures var s := spanSize;
            var p := ClassOf(CornerValue(pos, x0y0, a * s, b * s), Extent(a * s, b * s));
            && (p == INSIDE ==> forall px, py :: 0 <= px <= s && 0 <= py <= s ==> x0y0 + a * px + b * py >= 0)
            && (p == OUTSIDE ==> forall px, py :: 0 <= px <= s && 0 <= py <= s ==> x0y0 + a * px + b * py < 0)
            && (p == INTERSECTING ==>
                  && x0y0 + a * CornerX(pos, s) + b * CornerY(pos, s) < 0
                  && x0y0 + a * (s - CornerX(pos, s)) + b * (s - CornerY(pos, s)) >= 0)
  {
    var s := spanSize;
    var w := CornerValue(pos, x0y0, a * s, b * s);
    var e := Extent(a * s, b * s);
    forall px, py | 0 <= px <= s && 0 <= py <= s
      ensures w <= x0y0 + a * px + b * py <= w - e
    {
      CornerIsExtreme(pos, a, b, s, x0y0, px, py);
    }
    assert x0y0 + a * CornerX(pos, s) + b * CornerY(pos, s) == w;
    OppositeCorner(pos, a, b, s, x0y0);
  }

  /** A move of the traversal cursor to the neighbouring tile of the same level. */
  datatype Step = StepLeft | StepRight | StepUp

  /** The change of the lower-left corner value under a move (moveLeft, moveRight, moveUp). */
  function Delta(step: Step, a: int, b: int, spanA: int, spanB: int): int {
    match step
    case StepRight => a + spanA
    case StepLeft => -(a + spanA)
    case StepUp => b + spanB
  }

  /** The edge faces the direction of the move. */
  predicate Leading(pos: EdgePosition, step: Step) {
    match step
    case StepRight => pos.IsRight()
    case StepLeft => pos.IsLeft()
    case StepUp => pos.IsTop()
  }

  /** The edge faces away from the direction of the move. */
  predicate Trailing(pos: EdgePosition, step: Step) {
    match step
    case StepRight => pos.IsLeft()
    case StepLeft => pos.IsRight()
    case StepUp => pos.IsBottom()
  }

  /**
   * The cached position after a move: a leading edge keeps only OUTSIDE,
   * a trailing edge keeps only INSIDE, any other edge keeps its class.
   */
  function MovedPosition(p: int, leading: bool, trailing: bool): (r: int)
    ensures r == p || r == POSITION_RECLASSIFY
    ensures leading ==> (r == p <==> p == OUTSIDE || p == POSITION_RECLASSIFY)
    ensures !leading && trailing ==> (r == p <==> p == INSIDE || p == POSITION_RECLASSIFY)
    ensures !leading && !trailing ==> r == p
  {
    if leading then (if p != OUTSIDE then POSITION_RECLASSIFY else p)
    else if trailing && p != INSIDE then POSITION_RECLASSIFY
    else p
  }

  /** A move never produces a new final class: it keeps the position or asks for reclassification. */
  lemma MoveOnlyInvalidates(p: int, leading: bool, trailing: bool)
    ensures MovedPosition(p, leading, trailing) in {p, POSITION_RECLASSIFY}
    ensures p == POSITION_RECLASSIFY ==> MovedPosition(p, leading, trailing) == p
  {
  }

  /** Moving by one tile diameter changes the corner value by the coefficient times the diameter. */
  lemma DeltaIsOneDiameter(step: Step, a: int, b: int, diameter: int)
    ensures Delta(step, a, b, a * (diameter - 1), b * (diameter - 1))
            == match step
               case StepRight => a * diameter
               case StepLeft => -(a * diameter)
               case StepUp => b * diameter
  {
    assert a + a * (diameter - 1) == a * diameter;
    assert b + b * (diameter - 1) == b * diameter;
  }

  /**
   * A move toward the side an edge faces lowers its corner value, a move away
   * from it raises the value, and any other move leaves it unchanged.
   */
  lemma DeltaSign(pos: EdgePosition, a: int, b: int, spanSize: int, step: Step)
    requires NormalFacesCorner(pos, a, b) && spanSize >= 0
    ensures var d := Delta(step, a, b, a * spanSize, b * spanSize);
            && (Leading(pos, step) ==> d < 0)
            && (Trailing(pos, step) ==> d > 0)
            && (!Leading(pos, step) && !Trailing(pos, step) ==> d == 0)
  {
    var k := spanSize + 1;
    DeltaIsOneDiameter(step, a, b, k);
    if a > 0 { assert a * k > 0; } else if a < 0 { assert a * k < 0; }
    if b > 0 { assert b * k > 0; } else if b < 0 { assert b * k < 0; }
  }

  /**
   * The cache is sound: if the cached class was the class of the current
   * tile, then after a move whatever class the move keeps is the class of
   * the new tile. Only RECLASSIFY can come out otherwise.
   */
  lemma MoveKeepsCacheSound(pos: EdgePosition, a: int, b: int, spanSize: int, step: Step, x0y0: int, p: int)
    requires NormalFacesCorner(pos, a, b) && spanSize >= 0
    requires p == ClassOf(CornerValue(pos, x0y0, a * spanSize, b * spanSize), Extent(a * spanSize, b * spanSize))
    ensures var spanA, spanB := a * spanSize, b * spanSize;
            var q := MovedPosition(p, Leading(pos, step), Trailing(pos, step));
            q == POSITION_RECLASSIFY
            || q == ClassOf(CornerValue(pos, x0y0 + Delta(step, a, b, spanA, spanB), spanA, spanB), Extent(spanA, spanB))
  {
    var spanA, spanB := a * spanSize, b * spanSize;
    var d := Delta(step, a, b, spanA, spanB);
    assert CornerValue(pos, x0y0 + d, spanA, spanB) == CornerValue(pos, x0y0, spanA, spanB) + d;
    DeltaSign(pos, a, b, spanSize, step);
  }

  /** The displacement, in tile-grid units, of a sequence of moves at a given diameter. */
  function EndX(steps: seq<Step>, x: int, diameter: int): int
    decreases |steps|
  {
    if steps == [] then x
    else match steps[0]
      case StepRight => EndX(steps[1..], x + diameter, diameter)
      case StepLeft => EndX(steps[1..], x - diameter, diameter)
      case StepUp => EndX(steps[1..], x, diameter)
  }

  function EndY(steps: seq<Step>, y: int, diameter: int): int
    decreases |steps|
  {
    if steps == [] then y
    else EndY(steps[1..], if steps[0] == StepUp then y + diameter else y, diameter)
  }

  /** The corner value after a sequence of incremental moves. */
  function Walk(steps: seq<Step>, x0y0: int, a: int, b: int, spanA: int, spanB: int): int
    decreases |steps|
  {
    if steps == [] then x0y0
    else Walk(steps[1..], x0y0 + Delta(steps[0], a, b, spanA, spanB), a, b, spanA, spanB)
  }

  /**
   * Incremental equals absolute: starting from compute(x, y), any sequence of
   * moves reaches exactly compute at the tile the moves end on.
   */
  lemma {:induction false} WalkIsAbsolute(steps: seq<Step>, a: int, b: int, c: int, diameter: int, x: int, y: int)
    ensures Walk(steps, EdgeValue(a, b, c, x, y), a, b, a * (diameter - 1), b * (diameter - 1))
            == EdgeValue(a, b, c, EndX(steps, x, diameter), EndY(steps, y, diameter))
    decreases |steps|
  {
    if steps != [] {
      var s := steps[0];
      DeltaIsOneDiameter(s, a, b, diameter);
      var x' := match s case StepRight => x + diameter case StepLeft => x - diameter case StepUp => x;
      var y' := if s == StepUp then y + diameter else y;
      assert EdgeValue(a, b, c, x, y) + Delta(s, a, b, a * (diameter - 1), b * (diameter - 1))
             == EdgeValue(a, b, c, x', y');
      WalkIsAbsolute(steps[1..], a, b, c, diameter, x', y');
    }
  }

  /** A move to the right undone by a move to the left restores the corner value. */
  lemma RightThenLeft(x0y0: int, a: int, b: int, spanA: int, spanB: int)
    ensures Walk([StepRight, StepLeft], x0y0, a, b, spanA, spanB) == x0y0
  {
  }
}
