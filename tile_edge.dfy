/**
 * One edge of a polygon being rasterized into the occlusion tiles
 * (grondag.canvas.chunk.occlusion.TileEdge): its per-level constants, the
 * cached corner value and classification of the current tile, the
 * incremental moves of the tile cursor, save and restore, and the 8x8
 * coverage mask of the current tile.
 *
 * The abstract accessors a(), b(), c() and pos() of the source's subclasses
 * are constant fields; the tile's diameter is a constructor argument and its
 * cursor coordinates tile.x(), tile.y() are arguments of Position.
 */
module Occlusion {
  import opened JavaInt
  import opened EdgeFunction
  import opened EdgeMask
  import MaskBuilder

  /** The bit `1 << ordinal` of a Java int (the shift distance is taken mod 32). */
  function OrdinalFlag(ordinal: int): bv32 {
    (1 as bv32) << (ordinal % 32)
  }

  /** Distinct ordinals below 32 have disjoint flag bits, and every flag is a single bit. */
  lemma OrdinalFlagsDisjoint(i: int, j: int)
    requires 0 <= i < 32 && 0 <= j < 32
    ensures OrdinalFlag(i) != 0
    ensures i != j ==> OrdinalFlag(i) & OrdinalFlag(j) == 0
  {
    FlagBit(i);
    FlagBit(j);
    SingleBits(i as bv8, j as bv8);
  }

  /** The flag of an ordinal below 32 is one shifted by that ordinal as a byte-wide distance. */
  lemma FlagBit(i: int)
    requires 0 <= i < 32
    ensures OrdinalFlag(i) == (1 as bv32) << (i as bv8)
  {
  }

  /** One shifted by less than 32 is a single bit, distinct for distinct distances. */
  lemma SingleBits(x: bv8, y: bv8)
    requires x < 32 && y < 32
    ensures (1 as bv32) << x != 0
    ensures x != y ==> ((1 as bv32) << x) & ((1 as bv32) << y) == 0
  {
  }

  class TileEdge {
    const ordinal: int
    const ordinalFlag: bv32
    const a: int
    const b: int
    const c: int
    const pos: EdgePosition
    const spanSize: int
    const stepSize: int

    var stepA: int
    var stepB: int
    var spanA: int
    var spanB: int
    var extent: int

    var x0y0: int
    var position: int

    var saveX0y0: int
    var savePosition: int

    /** The per-level constants as prepare sets them. */
    ghost predicate Prepared()
      reads this
    {
      && stepA == a * stepSize && stepB == b * stepSize
      && spanA == a * spanSize && spanB == b * spanSize
      && extent == Extent(spanA, spanB)
    }

    /** A new edge of a tile of the given diameter; its position is DIRTY. */
    constructor (ordinal: int, diameter: int, a: int, b: int, c: int, pos: EdgePosition)
      ensures this.ordinal == ordinal && ordinalFlag == OrdinalFlag(ordinal)
      ensures stepSize == Div(diameter, 8) && spanSize == diameter - 1
      ensures this.a == a && this.b == b && this.c == c && this.pos == pos
      ensures position == POSITION_DIRTY
    {
      ordinalFlag := (1 as bv32) << (ordinal % 32);
      stepSize := Div(diameter, 8);
      spanSize := diameter - 1;
      this.ordinal := ordinal;
      this.a, this.b, this.c, this.pos := a, b, c, pos;
      stepA, stepB, spanA, spanB, extent := 0, 0, 0, 0, 0;
      x0y0, saveX0y0, savePosition := 0, 0, 0;
      position := POSITION_DIRTY;
    }

    /** The edge function at absolute coordinates (compute). */
    function Compute(x: int, y: int): (w: int)
      ensures x == 0 && y == 0 ==> w == c
      ensures EdgeValue(a, b, c, x + 1, y) == w + a && EdgeValue(a, b, c, x, y + 1) == w + b
    {
      EdgeValue(a, b, c, x, y)
    }

    /** Saves the cursor value and the position. */
    method Push()
      modifies this`saveX0y0, this`savePosition
      ensures saveX0y0 == x0y0 && savePosition == position
    {
      saveX0y0 := x0y0;
      savePosition := position;
    }

    /**
     * Restores the cursor value and the position saved by the last Push.
     * No other method names the save slots in its frame, so Pop undoes
     * every move, reclassification and inheritance since that Push.
     */
    method Pop()
      modifies this`x0y0, this`position
      ensures x0y0 == saveX0y0 && position == savePosition
    {
      x0y0 := saveX0y0;
      position := savePosition;
    }

    /** Computes the steps, spans and extent of the current coefficients. */
    method Prepare()
      modifies this`stepA, this`stepB, this`spanA, this`spanB, this`extent
      ensures Prepared()
      ensures extent <= 0
    {
      var a := this.a;
      var b := this.b;
      stepA := a * stepSize;
      stepB := b * stepSize;
      spanA := a * spanSize;
      spanB := b * spanSize;
      extent := -(Abs(spanA) as int) - Abs(spanB);
    }

    /**
     * Moves the cursor one tile to the right. A DIRTY edge is left alone;
     * otherwise the corner value grows by one diameter's worth of `a` and the
     * position is kept or invalidated as MovedPosition says.
     */
    method MoveRight()
      modifies this`x0y0, this`position
      ensures old(position) == POSITION_DIRTY ==> x0y0 == old(x0y0) && position == old(position)
      ensures old(position) != POSITION_DIRTY ==>
                && x0y0 == old(x0y0) + Delta(StepRight, a, b, spanA, spanB)
                && position == MovedPosition(old(position), Leading(pos, StepRight), Trailing(pos, StepRight))
    {
      if position == POSITION_DIRTY {
        return;
      }
      x0y0 := x0y0 + a + spanA;
      if pos.IsRight() {
        if position != OUTSIDE {
          position := POSITION_RECLASSIFY;
        }
      } else if pos.IsLeft() && position != INSIDE {
        position := POSITION_RECLASSIFY;
      }
    }

    /** Moves the cursor one tile to the left; the mirror image of MoveRight. */
    method MoveLeft()
      modifies this`x0y0, this`position
      ensures old(position) == POSITION_DIRTY ==> x0y0 == old(x0y0) && position == old(position)
      ensures old(position) != POSITION_DIRTY ==>
                && x0y0 == old(x0y0) + Delta(StepLeft, a, b, spanA, spanB)
                && position == MovedPosition(old(position), Leading(pos, StepLeft), Trailing(pos, StepLeft))
    {
      if position == POSITION_DIRTY {
        return;
      }
      x0y0 := x0y0 - (a + spanA);
      if pos.IsLeft() {
        if position != OUTSIDE {
          position := POSITION_RECLASSIFY;
        }
      } else if pos.IsRight() && position != INSIDE {
        position := POSITION_RECLASSIFY;
      }
    }

    /** Moves the cursor one tile up. */
    method MoveUp()
      modifies this`x0y0, this`position
      ensures old(position) == POSITION_DIRTY ==> x0y0 == old(x0y0) && position == old(position)
      ensures old(position) != POSITION_DIRTY ==>
                && x0y0 == old(x0y0) + Delta(StepUp, a, b, spanA, spanB)
                && position == MovedPosition(old(position), Leading(pos, StepUp), Trailing(pos, StepUp))
    {
      if position == POSITION_DIRTY {
        return;
      }
      x0y0 := x0y0 + b + spanB;
      if pos.IsTop() {
        if position != OUTSIDE {
          position := POSITION_RECLASSIFY;
        }
      } else if pos.IsBottom() && position != INSIDE {
        position := POSITION_RECLASSIFY;
      }
    }

    /**
     * Takes the cursor value of the same edge at the parent level; the
     * inherited value has to be reclassified at this level. A DIRTY parent
     * makes this edge DIRTY.
     */
    method UpdateFromParent(parent: TileEdge)
      modifies this`x0y0, this`position
      ensures old(parent.position) == POSITION_DIRTY ==> position == POSITION_DIRTY && x0y0 == old(x0y0)
      ensures old(parent.position) != POSITION_DIRTY ==> position == POSITION_RECLASSIFY && x0y0 == old(parent.x0y0)
    {
      if parent.position == POSITION_DIRTY {
        position := POSITION_DIRTY;
      } else {
        x0y0 := parent.x0y0;
        position := POSITION_RECLASSIFY;
      }
    }

    /**
     * The edge value at the tile corner the edge faces (chooseEdgeValue):
     * once prepared, the value at offset (CornerX, CornerY) from the
     * lower-left corner.
     */
    function ChooseEdgeValue(): (w: int)
      reads this
      ensures Prepared() ==> w == x0y0 + a * CornerX(pos, spanSize) + b * CornerY(pos, spanSize)
    {
      CornerValue(pos, x0y0, spanA, spanB)
    }

    /**
     * Classifies the current tile by its sampled corner value: exactly one
     * of OUTSIDE (below the extent), INSIDE (not below the extent and not
     * negative) and INTERSECTING (from the extent up to, not including, 0).
     */
    method Classify()
      modifies this`position
      ensures var w := ChooseEdgeValue();
              && (position == OUTSIDE <==> w < extent)
              && (position == INSIDE <==> extent <= w && w >= 0)
              && (position == INTERSECTING <==> extent <= w < 0)
    {
      var w := CornerValue(pos, x0y0, spanA, spanB);
      if w < extent {
        position := OUTSIDE;
      } else if w >= 0 {
        position := INSIDE;
      } else {
        position := INTERSECTING;
      }
    }

    /**
     * The classification of the tile at (tileX, tileY). A DIRTY edge first
     * computes its corner value from scratch, a RECLASSIFY edge reclassifies
     * its current value, and a classified edge returns its cached class.
     */
    method Position(tileX: int, tileY: int) returns (p: int)
      modifies this`x0y0, this`position
      ensures x0y0 == if old(position) == POSITION_DIRTY then Compute(tileX, tileY) else old(x0y0)
      ensures position == if old(position) < 0 then ClassOf(ChooseEdgeValue(), extent) else old(position)
      ensures p == position
      ensures IsState(old(position)) ==> IsClass(p)
    {
      if position < 0 {
        if position == POSITION_DIRTY {
          x0y0 := Compute(tileX, tileY);
        }
        Classify();
      }
      p := position;
    }

    /** Forgets the cursor value: the next Position recomputes it. */
    method MakeDirty()
      modifies this`position
      ensures position == POSITION_DIRTY
    {
      position := POSITION_DIRTY;
    }

    /**
     * The coverage mask of the current tile: bit `8 * r + c` is set exactly
     * when the edge function is non-negative at the sample point of pixel
     * (c, r) (EdgeMask.MaskCoverage, EdgeMask.SampleCoverage). The
     * requirement is the assertions the source makes in each case, which
     * hold for every tile that is not OUTSIDE (EdgeMask.MaskAssertsHold).
     */
    method BuildMask() returns (mask: bv64)
      requires MaskAsserts(pos, StartValue(pos, x0y0, spanA, spanB), stepA, stepB)
      ensures mask == Mask(pos, StartValue(pos, x0y0, spanA, spanB), stepA, stepB)
    {
      mask := MaskBuilder.BuildMask(pos, StartValue(pos, x0y0, spanA, spanB), stepA, stepB);
    }
  }
}
