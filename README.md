# Canvas core, modelled in Dafny

This project models five sequential pieces of the Canvas renderer (the Java
repository JieningYu/canvas) and proves what their code promises.

- **Occlusion edges** (`TileEdge`). One polygon edge `a·x + b·y + c` of the
  software occlusion rasterizer:
  - the per-level constants `prepare` computes;
  - the cached corner value `x0y0` and its classification `position`
    (DIRTY, RECLASSIFY, OUTSIDE, INTERSECTING, INSIDE);
  - the incremental moves of the tile cursor, `push`/`pop` and
    `updateFromParent`;
  - the 8x8 coverage mask that `buildMask` computes in eight corner cases.

  Modules:
  - `Occlusion` holds the `TileEdge` class.
  - `EdgeFunction` holds the classification geometry.
  - `EdgeMask` specifies the mask pixel by pixel: each pixel is set
    exactly when the edge function is non-negative at that pixel's sample
    point.
  - `MaskBuilder` holds the eight mask loops, each proved against that
    specification.
  - `CoverageMask` packs rows into a 64-bit mask.
  - `JavaInt` holds Java's truncating `/`, `>>` and `Math.abs`.
- **Decals** (`MaterialDecal`, module `MaterialProperty`). The three decal
  modes, the lookup table `fromIndex`, and the static `active` slot that
  `enable`/`disable` maintain. The start and end actions run in a trace.
- **Buffer debug selector** (`BufferDebug`, module `Pipeline`). The
  13-value cyclic view selector: `advance`, the key-press loop of `render`,
  and `shouldSkipBlur`.
- **Sprite animation** (`CombinedSpriteAnimation`, module `Texture`):
  - the mip levels of the texture;
  - the dirty rectangle, with the sentinel bounds of `reset` and the min/max
    union of `uploadSubImage`;
  - the row-by-row copy into a level's byte buffer;
  - the per-level upload in `uploadCombined`.
- **Clustered storage** (`ClusteredDrawableStorage`, module
  `TerrainCluster`). The close/allocate lifecycle of a region's vertex
  storage:
  - a one-way, idempotent `close` that notifies its clump once;
  - take-and-clear of the transfer buffer;
  - conversion between vertex and byte addresses.

State that the source changes in place is a Dafny class with `modifies`
frames:

| class | source | its fields |
|---|---|---|
| `TileEdge` | TileEdge.java | the edge's fields |
| `DecalSlot` | MaterialDecal.java | the static `active` |
| `Selector` | BufferDebug.java | the static `current` |
| `CombinedSpriteAnimation` | CombinedSpriteAnimation.java | the animation's fields |
| `Image` | the native images | an `array<bv8>` |
| `ClusteredDrawableStorage` | ClusteredDrawableStorage.java | the storage's fields |

Each method states its new state, mostly through a function of the old state. The properties are
proved about those functions. The loops of `buildMask`, of `render`, of
`uploadSubImage`, of `uploadCombined` and of the constructor of the
animation are `while` loops with their invariants.

Calls into code outside the model are events appended to a trace. These are:

- the GL actions of the decals;
- the debug tasks of the views;
- `NativeImage.upload`;
- `TransferBuffer.release`;
- `clump.notifyClosed`;
- `owner.allocate`.

The edge-normal sign convention is a hypothesis (`EdgeFunction.NormalFacesCorner`)
of `EdgeFunction.CornerIsExtreme`, `EdgeFunction.OppositeCorner`,
`EdgeFunction.ClassificationSound`, `EdgeFunction.DeltaSign`,
`EdgeFunction.MoveKeepsCacheSound`, `EdgeMask.StartIsOppositeCorner`,
`EdgeMask.MaskAssertsHold`, `EdgeMask.PixelIsEdgeValue` and
`EdgeMask.SampleCoverage`, and of nothing else. `EdgeMask.MaskCoverage`
does not need it, because it speaks of the values the loops compute, and
`EdgeMask.SampleCoverage` ties those values to the edge function under it:

- a left edge has `a > 0`, a right edge `a < 0`;
- a top edge has `b < 0`, a bottom edge `b > 0`;
- an edge that is neither left nor right has `a == 0`, and one that is
  neither top nor bottom has `b == 0`.

The first two bullets are the signs that the assertions of `buildMask`
check (`TileEdge.java:210-211`, `227-228`, `244-245`, `259-260`, `276-278`,
`299-301`, `330-332`, `352-354`). The third is an assumption about how the
caller, which is not part of this model, picks `pos()` for an edge: no
assertion of the source checks `a == 0` or `b == 0`.

The model follows the code as written:

- a move keeps a final class only in the flag cases the code lists;
- `buildMask` fills the TOP and BOTTOM masks with whole rows and no
  division;
- `updateFromParent` from a DIRTY parent leaves `x0y0` as it was.

## Model

| member | source | states |
|---|---|---|
| JavaInt.Div | src/main/java/grondag/canvas/chunk/occlusion/TileEdge.java:247 | Java's truncating `/`: the quotient is non-negative when dividend and divisor do not have opposite signs |
| JavaInt.DivTruncates | src/main/java/grondag/canvas/chunk/occlusion/TileEdge.java:247 | the remainder of Java's `/` is smaller than the divisor in magnitude and has the dividend's sign, so the quotient never overshoots |
| JavaInt.DivOfNonNegatives | src/main/java/grondag/canvas/chunk/occlusion/TileEdge.java:262 | `wy / a` with `wy >= 0` and `a > 0` is the floor quotient |
| JavaInt.DivOfNegatives | src/main/java/grondag/canvas/chunk/occlusion/TileEdge.java:247 | `-wy / a` with `wy >= 0` and `a < 0` equals `wy / -a` |
| JavaInt.ShrOfNonNegative | src/main/java/grondag/canvas/texture/CombinedSpriteAnimation.java:40 | `v >> k` of a non-negative `int` stays between 0 and v, so every level's size is a valid image size |
| EdgeFunction.ClassBands | src/main/java/grondag/canvas/chunk/occlusion/TileEdge.java:174-189 | classify's rule yields a final class, and OUTSIDE, INTERSECTING and INSIDE hold exactly for `w < extent`, `extent <= w < 0` and `w >= 0` |
| EdgeFunction.CornerIsExtreme | src/main/java/grondag/canvas/chunk/occlusion/TileEdge.java:147-172 | the corner chooseEdgeValue samples holds the smallest edge value of the tile, and no point exceeds it by more than `-extent` |
| EdgeFunction.OppositeCorner | src/main/java/grondag/canvas/chunk/occlusion/TileEdge.java:54-85 | the corner opposite the sampled one holds the sampled value minus the extent |
| EdgeFunction.ClassificationSound | src/main/java/grondag/canvas/chunk/occlusion/TileEdge.java:54-76 | INSIDE means every point of the tile is inside or on the edge; OUTSIDE means every point is outside; INTERSECTING means the sampled corner is outside and the opposite corner inside |
| EdgeFunction.MovedPosition | src/main/java/grondag/canvas/chunk/occlusion/TileEdge.java:87-136 | the cached position after a move: an edge the move heads toward keeps only OUTSIDE, an edge the move heads away from keeps only INSIDE, any other edge keeps its position, and every other class becomes RECLASSIFY |
| EdgeFunction.MoveOnlyInvalidates | src/main/java/grondag/canvas/chunk/occlusion/TileEdge.java:87-136 | a move keeps the position or turns it into RECLASSIFY, never into another class |
| EdgeFunction.DeltaIsOneDiameter | src/main/java/grondag/canvas/chunk/occlusion/TileEdge.java:93 | `a + spanA`, `-(a + spanA)` and `b + spanB` are the coefficient times one tile diameter |
| EdgeFunction.DeltaSign | src/main/java/grondag/canvas/chunk/occlusion/TileEdge.java:87-136 | a move toward the side the edge faces lowers the corner value, a move away raises it, and any other move leaves it unchanged |
| EdgeFunction.MoveKeepsCacheSound | src/main/java/grondag/canvas/chunk/occlusion/TileEdge.java:87-136 | a class the move keeps is still the class of the new tile |
| EdgeFunction.WalkIsAbsolute | src/main/java/grondag/canvas/chunk/occlusion/TileEdge.java:40-42 | any sequence of incremental moves started from `compute(x, y)` ends at `compute` of the tile where the moves end |
| EdgeFunction.RightThenLeft | src/main/java/grondag/canvas/chunk/occlusion/TileEdge.java:93-110 | moveRight followed by moveLeft restores the corner value |
| CoverageMask.PackExpanded | src/main/java/grondag/canvas/chunk/occlusion/TileEdge.java:217-218 | the packed mask is the OR of the eight row bytes, each shifted into its own byte |
| CoverageMask.RowOfPack | src/main/java/grondag/canvas/chunk/occlusion/TileEdge.java:289 | each row of a packed mask reads back as the row byte packed into it |
| CoverageMask.PackOfRows | src/main/java/grondag/canvas/chunk/occlusion/TileEdge.java:203-374 | a 64-bit mask is determined by its eight rows |
| CoverageMask.JoinBelow | src/main/java/grondag/canvas/chunk/occlusion/TileEdge.java:233-237 | ORing row r into the mask of rows r + 1 to hi - 1 gives the mask of rows r to hi - 1 (the downward loops) |
| CoverageMask.ExtendUp | src/main/java/grondag/canvas/chunk/occlusion/TileEdge.java:216-222 | empty rows at or above hi add nothing: the mask of rows lo to hi - 1 is the mask of rows lo to 7 |
| CoverageMask.ExtendDown | src/main/java/grondag/canvas/chunk/occlusion/TileEdge.java:233-239 | empty rows below lo add nothing: the mask of rows lo to hi - 1 is the mask of rows 0 to hi - 1 |
| CoverageMask.LowRowsFull | src/main/java/grondag/canvas/chunk/occlusion/TileEdge.java:213-222 | the k lowest rows full and the rest empty is the `long` `2^(8k) - 1` |
| CoverageMask.HighRowsFull | src/main/java/grondag/canvas/chunk/occlusion/TileEdge.java:230-239 | the k highest rows full and the rest empty is the complement of `2^(64 - 8k) - 1` |
| CoverageMask.ReplicatedRow | src/main/java/grondag/canvas/chunk/occlusion/TileEdge.java:250-252 | ORing a row byte with its shifts by 8, 16 and 32 bits puts it in all eight rows |
| CoverageMask.HighRunIsShift | src/main/java/grondag/canvas/chunk/occlusion/TileEdge.java:263 | the left-edge run from column x upward is `0xFF << x` cut to a byte |
| CoverageMask.LowRunIsShift | src/main/java/grondag/canvas/chunk/occlusion/TileEdge.java:248 | the right-edge run up to column 7 - x is `0xFF >> x` |
| CoverageMask.HighBitsFrom | src/main/java/grondag/canvas/chunk/occlusion/TileEdge.java:263 | bit c of the left-edge run is set exactly when `c >= x` |
| CoverageMask.LowBitsTo | src/main/java/grondag/canvas/chunk/occlusion/TileEdge.java:248 | bit c of the right-edge run is set exactly when `c <= 7 - x` |
| CoverageMask.FullRowUp | src/main/java/grondag/canvas/chunk/occlusion/TileEdge.java:218 | `yMask <<= 8` moves the full row up one row, and past row 7 it leaves 0 |
| CoverageMask.FullRowDown | src/main/java/grondag/canvas/chunk/occlusion/TileEdge.java:235 | `yMask >>> 8` moves the full row down one row, and below row 0 it leaves 0 |
| CoverageMask.FullRowLiveUp | src/main/java/grondag/canvas/chunk/occlusion/TileEdge.java:216 | in the TOP loop `yMask != 0` holds exactly while the row is inside the tile |
| CoverageMask.FullRowLiveDown | src/main/java/grondag/canvas/chunk/occlusion/TileEdge.java:233 | in the BOTTOM loop `yMask != 0` holds exactly while the row is inside the tile |
| CoverageMask.RowShiftLiveUp | src/main/java/grondag/canvas/chunk/occlusion/TileEdge.java:285 | in the upward corner loops `yShift < 64` holds exactly while the row is inside the tile |
| CoverageMask.RowShiftLiveDown | src/main/java/grondag/canvas/chunk/occlusion/TileEdge.java:308 | in the downward corner loops `yShift >= 0` (as a signed `int`) holds exactly while the row is inside the tile |
| CoverageMask.PlaceRow | src/main/java/grondag/canvas/chunk/occlusion/TileEdge.java:289 | `((long) yMask) << yShift` is the row byte placed in row r |
| EdgeMask.StartValue | src/main/java/grondag/canvas/chunk/occlusion/TileEdge.java:208-351 | each case of `buildMask` starts from `x0y0`, plus `spanA` when the edge is on the left and plus `spanB` when it is at the bottom |
| EdgeMask.LeftRunAsLong | src/main/java/grondag/canvas/chunk/occlusion/TileEdge.java:262-263 | `(0xFF << x) & 0xFF` with `x = 7 - min(7, wy / a)`, widened to a `long`, is the left-edge run of the row |
| EdgeMask.RightRunAsLong | src/main/java/grondag/canvas/chunk/occlusion/TileEdge.java:247-248 | `0xFF >> x` with `x = 7 - min(7, -wy / a)`, widened to a `long`, is the right-edge run of the row |
| EdgeMask.LeftRunCoverage | src/main/java/grondag/canvas/chunk/occlusion/TileEdge.java:262-263 | a left-edge row covers column c exactly when the edge value there is non-negative |
| EdgeMask.RightRunCoverage | src/main/java/grondag/canvas/chunk/occlusion/TileEdge.java:247-248 | a right-edge row covers column c exactly when the edge value there is non-negative |
| EdgeMask.RowCoverage | src/main/java/grondag/canvas/chunk/occlusion/TileEdge.java:203-374 | a row byte of any edge position covers column c exactly when the edge value there is non-negative |
| EdgeMask.MaskCoverage | src/main/java/grondag/canvas/chunk/occlusion/TileEdge.java:203-374 | at its sample points the coverage mask is exact: pixel (c, r) is set if and only if the value the loops give it is non-negative |
| EdgeMask.PixelIsEdgeValue | src/main/java/grondag/canvas/chunk/occlusion/TileEdge.java:203-374 | the value the loops give pixel (c, r) is the edge function at the pixel's sample point: `c * stepSize` right of the tile corner (counted back from `spanSize` for a left edge) and `r * stepSize` up (counted back from `spanSize` for a bottom edge) |
| EdgeMask.SampleCoverage | src/main/java/grondag/canvas/chunk/occlusion/TileEdge.java:203-374 | pixel (c, r) of the mask is set if and only if the edge function is non-negative at the pixel's sample point |
| EdgeMask.TopRowInside | src/main/java/grondag/canvas/chunk/occlusion/TileEdge.java:216-220 | row r of a TOP edge is inside exactly when r is below `min(8, start / -b + 1)` |
| EdgeMask.BottomRowInside | src/main/java/grondag/canvas/chunk/occlusion/TileEdge.java:233-237 | row r of a BOTTOM edge is inside exactly when it is among the `min(8, start / b + 1)` highest rows |
| EdgeMask.TopMaskShape | src/main/java/grondag/canvas/chunk/occlusion/TileEdge.java:208-223 | the TOP mask is `2^(8k) - 1` for some k from 1 to 8: k full rows from the low byte up |
| EdgeMask.TopRows | src/main/java/grondag/canvas/chunk/occlusion/TileEdge.java:208-223 | the rows of the TOP mask are the k lowest rows full and the others empty |
| EdgeMask.BottomMaskShape | src/main/java/grondag/canvas/chunk/occlusion/TileEdge.java:225-240 | the BOTTOM mask is k full rows from the high byte down, for some k from 1 to 8 |
| EdgeMask.BottomRows | src/main/java/grondag/canvas/chunk/occlusion/TileEdge.java:225-240 | the rows of the BOTTOM mask are the k highest rows full and the others empty |
| EdgeMask.SideMaskReplicated | src/main/java/grondag/canvas/chunk/occlusion/TileEdge.java:242-270 | every row of a LEFT or RIGHT mask is the same byte |
| EdgeMask.MaskIsStaircase | src/main/java/grondag/canvas/chunk/occlusion/TileEdge.java:272-368 | a covered pixel of a top edge has the pixel below it covered and one of a bottom edge the pixel above; a covered pixel of a left edge has the pixel to its right covered and one of a right edge the pixel to its left |
| EdgeMask.EmptyAbove | src/main/java/grondag/canvas/chunk/occlusion/TileEdge.java:216 | once a top edge's row value is negative, that row and every row above it are empty |
| EdgeMask.EmptyBelow | src/main/java/grondag/canvas/chunk/occlusion/TileEdge.java:308 | once a bottom edge's row value is negative, that row and every row below it are empty |
| EdgeMask.KeptAbove | src/main/java/grondag/canvas/chunk/occlusion/TileEdge.java:285-294 | when an upward loop stops, the rows it has ORed in make up the whole mask |
| EdgeMask.KeptBelow | src/main/java/grondag/canvas/chunk/occlusion/TileEdge.java:308-317 | when a downward loop stops, the rows it has ORed in make up the whole mask |
| EdgeMask.StartIsOppositeCorner | src/main/java/grondag/canvas/chunk/occlusion/TileEdge.java:209-351 | each case of buildMask starts from the corner opposite the one classify samples, which holds the largest edge value of the tile |
| EdgeMask.MaskAssertsHold | src/main/java/grondag/canvas/chunk/occlusion/TileEdge.java:209-354 | the assertions of buildMask hold for every tile that classify does not put OUTSIDE |
| MaskBuilder.TopMask | src/main/java/grondag/canvas/chunk/occlusion/TileEdge.java:208-223 | the TOP loop returns `EdgeMask.Mask`, the mask whose set pixels are exactly those inside the edge |
| MaskBuilder.BottomMask | src/main/java/grondag/canvas/chunk/occlusion/TileEdge.java:225-240 | the BOTTOM loop returns `EdgeMask.Mask`, the mask whose set pixels are exactly those inside the edge |
| MaskBuilder.RightMask | src/main/java/grondag/canvas/chunk/occlusion/TileEdge.java:242-255 | the RIGHT case returns `EdgeMask.Mask`, the mask whose set pixels are exactly those inside the edge |
| MaskBuilder.LeftMask | src/main/java/grondag/canvas/chunk/occlusion/TileEdge.java:257-270 | the LEFT case returns `EdgeMask.Mask`, the mask whose set pixels are exactly those inside the edge |
| MaskBuilder.LeftRowBits | src/main/java/grondag/canvas/chunk/occlusion/TileEdge.java:287-288 | the row byte a left corner loop computes is the left-edge run of the row |
| MaskBuilder.RightRowBits | src/main/java/grondag/canvas/chunk/occlusion/TileEdge.java:338-339 | the row byte a right corner loop computes is the right-edge run of the row |
| MaskBuilder.OrRow | src/main/java/grondag/canvas/chunk/occlusion/TileEdge.java:289 | `mask \| ((long) yMask) << yShift` ORs the row byte into row r |
| MaskBuilder.OrRowAbove | src/main/java/grondag/canvas/chunk/occlusion/TileEdge.java:289 | one step of an upward loop adds row i to the mask of the rows below it |
| MaskBuilder.OrRowBelow | src/main/java/grondag/canvas/chunk/occlusion/TileEdge.java:312 | one step of a downward loop adds row r to the mask of the rows above it |
| MaskBuilder.TopLeftMask | src/main/java/grondag/canvas/chunk/occlusion/TileEdge.java:272-295 | the TOP_LEFT loop returns `EdgeMask.Mask`, the mask whose set pixels are exactly those inside the edge |
| MaskBuilder.BottomLeftMask | src/main/java/grondag/canvas/chunk/occlusion/TileEdge.java:297-318 | the BOTTOM_LEFT loop returns `EdgeMask.Mask`, the mask whose set pixels are exactly those inside the edge |
| MaskBuilder.TopRightMask | src/main/java/grondag/canvas/chunk/occlusion/TileEdge.java:320-346 | the TOP_RIGHT loop returns `EdgeMask.Mask`, the mask whose set pixels are exactly those inside the edge |
| MaskBuilder.BottomRightMask | src/main/java/grondag/canvas/chunk/occlusion/TileEdge.java:348-368 | the BOTTOM_RIGHT loop returns `EdgeMask.Mask`, the mask whose set pixels are exactly those inside the edge |
| MaskBuilder.BuildMask | src/main/java/grondag/canvas/chunk/occlusion/TileEdge.java:203-374 | buildMask returns exactly the mask of its edge position |
| Occlusion.OrdinalFlagsDisjoint | src/main/java/grondag/canvas/chunk/occlusion/TileEdge.java:27 | `1 << ordinal` is a single non-zero bit, and distinct ordinals below 32 have disjoint flags |
| Occlusion.TileEdge.constructor | src/main/java/grondag/canvas/chunk/occlusion/TileEdge.java:26-33 | `ordinalFlag == 1 << ordinal`, `stepSize == diameter / 8`, `spanSize == diameter - 1`, and a new edge is DIRTY |
| Occlusion.TileEdge.Compute | src/main/java/grondag/canvas/chunk/occlusion/TileEdge.java:40-42 | the edge function is `c` at the origin and grows by `a` per column and by `b` per row |
| Occlusion.TileEdge.Push | src/main/java/grondag/canvas/chunk/occlusion/TileEdge.java:44-47 | the cursor value and position are saved; no other method writes the save slots |
| Occlusion.TileEdge.Pop | src/main/java/grondag/canvas/chunk/occlusion/TileEdge.java:49-52 | the cursor value and position are restored to the values the last push saved |
| Occlusion.TileEdge.Prepare | src/main/java/grondag/canvas/chunk/occlusion/TileEdge.java:77-85 | the steps and spans are the coefficients times stepSize and spanSize, and `extent == -abs(spanA) - abs(spanB) <= 0` |
| Occlusion.TileEdge.MoveRight | src/main/java/grondag/canvas/chunk/occlusion/TileEdge.java:87-102 | a DIRTY edge is unchanged; otherwise the corner value grows by `a + spanA` and the position is kept or turned into RECLASSIFY by the edge's direction flags |
| Occlusion.TileEdge.MoveLeft | src/main/java/grondag/canvas/chunk/occlusion/TileEdge.java:104-119 | a DIRTY edge is unchanged; otherwise the corner value shrinks by `a + spanA` and the position follows the mirrored rule |
| Occlusion.TileEdge.MoveUp | src/main/java/grondag/canvas/chunk/occlusion/TileEdge.java:121-136 | a DIRTY edge is unchanged; otherwise the corner value grows by `b + spanB` and the position follows the top/bottom rule |
| Occlusion.TileEdge.UpdateFromParent | src/main/java/grondag/canvas/chunk/occlusion/TileEdge.java:138-145 | a DIRTY parent makes the edge DIRTY; otherwise the edge takes the parent's corner value and must be reclassified |
| Occlusion.TileEdge.ChooseEdgeValue | src/main/java/grondag/canvas/chunk/occlusion/TileEdge.java:147-172 | the sampled value is the edge function at the corner the edge's position faces |
| Occlusion.TileEdge.Classify | src/main/java/grondag/canvas/chunk/occlusion/TileEdge.java:174-189 | the position is OUTSIDE exactly when `w < extent`, INSIDE exactly when `extent <= w` and `w >= 0`, and INTERSECTING exactly when `extent <= w < 0` |
| Occlusion.TileEdge.Position | src/main/java/grondag/canvas/chunk/occlusion/TileEdge.java:191-201 | a DIRTY edge first recomputes its corner value from the tile coordinates; a DIRTY or RECLASSIFY edge is classified; a classified edge keeps its class; when the old position is one of the five states, the result is OUTSIDE, INTERSECTING or INSIDE |
| Occlusion.TileEdge.MakeDirty | src/main/java/grondag/canvas/chunk/occlusion/TileEdge.java:382-384 | the position becomes DIRTY |
| Occlusion.TileEdge.BuildMask | src/main/java/grondag/canvas/chunk/occlusion/TileEdge.java:203-374 | the returned mask is the coverage mask of the tile for the edge's position |
| MaterialProperty.FromIndex | src/main/java/grondag/canvas/material/property/MaterialDecal.java:32-34 | a decal exists exactly for the indices 0 to 2, and it is the table entry carrying that index |
| MaterialProperty.DecalTable | src/main/java/grondag/canvas/material/property/MaterialDecal.java:36-83 | every decal is found at its own index, and draw priorities increase strictly from NONE to VIEW_OFFSET |
| MaterialProperty.EnableEffects | src/main/java/grondag/canvas/material/property/MaterialDecal.java:93-101 | enable ends with the decal's start action; it runs the active decal's end action first exactly when a decal is active and it is VIEW_OFFSET or a different decal |
| MaterialProperty.DisableEffects | src/main/java/grondag/canvas/material/property/MaterialDecal.java:103-108 | disable runs the active decal's end action once, and nothing when no decal is active |
| MaterialProperty.CallKeepsBalance | src/main/java/grondag/canvas/material/property/MaterialDecal.java:93-108 | one enable or disable keeps the action trace balanced against the active slot |
| MaterialProperty.EnableKeepsBalance | src/main/java/grondag/canvas/material/property/MaterialDecal.java:93-101 | enable keeps the trace balanced, with the enabled decal active afterwards |
| MaterialProperty.DisableKeepsBalance | src/main/java/grondag/canvas/material/property/MaterialDecal.java:103-108 | disable keeps the trace balanced, with no decal active afterwards |
| MaterialProperty.CallsKeepBalance | src/main/java/grondag/canvas/material/property/MaterialDecal.java:56-69 | after any sequence of calls, VIEW_OFFSET has started once more than it ended when it is active and as often as it ended otherwise, so the matrix stack never overruns |
| MaterialProperty.DecalSlot.constructor | src/main/java/grondag/canvas/material/property/MaterialDecal.java:110 | no decal is active and no action has run |
| MaterialProperty.DecalSlot.Enable | src/main/java/grondag/canvas/material/property/MaterialDecal.java:93-101 | for one of the three decals, the decal becomes active, the trace grows by enable's actions, and it stays balanced |
| MaterialProperty.DecalSlot.Disable | src/main/java/grondag/canvas/material/property/MaterialDecal.java:103-108 | no decal is active, the trace grows by disable's actions, and it stays balanced |
| Pipeline.Ordinal | src/main/java/grondag/canvas/pipeline/BufferDebug.java:27-39 | every view has an ordinal below 13, and the values table holds the view at that ordinal |
| Pipeline.OrdinalOfValue | src/main/java/grondag/canvas/pipeline/BufferDebug.java:27-39 | the entry of the values table at index k has ordinal k |
| Pipeline.Step | src/main/java/grondag/canvas/pipeline/BufferDebug.java:66-69 | a forward step moves the ordinal to the next one, with 12 wrapping to 0; a backward step moves it to the previous one, with 0 wrapping to 12 |
| Pipeline.TaskOf | src/main/java/grondag/canvas/pipeline/BufferDebug.java:26-38 | NORMAL does nothing; EMISSIVE and BLOOM_BLUR run the emissive debug, EMISSIVE_CASCADE and BLOOM_BLUR_CASCADE the cascade debug; exactly the views from ordinal 5 on blur, at level `ordinal - 5` |
| Pipeline.OrdinalInjective | src/main/java/grondag/canvas/pipeline/BufferDebug.java:27-39 | a view is determined by its ordinal |
| Pipeline.StepInverse | src/main/java/grondag/canvas/pipeline/BufferDebug.java:66-69 | a backward step undoes a forward step, and a forward step undoes a backward one |
| Pipeline.AdvancedOrdinal | src/main/java/grondag/canvas/pipeline/BufferDebug.java:57-60 | n calls of advance move the ordinal to `(k + n) mod 13` |
| Pipeline.AdvanceCycles | src/main/java/grondag/canvas/pipeline/BufferDebug.java:57-60 | thirteen calls of advance return to the starting view |
| Pipeline.ForwardPressesAdvance | src/main/java/grondag/canvas/pipeline/BufferDebug.java:62-70 | n key presses without shift select the same view as n calls of advance |
| Pipeline.Selector.constructor | src/main/java/grondag/canvas/pipeline/BufferDebug.java:47 | the current view starts as NORMAL |
| Pipeline.Selector.ShouldSkipBlur | src/main/java/grondag/canvas/pipeline/BufferDebug.java:53-55 | the result is true exactly when the current view is EMISSIVE or EMISSIVE_CASCADE |
| Pipeline.Selector.Advance | src/main/java/grondag/canvas/pipeline/BufferDebug.java:57-60 | the ordinal of the current view becomes `(k + 1) mod 13`, so BLOOM_7 wraps to NORMAL |
| Pipeline.Selector.Press | src/main/java/grondag/canvas/pipeline/BufferDebug.java:66-69 | one key press selects the previous view (wrapping from the first to the last) with shift held and the next one (wrapping from the last to the first) without |
| Pipeline.Selector.Render | src/main/java/grondag/canvas/pipeline/BufferDebug.java:62-73 | each pending key press steps the view forward, or backward with shift held; then the new view's debug task runs once |
| Texture.Image.constructor | src/main/java/grondag/canvas/texture/CombinedSpriteAnimation.java:40 | a new image of the given size has `width * height * 4` bytes |
| Texture.PixelOffsetProduct | src/main/java/grondag/canvas/texture/CombinedSpriteAnimation.java:74-77 | the byte offset of pixel (x, y) is `(x + y * width) * 4` |
| Texture.RunInside | src/main/java/grondag/canvas/texture/CombinedSpriteAnimation.java:74-79 | a row run of a rectangle inside the image lies inside its bytes |
| Texture.RunsDisjoint | src/main/java/grondag/canvas/texture/CombinedSpriteAnimation.java:72-80 | row runs of the rectangle on different rows do not overlap |
| Texture.Splice | src/main/java/grondag/canvas/texture/CombinedSpriteAnimation.java:79 | memCopy keeps the size of the target buffer |
| Texture.SpliceBytes | src/main/java/grondag/canvas/texture/CombinedSpriteAnimation.java:79 | memCopy writes the source bytes into the run and leaves every other target byte as it was |
| Texture.CopyRows | src/main/java/grondag/canvas/texture/CombinedSpriteAnimation.java:72-80 | copying rows keeps the size of the target buffer |
| Texture.CopyRowStep | src/main/java/grondag/canvas/texture/CombinedSpriteAnimation.java:72-80 | copying row j adds one memCopy of `width * 4` bytes, and both its runs lie inside their buffers |
| Texture.CopiedRow | src/main/java/grondag/canvas/texture/CombinedSpriteAnimation.java:72-80 | after the loop, row j of the rectangle in the target holds exactly the bytes of row j of the rectangle in the source |
| Texture.UncopiedByte | src/main/java/grondag/canvas/texture/CombinedSpriteAnimation.java:72-80 | a target byte outside every copied row run is unchanged |
| Texture.MemCopy | src/main/java/grondag/canvas/texture/CombinedSpriteAnimation.java:79 | the target buffer gets `length` bytes of the source at the given offsets, and the source is unchanged |
| Texture.Grow | src/main/java/grondag/canvas/texture/CombinedSpriteAnimation.java:64-67 | the new bounds contain the old bounds and the written rectangle, and each coordinate is one of theirs |
| Texture.WriteMarksDirty | src/main/java/grondag/canvas/texture/CombinedSpriteAnimation.java:64 | a write at a column below `Integer.MAX_VALUE` takes x0 off the reset sentinel |
| Texture.GrowAllExtremes | src/main/java/grondag/canvas/texture/CombinedSpriteAnimation.java:64-67 | after any sequence of writes the bounds contain every written rectangle and the starting bounds, and each coordinate is one of theirs: the bounds only grow |
| Texture.WriteOrderIrrelevant | src/main/java/grondag/canvas/texture/CombinedSpriteAnimation.java:64-67 | the final bounds do not depend on the order of the writes |
| Texture.LevelUploads | src/main/java/grondag/canvas/texture/CombinedSpriteAnimation.java:85-87 | there is one upload per level, and level k uploads the bounds shifted right by k |
| Texture.LevelUploadsHalve | src/main/java/grondag/canvas/texture/CombinedSpriteAnimation.java:86 | level 0 uploads the bounds themselves, and each further level halves the offsets and sizes of the one before, rounding down |
| Texture.CopyRect | src/main/java/grondag/canvas/texture/CombinedSpriteAnimation.java:68-80 | the row loop leaves the target buffer equal to the specified row-by-row copy |
| Texture.CombinedSpriteAnimation.constructor | src/main/java/grondag/canvas/texture/CombinedSpriteAnimation.java:33-44 | there are `lodCount + 1` levels, level i is a fresh `(width >> i)` by `(height >> i)` image, and the bounds are reset |
| Texture.CombinedSpriteAnimation.Reset | src/main/java/grondag/canvas/texture/CombinedSpriteAnimation.java:55-60 | x0 and y0 become `Integer.MAX_VALUE`, and x1 and y1 become `Integer.MIN_VALUE` |
| Texture.CombinedSpriteAnimation.UploadSubImage | src/main/java/grondag/canvas/texture/CombinedSpriteAnimation.java:62-81 | the bounds grow to cover the written rectangle, and the target level holds the row-by-row copy |
| Texture.CombinedSpriteAnimation.UploadCombined | src/main/java/grondag/canvas/texture/CombinedSpriteAnimation.java:83-89 | nothing is uploaded when `x0` is still the reset sentinel; otherwise every level uploads the bounds shifted right by its index |
| TerrainCluster.CloseEvents | src/main/java/grondag/canvas/render/terrain/cluster/ClusteredDrawableStorage.java:65-75 | a first close makes at most two calls and never asks for allocation |
| TerrainCluster.CloseEventCounts | src/main/java/grondag/canvas/render/terrain/cluster/ClusteredDrawableStorage.java:65-75 | a first close notifies the clump once when `notify` is set and a clump is present, and never otherwise; it releases the held transfer buffer once |
| TerrainCluster.Closed | src/main/java/grondag/canvas/render/terrain/cluster/ClusteredDrawableStorage.java:59-79 | after close the storage is closed and holds no transfer buffer, no clump and no base vertex; closing a closed storage changes nothing |
| TerrainCluster.CloseIdempotent | src/main/java/grondag/canvas/render/terrain/cluster/ClusteredDrawableStorage.java:62 | a second close changes no field and makes no call |
| TerrainCluster.ClosedAllIsFirst | src/main/java/grondag/canvas/render/terrain/cluster/ClusteredDrawableStorage.java:59-79 | any run of close calls has the effect of the first one |
| TerrainCluster.NotifiedOnce | src/main/java/grondag/canvas/render/terrain/cluster/ClusteredDrawableStorage.java:59-79 | over any run of close calls the clump is notified exactly once if the first call asked for it and a clump was set, and never otherwise; the transfer buffer is released exactly once |
| TerrainCluster.ByteAddress | src/main/java/grondag/canvas/render/terrain/cluster/ClusteredDrawableStorage.java:98 | dividing the byte address by the stride gives back the base vertex |
| TerrainCluster.AddressRoundTrip | src/main/java/grondag/canvas/render/terrain/cluster/ClusteredDrawableStorage.java:95-104 | a non-negative multiple of the stride survives the trip to a base vertex and back |
| TerrainCluster.ClusteredDrawableStorage.constructor | src/main/java/grondag/canvas/render/terrain/cluster/ClusteredDrawableStorage.java:38-44 | a new storage is open and unallocated, holds its transfer buffer, and has no clump |
| TerrainCluster.ClusteredDrawableStorage.GetAndClearTransferBuffer | src/main/java/grondag/canvas/render/terrain/cluster/ClusteredDrawableStorage.java:46-50 | the previous buffer is returned and the field is cleared, so a second call returns nothing |
| TerrainCluster.ClusteredDrawableStorage.Release | src/main/java/grondag/canvas/render/terrain/cluster/ClusteredDrawableStorage.java:53-57 | release has the effect of `close(true)` and returns null |
| TerrainCluster.ClusteredDrawableStorage.Close | src/main/java/grondag/canvas/render/terrain/cluster/ClusteredDrawableStorage.java:59-79 | the new state is the one `Closed` specifies |
| TerrainCluster.ClusteredDrawableStorage.IsClosed | src/main/java/grondag/canvas/render/terrain/cluster/ClusteredDrawableStorage.java:81-83 | the result is the closed flag |
| TerrainCluster.ClusteredDrawableStorage.BaseVertex | src/main/java/grondag/canvas/render/terrain/cluster/ClusteredDrawableStorage.java:89-93 | on an allocated storage the result is its base vertex, never NOT_ALLOCATED |
| TerrainCluster.ClusteredDrawableStorage.BaseByteAddress | src/main/java/grondag/canvas/render/terrain/cluster/ClusteredDrawableStorage.java:95-99 | the result divided by the stride is the base vertex |
| TerrainCluster.ClusteredDrawableStorage.SetBaseAddress | src/main/java/grondag/canvas/render/terrain/cluster/ClusteredDrawableStorage.java:101-104 | the base vertex is the address divided by the stride as Java divides, and a non-negative multiple of the stride reads back as the same byte address |
| TerrainCluster.ClusteredDrawableStorage.SetClump | src/main/java/grondag/canvas/render/terrain/cluster/ClusteredDrawableStorage.java:106-111 | an unallocated storage without a clump gets the clump |
| TerrainCluster.ClusteredDrawableStorage.Upload | src/main/java/grondag/canvas/render/terrain/cluster/ClusteredDrawableStorage.java:120-123 | an unallocated storage asks its owner for allocation once |

## Left out

- 32-bit `int` overflow is not modelled: the edge arithmetic, the offsets, sizes and bounds of the sprite animation, and the address arithmetic of the storage use unbounded integers. The `long` masks are `bv64` and the row offset `yShift` is a `bv32`, with `yShift >= 0` read as its sign bit.
- Occlusion.TileEdge: the abstract accessors `a()`, `b()`, `c()` and `pos()` of the subclasses are constant fields. `AbstractTile` is not part of this model: its `diameter` is a constructor argument and its cursor `x()`, `y()` are arguments of `Position`.
- Occlusion.TileEdge.BuildMask: the `assert`s of each case are its precondition (`EdgeMask.MaskAsserts`). `EdgeMask.MaskAssertsHold` shows they hold for every tile that classify does not put OUTSIDE. The unreachable `default` branches of `chooseEdgeValue` and `buildMask` have no counterpart, because `EdgePosition` has exactly eight cases.
- The traversal-level property that a move away from the inside never skips INTERSECTING is about the tile hierarchy, which is not part of this model. `EdgeFunction.DeltaSign` and `EdgeFunction.MoveKeepsCacheSound` state what a single edge guarantees.
- MaterialProperty: the GL calls inside the start and end actions (polygon offset, model-view matrix push and pop) are the events `Start(d)` and `End(d)`. The values of `MaterialConstants.DECAL_*` are not visible and are taken as 0, 1 and 2. `MaterialProperty.FromIndex` returns `None` where the array access would throw.
- Pipeline.Selector.Render: key polling (`wasPressed`, `isKeyPressed`, the window handle) is input; the pending presses are a sequence of "shift held" flags. `CanvasFrameBufferHacks` tasks are trace events.
- Texture: `NativeImage` allocation, native pointers and `close()` are not modelled; an image is a byte array of `width * height * 4` bytes. `MemoryUtil.memCopy` is `Texture.MemCopy`, a byte loop over two distinct arrays. `NativeImage.upload` is a recorded call. `Mth.smallestEncompassingPowerOfTwo` is not part of this model: the constructor takes the resulting width and height as arguments.
- TerrainCluster: `ClusteredVertexStorage.clumpPos` and the `TerrainFormat` vertex stride are not part of this model; both are constructor arguments, the stride positive. `getClump`, `paddingBytes` and the `RenderSystem.isOnRenderThread` assertion are not modelled. `owner.allocate` is the event `Allocate`; what the owner does with the storage (calling `setClump` and `setBaseAddress`) is outside the model.
- TerrainCluster.ClusteredDrawableStorage.SetClump: the assertions `baseVertex == NOT_ALLOCATED` and `this.clump == null` (`ClusteredDrawableStorage.java:107-108`) are its precondition. With Java assertions disabled, the default, the source also replaces the clump of an allocated or already assigned storage; the model does not cover that call. The `clump != null` assertion is the type: the argument is a `Clump`, not an optional one.
- TerrainCluster.ClusteredDrawableStorage.BaseVertex: the assertion `baseVertex != NOT_ALLOCATED` (`ClusteredDrawableStorage.java:90`) is its precondition. With assertions disabled the source returns `NOT_ALLOCATED` for an unallocated storage; the model does not cover that call.
- TerrainCluster.ClusteredDrawableStorage.BaseByteAddress: the assertion `baseVertex != NOT_ALLOCATED` (`ClusteredDrawableStorage.java:96`) is its precondition. With assertions disabled the source returns `NOT_ALLOCATED` times the stride; the model does not cover that call.
- TerrainCluster.ClusteredDrawableStorage.Upload: the assertion `baseVertex == NOT_ALLOCATED` (`ClusteredDrawableStorage.java:121`) is its precondition. With assertions disabled the source asks the owner to allocate an already allocated storage again; the model does not cover that call.
- Texture.CombinedSpriteAnimation.UploadSubImage: `0 <= level < size` is a precondition. The source throws an `ArrayIndexOutOfBoundsException` at `images[level]` (`CombinedSpriteAnimation.java:63`) before it touches the bounds; the model has no exception path.
- Texture.CombinedSpriteAnimation.UploadSubImage: the rectangle must lie inside both images (`Blit.Fits`), and the source and target images must be distinct buffers. `MemoryUtil.memCopy` (`CombinedSpriteAnimation.java:79`) copies wherever the offsets point: a run past the target's width continues into the next row, and one past the end writes outside the image. The model covers neither, nor an overlapping copy.
- Texture.CombinedSpriteAnimation.constructor: `lodCount >= -1` is a precondition. For a smaller `lodCount` the source throws a `NegativeArraySizeException` at `new NativeImage[size]` (`CombinedSpriteAnimation.java:37`); the model has no exception path.
- Occlusion.TileEdge.Position: the result is a final class only when the old position is one of the five states. The save slots start at 0 (`TileEdge.java:22`), so a `pop()` before any `push()` sets the position to 0 (`TileEdge.java:49-52`), and `position()` then returns 0 without classifying (`TileEdge.java:191-201`). The model allows that sequence and promises nothing about the class it yields.
