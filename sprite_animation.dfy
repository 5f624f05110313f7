/**
 * The combined animated-sprite texture (grondag.canvas.texture.CombinedSpriteAnimation):
 * one RGBA image per mip level, a dirty rectangle that grows with every
 * sub-image written since the last reset, the row-by-row copy of a
 * sub-image into a level's pixel buffer, and the per-level upload of the
 * dirty rectangle.
 *
 * Native images are byte arrays of four bytes per pixel, row after row; the
 * GPU upload of a level is an event appended to a trace.
 */
module Texture {
  import opened JavaInt

  /** Bytes per RGBA pixel. */
  const PIXEL_BYTES: int := 4

  /** A native RGBA image. */
  class Image {
    const width: int
    const height: int
    const bytes: array<bv8>

    ghost predicate Valid() {
      0 <= width && 0 <= height && bytes.Length == width * height * PIXEL_BYTES
    }

    constructor (width: int, height: int)
      requires 0 <= width && 0 <= height
      ensures this.width == width && this.height == height
      ensures Valid() && fresh(bytes)
    {
      this.width := width;
      this.height := height;
      bytes := new bv8[width * height * PIXEL_BYTES];
    }
  }

  /**
   * The byte offset of pixel (x, y) in an image `w` pixels wide, counted
   * one row of `w * 4` bytes at a time from row 0.
   */
  function PixelOffset(x: int, y: int, w: int): int
    decreases if y < 0 then -y else y
  {
    if y == 0 then x * PIXEL_BYTES
    else if y > 0 then PixelOffset(x, y - 1, w) + w * PIXEL_BYTES
    else PixelOffset(x, y + 1, w) - w * PIXEL_BYTES
  }

  /** The offset is `(x + y * w) * 4`, the expression uploadSubImage computes. */
  lemma {:induction false} PixelOffsetProduct(x: int, y: int, w: int)
    ensures PixelOffset(x, y, w) == (x + y * w) * PIXEL_BYTES
    decreases if y < 0 then -y else y
  {
    if y > 0 {
      PixelOffsetProduct(x, y - 1, w);
      assert (y - 1) * w + w == y * w;
    } else if y < 0 {
      PixelOffsetProduct(x, y + 1, w);
      assert (y + 1) * w - w == y * w;
    }
  }

  lemma MulMonotone(x: int, y: int, n: int)
    requires 0 <= n && x <= y
    ensures x * n <= y * n
  {
    assert y * n - x * n == (y - x) * n;
  }

  /** A run of `len` pixels starting at (x, y) inside a w by h image lies inside its bytes. */
  lemma RunInside(x: int, y: int, len: int, w: int, h: int)
    requires 0 <= x && 0 <= len && x + len <= w && 0 <= y < h
    ensures 0 <= PixelOffset(x, y, w)
    ensures PixelOffset(x, y, w) + len * PIXEL_BYTES <= w * h * PIXEL_BYTES
  {
    PixelOffsetProduct(x, y, w);
    MulMonotone(0, y, w);
    MulMonotone(y + 1, h, w);
    assert (y + 1) * w == y * w + w;
  }

  /** Runs of at most a row's width on two different rows do not overlap. */
  lemma {:induction false} RunsDisjoint(x: int, y1: int, y2: int, len: int, w: int)
    requires 0 <= x && 0 <= len && x + len <= w && y1 < y2
    ensures PixelOffset(x, y1, w) + len * PIXEL_BYTES <= PixelOffset(x, y2, w)
    decreases y2 - y1
  {
    if y2 > y1 + 1 {
      RunsDisjoint(x, y1, y2 - 1, len, w);
      if y2 - 1 < 0 {
        assert PixelOffset(x, y2 - 1, w) == PixelOffset(x, y2, w) - w * PIXEL_BYTES;
      }
    } else if y2 < 0 {
      assert PixelOffset(x, y1, w) == PixelOffset(x, y2, w) - w * PIXEL_BYTES;
    }
  }

  /** The arguments of uploadSubImage that place the copied rectangle. */
  datatype SubImage = SubImage(toX: int, toY: int, fromX: int, fromY: int, width: int, height: int)

  /** A sub-image write together with the sizes of its source and target images. */
  datatype Blit = Blit(r: SubImage, srcWidth: int, srcHeight: int, dstWidth: int, dstHeight: int)
  {
    /** The rectangle lies inside both images. */
    predicate Fits() {
      && 0 <= r.width && 0 <= r.height
      && 0 <= r.fromX && r.fromX + r.width <= srcWidth && 0 <= r.fromY && r.fromY + r.height <= srcHeight
      && 0 <= r.toX && r.toX + r.width <= dstWidth && 0 <= r.toY && r.toY + r.height <= dstHeight
    }

    /** The byte offset of row j of the rectangle in the source image. */
    function SourceRow(j: int): int {
      PixelOffset(r.fromX, r.fromY + j, srcWidth)
    }

    /** The byte offset of row j of the rectangle in the target image. */
    function TargetRow(j: int): int {
      PixelOffset(r.toX, r.toY + j, dstWidth)
    }

    /** The bytes of one row of the rectangle (runLength). */
    function RunLength(): int {
      r.width * PIXEL_BYTES
    }
  }

  /** `t` with `len` bytes at `at` replaced by the bytes of `s` at `from` (memCopy). */
  function Splice(t: seq<bv8>, at: int, s: seq<bv8>, from: int, len: int): (u: seq<bv8>)
    requires 0 <= len && 0 <= at && at + len <= |t| && 0 <= from && from + len <= |s|
    ensures |u| == |t|
  {
    seq(|t|, i requires 0 <= i < |t| => if at <= i < at + len then s[from + (i - at)] else t[i])
  }

  /** The spliced run holds the source bytes and every other byte is kept. */
  lemma SpliceBytes(t: seq<bv8>, at: int, s: seq<bv8>, from: int, len: int)
    requires 0 <= len && 0 <= at && at + len <= |t| && 0 <= from && from + len <= |s|
    ensures forall i :: 0 <= i < |t| && !(at <= i < at + len) ==> Splice(t, at, s, from, len)[i] == t[i]
    ensures forall i :: at <= i < at + len ==> Splice(t, at, s, from, len)[i] == s[from + (i - at)]
  {
  }

  /** One byte of a splice: from the source inside the run, from the target outside it. */
  lemma SpliceAt(t: seq<bv8>, at: int, s: seq<bv8>, from: int, len: int, i: int)
    requires 0 <= len && 0 <= at && at + len <= |t| && 0 <= from && from + len <= |s| && 0 <= i < |t|
    ensures Splice(t, at, s, from, len)[i] == if at <= i < at + len then s[from + (i - at)] else t[i]
  {
  }

  /** What the buffers of a copy must be: the sizes of their images. */
  predicate BlitBuffers(t: seq<bv8>, s: seq<bv8>, b: Blit) {
    && 0 <= b.srcWidth && 0 <= b.srcHeight && |s| == b.srcWidth * b.srcHeight * PIXEL_BYTES
    && 0 <= b.dstWidth && 0 <= b.dstHeight && |t| == b.dstWidth * b.dstHeight * PIXEL_BYTES
  }

  /** The target buffer after the first n rows of the rectangle were copied. */
  function CopyRows(t: seq<bv8>, s: seq<bv8>, b: Blit, n: int): (u: seq<bv8>)
    requires BlitBuffers(t, s, b)
    requires 0 <= n && (n > 0 ==> b.Fits() && n <= b.r.height)
    ensures |u| == |t|
    decreases n
  {
    if n == 0 then t
    else
      RunInside(b.r.fromX, b.r.fromY + n - 1, b.r.width, b.srcWidth, b.srcHeight);
      RunInside(b.r.toX, b.r.toY + n - 1, b.r.width, b.dstWidth, b.dstHeight);
      Splice(CopyRows(t, s, b, n - 1), b.TargetRow(n - 1), s, b.SourceRow(n - 1), b.RunLength())
  }

  /** Row j's runs lie inside both buffers. */
  lemma RowRunsInside(t: seq<bv8>, s: seq<bv8>, b: Blit, j: int)
    requires BlitBuffers(t, s, b) && b.Fits() && 0 <= j < b.r.height
    ensures 0 <= b.SourceRow(j) && b.SourceRow(j) + b.RunLength() <= |s|
    ensures 0 <= b.TargetRow(j) && b.TargetRow(j) + b.RunLength() <= |t|
  {
    RunInside(b.r.fromX, b.r.fromY + j, b.r.width, b.srcWidth, b.srcHeight);
    RunInside(b.r.toX, b.r.toY + j, b.r.width, b.dstWidth, b.dstHeight);
  }

  /** The offsets of row j as uploadSubImage computes them. */
  lemma RowOffsets(b: Blit, j: int)
    ensures b.SourceRow(j) == (b.r.fromX + (j + b.r.fromY) * b.srcWidth) * 4
    ensures b.TargetRow(j) == (b.r.toX + (j + b.r.toY) * b.dstWidth) * 4
    ensures b.RunLength() == b.r.width * 4
  {
    PixelOffsetProduct(b.r.fromX, b.r.fromY + j, b.srcWidth);
    PixelOffsetProduct(b.r.toX, b.r.toY + j, b.dstWidth);
  }

  /** Copying row j extends the copy of the rows before it by one splice, inside both buffers. */
  lemma CopyRowStep(t: seq<bv8>, s: seq<bv8>, b: Blit, j: int)
    requires BlitBuffers(t, s, b) && b.Fits() && 0 <= j < b.r.height
    ensures 0 <= b.SourceRow(j) && b.SourceRow(j) + b.RunLength() <= |s|
    ensures 0 <= b.TargetRow(j) && b.TargetRow(j) + b.RunLength() <= |t|
    ensures CopyRows(t, s, b, j + 1) == Splice(CopyRows(t, s, b, j), b.TargetRow(j), s, b.SourceRow(j), b.RunLength())
  {
    RunInside(b.r.fromX, b.r.fromY + j, b.r.width, b.srcWidth, b.srcHeight);
    RunInside(b.r.toX, b.r.toY + j, b.r.width, b.dstWidth, b.dstHeight);
  }

  /**
   * After n rows, row j < n of the rectangle in the target holds exactly the
   * run of `width * 4` bytes of row j of the rectangle in the source.
   */
  lemma {:induction false} CopiedRow(t: seq<bv8>, s: seq<bv8>, b: Blit, n: int, j: int, k: int)
    requires BlitBuffers(t, s, b)
    requires 0 < n && b.Fits() && n <= b.r.height
    requires 0 <= j < n && 0 <= k < b.RunLength()
    ensures 0 <= b.TargetRow(j) + k < |t| && 0 <= b.SourceRow(j) + k < |s|
    ensures CopyRows(t, s, b, n)[b.TargetRow(j) + k] == s[b.SourceRow(j) + k]
    decreases n
  {
    RowRunsInside(t, s, b, j);
    var prev := CopyRows(t, s, b, n - 1);
    var at, from, len := b.TargetRow(n - 1), b.SourceRow(n - 1), b.RunLength();
    CopyRowStep(t, s, b, n - 1);
    var p := b.TargetRow(j) + k;
    SpliceAt(prev, at, s, from, len, p);
    if j < n - 1 {
      CopiedRow(t, s, b, n - 1, j, k);
      RunsDisjoint(b.r.toX, b.r.toY + j, b.r.toY + n - 1, b.r.width, b.dstWidth);
      assert p < at;
    } else {
      assert at <= p < at + len;
    }
  }

  /** A target byte outside every copied row run keeps its value. */
  lemma {:induction false} UncopiedByte(t: seq<bv8>, s: seq<bv8>, b: Blit, n: int, i: int)
    requires BlitBuffers(t, s, b)
    requires 0 <= n && (n > 0 ==> b.Fits() && n <= b.r.height)
    requires 0 <= i < |t|
    requires forall j :: 0 <= j < n ==> !(b.TargetRow(j) <= i < b.TargetRow(j) + b.RunLength())
    ensures CopyRows(t, s, b, n)[i] == t[i]
    decreases n
  {
    if n > 0 {
      CopyRowStep(t, s, b, n - 1);
      SpliceAt(CopyRows(t, s, b, n - 1), b.TargetRow(n - 1), s, b.SourceRow(n - 1), b.RunLength(), i);
      UncopiedByte(t, s, b, n - 1, i);
    }
  }

  /** Copies `length` bytes between two distinct native buffers (MemoryUtil.memCopy). */
  method MemCopy(src: array<bv8>, srcOffset: int, dst: array<bv8>, dstOffset: int, length: int)
    requires src != dst
    requires 0 <= length && 0 <= srcOffset && srcOffset + length <= src.Length
    requires 0 <= dstOffset && dstOffset + length <= dst.Length
    modifies dst
    ensures dst[..] == Splice(old(dst[..]), dstOffset, src[..], srcOffset, length)
    ensures src[..] == old(src[..])
  {
    var k := 0;
    while k < length
      invariant 0 <= k <= length
      invariant forall i :: 0 <= i < dst.Length && !(dstOffset <= i < dstOffset + k) ==> dst[i] == old(dst[i])
      invariant forall i :: dstOffset <= i < dstOffset + k ==> dst[i] == src[srcOffset + (i - dstOffset)]
    {
      dst[dstOffset + k] := src[srcOffset + k];
      k := k + 1;
    }
    SpliceBytes(old(dst[..]), dstOffset, src[..], srcOffset, length);
  }

  /** The dirty rectangle: [x0, x1) by [y0, y1). */
  datatype Box = Box(x0: int, y0: int, x1: int, y1: int)

  /** The bounds reset sets: an empty box no coordinate can shrink. */
  const EMPTY: Box := Box(MAX_VALUE, MAX_VALUE, MIN_VALUE, MIN_VALUE)

  /**
   * The bounds after writing a sub-image: the smallest box containing the
   * old bounds and the written rectangle.
   */
  function Grow(box: Box, r: SubImage): (g: Box)
    ensures g.x0 <= box.x0 && g.x0 <= r.toX && (g.x0 == box.x0 || g.x0 == r.toX)
    ensures g.y0 <= box.y0 && g.y0 <= r.toY && (g.y0 == box.y0 || g.y0 == r.toY)
    ensures g.x1 >= box.x1 && g.x1 >= r.toX + r.width && (g.x1 == box.x1 || g.x1 == r.toX + r.width)
    ensures g.y1 >= box.y1 && g.y1 >= r.toY + r.height && (g.y1 == box.y1 || g.y1 == r.toY + r.height)
  {
    Box(Min(box.x0, r.toX), Min(box.y0, r.toY), Max(box.x1, r.toX + r.width), Max(box.y1, r.toY + r.height))
  }

  /** A write at a column below Integer.MAX_VALUE moves x0 off the reset sentinel. */
  lemma WriteMarksDirty(box: Box, r: SubImage)
    requires r.toX < MAX_VALUE
    ensures Grow(box, r).x0 != MAX_VALUE
  {
  }

  /** The bounds after a sequence of writes. */
  function GrowAll(box: Box, rs: seq<SubImage>): Box
    decreases |rs|
  {
    if rs == [] then box else GrowAll(Grow(box, rs[0]), rs[1..])
  }

  /**
   * The bounds after a sequence of writes: each coordinate is the starting
   * one or one of a written rectangle, and bounds all of them.
   */
  lemma {:induction false} GrowAllExtremes(box: Box, rs: seq<SubImage>)
    ensures var g := GrowAll(box, rs);
            && g.x0 <= box.x0 && (forall r :: r in rs ==> g.x0 <= r.toX)
            && (g.x0 == box.x0 || exists r :: r in rs && g.x0 == r.toX)
            && g.y0 <= box.y0 && (forall r :: r in rs ==> g.y0 <= r.toY)
            && (g.y0 == box.y0 || exists r :: r in rs && g.y0 == r.toY)
            && g.x1 >= box.x1 && (forall r :: r in rs ==> g.x1 >= r.toX + r.width)
            && (g.x1 == box.x1 || exists r :: r in rs && g.x1 == r.toX + r.width)
            && g.y1 >= box.y1 && (forall r :: r in rs ==> g.y1 >= r.toY + r.height)
            && (g.y1 == box.y1 || exists r :: r in rs && g.y1 == r.toY + r.height)
    decreases |rs|
  {
    if rs != [] {
      GrowAllExtremes(Grow(box, rs[0]), rs[1..]);
      forall r | r in rs
        ensures r == rs[0] || r in rs[1..]
      {
        var i :| 0 <= i < |rs| && rs[i] == r;
        if i > 0 {
          assert rs[1..][i - 1] == r;
        }
      }
    }
  }

  /** The final bounds do not depend on the order of the writes. */
  lemma WriteOrderIrrelevant(box: Box, rs: seq<SubImage>, qs: seq<SubImage>)
    requires multiset(rs) == multiset(qs)
    ensures GrowAll(box, rs) == GrowAll(box, qs)
  {
    GrowAllExtremes(box, rs);
    GrowAllExtremes(box, qs);
    assert forall r :: r in rs <==> r in qs by {
      forall r
        ensures r in rs <==> r in qs
      {
        assert r in rs <==> r in multiset(rs);
        assert r in qs <==> r in multiset(qs);
      }
    }
  }

  /** One call of NativeImage.upload, on image `image` of the level array. */
  datatype Upload = Upload(
    image: int, level: int, xOffset: int, yOffset: int, skipPixels: int, skipRows: int,
    width: int, height: int, mipmap: bool, autoClose: bool)

  /** The upload of mip level k: every coordinate and size of the bounds shifted right by k. */
  function LevelUpload(box: Box, size: int, k: int): Upload {
    Upload(k, k, Shr(box.x0, k), Shr(box.y0, k), Shr(box.x0, k), Shr(box.y0, k),
           Shr(box.x1 - box.x0, k), Shr(box.y1 - box.y0, k), size > 1, false)
  }

  /** The uploads of all levels, level 0 first. */
  function LevelUploads(box: Box, size: nat): (us: seq<Upload>)
    ensures |us| == size && forall k :: 0 <= k < size ==> us[k] == LevelUpload(box, size, k)
  {
    seq(size, k => LevelUpload(box, size, k))
  }

  /**
   * Level 0 uploads the bounds themselves; each further level halves the
   * offsets and sizes of the one before, rounding down.
   */
  lemma LevelUploadsHalve(box: Box, size: int, k: int)
    requires 0 <= k < 31
    ensures var u := LevelUpload(box, size, 0);
            u.xOffset == box.x0 && u.yOffset == box.y0 && u.width == box.x1 - box.x0 && u.height == box.y1 - box.y0
    ensures var u, v := LevelUpload(box, size, k), LevelUpload(box, size, k + 1);
            && v.xOffset == u.xOffset / 2 && v.yOffset == u.yOffset / 2
            && v.width == u.width / 2 && v.height == u.height / 2
  {
    assert (k + 1) % 32 == k % 32 + 1;
  }

  /**
   * The row loop of uploadSubImage: copies the rectangle one row run of
   * `width * 4` bytes at a time from `source` into `target`.
   */
  method CopyRect(source: Image, target: Image, toX: int, toY: int, fromX: int, fromY: int, width: int, height: int)
    requires source.Valid() && target.Valid()
    requires height > 0 ==>
               && Blit(SubImage(toX, toY, fromX, fromY, width, height), source.width, source.height,
                       target.width, target.height).Fits()
               && source.bytes != target.bytes
    modifies target.bytes
    ensures var b := Blit(SubImage(toX, toY, fromX, fromY, width, height), source.width, source.height,
                          target.width, target.height);
            target.bytes[..] == CopyRows(old(target.bytes[..]), source.bytes[..], b, Max(0, height))
  {
    var runLength := width * 4;
    ghost var b := Blit(SubImage(toX, toY, fromX, fromY, width, height), source.width, source.height,
                        target.width, target.height);
    ghost var t := target.bytes[..];
    ghost var sb := source.bytes[..];
    assert BlitBuffers(t, sb, b);
    var j := 0;
    while j < height
      invariant 0 <= j && (j > 0 ==> j <= height)
      invariant source.bytes[..] == sb
      invariant target.bytes[..] == CopyRows(t, sb, b, j)
    {
      var srcY := j + fromY;
      var sourceOffset := (fromX + srcY * source.width) * 4;
      var destY := j + toY;
      var targetOffset := (toX + destY * target.width) * 4;
      RowOffsets(b, j);
      CopyRowStep(t, sb, b, j);
      MemCopy(source.bytes, sourceOffset, target.bytes, targetOffset, runLength);
      j := j + 1;
    }
  }

  /** The animation texture of an atlas. */
  class CombinedSpriteAnimation {
    const images: seq<Image>
    const width: int
    const height: int
    const size: int
    var x0: int
    var y0: int
    var x1: int
    var y1: int
    var uploads: seq<Upload>

    /** Level i is a fresh (width >> i) by (height >> i) image with its own buffer. */
    ghost predicate Valid() {
      && |images| == size
      && (forall i :: 0 <= i < size ==>
            images[i].Valid() && images[i].width == Shr(width, i) && images[i].height == Shr(height, i))
      && (forall i, j :: 0 <= i < j < size ==> images[i].bytes != images[j].bytes)
    }

    ghost function Bounds(): Box
      reads this
    {
      Box(x0, y0, x1, y1)
    }

    /**
     * Allocates lodCount + 1 levels; `width` and `height` are the powers of
     * two the source computes from the atlas rectangle.
     */
    constructor (width: int, height: int, lodCount: int)
      requires 0 <= width && 0 <= height && lodCount >= -1
      ensures this.width == width && this.height == height && size == lodCount + 1
      ensures Valid() && Bounds() == EMPTY && uploads == []
    {
      this.width := width;
      this.height := height;
      size := lodCount + 1;
      var levels: seq<Image> := [];
      var i := 0;
      while i < lodCount + 1
        invariant 0 <= i <= lodCount + 1 && |levels| == i
        invariant forall k :: 0 <= k < i ==>
                    levels[k].Valid() && levels[k].width == Shr(width, k) && levels[k].height == Shr(height, k)
        invariant forall k, m :: 0 <= k < m < i ==> levels[k].bytes != levels[m].bytes
      {
        ShrOfNonNegative(width, i);
        ShrOfNonNegative(height, i);
        var image := new Image(Shr(width, i), Shr(height, i));
        levels := levels + [image];
        i := i + 1;
      }
      images := levels;
      uploads := [];
      new;
      Reset();
    }

    /** Empties the dirty rectangle. */
    method Reset()
      modifies this`x0, this`y0, this`x1, this`y1
      ensures Bounds() == EMPTY
    {
      x0 := MAX_VALUE;
      y0 := MAX_VALUE;
      x1 := MIN_VALUE;
      y1 := MIN_VALUE;
    }

    /**
     * Copies a width by height rectangle of `source` at (fromX, fromY) into
     * level `level` at (toX, toY), row by row, and grows the dirty rectangle
     * to cover it.
     */
    method UploadSubImage(source: Image, level: int, toX: int, toY: int, fromX: int, fromY: int, width: int, height: int)
      requires Valid() && source.Valid() && 0 <= level < size
      requires height > 0 ==>
                 && Blit(SubImage(toX, toY, fromX, fromY, width, height), source.width, source.height,
                         images[level].width, images[level].height).Fits()
                 && source.bytes != images[level].bytes
      modifies images[level].bytes, this`x0, this`y0, this`x1, this`y1
      ensures Bounds() == Grow(old(Bounds()), SubImage(toX, toY, fromX, fromY, width, height))
      ensures var b := Blit(SubImage(toX, toY, fromX, fromY, width, height), source.width, source.height,
                            images[level].width, images[level].height);
              images[level].bytes[..] == CopyRows(old(images[level].bytes[..]), source.bytes[..], b, Max(0, height))
    {
      var target := images[level];
      x0 := Min(x0, toX);
      y0 := Min(y0, toY);
      x1 := Max(x1, toX + width);
      y1 := Max(y1, toY + height);
      CopyRect(source, target, toX, toY, fromX, fromY, width, height);
    }

    /**
     * Uploads the dirty rectangle to every mip level, shifted right by the
     * level; nothing when no sub-image was written since the last reset.
     */
    method UploadCombined()
      requires Valid()
      modifies this`uploads
      ensures uploads == old(uploads) + (if x0 == MAX_VALUE then [] else LevelUploads(Bounds(), size))
    {
      if x0 != MAX_VALUE {
        var k := 0;
        while k < size
          invariant 0 <= k <= size
          invariant uploads == old(uploads) + LevelUploads(Bounds(), size)[..k]
        {
          uploads := uploads + [Upload(k, k, Shr(x0, k), Shr(y0, k), Shr(x0, k), Shr(y0, k),
                                       Shr(x1 - x0, k), Shr(y1 - y0, k), size > 1, false)];
          k := k + 1;
        }
      }
    }
  }
}
