/** The "DCT" strategy: the image is tiled by `blockSize x blockSize` blocks,
    clipped at the right and bottom edges, and every pixel's R, G and B are
    replaced by the floor of its block's mean. Alpha is left alone. */
module BlockAveraging {
  import opened Rounding
  import opened Raster
  import opened Slider

  /** `Math.max(2, Math.round((100 - quality) / 10 + 1))`, that is the rounded
      value of (110 - q) / 10, never below 2. */
  function BlockSize(q: Quality): (bs: nat)
    ensures 2 <= bs <= 11
    ensures bs > 2 ==> 20 * bs <= 230 - 2 * q < 20 * (bs + 1)
    ensures bs == 2 <==> q >= 86
  {
    Max(2, RoundHalfUp(110 - q, 10))
  }

  /** The finest blocks, 2 x 2, at qualities 95 to 100. */
  lemma BlockSizeHighQuality()
    ensures BlockSize(100) == 2 && BlockSize(95) == 2
  {
  }

  /** The coarsest blocks, 11 x 11, at qualities 1 to 5. */
  lemma BlockSizeLowQuality()
    ensures BlockSize(5) == 11 && BlockSize(1) == 11
  {
  }

  /** Quality 10 gives 10 x 10 blocks. */
  lemma BlockSizeAtTen()
    ensures BlockSize(10) == 10
  {
  }

  /** Higher quality never gives larger blocks. */
  lemma BlockSizeAntitone(q1: Quality, q2: Quality)
    requires q1 <= q2
    ensures BlockSize(q2) <= BlockSize(q1)
  {
  }

  /** Exclusive end of the clipped block that starts at o on a side of length n:
      where the loop `b < blockSize && o + b < n` stops. */
  function ClipEnd(o: nat, bs: nat, n: nat): nat
  {
    if o + bs < n then o + bs else n
  }

  /** Sum of channel c over pixels x0 .. x1-1 of row y. */
  function RowSum(data: seq<Byte>, w: nat, h: nat, y: nat, x0: nat, x1: nat, c: nat): (s: nat)
    requires |data| == w * h * 4 && y < h && x0 <= x1 <= w && c < 4
    ensures s <= 255 * (x1 - x0)
    decreases x1 - x0
  {
    if x1 == x0 then 0
    else
      IdxInBounds(w, h, x1 - 1, y, c);
      RowSum(data, w, h, y, x0, x1 - 1, c) + data[Idx(w, x1 - 1, y, c)]
  }

  /** Sum of channel c over the rectangle of rows y0 .. y1-1 and columns x0 .. x1-1. */
  function RectSum(data: seq<Byte>, w: nat, h: nat, y0: nat, y1: nat, x0: nat, x1: nat, c: nat): (s: nat)
    requires |data| == w * h * 4 && y0 <= y1 <= h && x0 <= x1 <= w && c < 4
    ensures s <= 255 * ((y1 - y0) * (x1 - x0))
    decreases y1 - y0
  {
    if y1 == y0 then 0
    else
      var s := RectSum(data, w, h, y0, y1 - 1, x0, x1, c) + RowSum(data, w, h, y1 - 1, x0, x1, c);
      assert (y1 - y0) * (x1 - x0) == (y1 - 1 - y0) * (x1 - x0) + (x1 - x0);
      s
  }

  /** Number of pixels in the clipped block whose top-left corner is (x0, y0). */
  function BlockArea(w: nat, h: nat, bs: nat, x0: nat, y0: nat): (n: nat)
    requires bs >= 1 && x0 < w && y0 < h
    ensures n >= 1
  {
    MulAtLeast(ClipEnd(y0, bs, h) - y0, ClipEnd(x0, bs, w) - x0);
    (ClipEnd(y0, bs, h) - y0) * (ClipEnd(x0, bs, w) - x0)
  }

  /** Total of channel c over the clipped block whose top-left corner is (x0, y0). */
  function BlockSum(data: seq<Byte>, w: nat, h: nat, bs: nat, x0: nat, y0: nat, c: nat): nat
    requires |data| == w * h * 4 && bs >= 1 && x0 < w && y0 < h && c < 4
  {
    RectSum(data, w, h, y0, ClipEnd(y0, bs, h), x0, ClipEnd(x0, bs, w), c)
  }

  /** Floor of the mean of channel c over that block. */
  function BlockMean(data: seq<Byte>, w: nat, h: nat, bs: nat, x0: nat, y0: nat, c: nat): (m: Byte)
    requires |data| == w * h * 4 && bs >= 1 && x0 < w && y0 < h && c < 4
    ensures m * BlockArea(w, h, bs, x0, y0) <= BlockSum(data, w, h, bs, x0, y0, c)
            < (m + 1) * BlockArea(w, h, bs, x0, y0)
  {
    var n := BlockArea(w, h, bs, x0, y0);
    var s := BlockSum(data, w, h, bs, x0, y0, c);
    assert s < 256 * n;
    FloorDivBetween(s, n, 0, 255);
    FloorMultiple(s, n);
    assert (s / n + 1) * n == (s / n) * n + n;
    s / n
  }

  /** First coordinate of the block that coordinate p falls in: the block
      boundary at or below p. */
  function Origin(p: nat, bs: nat): (o: nat)
    requires bs >= 1
    ensures o <= p < o + bs
    ensures o % bs == 0
  {
    FloorMultiple(p, bs);
    MultipleDiv(p / bs, bs);
    (p / bs) * bs
  }

  /** The value the pass must leave at position i: alpha as it was, R, G and B
      the floor-mean of the pixel's block in the ORIGINAL buffer. */
  function Averaged(data: seq<Byte>, w: nat, h: nat, bs: nat, i: nat): Byte
    requires |data| == w * h * 4 && bs >= 1 && i < |data|
  {
    CoordinatesIdx(w, h, i);
    if Channel(i) == 3 then data[i]
    else BlockMean(data, w, h, bs, Origin(Column(w, i), bs), Origin(Row(w, i), bs), Channel(i))
  }

  /** The block-averaged image as a function of the original. */
  function BlockAverage(data: seq<Byte>, w: nat, h: nat, bs: nat): (out: seq<Byte>)
    requires |data| == w * h * 4 && bs >= 1
    ensures |out| == |data|
  {
    seq(|data|, i requires 0 <= i < |data| => Averaged(data, w, h, bs, i))
  }

  function ChannelOf(r: Byte, g: Byte, b: Byte, c: nat): Byte
  {
    if c == 0 then r else if c == 1 then g else b
  }

  /** Position i belongs to a pixel of the (unclipped) block with corner (x, y). */
  predicate InBlock(w: nat, bs: nat, x: nat, y: nat, i: nat)
  {
    x <= Column(w, i) < x + bs && y <= Row(w, i) < y + bs
  }

  /** The inner accumulation loop: totals of R, G and B over pixels
      x .. ClipEnd(x)-1 of row y, and how many pixels that is. */
  method SumRowOfBlock(buf: seq<Byte>, w: nat, h: nat, bs: nat, x: nat, y: nat)
    returns (r: nat, g: nat, b: nat, count: nat)
    requires |buf| == w * h * 4 && x < w && y < h
    ensures r == RowSum(buf, w, h, y, x, ClipEnd(x, bs, w), 0)
    ensures g == RowSum(buf, w, h, y, x, ClipEnd(x, bs, w), 1)
    ensures b == RowSum(buf, w, h, y, x, ClipEnd(x, bs, w), 2)
    ensures count == ClipEnd(x, bs, w) - x
  {
    r, g, b, count := 0, 0, 0, 0;
    var dx := 0;
    while dx < bs && x + dx < w
      invariant 0 <= dx <= bs && x + dx <= ClipEnd(x, bs, w)
      invariant r == RowSum(buf, w, h, y, x, x + dx, 0)
      invariant g == RowSum(buf, w, h, y, x, x + dx, 1)
      invariant b == RowSum(buf, w, h, y, x, x + dx, 2)
      invariant count == dx
    {
      IdxInBounds(w, h, x + dx, y, 3);
      var idx := 4 * (y * w + (x + dx));
      r := r + buf[idx];
      g := g + buf[idx + 1];
      b := b + buf[idx + 2];
      count := count + 1;
      dx := dx + 1;
    }
  }

  /** The accumulation loops of one block: totals of R, G and B over the clipped
      block of the CURRENT buffer, and the pixel count. */
  method SumBlock(buf: seq<Byte>, w: nat, h: nat, bs: nat, x: nat, y: nat)
    returns (r: nat, g: nat, b: nat, count: nat)
    requires |buf| == w * h * 4 && bs >= 1 && x < w && y < h
    ensures r == BlockSum(buf, w, h, bs, x, y, 0)
    ensures g == BlockSum(buf, w, h, bs, x, y, 1)
    ensures b == BlockSum(buf, w, h, bs, x, y, 2)
    ensures count == BlockArea(w, h, bs, x, y) && count >= 1
  {
    r, g, b, count := 0, 0, 0, 0;
    ghost var x1 := ClipEnd(x, bs, w);
    var dy := 0;
    while dy < bs && y + dy < h
      invariant 0 <= dy <= bs && y + dy <= ClipEnd(y, bs, h)
      invariant r == RectSum(buf, w, h, y, y + dy, x, x1, 0)
      invariant g == RectSum(buf, w, h, y, y + dy, x, x1, 1)
      invariant b == RectSum(buf, w, h, y, y + dy, x, x1, 2)
      invariant count == dy * (x1 - x)
    {
      var rr, gg, bb, n := SumRowOfBlock(buf, w, h, bs, x, y + dy);
      r, g, b, count := r + rr, g + gg, b + bb, count + n;
      assert (dy + 1) * (x1 - x) == dy * (x1 - x) + (x1 - x);
      dy := dy + 1;
    }
  }

  /** The write loops of one block: every pixel of the clipped block gets the
      colour (r, g, b); alpha and every other pixel are untouched. */
  method PaintBlock(buf: seq<Byte>, w: nat, h: nat, bs: nat, x: nat, y: nat, r: Byte, g: Byte, b: Byte)
    returns (out: seq<Byte>)
    requires |buf| == w * h * 4 && bs >= 1 && x < w && y < h
    ensures |out| == |buf|
    ensures forall i | 0 <= i < |buf| ::
      out[i] == (if InBlock(w, bs, x, y, i) && Channel(i) < 3 then ChannelOf(r, g, b, Channel(i)) else buf[i])
  {
    out := buf;
    var dy := 0;
    while dy < bs && y + dy < h
      invariant 0 <= dy <= bs && y + dy <= h
      invariant |out| == |buf|
      invariant forall i | 0 <= i < |buf| ::
        out[i] == (if PaintedRows(w, bs, x, y, dy, i) && Channel(i) < 3 then ChannelOf(r, g, b, Channel(i)) else buf[i])
    {
      var n := if x + bs <= w then bs else w - x;
      out := PaintRow(out, w, h, x, y + dy, n, r, g, b);
      forall i | 0 <= i < |buf|
        ensures PaintedRows(w, bs, x, y, dy + 1, i) <==> PaintedRows(w, bs, x, y, dy, i) || PaintedInRow(w, x, y + dy, n, i)
      {
        CoordinatesIdx(w, h, i);
      }
      dy := dy + 1;
    }
    forall i | 0 <= i < |buf|
      ensures PaintedRows(w, bs, x, y, dy, i) <==> InBlock(w, bs, x, y, i)
    {
      CoordinatesIdx(w, h, i);
    }
  }

  /** The inner write loop: pixels x .. x+n-1 of row y get the colour (r, g, b). */
  method PaintRow(buf: seq<Byte>, w: nat, h: nat, x: nat, y: nat, n: nat, r: Byte, g: Byte, b: Byte)
    returns (out: seq<Byte>)
    requires |buf| == w * h * 4 && x + n <= w && y < h
    ensures |out| == |buf|
    ensures forall i | 0 <= i < |buf| ::
      out[i] == (if PaintedInRow(w, x, y, n, i) && Channel(i) < 3 then ChannelOf(r, g, b, Channel(i)) else buf[i])
  {
    out := buf;
    var dx := 0;
    while dx < n
      invariant 0 <= dx <= n
      invariant |out| == |buf|
      invariant forall i | 0 <= i < |buf| ::
        out[i] == (if PaintedInRow(w, x, y, dx, i) && Channel(i) < 3 then ChannelOf(r, g, b, Channel(i)) else buf[i])
    {
      IdxInBounds(w, h, x + dx, y, 3);
      var idx := 4 * (y * w + (x + dx));
      out := out[idx := r][idx + 1 := g][idx + 2 := b];
      forall i | 0 <= i < |buf|
        ensures out[i] == (if PaintedInRow(w, x, y, dx + 1, i) && Channel(i) < 3 then ChannelOf(r, g, b, Channel(i)) else buf[i])
      {
        SamePixel(w, h, i, x + dx, y);
        if idx <= i < idx + 4 {
          IdxCoordinates(w, x + dx, y, i - idx);
        }
      }
      dx := dx + 1;
    }
  }

  /** Pixels in rows y .. y+dy-1 of the block with corner (x, y). */
  predicate PaintedRows(w: nat, bs: nat, x: nat, y: nat, dy: nat, i: nat)
  {
    x <= Column(w, i) < x + bs && y <= Row(w, i) < y + dy
  }

  /** Pixels x .. x+dx-1 of row y. */
  predicate PaintedInRow(w: nat, x: nat, y: nat, dx: nat, i: nat)
  {
    Row(w, i) == y && x <= Column(w, i) < x + dx
  }

  /** Position i lies in rows y0 .. y1-1 and columns x0 .. x1-1. */
  predicate InRect(w: nat, y0: nat, y1: nat, x0: nat, x1: nat, i: nat)
  {
    y0 <= Row(w, i) < y1 && x0 <= Column(w, i) < x1
  }

  /** Two buffers that agree on channel c of a rectangle have the same row sums there. */
  lemma {:induction false} RowSumAgree(a: seq<Byte>, b: seq<Byte>, w: nat, h: nat, y: nat, x0: nat, x1: nat, c: nat)
    requires |a| == w * h * 4 && |b| == |a| && y < h && x0 <= x1 <= w && c < 4
    requires forall i | 0 <= i < |a| && InRect(w, y, y + 1, x0, x1, i) && Channel(i) == c :: a[i] == b[i]
    ensures RowSum(a, w, h, y, x0, x1, c) == RowSum(b, w, h, y, x0, x1, c)
    decreases x1 - x0
  {
    if x1 > x0 {
      RowSumAgree(a, b, w, h, y, x0, x1 - 1, c);
      IdxInBounds(w, h, x1 - 1, y, c);
      IdxCoordinates(w, x1 - 1, y, c);
    }
  }

  lemma {:induction false} RectSumAgree(a: seq<Byte>, b: seq<Byte>, w: nat, h: nat, y0: nat, y1: nat, x0: nat, x1: nat, c: nat)
    requires |a| == w * h * 4 && |b| == |a| && y0 <= y1 <= h && x0 <= x1 <= w && c < 4
    requires forall i | 0 <= i < |a| && InRect(w, y0, y1, x0, x1, i) && Channel(i) == c :: a[i] == b[i]
    ensures RectSum(a, w, h, y0, y1, x0, x1, c) == RectSum(b, w, h, y0, y1, x0, x1, c)
    decreases y1 - y0
  {
    if y1 > y0 {
      RectSumAgree(a, b, w, h, y0, y1 - 1, x0, x1, c);
      RowSumAgree(a, b, w, h, y1 - 1, x0, x1, c);
    }
  }

  /** Block (kx, ky) comes before the block of position i in row-major order:
      the blocks the loop has already written when it reaches (kx, ky). */
  predicate Done(w: nat, bs: nat, ky: nat, kx: nat, i: nat)
    requires bs >= 1
  {
    Row(w, i) / bs < ky || (Row(w, i) / bs == ky && Column(w, i) / bs < kx)
  }

  /** The loop invariant: every block before (kx, ky) holds its averaged colour,
      every other sample still holds its original value. */
  ghost predicate Progress(buf: seq<Byte>, data: seq<Byte>, w: nat, h: nat, bs: nat, ky: nat, kx: nat)
    requires bs >= 1
  {
    && |data| == w * h * 4
    && |buf| == |data|
    && forall i | 0 <= i < |buf| ::
         buf[i] == (if Done(w, bs, ky, kx, i) then Averaged(data, w, h, bs, i) else data[i])
  }

  /** The block the loop is about to read has not been written yet, so its
      sums over the working buffer are those of the original. */
  lemma UntouchedBlockSum(buf: seq<Byte>, data: seq<Byte>, w: nat, h: nat, bs: nat, ky: nat, kx: nat, c: nat)
    requires bs >= 1 && kx * bs < w && ky * bs < h && c < 4
    requires Progress(buf, data, w, h, bs, ky, kx)
    ensures BlockSum(buf, w, h, bs, kx * bs, ky * bs, c) == BlockSum(data, w, h, bs, kx * bs, ky * bs, c)
  {
    var x0, y0 := kx * bs, ky * bs;
    var x1, y1 := ClipEnd(x0, bs, w), ClipEnd(y0, bs, h);
    forall i | 0 <= i < |buf| && InRect(w, y0, y1, x0, x1, i) && Channel(i) == c
      ensures buf[i] == data[i]
    {
      WindowIndex(Column(w, i), bs, kx);
      WindowIndex(Row(w, i), bs, ky);
    }
    RectSumAgree(buf, data, w, h, y0, y1, x0, x1, c);
  }

  /** Hence the mean the loop computes for that block is the mean of the original. */
  lemma UntouchedBlockMean(buf: seq<Byte>, data: seq<Byte>, w: nat, h: nat, bs: nat, ky: nat, kx: nat, c: nat)
    requires bs >= 1 && kx * bs < w && ky * bs < h && c < 4
    requires Progress(buf, data, w, h, bs, ky, kx)
    ensures BlockSum(buf, w, h, bs, kx * bs, ky * bs, c) / BlockArea(w, h, bs, kx * bs, ky * bs)
            == BlockMean(data, w, h, bs, kx * bs, ky * bs, c)
  {
    UntouchedBlockSum(buf, data, w, h, bs, ky, kx, c);
  }

  /** Writing block (kx, ky) with its means advances the invariant by one block. */
  lemma PaintedProgress(buf: seq<Byte>, painted: seq<Byte>, data: seq<Byte>, w: nat, h: nat, bs: nat,
                        ky: nat, kx: nat, r: Byte, g: Byte, b: Byte)
    requires bs >= 1 && kx * bs < w && ky * bs < h
    requires Progress(buf, data, w, h, bs, ky, kx)
    requires r == BlockMean(data, w, h, bs, kx * bs, ky * bs, 0)
    requires g == BlockMean(data, w, h, bs, kx * bs, ky * bs, 1)
    requires b == BlockMean(data, w, h, bs, kx * bs, ky * bs, 2)
    requires |painted| == |buf|
    requires forall i | 0 <= i < |buf| ::
      painted[i] == (if InBlock(w, bs, kx * bs, ky * bs, i) && Channel(i) < 3 then ChannelOf(r, g, b, Channel(i)) else buf[i])
    ensures Progress(painted, data, w, h, bs, ky, kx + 1)
  {
    forall i | 0 <= i < |painted|
      ensures painted[i] == (if Done(w, bs, ky, kx + 1, i) then Averaged(data, w, h, bs, i) else data[i])
    {
      CoordinatesIdx(w, h, i);
      WindowIndex(Column(w, i), bs, kx);
      WindowIndex(Row(w, i), bs, ky);
    }
  }

  /** Past the right edge, a row of blocks is complete. */
  lemma RowOfBlocksDone(buf: seq<Byte>, data: seq<Byte>, w: nat, h: nat, bs: nat, ky: nat, kx: nat)
    requires bs >= 1 && kx * bs >= w
    requires Progress(buf, data, w, h, bs, ky, kx)
    ensures Progress(buf, data, w, h, bs, ky + 1, 0)
  {
    forall i | 0 <= i < |buf|
      ensures Done(w, bs, ky, kx, i) == Done(w, bs, ky + 1, 0, i)
    {
      DoneAtRowEnd(w, h, bs, ky, kx, i);
    }
  }

  lemma DoneAtRowEnd(w: nat, h: nat, bs: nat, ky: nat, kx: nat, i: nat)
    requires bs >= 1 && kx * bs >= w && i < w * h * 4
    ensures Done(w, bs, ky, kx, i) == Done(w, bs, ky + 1, 0, i)
  {
    CoordinatesIdx(w, h, i);
    var col := Column(w, i);
    FloorMultiple(col, bs);
    if col / bs >= kx {
      MulLe(kx, col / bs, bs);
    }
  }

  lemma NotDoneAtStart(w: nat, bs: nat, i: nat)
    requires bs >= 1
    ensures !Done(w, bs, 0, 0, i)
  {
    FloorMultiple(Row(w, i), bs);
    FloorMultiple(Column(w, i), bs);
  }

  /** Before the first block nothing is done. */
  lemma NothingDone(data: seq<Byte>, w: nat, h: nat, bs: nat)
    requires bs >= 1 && |data| == w * h * 4
    ensures Progress(data, data, w, h, bs, 0, 0)
  {
    forall i | 0 <= i < |data|
      ensures !Done(w, bs, 0, 0, i)
    {
      NotDoneAtStart(w, bs, i);
    }
  }

  /** Past the bottom edge, every block is complete. */
  lemma AllBlocksDone(buf: seq<Byte>, data: seq<Byte>, w: nat, h: nat, bs: nat, ky: nat)
    requires bs >= 1 && ky * bs >= h
    requires Progress(buf, data, w, h, bs, ky, 0)
    ensures buf == BlockAverage(data, w, h, bs)
  {
    forall i | 0 <= i < |buf|
      ensures buf[i] == BlockAverage(data, w, h, bs)[i]
    {
      CoordinatesIdx(w, h, i);
      var row := Row(w, i);
      FloorMultiple(row, bs);
      if row / bs >= ky {
        MulLe(ky, row / bs, bs);
      }
    }
  }

  /** One iteration of the loop over blocks: sum block (kx, ky) of the working
      buffer, take the floor of each mean, and write it over the block. */
  method AverageBlock(buf: seq<Byte>, ghost data: seq<Byte>, w: nat, h: nat, bs: nat, x: nat, y: nat,
                      ghost ky: nat, ghost kx: nat)
    returns (out: seq<Byte>)
    requires bs >= 1 && x == kx * bs && y == ky * bs && x < w && y < h
    requires Progress(buf, data, w, h, bs, ky, kx)
    ensures Progress(out, data, w, h, bs, ky, kx + 1)
  {
    var r, g, b, count := SumBlock(buf, w, h, bs, x, y);
    UntouchedBlockMean(buf, data, w, h, bs, ky, kx, 0);
    UntouchedBlockMean(buf, data, w, h, bs, ky, kx, 1);
    UntouchedBlockMean(buf, data, w, h, bs, ky, kx, 2);
    var mr, mg, mb := r / count, g / count, b / count;
    out := PaintBlock(buf, w, h, bs, x, y, mr, mg, mb);
    PaintedProgress(buf, out, data, w, h, bs, ky, kx, mr, mg, mb);
  }

  /** The block-averaging pass as the page runs it: blocks in row-major
      order, each summed from the working buffer and then overwritten in place.
      Its result is the per-pixel specification, because blocks are disjoint. */
  method AverageBlocks(data: seq<Byte>, w: nat, h: nat, q: Quality) returns (out: seq<Byte>)
    requires |data| == w * h * 4
    ensures out == BlockAverage(data, w, h, BlockSize(q))
    ensures forall i | 0 <= i < |out| && Channel(i) == 3 :: out[i] == data[i]
  {
    var blockSize := BlockSize(q);
    out := data;
    NothingDone(data, w, h, blockSize);
    var y := 0;
    ghost var ky := 0;
    while y < h
      invariant y == ky * blockSize
      invariant Progress(out, data, w, h, blockSize, ky, 0)
    {
      out := AverageRowOfBlocks(out, data, w, h, blockSize, y, ky);
      Distrib(blockSize, ky, 1);
      y, ky := y + blockSize, ky + 1;
    }
    AllBlocksDone(out, data, w, h, blockSize, ky);
    BlockAverageKeepsAlpha(data, w, h, blockSize);
  }

  /** The specification leaves every alpha sample as it was. */
  lemma BlockAverageKeepsAlpha(data: seq<Byte>, w: nat, h: nat, bs: nat)
    requires |data| == w * h * 4 && bs >= 1
    ensures forall i | 0 <= i < |data| && Channel(i) == 3 :: BlockAverage(data, w, h, bs)[i] == data[i]
  {
  }

  /** The loop over the blocks of one block row, left to right. */
  method AverageRowOfBlocks(buf: seq<Byte>, ghost data: seq<Byte>, w: nat, h: nat, bs: nat, y: nat, ghost ky: nat)
    returns (out: seq<Byte>)
    requires bs >= 1 && y == ky * bs && y < h
    requires Progress(buf, data, w, h, bs, ky, 0)
    ensures Progress(out, data, w, h, bs, ky + 1, 0)
  {
    out := buf;
    var x := 0;
    ghost var kx := 0;
    while x < w
      invariant x == kx * bs
      invariant Progress(out, data, w, h, bs, ky, kx)
    {
      out := AverageBlock(out, data, w, h, bs, x, y, ky, kx);
      x, kx := x + bs, kx + 1;
      assert kx * bs == (kx - 1) * bs + bs;
    }
    RowOfBlocksDone(out, data, w, h, bs, ky, kx);
  }

  /** Positions i and j belong to pixels of the same block. */
  predicate SameBlock(w: nat, bs: nat, i: nat, j: nat)
    requires bs >= 1
  {
    Column(w, i) / bs == Column(w, j) / bs && Row(w, i) / bs == Row(w, j) / bs
  }

  /** Every pixel lies in exactly one clipped block: block (kx, ky) contains
      pixel (x, y) if and only if kx = x / bs and ky = y / bs. */
  lemma PixelInExactlyOneBlock(w: nat, h: nat, bs: nat, x: nat, y: nat, kx: nat, ky: nat)
    requires bs >= 1 && x < w && y < h
    ensures (kx * bs <= x < ClipEnd(kx * bs, bs, w) && ky * bs <= y < ClipEnd(ky * bs, bs, h))
            <==> (kx == x / bs && ky == y / bs)
  {
    WindowIndex(x, bs, kx);
    WindowIndex(y, bs, ky);
  }

  /** The clipped rectangle of position i's block holds exactly the positions of its block. */
  lemma BlockRect(w: nat, h: nat, bs: nat, i: nat, j: nat)
    requires bs >= 1 && i < w * h * 4 && j < w * h * 4
    ensures InRect(w, Origin(Row(w, i), bs), ClipEnd(Origin(Row(w, i), bs), bs, h),
                   Origin(Column(w, i), bs), ClipEnd(Origin(Column(w, i), bs), bs, w), j)
            <==> SameBlock(w, bs, i, j)
  {
    CoordinatesIdx(w, h, i);
    CoordinatesIdx(w, h, j);
    WindowIndex(Column(w, j), bs, Column(w, i) / bs);
    WindowIndex(Row(w, j), bs, Row(w, i) / bs);
  }

  /** a added to itself n times. The sum bounds below are stated with it so
      that each induction step is linear. */
  function Times(a: int, n: nat): int
  {
    if n == 0 then 0 else Times(a, n - 1) + a
  }

  lemma {:induction false} TimesIsProduct(a: int, n: nat)
    ensures Times(a, n) == a * n
  {
    if n > 0 {
      TimesIsProduct(a, n - 1);
      Distrib(a, n - 1, 1);
    }
  }

  /** Bounds on a row's samples bound its sum. */
  lemma {:induction false} RowSumBetween(data: seq<Byte>, w: nat, h: nat, y: nat, x0: nat, x1: nat, c: nat, lo: int, hi: int)
    requires |data| == w * h * 4 && y < h && x0 <= x1 <= w && c < 4
    requires forall i | 0 <= i < |data| && InRect(w, y, y + 1, x0, x1, i) && Channel(i) == c :: lo <= data[i] <= hi
    ensures Times(lo, x1 - x0) <= RowSum(data, w, h, y, x0, x1, c) <= Times(hi, x1 - x0)
    decreases x1 - x0
  {
    if x1 > x0 {
      var i := Idx(w, x1 - 1, y, c);
      assert i < |data| && InRect(w, y, y + 1, x0, x1, i) && Channel(i) == c by {
        IdxInBounds(w, h, x1 - 1, y, c);
        IdxCoordinates(w, x1 - 1, y, c);
      }
      RowSumBetween(data, w, h, y, x0, x1 - 1, c, lo, hi);
    }
  }

  /** Bounds on a rectangle's samples bound its sum. */
  lemma {:induction false} RectSumBetween(data: seq<Byte>, w: nat, h: nat, y0: nat, y1: nat, x0: nat, x1: nat, c: nat, lo: int, hi: int)
    requires |data| == w * h * 4 && y0 <= y1 <= h && x0 <= x1 <= w && c < 4
    requires forall i | 0 <= i < |data| && InRect(w, y0, y1, x0, x1, i) && Channel(i) == c :: lo <= data[i] <= hi
    ensures Times(Times(lo, x1 - x0), y1 - y0) <= RectSum(data, w, h, y0, y1, x0, x1, c)
            <= Times(Times(hi, x1 - x0), y1 - y0)
    decreases y1 - y0
  {
    if y1 > y0 {
      RectSumBetween(data, w, h, y0, y1 - 1, x0, x1, c, lo, hi);
      RowSumBetween(data, w, h, y1 - 1, x0, x1, c, lo, hi);
    }
  }

  /** The repeated sums of RectSumBetween are the products of the block's bounds and area. */
  lemma RectBoundsAreProducts(lo: int, rows: nat, cols: nat)
    ensures Times(Times(lo, cols), rows) == lo * (rows * cols)
  {
    TimesIsProduct(lo, cols);
    TimesIsProduct(lo * cols, rows);
    assert (lo * cols) * rows == lo * (rows * cols);
  }

  /** Each averaged channel lies between the smallest and the largest value
      that channel had in the block. */
  lemma BlockAverageWithin(data: seq<Byte>, w: nat, h: nat, bs: nat, i: nat, lo: int, hi: int)
    requires |data| == w * h * 4 && bs >= 1 && i < |data| && Channel(i) < 3
    requires forall j | 0 <= j < |data| && SameBlock(w, bs, i, j) && Channel(j) == Channel(i) :: lo <= data[j] <= hi
    ensures lo <= BlockAverage(data, w, h, bs)[i] <= hi
  {
    CoordinatesIdx(w, h, i);
    var x0, y0 := Origin(Column(w, i), bs), Origin(Row(w, i), bs);
    var x1, y1 := ClipEnd(x0, bs, w), ClipEnd(y0, bs, h);
    forall j | 0 <= j < |data| && InRect(w, y0, y1, x0, x1, j) && Channel(j) == Channel(i)
      ensures lo <= data[j] <= hi
    {
      BlockRect(w, h, bs, i, j);
    }
    RectSumBetween(data, w, h, y0, y1, x0, x1, Channel(i), lo, hi);
    RectBoundsAreProducts(lo, y1 - y0, x1 - x0);
    RectBoundsAreProducts(hi, y1 - y0, x1 - x0);
    var n := BlockArea(w, h, bs, x0, y0);
    assert (hi + 1) * n == hi * n + n;
    FloorDivBetween(BlockSum(data, w, h, bs, x0, y0, Channel(i)), n, lo, hi);
  }

  /** After the pass every pixel of a block has the same R, G and B. */
  lemma BlockAverageUniform(data: seq<Byte>, w: nat, h: nat, bs: nat, i: nat, j: nat)
    requires |data| == w * h * 4 && bs >= 1 && i < |data| && j < |data|
    requires SameBlock(w, bs, i, j) && Channel(i) == Channel(j) && Channel(i) < 3
    ensures BlockAverage(data, w, h, bs)[i] == BlockAverage(data, w, h, bs)[j]
  {
  }

  /** Running the pass again with the same block size changes nothing: each
      block is already flat, and the mean of a flat block is its colour. */
  lemma BlockAverageIdempotent(data: seq<Byte>, w: nat, h: nat, bs: nat)
    requires |data| == w * h * 4 && bs >= 1
    ensures BlockAverage(BlockAverage(data, w, h, bs), w, h, bs) == BlockAverage(data, w, h, bs)
  {
    var once := BlockAverage(data, w, h, bs);
    var twice := BlockAverage(once, w, h, bs);
    forall i | 0 <= i < |data|
      ensures twice[i] == once[i]
    {
      if Channel(i) < 3 {
        forall j | 0 <= j < |once| && SameBlock(w, bs, i, j) && Channel(j) == Channel(i)
          ensures once[i] <= once[j] <= once[i]
        {
          BlockAverageUniform(data, w, h, bs, i, j);
        }
        BlockAverageWithin(once, w, h, bs, i, once[i], once[i]);
      }
    }
  }

  /** Width of the k-th clipped block along a side of length n (0 past the edge). */
  function Span(k: nat, bs: nat, n: nat): nat
  {
    if k * bs < n then ClipEnd(k * bs, bs, n) - k * bs else 0
  }

  /** Total width of the first k clipped blocks along a side. */
  function SpanTotal(k: nat, bs: nat, n: nat): nat
  {
    if k == 0 then 0 else SpanTotal(k - 1, bs, n) + Span(k - 1, bs, n)
  }

  /** How many blocks the loop visits along a side of length n. */
  function BlockCount(n: nat, bs: nat): nat
    requires bs >= 1
  {
    (n + bs - 1) / bs
  }

  /** The first k blocks cover min(k * bs, n) units of the side, without gap or overlap. */
  lemma {:induction false} SpanTotalClips(k: nat, bs: nat, n: nat)
    requires bs >= 1
    ensures SpanTotal(k, bs, n) == if k * bs < n then k * bs else n
  {
    if k > 0 {
      SpanTotalClips(k - 1, bs, n);
      assert k * bs == (k - 1) * bs + bs;
    }
  }

  /** The blocks the loop visits along a side are all non-empty and their
      widths add up to the side. */
  lemma SpansCoverSide(n: nat, bs: nat)
    requires bs >= 1
    ensures SpanTotal(BlockCount(n, bs), bs, n) == n
    ensures forall k | 0 <= k < BlockCount(n, bs) :: Span(k, bs, n) >= 1
  {
    var m := BlockCount(n, bs);
    FloorMultiple(n + bs - 1, bs);
    SpanTotalClips(m, bs, n);
    forall k | 0 <= k < m
      ensures k * bs < n
    {
      MulLe(k + 1, m, bs);
    }
  }

  /** Pixel count of the blocks in block row j, block columns 0 .. kx-1. */
  function RowOfBlocksArea(j: nat, kx: nat, bs: nat, w: nat, h: nat): nat
  {
    if kx == 0 then 0 else RowOfBlocksArea(j, kx - 1, bs, w, h) + Span(j, bs, h) * Span(kx - 1, bs, w)
  }

  /** Pixel count of the blocks in block rows 0 .. ky-1, block columns 0 .. kx-1. */
  function GridArea(ky: nat, kx: nat, bs: nat, w: nat, h: nat): nat
  {
    if ky == 0 then 0 else GridArea(ky - 1, kx, bs, w, h) + RowOfBlocksArea(ky - 1, kx, bs, w, h)
  }

  lemma {:induction false} RowOfBlocksAreaFactors(j: nat, kx: nat, bs: nat, w: nat, h: nat)
    ensures RowOfBlocksArea(j, kx, bs, w, h) == Span(j, bs, h) * SpanTotal(kx, bs, w)
  {
    if kx > 0 {
      RowOfBlocksAreaFactors(j, kx - 1, bs, w, h);
      Distrib(Span(j, bs, h), SpanTotal(kx - 1, bs, w), Span(kx - 1, bs, w));
    }
  }

  lemma {:induction false} GridAreaFactors(ky: nat, kx: nat, bs: nat, w: nat, h: nat)
    ensures GridArea(ky, kx, bs, w, h) == SpanTotal(ky, bs, h) * SpanTotal(kx, bs, w)
  {
    if ky > 0 {
      GridAreaFactors(ky - 1, kx, bs, w, h);
      RowOfBlocksAreaFactors(ky - 1, kx, bs, w, h);
      Distrib(SpanTotal(kx, bs, w), SpanTotal(ky - 1, bs, h), Span(ky - 1, bs, h));
    }
  }

  /** The block sizes of all blocks the loops visit add up to the pixel count:
      no pixel is skipped and none is counted twice. */
  lemma BlocksCoverImage(w: nat, h: nat, bs: nat)
    requires bs >= 1
    ensures GridArea(BlockCount(h, bs), BlockCount(w, bs), bs, w, h) == w * h
  {
    GridAreaFactors(BlockCount(h, bs), BlockCount(w, bs), bs, w, h);
    SpansCoverSide(h, bs);
    SpansCoverSide(w, bs);
  }

  /** A visited block's area is the product of its two spans. */
  lemma SpansMakeBlockArea(w: nat, h: nat, bs: nat, kx: nat, ky: nat)
    requires bs >= 1 && kx * bs < w && ky * bs < h
    ensures BlockArea(w, h, bs, kx * bs, ky * bs) == Span(ky, bs, h) * Span(kx, bs, w)
  {
  }

  /** A 5 x 5 image in 3 x 3 blocks: blocks of 9, 6, 6 and 4 pixels, 25 in all. */
  lemma FiveByFiveInThrees()
    ensures BlockCount(5, 3) == 2
    ensures BlockArea(5, 5, 3, 0, 0) == 9 && BlockArea(5, 5, 3, 3, 0) == 6
    ensures BlockArea(5, 5, 3, 0, 3) == 6 && BlockArea(5, 5, 3, 3, 3) == 4
    ensures GridArea(2, 2, 3, 5, 5) == 25
  {
    BlocksCoverImage(5, 5, 3);
  }
}
