/** `sse_integral_c10_64f` of imgproc/sse/sse-imgproc.cpp with exact `real` lanes: four-lane
    accumulators for the source, two-lane registers for the integral.
  */
module SseIntegral64f {
  import opened Grid
  import opened Integral
  import opened SseIntegral

  const REALS: Arithmetic<real> := Arithmetic(0.0, (a: real, b: real) => a + b)

  lemma RealsZero()
    ensures REALS.Valid() && REALS.zero == 0.0
  {
  }

  lemma RealsAdd()
    ensures forall a: real, b: real :: REALS.add(a, b) == a + b
  {
  }

  // ---------------------------------------------------------------------------
  // What the stored values mean.

  /** Sum of channel `c` over the columns `x0..x1` of row `y`. */
  function BoxRow(src: seq<real>, w: Pos, h: Pos, x0: nat, x1: nat, y: nat, c: nat): real
    requires |src| == Area(w, h) * CHANNELS && x0 <= x1 <= w && y < h && c < CHANNELS
  {
    if x0 == x1 then 0.0 else BoxRow(src, w, h, x0, x1 - 1, y, c) + src[Channel(w, h, x1 - 1, y, c)]
  }

  /** Sum of channel `c` over the rectangle of columns `x0..x1` and rows `y0..y1`. */
  function BoxSum(src: seq<real>, w: Pos, h: Pos, x0: nat, x1: nat, y0: nat, y1: nat, c: nat): real
    requires |src| == Area(w, h) * CHANNELS && x0 <= x1 <= w && y0 <= y1 <= h && c < CHANNELS
  {
    if y0 == y1 then 0.0 else BoxSum(src, w, h, x0, x1, y0, y1 - 1, c) + BoxRow(src, w, h, x0, x1, y1 - 1, c)
  }

  lemma {:induction false} BoxRowFromSums(src: seq<real>, w: Pos, h: Pos, x0: nat, x1: nat, y: nat, c: nat)
    requires |src| == Area(w, h) * CHANNELS && x0 <= x1 <= w && y < h && c < CHANNELS
    ensures BoxRow(src, w, h, x0, x1, y, c) == RowSum(REALS, src, w, h, x1, y, c) - RowSum(REALS, src, w, h, x0, y, c)
  {
    if x0 < x1 { BoxRowFromSums(src, w, h, x0, x1 - 1, y, c); }
  }

  lemma {:induction false} BoxFromPrefixes(src: seq<real>, w: Pos, h: Pos, x0: nat, x1: nat, y0: nat, y1: nat, c: nat)
    requires |src| == Area(w, h) * CHANNELS && x0 <= x1 <= w && y0 <= y1 <= h && c < CHANNELS
    ensures BoxSum(src, w, h, x0, x1, y0, y1, c)
         == Prefix(REALS, src, w, h, x1, y1, c) - Prefix(REALS, src, w, h, x0, y1, c)
            - Prefix(REALS, src, w, h, x1, y0, c) + Prefix(REALS, src, w, h, x0, y0, c)
  {
    if y0 < y1 {
      BoxFromPrefixes(src, w, h, x0, x1, y0, y1 - 1, c);
      BoxRowFromSums(src, w, h, x0, x1, y1 - 1, c);
    }
  }

  /** Four values that `SseIntegralC10_64f` has stored give the sum over any rectangle. */
  lemma FourCornersStored(src: seq<real>, w: Pos, h: Pos, dst: seq<real>, x0: nat, x1: nat, y0: nat, y1: nat, c: nat)
    requires IsIntegral(REALS, src, w, h, dst) && x0 <= x1 <= w && y0 <= y1 <= h && c < CHANNELS
    ensures BoxSum(src, w, h, x0, x1, y0, y1, c)
         == dst[Cell(w, h, x1, y1, c)] - dst[Cell(w, h, x0, y1, c)] - dst[Cell(w, h, x1, y0, c)] + dst[Cell(w, h, x0, y0, c)]
  {
    BoxFromPrefixes(src, w, h, x0, x1, y0, y1, c);
    hide BoxSum, Prefix, Cell, REALS;
  }

  /** Every stored value is the sum of everything above and to the left of its place. */
  ghost predicate HoldsSums(src: seq<real>, w: Pos, h: Pos, dst: seq<real>) {
    && |src| == Area(w, h) * CHANNELS && |dst| == Area(w + 1, h + 1) * CHANNELS
    && forall x: nat, y: nat, c: nat | x <= w && y <= h && c < CHANNELS ::
         dst[Cell(w, h, x, y, c)] == BoxSum(src, w, h, 0, x, 0, y, c)
  }

  lemma IntegralHoldsSums(src: seq<real>, w: Pos, h: Pos, dst: seq<real>)
    requires IsIntegral(REALS, src, w, h, dst)
    ensures HoldsSums(src, w, h, dst)
  {
    forall x: nat, y: nat, c: nat | x <= w && y <= h && c < CHANNELS
      ensures dst[Cell(w, h, x, y, c)] == BoxSum(src, w, h, 0, x, 0, y, c)
    {
      StoredIsSum(src, w, h, dst, x, y, c);
    }
    hide BoxSum, Prefix, Cell, REALS;
  }

  lemma StoredIsSum(src: seq<real>, w: Pos, h: Pos, dst: seq<real>, x: nat, y: nat, c: nat)
    requires IsIntegral(REALS, src, w, h, dst) && x <= w && y <= h && c < CHANNELS
    ensures dst[Cell(w, h, x, y, c)] == BoxSum(src, w, h, 0, x, 0, y, c)
  {
    BoxFromPrefixes(src, w, h, 0, x, 0, y, c);
    RealsZero();
    FirstColumnZero(REALS, src, w, h, y, c);
    assert dst[Cell(w, h, x, y, c)] == Prefix(REALS, src, w, h, x, y, c);
    hide BoxSum, Cell;
  }

  // ---------------------------------------------------------------------------
  // The routine.

  method StoreFive(dst: array<real>, p: int, r0: seq<real>, r1: seq<real>, r2: seq<real>, r3: seq<real>, r4: seq<real>)
    requires |r0| == |r1| == |r2| == |r3| == |r4| == 2 && 0 <= p && p + CHANNELS <= dst.Length
    modifies dst
    ensures forall i :: 0 <= i < dst.Length ==>
      dst[i] == if p <= i < p + CHANNELS then (r0 + r1 + r2 + r3 + r4)[i - p] else old(dst[i])
  {
    Store(dst, p, r0);
    Store(dst, p + 2, r1);
    Store(dst, p + 4, r2);
    Store(dst, p + 6, r3);
    Store(dst, p + 8, r4);
  }

  lemma FiveRegisters(row: seq<real>, at: int, x0: seq<real>, x1: seq<real>, x2: seq<real>,
                      r0: seq<real>, r1: seq<real>, r2: seq<real>, r3: seq<real>, r4: seq<real>)
    requires |x0| == |x1| == |x2| == 4 && 0 <= at && at + CHANNELS <= |row|
    requires r0 == AddLanes(REALS, row[at..at + 2], x0[..2]) && r1 == AddLanes(REALS, row[at + 2..at + 4], x0[2..])
    requires r2 == AddLanes(REALS, row[at + 4..at + 6], x1[..2]) && r3 == AddLanes(REALS, row[at + 6..at + 8], x1[2..])
    requires r4 == AddLanes(REALS, row[at + 8..at + 10], x2[..2])
    ensures |r0| == |r1| == |r2| == |r3| == |r4| == 2
    ensures forall c :: 0 <= c < CHANNELS ==>
      (r0 + r1 + r2 + r3 + r4)[c] == REALS.add(row[at + c], (x0 + x1 + x2)[c])
  {
    hide REALS;
  }

  /** The row above, two lanes at a time, plus the accumulators. */
  method SumFive(dst: array<real>, at: int, sumX0: seq<real>, sumX1: seq<real>, sumX2: seq<real>)
    returns (dst0: seq<real>, dst1: seq<real>, dst2: seq<real>, dst3: seq<real>, dst4: seq<real>)
    requires |sumX0| == |sumX1| == |sumX2| == 4 && 0 <= at && at + CHANNELS <= dst.Length
    ensures |dst0| == |dst1| == |dst2| == |dst3| == |dst4| == 2
    ensures forall c :: 0 <= c < CHANNELS ==>
      (dst0 + dst1 + dst2 + dst3 + dst4)[c] == REALS.add(dst[at + c], (sumX0 + sumX1 + sumX2)[c])
  {
    hide REALS, AddLanes;
    dst0 := Load(dst, at, 2);
    dst1 := Load(dst, at + 2, 2);
    dst2 := Load(dst, at + 4, 2);
    dst3 := Load(dst, at + 6, 2);
    dst4 := Load(dst, at + 8, 2);
    dst0 := AddLanes(REALS, dst0, sumX0[..2]);
    dst1 := AddLanes(REALS, dst1, sumX0[2..]);
    dst2 := AddLanes(REALS, dst2, sumX1[..2]);
    dst3 := AddLanes(REALS, dst3, sumX1[2..]);
    dst4 := AddLanes(REALS, dst4, sumX2[..2]);
    FiveRegisters(dst[..], at, sumX0, sumX1, sumX2, dst0, dst1, dst2, dst3, dst4);
  }

  /** Adds the accumulators, two lanes at a time, to the row above; nothing is spilled. */
  method AddRowAbove64(dst: array<real>, p: int, sumStep: int, sumX0: seq<real>, sumX1: seq<real>, sumX2: seq<real>)
    requires |sumX0| == |sumX1| == |sumX2| == 4
    requires CHANNELS <= sumStep <= p && p + CHANNELS <= dst.Length
    modifies dst
    ensures forall i :: 0 <= i < dst.Length && !(p <= i < p + CHANNELS) ==> dst[i] == old(dst[i])
    ensures forall c :: 0 <= c < CHANNELS ==>
      dst[p + c] == old(dst[p + c - sumStep]) + (sumX0 + sumX1 + sumX2)[c]
  {
    hide REALS, AddLanes, Added;
    var dst0, dst1, dst2, dst3, dst4 := SumFive(dst, p - sumStep, sumX0, sumX1, sumX2);
    ghost var lanes := dst0 + dst1 + dst2 + dst3 + dst4;
    StoreFive(dst, p, dst0, dst1, dst2, dst3, dst4);
    RealsAdd();
    forall c | 0 <= c < CHANNELS
      ensures dst[p + c] == old(dst[p + c - sumStep]) + (sumX0 + sumX1 + sumX2)[c]
    {
      assert dst[p + c] == lanes[c];
    }
  }

  /** One turn of the loop: the third load reads two channels of the next pixel, whose sums are never stored. */
  method RowPixel64(height: Pos, width: Pos, src: array<real>, dst: array<real>, s: int, p: int, ghost x: int, ghost y: int,
                    sumX0: seq<real>, sumX1: seq<real>, sumX2: seq<real>)
    returns (r0: seq<real>, r1: seq<real>, r2: seq<real>)
    requires src != dst
    requires src.Length == Area(width, height) * CHANNELS && dst.Length == Area(width + 1, height + 1) * CHANNELS
    requires 0 <= x < width && 0 <= y < height && (y + 1 < height || x + 1 < width)
    requires s == At(width, x, y) * CHANNELS && p == At(width + 1, x + 1, y + 1) * CHANNELS
    requires |sumX0| == |sumX1| == |sumX2| == 4
    requires Sums(REALS, src[..], width, height, x, y, sumX0 + sumX1 + sumX2)
    requires Done(REALS, src[..], width, height, dst[..], p)
    modifies dst
    ensures |r0| == |r1| == |r2| == 4
    ensures Sums(REALS, src[..], width, height, x + 1, y, r0 + r1 + r2)
    ensures Done(REALS, src[..], width, height, dst[..], p + CHANNELS)
  {
    hide At, Area, RowSum, Prefix, Done, Sums, Channel, Cell, REALS, Added;
    Pointers(width, height, x, y);
    ghost var before := dst[..];
    var x0 := Load(src, s, 4);
    var x1 := Load(src, s + 4, 4);
    var x2 := Load(src, s + 8, 4);
    r0, r1, r2 := Accumulate(REALS, sumX0, sumX1, sumX2, x0, x1, x2);
    AddRowAbove64(dst, p, (width + 1) * CHANNELS, r0, r1, r2);
    RealsAdd();
    PointerStep(REALS, src[..], width, height, x, y, s, p, before, dst[..], sumX0 + sumX1 + sumX2, x0 + x1 + x2,
                r0 + r1 + r2);
  }

  /** The first `count` pixels of row `y`: the zero pixel, then the vector loop. */
  method IntegratePixels(height: Pos, width: Pos, src: array<real>, dst: array<real>, s: int, d: int, ghost y: int, count: int)
    returns (sumX0: seq<real>, sumX1: seq<real>, sumX2: seq<real>)
    requires src != dst && src.Length == Area(width, height) * CHANNELS
    requires dst.Length == Area(width + 1, height + 1) * CHANNELS
    requires 0 <= y < height && 0 <= count <= width && (y + 1 < height || count < width)
    requires s == At(width, 0, y) * CHANNELS && d == At(width + 1, 0, y + 1) * CHANNELS
    requires Done(REALS, src[..], width, height, dst[..], d)
    modifies dst
    ensures |sumX0| == |sumX1| == |sumX2| == 4
    ensures Sums(REALS, src[..], width, height, count, y, sumX0 + sumX1 + sumX2)
    ensures Done(REALS, src[..], width, height, dst[..], d + CHANNELS + count * CHANNELS)
  {
    hide At, Area, RowSum, Prefix, Done, Sums, Channel, Cell, REALS, Added;
    RealsZero();
    sumX0, sumX1, sumX2 := StartRow(REALS, height, width, dst, d, src[..], y);
    var p := d + CHANNELS;
    ghost var j := 0;
    var x := 0;
    while x < count * CHANNELS
      invariant 0 <= j <= count && x == j * CHANNELS
      invariant |sumX0| == |sumX1| == |sumX2| == 4
      invariant Sums(REALS, src[..], width, height, j, y, sumX0 + sumX1 + sumX2)
      invariant Done(REALS, src[..], width, height, dst[..], p + x)
    {
      PixelAt(width, height, j, y, s, d);
      sumX0, sumX1, sumX2 := RowPixel64(height, width, src, dst, s + x, p + x, j, y, sumX0, sumX1, sumX2);
      x, j := x + CHANNELS, j + 1;
    }
  }

  /** Last row, last column: the load past the end of the source is replaced by a padded copy. */
  method IntegrateLastPixel64(height: Pos, width: Pos, src: array<real>, dst: array<real>, s: int, p: int,
                              sumX0: seq<real>, sumX1: seq<real>, sumX2: seq<real>)
    requires src != dst && src.Length == Area(width, height) * CHANNELS
    requires dst.Length == Area(width + 1, height + 1) * CHANNELS
    requires s == At(width, width - 1, height - 1) * CHANNELS && p == At(width + 1, width, height) * CHANNELS
    requires |sumX0| == |sumX1| == |sumX2| == 4
    requires Sums(REALS, src[..], width, height, width - 1, height - 1, sumX0 + sumX1 + sumX2)
    requires Done(REALS, src[..], width, height, dst[..], p)
    modifies dst
    ensures IsIntegral(REALS, src[..], width, height, dst[..])
  {
    hide At, Area, RowSum, Prefix, Done, Sums, Channel, Cell, IsIntegral, REALS, Added;
    ghost var img := src[..];
    RasterOrder(width + 1, height + 1);
    Pointers(width, height, width - 1, height - 1);
    ghost var before := dst[..];
    var lastSrcRowCol := [src[s + 8], src[s + 9], 0.0, 0.0];
    var x0 := Load(src, s, 4);
    var x1 := Load(src, s + 4, 4);
    var x2 := lastSrcRowCol;
    var r0, r1, r2 := Accumulate(REALS, sumX0, sumX1, sumX2, x0, x1, x2);
    AddRowAbove64(dst, p, (width + 1) * CHANNELS, r0, r1, r2);
    RealsAdd();
    PointerStep(REALS, img, width, height, width - 1, height - 1, s, p, before, dst[..],
                sumX0 + sumX1 + sumX2, x0 + x1 + x2, r0 + r1 + r2);
    DoneAll(REALS, img, width, height, dst[..]);
  }

  method SseIntegralC10_64f(height: Pos, width: Pos, src: array<real>, dst: array<real>)
    requires src != dst && src.Length == Area(width, height) * CHANNELS
    requires dst.Length == Area(width + 1, height + 1) * CHANNELS
    modifies dst
    ensures IsIntegral(REALS, src[..], width, height, dst[..]) && HoldsSums(src[..], width, height, dst[..])
  {
    hide At, Area, RowSum, Prefix, Done, Channel, Cell, Sums, IsIntegral, HoldsSums, BoxSum, REALS;
    RealsZero();
    RasterOrder(width, height);
    RasterOrder(width + 1, height + 1);
    Room(width + 1, height + 1, width, 0);
    var srcStep := width * CHANNELS;
    var sumStep := (width + 1) * CHANNELS;
    var s, d := 0, 0;
    Memset(dst, d, sumStep, 0.0);
    d := d + sumStep;
    DoneTopRow(REALS, src[..], width, height, dst[..]);
    var sumX0, sumX1, sumX2;
    for y := 0 to height - 1
      invariant s == At(width, 0, y) * CHANNELS && d == At(width + 1, 0, y + 1) * CHANNELS
      invariant Done(REALS, src[..], width, height, dst[..], d)
    {
      sumX0, sumX1, sumX2 := IntegratePixels(height, width, src, dst, s, d, y, width);
      s := s + srcStep;
      d := d + sumStep;
    }
    sumX0, sumX1, sumX2 := IntegratePixels(height, width, src, dst, s, d, height - 1, width - 1);
    var x := width * CHANNELS - CHANNELS;
    IntegrateLastPixel64(height, width, src, dst, s + x, d + CHANNELS + x, sumX0, sumX1, sumX2);
    IntegralHoldsSums(src[..], width, height, dst[..]);
  }
}
