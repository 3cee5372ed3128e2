/** Ten-channel integral images: what `sse_integral_c10_32s` and `sse_integral_c10_64f`
    of imgproc/sse/sse-imgproc.cpp are both meant to compute.

    Images are flat and row-major with ten channels per pixel.  The integral of a
    `w` by `h` image has one more row and one more column, both zero.
  */
module Integral {
  import opened Grid

  const CHANNELS := 10

  /** The addition a routine accumulates with: 32-bit wrapping, or exact. */
  datatype Arithmetic<!T> = Arithmetic(zero: T, add: (T, T) -> T) {
    ghost predicate Valid() { add(zero, zero) == zero }
  }

  /** Flat index of channel `c` of the pixel in column `x`, row `y`. */
  function Channel(w: Pos, h: Pos, x: int, y: int, c: int): (i: int)
    requires 0 <= x < w && 0 <= y < h && 0 <= c < CHANNELS
    ensures 0 <= i < Area(w, h) * CHANNELS && i == At(w, x, y) * CHANNELS + c
  {
    IndexOf(w, h, x, y);
    At(w, x, y) * CHANNELS + c
  }

  /** The same in the integral image. */
  function Cell(w: Pos, h: Pos, x: int, y: int, c: int): (i: int)
    requires 0 <= x <= w && 0 <= y <= h && 0 <= c < CHANNELS
    ensures 0 <= i < Area(w + 1, h + 1) * CHANNELS && i == At(w + 1, x, y) * CHANNELS + c
  {
    Channel(w + 1, h + 1, x, y, c)
  }

  /** Sum of channel `c` over the first `x` pixels of row `y`. */
  function RowSum<T>(ar: Arithmetic<T>, src: seq<T>, w: Pos, h: Pos, x: nat, y: nat, c: nat): T
    requires |src| == Area(w, h) * CHANNELS && x <= w && y < h && c < CHANNELS
  {
    if x == 0 then ar.zero
    else ar.add(RowSum(ar, src, w, h, x - 1, y, c), src[Channel(w, h, x - 1, y, c)])
  }

  /** Sum of channel `c` over the pixels left of column `x` and above row `y`. */
  function Prefix<T>(ar: Arithmetic<T>, src: seq<T>, w: Pos, h: Pos, x: nat, y: nat, c: nat): T
    requires |src| == Area(w, h) * CHANNELS && x <= w && y <= h && c < CHANNELS
  {
    if y == 0 then ar.zero
    else ar.add(Prefix(ar, src, w, h, x, y - 1, c), RowSum(ar, src, w, h, x, y - 1, c))
  }

  lemma {:induction false} FirstColumnZero<T>(ar: Arithmetic<T>, src: seq<T>, w: Pos, h: Pos, y: nat, c: nat)
    requires |src| == Area(w, h) * CHANNELS && y <= h && c < CHANNELS && ar.Valid()
    ensures Prefix(ar, src, w, h, 0, y, c) == ar.zero
  {
    if y > 0 { FirstColumnZero(ar, src, w, h, y - 1, c); }
  }

  // ---------------------------------------------------------------------------

  /** Every integral value stored before flat index `p` is final. */
  ghost predicate Done<T>(ar: Arithmetic<T>, src: seq<T>, w: Pos, h: Pos, dst: seq<T>, p: int)
    requires |src| == Area(w, h) * CHANNELS && |dst| == Area(w + 1, h + 1) * CHANNELS
  {
    forall x: nat, y: nat, c: nat | x <= w && y <= h && c < CHANNELS ::
      var i := Cell(w, h, x, y, c);
      i < p ==> dst[i] == Prefix(ar, src, w, h, x, y, c)
  }

  ghost predicate IsIntegral<T>(ar: Arithmetic<T>, src: seq<T>, w: Pos, h: Pos, dst: seq<T>) {
    && |src| == Area(w, h) * CHANNELS && |dst| == Area(w + 1, h + 1) * CHANNELS
    && forall x: nat, y: nat, c: nat | x <= w && y <= h && c < CHANNELS ::
         dst[Cell(w, h, x, y, c)] == Prefix(ar, src, w, h, x, y, c)
  }

  lemma DoneAll<T>(ar: Arithmetic<T>, src: seq<T>, w: Pos, h: Pos, dst: seq<T>)
    requires |src| == Area(w, h) * CHANNELS && |dst| == Area(w + 1, h + 1) * CHANNELS
    requires Done(ar, src, w, h, dst, |dst|)
    ensures IsIntegral(ar, src, w, h, dst)
  {
  }

  lemma DoneTopRow<T>(ar: Arithmetic<T>, src: seq<T>, w: Pos, h: Pos, dst: seq<T>)
    requires |src| == Area(w, h) * CHANNELS && |dst| == Area(w + 1, h + 1) * CHANNELS
    requires (w + 1) * CHANNELS <= |dst|
    requires forall i :: 0 <= i < (w + 1) * CHANNELS ==> dst[i] == ar.zero
    ensures Done(ar, src, w, h, dst, (w + 1) * CHANNELS)
  {
    forall x: nat, y: nat, c: nat | x <= w && y <= h && c < CHANNELS
      ensures Cell(w, h, x, y, c) < (w + 1) * CHANNELS ==> y == 0
    {
      IndexOf(w + 1, h + 1, x, y);
      if y > 0 { Monotone(1, y, w + 1); }
    }
  }

  /** Finishing the ten channels of the next pixel: what is stored beyond them does not matter. */
  lemma DonePixel<T>(ar: Arithmetic<T>, src: seq<T>, w: Pos, h: Pos, dst: seq<T>, dst': seq<T>, x: nat, y: nat, p: int)
    requires |src| == Area(w, h) * CHANNELS && |dst| == |dst'| == Area(w + 1, h + 1) * CHANNELS
    requires x <= w && y <= h && p == At(w + 1, x, y) * CHANNELS
    requires Done(ar, src, w, h, dst, p)
    requires forall i :: 0 <= i < p && i < |dst| ==> dst'[i] == dst[i]
    requires forall c: nat | c < CHANNELS :: dst'[Cell(w, h, x, y, c)] == Prefix(ar, src, w, h, x, y, c)
    ensures Done(ar, src, w, h, dst', p + CHANNELS)
  {
    forall x': nat, y': nat, c: nat | x' <= w && y' <= h && c < CHANNELS
      ensures p <= Cell(w, h, x', y', c) < p + CHANNELS ==> x' == x && y' == y
    {
      IndexOf(w + 1, h + 1, x, y);
      IndexOf(w + 1, h + 1, x', y');
    }
  }

  /** The zero pixel that starts every row. */
  lemma DoneRowStart<T>(ar: Arithmetic<T>, src: seq<T>, w: Pos, h: Pos, dst: seq<T>, dst': seq<T>, y: nat, p: int)
    requires |src| == Area(w, h) * CHANNELS && |dst| == |dst'| == Area(w + 1, h + 1) * CHANNELS
    requires y <= h && p == At(w + 1, 0, y) * CHANNELS && ar.Valid()
    requires Done(ar, src, w, h, dst, p) && 0 <= p <= p + CHANNELS <= |dst|
    requires forall i :: 0 <= i < p ==> dst'[i] == dst[i]
    requires forall i :: p <= i < p + CHANNELS ==> dst'[i] == ar.zero
    ensures Done(ar, src, w, h, dst', p + CHANNELS)
  {
    forall c: nat | c < CHANNELS ensures dst'[Cell(w, h, 0, y, c)] == Prefix(ar, src, w, h, 0, y, c) {
      FirstColumnZero(ar, src, w, h, y, c);
    }
    DonePixel(ar, src, w, h, dst, dst', 0, y, p);
  }

  /** The first ten lanes of the accumulators hold the row sums up to column `x`. */
  ghost predicate Sums<T>(ar: Arithmetic<T>, src: seq<T>, w: Pos, h: Pos, x: nat, y: nat, sums: seq<T>)
    requires |src| == Area(w, h) * CHANNELS && x <= w && y < h
  {
    && |sums| == 12
    && forall c: nat | c < CHANNELS :: sums[c] == RowSum(ar, src, w, h, x, y, c)
  }

  /** Lane-wise sum. */
  ghost predicate Added<T>(ar: Arithmetic<T>, a: seq<T>, b: seq<T>, r: seq<T>) {
    |a| == |b| == |r| && forall i :: 0 <= i < |r| ==> r[i] == ar.add(a[i], b[i])
  }

  /** One pixel of the vector loop: add twelve lanes of `src` to the accumulators and those to the
      row above, and store ten good lanes at `p`, whatever follows them. */
  lemma PixelStep<T>(ar: Arithmetic<T>, src: seq<T>, w: Pos, h: Pos, dst: seq<T>, dst': seq<T>, x: nat, y: nat,
                     sums: seq<T>, loaded: seq<T>, sums': seq<T>, above: seq<T>, stored: seq<T>, p: int)
    requires |src| == Area(w, h) * CHANNELS && |dst| == |dst'| == Area(w + 1, h + 1) * CHANNELS
    requires x < w && y < h && p == At(w + 1, x + 1, y + 1) * CHANNELS
    requires Done(ar, src, w, h, dst, p) && Sums(ar, src, w, h, x, y, sums)
    requires |loaded| == 12 && Added(ar, sums, loaded, sums')
    requires forall c: nat | c < CHANNELS :: loaded[c] == src[Channel(w, h, x, y, c)]
    requires |above| == CHANNELS <= |stored|
    requires forall c: nat | c < CHANNELS :: above[c] == dst[Cell(w, h, x + 1, y, c)]
    requires forall c: nat | c < CHANNELS :: stored[c] == ar.add(above[c], sums'[c])
    requires forall i :: 0 <= i < p && i < |dst| ==> dst'[i] == dst[i]
    requires forall c: nat | c < CHANNELS :: dst'[Cell(w, h, x + 1, y + 1, c)] == stored[c]
    ensures Sums(ar, src, w, h, x + 1, y, sums')
    ensures Done(ar, src, w, h, dst', p + CHANNELS)
  {
    RasterOrder(w + 1, h + 1);
    var col, row := x + 1, y + 1;
    forall c: nat | c < CHANNELS ensures dst'[Cell(w, h, col, row, c)] == Prefix(ar, src, w, h, col, row, c) {
      assert Cell(w, h, col, y, c) < p;
      assert above[c] == Prefix(ar, src, w, h, col, y, c);
    }
    DonePixel(ar, src, w, h, dst, dst', col, row, p);
  }

  /** Room in a flat image: after a pixel that is not in the last row, or not the last of its
      row, there is at least one more pixel. */
  lemma Room(w: Pos, h: Pos, x: int, y: int)
    requires 0 <= x < w && 0 <= y < h
    ensures 0 <= At(w, x, y) < Area(w, h)
    ensures y + 1 < h || x + 1 < w ==> At(w, x, y) + 2 <= Area(w, h)
  {
    IndexOf(w, h, x, y);
    RasterOrder(w, h);
    if y + 1 < h { IndexOf(w, h, x, y + 1); }
    if x + 1 < w { IndexOf(w, h, x + 1, y); }
  }
}
