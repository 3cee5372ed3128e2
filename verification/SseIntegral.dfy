/** The vector routines of imgproc/sse/sse-imgproc.cpp, on flat arrays with explicit lanes. */
module SseIntegral {
  import opened Grid
  import opened Integral

  /** The value a signed 32-bit lane keeps. */
  function Wrap(n: int): (r: int)
    ensures -0x8000_0000 <= r < 0x8000_0000
  {
    (n + 0x8000_0000) % 0x1_0000_0000 - 0x8000_0000
  }

  const WRAPPING: Arithmetic<int> := Arithmetic(0, (a: int, b: int) => Wrap(a + b))
  const EXACT: Arithmetic<int> := Arithmetic(0, (a: int, b: int) => a + b)

  /** Lane-wise addition of two registers. */
  function AddLanes<T>(ar: Arithmetic<T>, a: seq<T>, b: seq<T>): (r: seq<T>)
    requires |a| == |b|
    ensures Added(ar, a, b, r)
  {
    seq(|a|, i requires 0 <= i < |a| => ar.add(a[i], b[i]))
  }

  /** Unaligned load of `n` lanes; every lane must be inside the array. */
  method Load<T>(a: array<T>, at: int, n: nat) returns (lanes: seq<T>)
    requires 0 <= at && at + n <= a.Length
    ensures lanes == a[at..at + n] && |lanes| == n
    ensures forall i :: 0 <= i < n ==> lanes[i] == a[at + i]
  {
    lanes := a[at..at + n];
  }

  /** Unaligned store; every lane must be inside the array. */
  method Store<T>(a: array<T>, at: int, lanes: seq<T>)
    requires 0 <= at && at + |lanes| <= a.Length
    modifies a
    ensures forall i :: 0 <= i < a.Length ==>
      a[i] == if at <= i < at + |lanes| then lanes[i - at] else old(a[i])
  {
    for k := 0 to |lanes|
      invariant forall i :: 0 <= i < a.Length ==>
        a[i] == if at <= i < at + k then lanes[i - at] else old(a[i])
    {
      a[at + k] := lanes[k];
    }
  }

  method Memset<T>(a: array<T>, at: int, n: nat, zero: T)
    requires 0 <= at && at + n <= a.Length
    modifies a
    ensures forall i :: 0 <= i < a.Length ==> a[i] == if at <= i < at + n then zero else old(a[i])
  {
    for k := 0 to n
      invariant forall i :: 0 <= i < a.Length ==> a[i] == if at <= i < at + k then zero else old(a[i])
    {
      a[at + k] := zero;
    }
  }

  /** Shift a register right by four bytes, filling with zeros. */
  function ShiftBytes(bytes: seq<Byte>): (r: seq<Byte>)
    requires |bytes| == 16
    ensures |r| == 16 && forall i :: 0 <= i < 12 ==> r[i] == bytes[i + 4]
  {
    bytes[4..] + [0, 0, 0, 0]
  }

  /** Zero-extend the four low bytes to 32-bit lanes. */
  function UnpackLow(bytes: seq<Byte>): (r: seq<int>)
    requires |bytes| == 16
    ensures |r| == 4 && forall i :: 0 <= i < 4 ==> r[i] == bytes[i]
  {
    [bytes[0], bytes[1], bytes[2], bytes[3]]
  }

  lemma AddedTogether<T>(ar: Arithmetic<T>, a: seq<T>, b: seq<T>, r: seq<T>, a': seq<T>, b': seq<T>, r': seq<T>)
    requires Added(ar, a, b, r) && Added(ar, a', b', r')
    ensures Added(ar, a + a', b + b', r + r')
  {
  }

  /** Where the pointers of one pixel step stand and what they may reach. */
  lemma Pointers(w: Pos, h: Pos, x: nat, y: nat)
    requires x < w && y < h
    ensures 0 <= At(w, x, y) && At(w, x, y) + 1 <= Area(w, h)
    ensures w + 1 <= At(w + 1, x + 1, y + 1) && At(w + 1, x + 1, y + 1) + 1 <= Area(w + 1, h + 1)
    ensures y + 1 < h || x + 1 < w ==>
      At(w, x, y) + 2 <= Area(w, h) && At(w + 1, x + 1, y + 1) + 2 <= Area(w + 1, h + 1)
  {
    Room(w, h, x, y);
    Room(w + 1, h + 1, x + 1, y + 1);
    RasterOrder(w + 1, h + 1);
    IndexOf(w + 1, h + 1, x + 1, y);
  }

  /** `PixelStep` in terms of the pointers: `s` into the source, `p` into the integral. */
  lemma PointerStep<T>(ar: Arithmetic<T>, img: seq<T>, w: Pos, h: Pos, x: nat, y: nat, s: int, p: int,
                       before: seq<T>, after: seq<T>, sums: seq<T>, loaded: seq<T>, sums': seq<T>)
    requires |img| == Area(w, h) * CHANNELS && |before| == |after| == Area(w + 1, h + 1) * CHANNELS
    requires x < w && y < h && s == At(w, x, y) * CHANNELS && p == At(w + 1, x + 1, y + 1) * CHANNELS
    requires 0 <= s && s + CHANNELS <= |img| && (w + 1) * CHANNELS <= p && p + CHANNELS <= |before|
    requires Done(ar, img, w, h, before, p) && Sums(ar, img, w, h, x, y, sums)
    requires |loaded| == |sums'| == 12 && Added(ar, sums, loaded, sums')
    requires forall c: nat | c < CHANNELS :: loaded[c] == img[s + c]
    requires forall i :: 0 <= i < p ==> after[i] == before[i]
    requires forall c: nat | c < CHANNELS :: after[p + c] == ar.add(before[p + c - (w + 1) * CHANNELS], sums'[c])
    ensures Sums(ar, img, w, h, x + 1, y, sums')
    ensures Done(ar, img, w, h, after, p + CHANNELS)
  {
    hide At, Area, Done, Sums, Added, RowSum, Prefix;
    RasterOrder(w + 1, h + 1);
    var q := p - (w + 1) * CHANNELS;
    PixelStep(ar, img, w, h, before, after, x, y, sums, loaded, sums', before[q..q + CHANNELS], after[p..p + CHANNELS], p);
  }

  lemma SumsStart<T>(ar: Arithmetic<T>, img: seq<T>, w: Pos, h: Pos, y: nat, sums: seq<T>)
    requires |img| == Area(w, h) * CHANNELS && y < h
    requires |sums| == 12 && forall i :: 0 <= i < 12 ==> sums[i] == ar.zero
    ensures Sums(ar, img, w, h, 0, y, sums)
  {
  }

  // ---------------------------------------------------------------------------
  // 32-bit integers.

  /** The accumulator registers plus one load of the source. */
  method Accumulate<T>(ar: Arithmetic<T>, sumX0: seq<T>, sumX1: seq<T>, sumX2: seq<T>, x0: seq<T>, x1: seq<T>, x2: seq<T>)
    returns (r0: seq<T>, r1: seq<T>, r2: seq<T>)
    requires |sumX0| == |sumX1| == |sumX2| == |x0| == |x1| == |x2| == 4
    ensures |r0| == |r1| == |r2| == 4
    ensures Added(ar, sumX0 + sumX1 + sumX2, x0 + x1 + x2, r0 + r1 + r2)
  {
    r0 := AddLanes(ar, sumX0, x0);
    r1 := AddLanes(ar, sumX1, x1);
    r2 := AddLanes(ar, sumX2, x2);
    AddedTogether(ar, sumX0, x0, r0, sumX1, x1, r1);
    AddedTogether(ar, sumX0 + sumX1, x0 + x1, r0 + r1, sumX2, x2, r2);
  }

  /** Where pixel `x` of row `y` is, from the pointers at the start of the row. */
  lemma PixelAt(w: Pos, h: Pos, x: nat, y: nat, s: int, d: int)
    requires x <= w && y < h && s == At(w, 0, y) * CHANNELS && d == At(w + 1, 0, y + 1) * CHANNELS
    ensures s + x * CHANNELS == At(w, x, y) * CHANNELS
    ensures d + CHANNELS + x * CHANNELS == At(w + 1, x + 1, y + 1) * CHANNELS
    ensures 0 <= d && d + CHANNELS <= Area(w + 1, h + 1) * CHANNELS
  {
    RasterOrder(w, h);
    RasterOrder(w + 1, h + 1);
    Room(w + 1, h + 1, 0, y + 1);
  }

  /** The start of a row: zero accumulators, and the zero pixel. */
  method StartRow<T>(ar: Arithmetic<T>, height: Pos, width: Pos, dst: array<T>, d: int, ghost img: seq<T>, ghost y: int)
    returns (sumX0: seq<T>, sumX1: seq<T>, sumX2: seq<T>)
    requires |img| == Area(width, height) * CHANNELS && dst.Length == Area(width + 1, height + 1) * CHANNELS
    requires ar.Valid() && 0 <= y < height && d == At(width + 1, 0, y + 1) * CHANNELS
    requires Done(ar, img, width, height, dst[..], d)
    modifies dst
    ensures |sumX0| == |sumX1| == |sumX2| == 4
    ensures Sums(ar, img, width, height, 0, y, sumX0 + sumX1 + sumX2)
    ensures Done(ar, img, width, height, dst[..], d + CHANNELS)
  {
    hide At, Area, RowSum, Prefix, Done, Sums, Channel, Cell;
    sumX0 := [ar.zero, ar.zero, ar.zero, ar.zero];
    sumX1, sumX2 := sumX0, sumX0;
    SumsStart(ar, img, width, height, y, sumX0 + sumX1 + sumX2);
    PixelAt(width, height, 0, y, At(width, 0, y) * CHANNELS, d);
    ghost var before := dst[..];
    Memset(dst, d, CHANNELS, ar.zero);
    DoneRowStart(ar, img, width, height, before, dst[..], y + 1, d);
  }

  /** The row above, twelve lanes of it, plus the accumulators. */
  method SumLanes(dst: array<int>, at: int, sumX0: seq<int>, sumX1: seq<int>, sumX2: seq<int>)
    returns (dst0: seq<int>, dst1: seq<int>, dst2: seq<int>)
    requires |sumX0| == |sumX1| == |sumX2| == 4 && 0 <= at && at + 12 <= dst.Length
    ensures |dst0| == |dst1| == |dst2| == 4
    ensures forall c :: 0 <= c < 12 ==>
      (dst0 + dst1 + dst2)[c] == WRAPPING.add(dst[at + c], (sumX0 + sumX1 + sumX2)[c])
  {
    hide Wrap, WRAPPING;
    dst0 := Load(dst, at, 4);
    dst1 := Load(dst, at + 4, 4);
    dst2 := Load(dst, at + 8, 4);
    dst0 := AddLanes(WRAPPING, dst0, sumX0);
    dst1 := AddLanes(WRAPPING, dst1, sumX1);
    dst2 := AddLanes(WRAPPING, dst2, sumX2);
  }

  /** Adds the accumulators to the row above and stores all twelve lanes at `p`. */
  method AddRowAbove(dst: array<int>, p: int, sumStep: int, sumX0: seq<int>, sumX1: seq<int>, sumX2: seq<int>)
    requires |sumX0| == |sumX1| == |sumX2| == 4
    requires 12 <= sumStep <= p && p + 12 <= dst.Length
    modifies dst
    ensures forall i :: 0 <= i < dst.Length && !(p <= i < p + 12) ==> dst[i] == old(dst[i])
    ensures forall c :: 0 <= c < 12 ==>
      dst[p + c] == WRAPPING.add(old(dst[p + c - sumStep]), (sumX0 + sumX1 + sumX2)[c])
  {
    hide Wrap, WRAPPING, AddLanes, Added;
    var dst0, dst1, dst2 := SumLanes(dst, p - sumStep, sumX0, sumX1, sumX2);
    ghost var lanes := dst0 + dst1 + dst2;
    Store(dst, p, dst0);
    Store(dst, p + 4, dst1);
    Store(dst, p + 8, dst2);
    forall c | 0 <= c < 12
      ensures dst[p + c] == WRAPPING.add(old(dst[p + c - sumStep]), (sumX0 + sumX1 + sumX2)[c])
    {
      assert dst[p + c] == lanes[c];
    }
  }

  lemma WrappingZero()
    ensures WRAPPING.Valid() && WRAPPING.zero == 0
  {
  }

  /** Stores of the last row: the last pixel keeps its two spilled lanes in a temporary. */
  method AddRowAboveLast(dst: array<int>, p: int, sumStep: int, sumX0: seq<int>, sumX1: seq<int>, sumX2: seq<int>)
    requires |sumX0| == |sumX1| == |sumX2| == 4
    requires 12 <= sumStep <= p && p + CHANNELS <= dst.Length
    modifies dst
    ensures forall i :: 0 <= i < dst.Length && !(p <= i < p + CHANNELS) ==> dst[i] == old(dst[i])
    ensures forall c :: 0 <= c < CHANNELS ==>
      dst[p + c] == WRAPPING.add(old(dst[p + c - sumStep]), (sumX0 + sumX1 + sumX2)[c])
  {
    hide Wrap, WRAPPING, AddLanes, Added;
    var dst0, dst1, dst2 := SumLanes(dst, p - sumStep, sumX0, sumX1, sumX2);
    ghost var lanes := dst0 + dst1 + dst2;
    Store(dst, p, dst0);
    Store(dst, p + 4, dst1);
    var tmpDst := dst2;
    dst[p + 8] := tmpDst[0];
    dst[p + 9] := tmpDst[1];
    forall c | 0 <= c < CHANNELS
      ensures dst[p + c] == WRAPPING.add(old(dst[p + c - sumStep]), (sumX0 + sumX1 + sumX2)[c])
    {
      assert dst[p + c] == lanes[c];
    }
  }

  /** Sixteen bytes loaded at once, the first twelve widened to lanes. */
  method LoadLanes(src: array<Byte>, at: int) returns (x0: seq<int>, x1: seq<int>, x2: seq<int>)
    requires 0 <= at && at + 16 <= src.Length
    ensures |x0| == |x1| == |x2| == 4
    ensures forall c: nat | c < 12 :: (x0 + x1 + x2)[c] == src[at + c]
  {
    var xBytes := Load(src, at, 16);
    x0 := UnpackLow(xBytes);
    xBytes := ShiftBytes(xBytes);
    x1 := UnpackLow(xBytes);
    xBytes := ShiftBytes(xBytes);
    x2 := UnpackLow(xBytes);
  }

  /** Ten bytes set lane by lane, the last two lanes zero. */
  method SetLanes(src: array<Byte>, at: int) returns (x0: seq<int>, x1: seq<int>, x2: seq<int>)
    requires 0 <= at && at + CHANNELS <= src.Length
    ensures |x0| == |x1| == |x2| == 4
    ensures forall c: nat | c < CHANNELS :: (x0 + x1 + x2)[c] == src[at + c]
  {
    x0 := [src[at], src[at + 1], src[at + 2], src[at + 3]];
    x1 := [src[at + 4], src[at + 5], src[at + 6], src[at + 7]];
    x2 := [src[at + 8], src[at + 9], 0, 0];
  }

  /** One turn of the loop over a row that is not the last one: the pixel spills two lanes into what follows it. */
  method RowPixel(height: Pos, width: Pos, src: array<Byte>, dst: array<int>, s: int, p: int, ghost x: int, ghost y: int,
                  sumX0: seq<int>, sumX1: seq<int>, sumX2: seq<int>)
    returns (r0: seq<int>, r1: seq<int>, r2: seq<int>)
    requires src.Length == Area(width, height) * CHANNELS && dst.Length == Area(width + 1, height + 1) * CHANNELS
    requires 0 <= x < width && 0 <= y < height - 1
    requires s == At(width, x, y) * CHANNELS && p == At(width + 1, x + 1, y + 1) * CHANNELS
    requires |sumX0| == |sumX1| == |sumX2| == 4
    requires Sums(WRAPPING, src[..], width, height, x, y, sumX0 + sumX1 + sumX2)
    requires Done(WRAPPING, src[..], width, height, dst[..], p)
    modifies dst
    ensures |r0| == |r1| == |r2| == 4
    ensures Sums(WRAPPING, src[..], width, height, x + 1, y, r0 + r1 + r2)
    ensures Done(WRAPPING, src[..], width, height, dst[..], p + CHANNELS)
  {
    hide At, Area, RowSum, Prefix, Done, Sums, Channel, Cell, IsIntegral, Wrap, WRAPPING, Added;
    Pointers(width, height, x, y);
    ghost var before := dst[..];
    var x0, x1, x2 := LoadLanes(src, s);
    r0, r1, r2 := Accumulate(WRAPPING, sumX0, sumX1, sumX2, x0, x1, x2);
    AddRowAbove(dst, p, (width + 1) * CHANNELS, r0, r1, r2);
    PointerStep(WRAPPING, src[..], width, height, x, y, s, p, before, dst[..], sumX0 + sumX1 + sumX2, x0 + x1 + x2,
                r0 + r1 + r2);
  }

  /** One turn of the loop over the last row, which loads its channels one by one. */
  method LastRowPixel(height: Pos, width: Pos, src: array<Byte>, dst: array<int>, s: int, p: int, ghost x: int,
                      sumX0: seq<int>, sumX1: seq<int>, sumX2: seq<int>)
    returns (r0: seq<int>, r1: seq<int>, r2: seq<int>)
    requires src.Length == Area(width, height) * CHANNELS && dst.Length == Area(width + 1, height + 1) * CHANNELS
    requires 0 <= x < width - 1
    requires s == At(width, x, height - 1) * CHANNELS && p == At(width + 1, x + 1, height) * CHANNELS
    requires |sumX0| == |sumX1| == |sumX2| == 4
    requires Sums(WRAPPING, src[..], width, height, x, height - 1, sumX0 + sumX1 + sumX2)
    requires Done(WRAPPING, src[..], width, height, dst[..], p)
    modifies dst
    ensures |r0| == |r1| == |r2| == 4
    ensures Sums(WRAPPING, src[..], width, height, x + 1, height - 1, r0 + r1 + r2)
    ensures Done(WRAPPING, src[..], width, height, dst[..], p + CHANNELS)
  {
    hide At, Area, RowSum, Prefix, Done, Sums, Channel, Cell, IsIntegral, Wrap, WRAPPING, Added;
    Pointers(width, height, x, height - 1);
    ghost var before := dst[..];
    var x0, x1, x2 := SetLanes(src, s);
    r0, r1, r2 := Accumulate(WRAPPING, sumX0, sumX1, sumX2, x0, x1, x2);
    AddRowAbove(dst, p, (width + 1) * CHANNELS, r0, r1, r2);
    PointerStep(WRAPPING, src[..], width, height, x, height - 1, s, p, before, dst[..], sumX0 + sumX1 + sumX2,
                x0 + x1 + x2, r0 + r1 + r2);
  }

  /** Row `y` of the source, all but the last one. */
  method IntegrateRow(height: Pos, width: Pos, src: array<Byte>, dst: array<int>, s: int, d: int, ghost y: int)
    requires src.Length == Area(width, height) * CHANNELS
    requires dst.Length == Area(width + 1, height + 1) * CHANNELS
    requires 0 <= y < height - 1
    requires s == At(width, 0, y) * CHANNELS && d == At(width + 1, 0, y + 1) * CHANNELS
    requires Done(WRAPPING, src[..], width, height, dst[..], d)
    modifies dst
    ensures Done(WRAPPING, src[..], width, height, dst[..], d + (width + 1) * CHANNELS)
  {
    hide At, Area, RowSum, Prefix, Done, Sums, Channel, Cell, IsIntegral, Wrap, WRAPPING, Added;
    WrappingZero();
    var sumX0, sumX1, sumX2 := StartRow(WRAPPING, height, width, dst, d, src[..], y);
    var p := d + CHANNELS;
    ghost var j := 0;
    var x := 0;
    while x < width * CHANNELS
      invariant 0 <= j <= width && x == j * CHANNELS
      invariant |sumX0| == |sumX1| == |sumX2| == 4
      invariant Sums(WRAPPING, src[..], width, height, j, y, sumX0 + sumX1 + sumX2)
      invariant Done(WRAPPING, src[..], width, height, dst[..], p + x)
    {
      PixelAt(width, height, j, y, s, d);
      sumX0, sumX1, sumX2 := RowPixel(height, width, src, dst, s + x, p + x, j, y, sumX0, sumX1, sumX2);
      x, j := x + CHANNELS, j + 1;
    }
  }

  /** The last row: its last pixel has nothing behind it to spill into. */
  method IntegrateLastRow(height: Pos, width: Pos, src: array<Byte>, dst: array<int>, s: int, d: int)
    requires src.Length == Area(width, height) * CHANNELS
    requires dst.Length == Area(width + 1, height + 1) * CHANNELS
    requires s == At(width, 0, height - 1) * CHANNELS && d == At(width + 1, 0, height) * CHANNELS
    requires Done(WRAPPING, src[..], width, height, dst[..], d)
    modifies dst
    ensures IsIntegral(WRAPPING, src[..], width, height, dst[..])
  {
    hide At, Area, RowSum, Prefix, Done, Sums, Channel, Cell, IsIntegral, Wrap, WRAPPING, Added;
    WrappingZero();
    ghost var y := height - 1;
    var sumX0, sumX1, sumX2 := StartRow(WRAPPING, height, width, dst, d, src[..], y);
    var p := d + CHANNELS;
    ghost var j := 0;
    var x := 0;
    while x < width * CHANNELS - CHANNELS
      invariant 0 <= j <= width - 1 && x == j * CHANNELS
      invariant |sumX0| == |sumX1| == |sumX2| == 4
      invariant Sums(WRAPPING, src[..], width, height, j, y, sumX0 + sumX1 + sumX2)
      invariant Done(WRAPPING, src[..], width, height, dst[..], p + x)
    {
      PixelAt(width, height, j, y, s, d);
      sumX0, sumX1, sumX2 := LastRowPixel(height, width, src, dst, s + x, p + x, j, sumX0, sumX1, sumX2);
      x, j := x + CHANNELS, j + 1;
    }
    PixelAt(width, height, j, y, s, d);
    IntegrateLastPixel(height, width, src, dst, s + x, p + x, sumX0, sumX1, sumX2);
  }

  /** Last row, last column. */
  method IntegrateLastPixel(height: Pos, width: Pos, src: array<Byte>, dst: array<int>, s: int, p: int,
                            sumX0: seq<int>, sumX1: seq<int>, sumX2: seq<int>)
    requires src.Length == Area(width, height) * CHANNELS
    requires dst.Length == Area(width + 1, height + 1) * CHANNELS
    requires s == At(width, width - 1, height - 1) * CHANNELS && p == At(width + 1, width, height) * CHANNELS
    requires |sumX0| == |sumX1| == |sumX2| == 4
    requires Sums(WRAPPING, src[..], width, height, width - 1, height - 1, sumX0 + sumX1 + sumX2)
    requires Done(WRAPPING, src[..], width, height, dst[..], p)
    modifies dst
    ensures IsIntegral(WRAPPING, src[..], width, height, dst[..])
  {
    hide At, Area, RowSum, Prefix, Done, Sums, Channel, Cell, IsIntegral, Wrap, WRAPPING, Added;
    ghost var img: seq<int> := src[..];
    RasterOrder(width + 1, height + 1);
    Pointers(width, height, width - 1, height - 1);
    ghost var before := dst[..];
    var x0, x1, x2 := SetLanes(src, s);
    var r0, r1, r2 := Accumulate(WRAPPING, sumX0, sumX1, sumX2, x0, x1, x2);
    AddRowAboveLast(dst, p, (width + 1) * CHANNELS, r0, r1, r2);
    PointerStep(WRAPPING, img, width, height, width - 1, height - 1, s, p, before, dst[..],
                sumX0 + sumX1 + sumX2, x0 + x1 + x2, r0 + r1 + r2);
    DoneAll(WRAPPING, img, width, height, dst[..]);
  }

  method SseIntegralC10_32s(height: Pos, width: Pos, src: array<Byte>, dst: array<int>)
    requires src.Length == Area(width, height) * CHANNELS
    requires dst.Length == Area(width + 1, height + 1) * CHANNELS
    modifies dst
    ensures IsIntegral(WRAPPING, src[..], width, height, dst[..])
  {
    hide At, Area, RowSum, Prefix, Done, Channel, Cell, IsIntegral, Wrap, WRAPPING;
    WrappingZero();
    RasterOrder(width, height);
    RasterOrder(width + 1, height + 1);
    Room(width + 1, height + 1, width, 0);
    var srcStep := width * CHANNELS;
    var sumStep := (width + 1) * CHANNELS;
    var s, d := 0, 0;
    Memset(dst, d, sumStep, 0);
    d := d + sumStep;
    DoneTopRow(WRAPPING, src[..], width, height, dst[..]);
    for y := 0 to height - 1
      invariant s == At(width, 0, y) * CHANNELS && d == At(width + 1, 0, y + 1) * CHANNELS
      invariant Done(WRAPPING, src[..], width, height, dst[..], d)
    {
      IntegrateRow(height, width, src, dst, s, d, y);
      s := s + srcStep;
      d := d + sumStep;
    }
    IntegrateLastRow(height, width, src, dst, s, d);
  }

  // ---------------------------------------------------------------------------
  // What the stored 32-bit values mean.

  lemma WrapPeriod(n: int, k: int)
    ensures Wrap(n + k * 0x1_0000_0000) == Wrap(n)
  {
  }

  lemma WrapAbsorbs(a: int, b: int)
    ensures Wrap(Wrap(a) + b) == Wrap(a + b)
    ensures Wrap(Wrap(a) + Wrap(b)) == Wrap(a + b)
  {
    var p, q := (a + 0x8000_0000) / 0x1_0000_0000, (b + 0x8000_0000) / 0x1_0000_0000;
    assert Wrap(a) == a + (-p) * 0x1_0000_0000;
    assert Wrap(b) == b + (-q) * 0x1_0000_0000;
    hide Wrap;
    WrapPeriod(a + b, -p);
    WrapPeriod(a + b, -p - q);
  }

  lemma {:induction false} RowSumWraps(src: seq<int>, w: Pos, h: Pos, x: nat, y: nat, c: nat)
    requires |src| == Area(w, h) * CHANNELS && x <= w && y < h && c < CHANNELS
    ensures RowSum(WRAPPING, src, w, h, x, y, c) == Wrap(RowSum(EXACT, src, w, h, x, y, c))
  {
    if x > 0 {
      RowSumWraps(src, w, h, x - 1, y, c);
      WrapAbsorbs(RowSum(EXACT, src, w, h, x - 1, y, c), src[Channel(w, h, x - 1, y, c)]);
    }
  }

  /** The wrapped integral is the exact integral, wrapped once. */
  lemma {:induction false} PrefixWraps(src: seq<int>, w: Pos, h: Pos, x: nat, y: nat, c: nat)
    requires |src| == Area(w, h) * CHANNELS && x <= w && y <= h && c < CHANNELS
    ensures Prefix(WRAPPING, src, w, h, x, y, c) == Wrap(Prefix(EXACT, src, w, h, x, y, c))
  {
    if y > 0 {
      PrefixWraps(src, w, h, x, y - 1, c);
      RowSumWraps(src, w, h, x, y - 1, c);
      WrapAbsorbs(Prefix(EXACT, src, w, h, x, y - 1, c), RowSum(EXACT, src, w, h, x, y - 1, c));
    }
  }

  lemma {:induction false} RowSumBound(src: seq<int>, w: Pos, h: Pos, x: nat, y: nat, c: nat)
    requires |src| == Area(w, h) * CHANNELS && x <= w && y < h && c < CHANNELS
    requires forall i :: 0 <= i < |src| ==> 0 <= src[i] <= 255
    ensures 0 <= RowSum(EXACT, src, w, h, x, y, c) <= 255 * x
  {
    if x > 0 { RowSumBound(src, w, h, x - 1, y, c); }
  }

  lemma {:induction false} PrefixBound(src: seq<int>, w: Pos, h: Pos, x: nat, y: nat, c: nat)
    requires |src| == Area(w, h) * CHANNELS && x <= w && y <= h && c < CHANNELS
    requires forall i :: 0 <= i < |src| ==> 0 <= src[i] <= 255
    ensures 0 <= Prefix(EXACT, src, w, h, x, y, c) <= 255 * (x * y)
  {
    if y > 0 {
      PrefixBound(src, w, h, x, y - 1, c);
      RowSumBound(src, w, h, x, y - 1, c);
      assert x * y == x * (y - 1) + x;
    }
  }

  /** An image of at most 8421504 pixels cannot overflow: every stored value is the exact sum. */
  lemma NoOverflow(src: seq<int>, w: Pos, h: Pos, dst: seq<int>, x: nat, y: nat, c: nat)
    requires IsIntegral(WRAPPING, src, w, h, dst) && x <= w && y <= h && c < CHANNELS
    requires forall i :: 0 <= i < |src| ==> 0 <= src[i] <= 255
    requires w * h <= 8421504
    ensures dst[Cell(w, h, x, y, c)] == Prefix(EXACT, src, w, h, x, y, c)
  {
    PrefixWraps(src, w, h, x, y, c);
    PrefixBound(src, w, h, x, y, c);
    Monotone(x, w, y);
    Monotone(y, h, w);
    assert x * y <= w * y == y * w <= h * w == w * h;
  }

  /** Sum of channel `c` over the rectangle of columns `x0..x1` and rows `y0..y1`. */
  function BoxRow(src: seq<int>, w: Pos, h: Pos, x0: nat, x1: nat, y: nat, c: nat): int
    requires |src| == Area(w, h) * CHANNELS && x0 <= x1 <= w && y < h && c < CHANNELS
  {
    if x0 == x1 then 0 else BoxRow(src, w, h, x0, x1 - 1, y, c) + src[Channel(w, h, x1 - 1, y, c)]
  }

  function BoxSum(src: seq<int>, w: Pos, h: Pos, x0: nat, x1: nat, y0: nat, y1: nat, c: nat): int
    requires |src| == Area(w, h) * CHANNELS && x0 <= x1 <= w && y0 <= y1 <= h && c < CHANNELS
  {
    if y0 == y1 then 0 else BoxSum(src, w, h, x0, x1, y0, y1 - 1, c) + BoxRow(src, w, h, x0, x1, y1 - 1, c)
  }

  lemma {:induction false} BoxRowFromSums(src: seq<int>, w: Pos, h: Pos, x0: nat, x1: nat, y: nat, c: nat)
    requires |src| == Area(w, h) * CHANNELS && x0 <= x1 <= w && y < h && c < CHANNELS
    ensures BoxRow(src, w, h, x0, x1, y, c) == RowSum(EXACT, src, w, h, x1, y, c) - RowSum(EXACT, src, w, h, x0, y, c)
  {
    if x0 < x1 { BoxRowFromSums(src, w, h, x0, x1 - 1, y, c); }
  }

  /** What an integral image is for: four of its values give the sum over any rectangle. */
  lemma {:induction false} FourCorners(src: seq<int>, w: Pos, h: Pos, x0: nat, x1: nat, y0: nat, y1: nat, c: nat)
    requires |src| == Area(w, h) * CHANNELS && x0 <= x1 <= w && y0 <= y1 <= h && c < CHANNELS
    ensures BoxSum(src, w, h, x0, x1, y0, y1, c)
         == Prefix(EXACT, src, w, h, x1, y1, c) - Prefix(EXACT, src, w, h, x0, y1, c)
            - Prefix(EXACT, src, w, h, x1, y0, c) + Prefix(EXACT, src, w, h, x0, y0, c)
  {
    if y0 < y1 {
      FourCorners(src, w, h, x0, x1, y0, y1 - 1, c);
      BoxRowFromSums(src, w, h, x0, x1, y1 - 1, c);
    }
  }

  lemma WrappedAway(n: int) returns (k: int)
    ensures Wrap(n) == n - k * 0x1_0000_0000
  {
    k := (n + 0x8000_0000) / 0x1_0000_0000;
  }

  lemma Multiple(k: int)
    ensures (k * 0x1_0000_0000) % 0x1_0000_0000 == 0
  {
  }

  /** The stored entry is what an exact sum leaves in 32 bits. */
  lemma StoredAway(src: seq<int>, w: Pos, h: Pos, dst: seq<int>, x: nat, y: nat, c: nat) returns (k: int)
    requires IsIntegral(WRAPPING, src, w, h, dst) && x <= w && y <= h && c < CHANNELS
    ensures dst[Cell(w, h, x, y, c)] == Prefix(EXACT, src, w, h, x, y, c) - k * 0x1_0000_0000
    ensures -0x8000_0000 <= dst[Cell(w, h, x, y, c)] < 0x8000_0000
  {
    PrefixWraps(src, w, h, x, y, c);
    k := WrappedAway(Prefix(EXACT, src, w, h, x, y, c));
  }

  /** Whatever the size of the image: four values that `SseIntegralC10_32s` has stored give the sum over any rectangle
      modulo 2^32. */
  lemma FourCornersStored(src: seq<int>, w: Pos, h: Pos, dst: seq<int>, x0: nat, x1: nat, y0: nat, y1: nat, c: nat)
    requires IsIntegral(WRAPPING, src, w, h, dst) && x0 <= x1 <= w && y0 <= y1 <= h && c < CHANNELS
    ensures (dst[Cell(w, h, x1, y1, c)] - dst[Cell(w, h, x0, y1, c)] - dst[Cell(w, h, x1, y0, c)] + dst[Cell(w, h, x0, y0, c)]
             - BoxSum(src, w, h, x0, x1, y0, y1, c)) % 0x1_0000_0000 == 0
  {
    hide BoxSum, Prefix, Cell, WRAPPING, EXACT;
    FourCorners(src, w, h, x0, x1, y0, y1, c);
    var k0 := StoredAway(src, w, h, dst, x1, y1, c);
    var k1 := StoredAway(src, w, h, dst, x0, y1, c);
    var k2 := StoredAway(src, w, h, dst, x1, y0, c);
    var k3 := StoredAway(src, w, h, dst, x0, y0, c);
    Multiple(k1 + k2 - k0 - k3);
  }
}
