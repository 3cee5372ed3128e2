/** Erasing small regions: `floodfill` and `floodfill_pixel` of imgproc/imgproc.cpp. */
module FloodFill {
  import opened Grid

  /** Neighbour offsets, in the order of the tables `dx` and `dy`. */
  function DX(c: nat): (d: int)
    requires c < 8
    ensures -1 <= d <= 1
  {
    [-1, -1, 0, 1, 1, 1, 0, -1][c]
  }

  function DY(c: nat): (d: int)
    requires c < 8
    ensures -1 <= d <= 1
  {
    [0, -1, -1, -1, 0, 1, 1, 1][c]
  }

  /** What one fill may paint: its start, whatever its colour, and the pixels of the region colour. */
  ghost function Fillable(img: Image, background: Byte, start: int): set<int> {
    {start} + Pixels(img, background)
  }

  lemma FillableFacts(img: Image, background: Byte, start: int)
    requires 0 <= start < |img|
    ensures start in Fillable(img, background, start)
    ensures forall p :: p in Fillable(img, background, start) ==> 0 <= p < |img|
  {
  }

  /** While a fill runs, the region colour marks exactly the fillable pixels not painted yet. */
  lemma StillFillable(img: Image, background: Byte, start: int, seen: set<int>, color: Byte, p: int)
    requires start in seen && background != color && 0 <= p < |img|
    ensures Painted(img, seen, color)[p] == background <==> p in Fillable(img, background, start) - seen
  {
  }

  /** Paints the start pixel and every region pixel 8-reachable from it, and counts them. */
  method FloodfillPixel(data: array<Byte>, w: Pos, h: Pos, background: Byte, fillWith: Byte, startX: int, startY: int)
    returns (pixelCounter: int)
    requires data.Length == Area(w, h)
    requires 0 <= startX < w && 0 <= startY < h
    requires background != fillWith
    modifies data
    ensures 0 <= At(w, startX, startY) < data.Length
    ensures var area := Component(w, 1, Fillable(old(data[..]), background, At(w, startX, startY)), At(w, startX, startY));
      data[..] == Painted(old(data[..]), area, fillWith) && pixelCounter == |area|
  {
    hide *;
    ghost var img := data[..];
    ghost var start := At(w, startX, startY);
    IndexOf(w, h, startX, startY);
    ghost var region := Fillable(img, background, start);

    FillableFacts(img, background, start);
    var stackX := new int[Area(w, h)];
    var stackY := new int[Area(w, h)];
    stackX[0] := startX;
    stackY[0] := startY;
    data[At(w, startX, startY)] := fillWith;
    pixelCounter := 1;
    var sp := 1;

    ghost var seen, stack := {start}, [start];
    FillBegins(w, h, 1, region, startX, startY, stackX[..], stackY[..]);
    while sp > 0
      invariant sp == |stack|
      invariant Filling(w, h, 1, region, start, stackX[..], stackY[..], stack, {}, seen)
      invariant start in seen && pixelCounter == |seen|
      invariant data[..] == Painted(img, seen, fillWith)
      decreases Area(w, h) - pixelCounter, sp
    {
      FillPops(w, h, 1, region, start, stackX[..], stackY[..], stack, seen);
      sp := sp - 1;
      var x := stackX[sp];
      var y := stackY[sp];
      ghost var cur, depth, before := stack[sp], sp, pixelCounter;
      stack := stack[..sp];
      LookedNone(w, h, region, seen, x, y);
      for c := 0 to 8
        invariant sp == |stack| < Area(w, h)
        invariant Filling(w, h, 1, region, start, stackX[..], stackY[..], stack, {cur}, seen)
        invariant start in seen && cur in seen && pixelCounter == |seen|
        invariant data[..] == Painted(img, seen, fillWith)
        invariant before <= pixelCounter && (pixelCounter == before ==> sp == depth)
        invariant Looked(w, h, region, seen, x, y, c)
      {
        var rx := x + DX(c);
        var ry := y + DY(c);
        if rx < 0 || rx > w - 1 || ry < 0 || ry > h - 1 {
          LookedNext(w, h, region, seen, seen, x, y, c);
          continue;
        }
        NextTo(w, h, 1, x, y, rx, ry);
        ghost var found, seenThen := At(w, rx, ry), seen;
        StillFillable(img, background, start, seen, fillWith, found);
        if data[At(w, rx, ry)] == background {
          FillPushes(w, h, 1, region, start, stackX[..], stackY[..], stack, cur, seen, rx, ry);
          PaintedMore(img, seen, fillWith, found);
          PushPixel(data, stackX, stackY, sp, rx, ry, At(w, rx, ry), fillWith);
          pixelCounter := pixelCounter + 1;
          sp := sp + 1;
          stack, seen := stack + [found], seen + {found};
        }
        LookedNext(w, h, region, seenThen, seen, x, y, c);
      }
      NeighboursLooked(w, h, region, seen, x, y);
      FillCloses(w, h, 1, region, start, stackX[..], stackY[..], stack, cur, seen);
    }
    assert stack == [];
    FillEnds(w, h, 1, region, start, stackX[..], stackY[..], seen);
  }

  /** The first `n` neighbours of (x, y) need not be looked at again. */
  ghost predicate Looked(w: Pos, h: Pos, region: set<int>, seen: set<int>, x: int, y: int, n: nat)
    requires n <= 8
  {
    forall k :: 0 <= k < n ==> LookedAt(w, h, region, seen, x + DX(k), y + DY(k))
  }

  ghost predicate LookedAt(w: Pos, h: Pos, region: set<int>, seen: set<int>, rx: int, ry: int) {
    0 <= rx < w && 0 <= ry < h && At(w, rx, ry) in region ==> At(w, rx, ry) in seen
  }

  lemma LookedNone(w: Pos, h: Pos, region: set<int>, seen: set<int>, x: int, y: int)
    ensures Looked(w, h, region, seen, x, y, 0)
  {
  }

  lemma LookedNext(w: Pos, h: Pos, region: set<int>, seen: set<int>, more: set<int>, x: int, y: int, c: nat)
    requires c < 8 && Looked(w, h, region, seen, x, y, c) && seen <= more
    requires LookedAt(w, h, region, more, x + DX(c), y + DY(c))
    ensures Looked(w, h, region, more, x, y, c + 1)
  {
  }

  /** The eight offsets and the pixel itself are the whole neighbourhood. */
  lemma NeighboursLooked(w: Pos, h: Pos, region: set<int>, seen: set<int>, x: int, y: int)
    requires 0 <= x < w && 0 <= y < h && At(w, x, y) in seen
    requires forall p :: p in region ==> 0 <= p < Area(w, h)
    requires Looked(w, h, region, seen, x, y, 8)
    ensures forall q :: q in region && Near(w, 1, At(w, x, y), q) ==> q in seen
  {
    IndexOf(w, h, x, y);
    forall q | q in region && Near(w, 1, At(w, x, y), q) ensures q in seen {
      CoordinatesOf(w, h, q);
      var dx, dy := Col(w, q) - x, Row(w, q) - y;
      if dx != 0 || dy != 0 {
        var k := if dy == 0 then (if dx < 0 then 0 else 4) else if dy < 0 then dx + 2 else 6 - dx;
        assert DX(k) == dx && DY(k) == dy;
        assert LookedAt(w, h, region, seen, x + DX(k), y + DY(k));
      }
    }
  }

  // ---------------------------------------------------------------------------
  // The whole image.

  /** The colour a pixel ends with: large regions are recoloured, small ones erased. */
  ghost function FinalColor(img: Image, w: Pos, background: Byte, fillWith: Byte, minContSize: int, p: int): Byte
    requires 0 <= p < |img|
  {
    if img[p] != background then 0
    else if |Component(w, 1, Pixels(img, background), p)| >= minContSize then fillWith
    else 0
  }

  /** The raster scan has settled every region that starts before pixel `k` and touched no other. */
  ghost predicate Settled(img: Image, now: Image, w: Pos, background: Byte, fillWith: Byte, minContSize: int, k: int) {
    var region := Pixels(img, background);
    && |now| == |img|
    && (forall p :: 0 <= p < |img| ==>
          (p in region && now[p] == background) || now[p] == FinalColor(img, w, background, fillWith, minContSize, p))
    && (forall p :: p in region && now[p] == background ==> p >= k)
    && (forall p, q :: p in region && now[p] == background && q in Component(w, 1, region, p)
          ==> now[q] == background)
  }

  ghost predicate Binary(img: Image, background: Byte) {
    forall p :: 0 <= p < |img| ==> img[p] == 0 || img[p] == background
  }

  lemma SettledStart(img: Image, w: Pos, background: Byte, fillWith: Byte, minContSize: int)
    requires Binary(img, background)
    ensures Settled(img, img, w, background, fillWith, minContSize, 0)
  {
  }

  lemma SettledEnd(img: Image, now: Image, w: Pos, background: Byte, fillWith: Byte, minContSize: int)
    requires Settled(img, now, w, background, fillWith, minContSize, |img|)
    ensures forall p :: 0 <= p < |img| ==> now[p] == FinalColor(img, w, background, fillWith, minContSize, p)
  {
  }

  lemma SettledSkip(img: Image, now: Image, w: Pos, background: Byte, fillWith: Byte, minContSize: int, k: int)
    requires Settled(img, now, w, background, fillWith, minContSize, k)
    requires 0 <= k < |img| && now[k] != background
    ensures Settled(img, now, w, background, fillWith, minContSize, k + 1)
  {
  }

  /** The first fill from an untouched pixel paints exactly its original component. */
  lemma FirstFill(img: Image, now: Image, w: Pos, background: Byte, fillWith: Byte, minContSize: int, k: int)
    requires Settled(img, now, w, background, fillWith, minContSize, k)
    requires background != 0 && background != fillWith && Binary(img, background)
    requires 0 <= k < |img| && now[k] == background
    ensures k in Pixels(img, background)
    ensures Component(w, 1, Fillable(now, background, k), k) == Component(w, 1, Pixels(img, background), k)
  {
    var region, part := Pixels(img, background), Fillable(now, background, k);
    assert part <= region;
    forall q | q in Component(w, 1, region, k) ensures q in part { assert now[q] == background; }
    ComponentOfPart(w, 1, region, part, k);
  }

  /** The erasing fill reaches the same pixels again and no component kept earlier. */
  lemma EraseFill(img: Image, now: Image, w: Pos, background: Byte, fillWith: Byte, minContSize: int, k: int)
    requires Settled(img, now, w, background, fillWith, minContSize, k)
    requires background != 0 && background != fillWith && fillWith != 0 && Binary(img, background)
    requires 0 <= k < |img| && now[k] == background
    ensures var area := Component(w, 1, Pixels(img, background), k);
      Component(w, 1, Fillable(Painted(now, area, fillWith), fillWith, k), k) == area
  {
    var region := Pixels(img, background);
    var area := Component(w, 1, region, k);
    var part := Fillable(Painted(now, area, fillWith), fillWith, k);
    ReachesSelf(w, 1, region, k);
    assert part <= region;
    assert area <= part;
    ComponentOfPart(w, 1, region, part, k);
  }

  lemma SettledFill(img: Image, now: Image, w: Pos, background: Byte, fillWith: Byte, minContSize: int, k: int)
    requires Settled(img, now, w, background, fillWith, minContSize, k)
    requires 0 <= k < |img| && now[k] == background && k in Pixels(img, background)
    requires background != 0 && background != fillWith
    ensures var area := Component(w, 1, Pixels(img, background), k);
      Settled(img, Painted(now, area, if |area| < minContSize then 0 else fillWith), w, background, fillWith, minContSize, k + 1)
  {
    var region := Pixels(img, background);
    var area := Component(w, 1, region, k);
    ReachesSelf(w, 1, region, k);
    var next := Painted(now, area, if |area| < minContSize then 0 else fillWith);
    forall p | p in area ensures next[p] == FinalColor(img, w, background, fillWith, minContSize, p) {
      SameComponent(w, 1, region, k, p);
    }
    forall p, q | p in region && next[p] == background && q in Component(w, 1, region, p)
      ensures next[q] == background
    {
      if q in area {
        SameComponent(w, 1, region, k, q);
        SameComponent(w, 1, region, p, q);
        ReachesSelf(w, 1, region, p);
      }
    }
  }

  /** Keeps the regions of at least `minContSize` pixels, recoloured, and erases the others. */
  method Floodfill(data: array<Byte>, w: Pos, h: Pos, background: Byte, fillWith: Byte, minContSize: int)
    requires data.Length == Area(w, h)
    requires background != 0 && fillWith != 0 && background != fillWith
    requires Binary(data[..], background)
    modifies data
    ensures forall p :: 0 <= p < data.Length ==>
      data[p] == FinalColor(old(data[..]), w, background, fillWith, minContSize, p)
  {
    hide At, Area, Col, Row, Component, Near, FinalColor, Fillable, Pixels, Settled;
    ghost var img := data[..];
    RasterOrder(w, h);
    SettledStart(img, w, background, fillWith, minContSize);
    for y := 0 to h
      invariant Settled(img, data[..], w, background, fillWith, minContSize, At(w, 0, y))
    {
      for x := 0 to w
        invariant Settled(img, data[..], w, background, fillWith, minContSize, At(w, x, y))
      {
        ghost var k := At(w, x, y);
        IndexOf(w, h, x, y);
        ghost var now := data[..];
        var b := data[At(w, x, y)];
        if b == 0 || b == fillWith {
          SettledSkip(img, now, w, background, fillWith, minContSize, k);
          continue;
        }
        SettledColors(img, now, w, background, fillWith, minContSize, k);
        FirstFill(img, now, w, background, fillWith, minContSize, k);
        EraseFill(img, now, w, background, fillWith, minContSize, k);
        SettledFill(img, now, w, background, fillWith, minContSize, k);
        ghost var area := Component(w, 1, Pixels(img, background), k);
        var size := FloodfillPixel(data, w, h, background, fillWith, x, y);
        if size < minContSize {
          size := FloodfillPixel(data, w, h, fillWith, 0, x, y);
          assert data[..] == Painted(now, area, 0);
        }
      }
    }
    SettledEnd(img, data[..], w, background, fillWith, minContSize);
  }

  lemma SettledColors(img: Image, now: Image, w: Pos, background: Byte, fillWith: Byte, minContSize: int, k: int)
    requires Settled(img, now, w, background, fillWith, minContSize, k)
    requires 0 <= k < |img|
    ensures now[k] == 0 || now[k] == fillWith || now[k] == background
  {
  }
  // ---------------------------------------------------------------------------
  // What the colours mean, in terms of walks over pixels.

  /** A walk over pixels of one colour, from pixel to pixel in any of eight directions. */
  ghost predicate Walk(img: Image, w: Pos, color: Byte, path: seq<int>) {
    && path != []
    && (forall i :: 0 <= i < |path| ==> 0 <= path[i] < |img| && img[path[i]] == color)
    && (forall i :: 0 < i < |path| ==>
          && -1 <= Col(w, path[i]) - Col(w, path[i - 1]) <= 1
          && -1 <= Row(w, path[i]) - Row(w, path[i - 1]) <= 1)
  }

  ghost predicate WalksTo(img: Image, w: Pos, color: Byte, p: int, q: int) {
    exists path :: Walk(img, w, color, path) && path[0] == p && path[|path| - 1] == q
  }

  lemma WalkIsPath(img: Image, w: Pos, color: Byte, path: seq<int>)
    ensures Walk(img, w, color, path) <==> Path(w, 1, Pixels(img, color), path)
  {
    hide Col, Row;
  }

  lemma WalksToMembers(img: Image, w: Pos, color: Byte, p: int, q: int)
    ensures WalksTo(img, w, color, p, q) <==>
      p in Pixels(img, color) && q in Component(w, 1, Pixels(img, color), p)
  {
    hide Col, Row, Near;
    forall path ensures Walk(img, w, color, path) <==> Path(w, 1, Pixels(img, color), path) {
      WalkIsPath(img, w, color, path);
    }
    if WalksTo(img, w, color, p, q) {
      var path :| Walk(img, w, color, path) && path[0] == p && path[|path| - 1] == q;
      assert Path(w, 1, Pixels(img, color), path);
    }
    if p in Pixels(img, color) && q in Component(w, 1, Pixels(img, color), p) {
      var path :| Path(w, 1, Pixels(img, color), path) && path[0] == p && path[|path| - 1] == q;
      assert Walk(img, w, color, path);
    }
  }

  lemma SubsetSize(a: set<int>, b: set<int>)
    requires a <= b
    ensures |a| <= |b|
  {
    assert b == a + (b - a);
  }

  /** After `Floodfill` a pixel has the colour `fillWith` exactly if it had the colour of the regions and at least
      `minContSize` pixels, itself included, could be walked to from it over that colour; all others are 0. */
  lemma KeptExactly(img: Image, w: Pos, background: Byte, fillWith: Byte, minContSize: int, p: int)
    requires 0 <= p < |img| && fillWith != 0
    ensures FinalColor(img, w, background, fillWith, minContSize, p) == fillWith <==>
      img[p] == background && exists s: set<int> :: |s| >= minContSize && forall q :: q in s ==> WalksTo(img, w, background, p, q)
    ensures FinalColor(img, w, background, fillWith, minContSize, p) in {0, fillWith}
  {
    hide Component, WalksTo;
    var region := Pixels(img, background);
    var area := Component(w, 1, region, p);
    forall q ensures WalksTo(img, w, background, p, q) <==> p in region && q in area {
      WalksToMembers(img, w, background, p, q);
    }
    if img[p] == background {
      assert forall q :: q in area ==> WalksTo(img, w, background, p, q);
      forall s: set<int> | forall q :: q in s ==> WalksTo(img, w, background, p, q) ensures |s| <= |area| {
        assert forall q :: q in s ==> q in area;
        SubsetSize(s, area);
      }
    }
  }
}
