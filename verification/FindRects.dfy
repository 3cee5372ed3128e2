/** Bounding boxes of bright areas: `find_rects` and `find_bounding_rect` of imgproc/imgproc.cpp. */
module FindRects {
  import opened Grid

  /** `width` and `height` are differences of corners, so a single pixel has width 0. */
  datatype Rect = Rect(x: int, y: int, width: int, height: int) {
    function Size(): int { width * height }
  }

  ghost function Fillable(img: Image, least: Byte, start: int): set<int> {
    {start} + Bright(img, least)
  }

  lemma FillableFacts(img: Image, least: Byte, start: int)
    requires 0 <= start < |img|
    ensures start in Fillable(img, least, start)
    ensures forall p :: p in Fillable(img, least, start) ==> 0 <= p < |img|
  {
  }

  lemma StillFillable(img: Image, least: Byte, start: int, seen: set<int>, color: Byte, p: int)
    requires start in seen && color < least && 0 <= p < |img|
    ensures Painted(img, seen, color)[p] >= least <==> p in Fillable(img, least, start) - seen
  {
  }

  // ---------------------------------------------------------------------------

  ghost predicate Covers(w: Pos, area: set<int>, left: int, top: int, right: int, bottom: int) {
    forall p :: p in area ==> left <= Col(w, p) <= right && top <= Row(w, p) <= bottom
  }

  ghost predicate Touches(w: Pos, area: set<int>, left: int, top: int, right: int, bottom: int) {
    && (exists p :: p in area && Col(w, p) == left)
    && (exists p :: p in area && Row(w, p) == top)
    && (exists p :: p in area && Col(w, p) == right)
    && (exists p :: p in area && Row(w, p) == bottom)
  }

  ghost predicate TightCorners(w: Pos, area: set<int>, left: int, top: int, right: int, bottom: int) {
    Covers(w, area, left, top, right, bottom) && Touches(w, area, left, top, right, bottom)
  }

  /** `rect` is the smallest box around `area`: it covers it and each side touches it. */
  ghost predicate Tight(w: Pos, area: set<int>, rect: Rect) {
    TightCorners(w, area, rect.x, rect.y, rect.x + rect.width, rect.y + rect.height)
  }

  lemma TightUnique(w: Pos, area: set<int>, a: Rect, b: Rect)
    requires Tight(w, area, a) && Tight(w, area, b)
    ensures a == b
  {
  }

  lemma TightGrows(w: Pos, area: set<int>, l: int, t: int, r: int, b: int, q: int)
    requires TightCorners(w, area, l, t, r, b)
    ensures var x, y := Col(w, q), Row(w, q);
      TightCorners(w, area + {q}, if x < l then x else l, if y < t then y else t,
                   if x > r then x else r, if y > b then y else b)
  {
    var more := area + {q};
    assert q in more;
    var p1 :| p1 in area && Col(w, p1) == l;
    var p2 :| p2 in area && Row(w, p2) == t;
    var p3 :| p3 in area && Col(w, p3) == r;
    var p4 :| p4 in area && Row(w, p4) == b;
    assert p1 in more && p2 in more && p3 in more && p4 in more;
  }

  lemma TightSingle(w: Pos, q: int)
    ensures TightCorners(w, {q}, Col(w, q), Row(w, q), Col(w, q), Row(w, q))
  {
    assert q in {q};
  }

  lemma Pick(area: set<int>) returns (q: int)
    ensures area != {} ==> q in area
  {
    if exists x :: x in area {
      q :| q in area;
    } else {
      assert area == {};
      q := 0;
    }
  }

  lemma {:induction false} TightExists(w: Pos, area: set<int>)
    requires area != {}
    ensures exists rect :: Tight(w, area, rect)
  {
    hide TightCorners, Col, Row;
    var q := Pick(area);
    var rest := area - {q};
    if rest == {} {
      assert area == {q};
      TightSingle(w, q);
      TightCornersToRect(w, area, Col(w, q), Row(w, q), Col(w, q), Row(w, q));
    } else {
      TightExists(w, rest);
      var rect :| Tight(w, rest, rect);
      var l, t, r, b := rect.x, rect.y, rect.x + rect.width, rect.y + rect.height;
      TightGrows(w, rest, l, t, r, b, q);
      assert area == rest + {q};
      var x, y := Col(w, q), Row(w, q);
      TightCornersToRect(w, area, if x < l then x else l, if y < t then y else t,
                         if x > r then x else r, if y > b then y else b);
    }
  }

  /** The one tight box of a non-empty area. */
  ghost function BoxOf(w: Pos, area: set<int>): (rect: Rect)
    requires area != {}
    ensures Tight(w, area, rect)
  {
    TightExists(w, area);
    var rect :| Tight(w, area, rect);
    rect
  }

  lemma TightStart(w: Pos, h: Pos, x: int, y: int)
    requires 0 <= x < w && 0 <= y < h
    ensures TightCorners(w, {At(w, x, y)}, x, y, x, y)
  {
    IndexOf(w, h, x, y);
    assert At(w, x, y) in {At(w, x, y)};
  }

  // ---------------------------------------------------------------------------

  /** Offsets (i, j) of the window around (x, y) before (dx, dy), column by column, are in `seen` if in the region. */
  ghost predicate Looked(w: Pos, h: Pos, gap: int, region: set<int>, seen: set<int>, x: int, y: int, dx: int, dy: int) {
    forall q | q in region && Near(w, gap, At(w, x, y), q) ::
      Col(w, q) - x < dx || (Col(w, q) - x == dx && Row(w, q) - y < dy) ==> q in seen
  }

  lemma LookedNone(w: Pos, h: Pos, gap: int, region: set<int>, seen: set<int>, x: int, y: int)
    requires 0 <= x < w && 0 <= y < h
    ensures Looked(w, h, gap, region, seen, x, y, -gap, -gap)
  {
    IndexOf(w, h, x, y);
  }

  lemma LookedNext(w: Pos, h: Pos, gap: int, region: set<int>, seen: set<int>, more: set<int>, x: int, y: int, dx: int, dy: int)
    requires Looked(w, h, gap, region, seen, x, y, dx, dy) && seen <= more
    requires forall p :: p in region ==> 0 <= p < Area(w, h)
    requires 0 <= x + dx < w && 0 <= y + dy < h && At(w, x + dx, y + dy) in region ==> At(w, x + dx, y + dy) in more
    ensures Looked(w, h, gap, region, more, x, y, dx, dy + 1)
  {
    forall q | q in region && Near(w, gap, At(w, x, y), q) && Col(w, q) - x == dx && Row(w, q) - y == dy
      ensures q in more
    {
      CoordinatesOf(w, h, q);
    }
  }

  lemma LookedColumn(w: Pos, h: Pos, gap: int, region: set<int>, seen: set<int>, x: int, y: int, dx: int)
    requires Looked(w, h, gap, region, seen, x, y, dx, gap + 1) && 0 <= x < w && 0 <= y < h
    ensures Looked(w, h, gap, region, seen, x, y, dx + 1, -gap)
  {
    IndexOf(w, h, x, y);
  }

  lemma LookedAll(w: Pos, h: Pos, gap: int, region: set<int>, seen: set<int>, x: int, y: int, dx: int)
    requires Looked(w, h, gap, region, seen, x, y, dx, -gap) && dx > gap && 0 <= x < w && 0 <= y < h
    ensures forall q :: q in region && Near(w, gap, At(w, x, y), q) ==> q in seen
  {
    IndexOf(w, h, x, y);
  }

  /** Paints the area reachable from the start pixel over gaps of at most `gap` and returns its tight box. */
  method FindBoundingRect(data: array<Byte>, w: Pos, h: Pos, startColor: Byte, resultColor: Byte,
                          startX: int, startY: int, allowedGap: int)
    returns (rect: Rect)
    requires data.Length == Area(w, h)
    requires 0 <= startX < w && 0 <= startY < h
    requires resultColor < startColor
    modifies data
    ensures 0 <= At(w, startX, startY) < data.Length
    ensures var start := At(w, startX, startY);
      var area := Component(w, allowedGap, Fillable(old(data[..]), startColor, start), start);
      data[..] == Painted(old(data[..]), area, resultColor) && Tight(w, area, rect)
  {
    hide *;
    ghost var img := data[..];
    ghost var start := At(w, startX, startY);
    IndexOf(w, h, startX, startY);
    ghost var region := Fillable(img, startColor, start);
    FillableFacts(img, startColor, start);

    var stackX := new int[Area(w, h)];
    var stackY := new int[Area(w, h)];
    stackX[0] := startX;
    stackY[0] := startY;
    data[At(w, startX, startY)] := resultColor;
    var upLeftX, upLeftY := startX, startY;
    var downRightX, downRightY := startX, startY;
    var pixelCounter := 1;
    var sp := 1;
    ghost var seen, stack := {start}, [start];
    FillBegins(w, h, allowedGap, region, startX, startY, stackX[..], stackY[..]);
    TightStart(w, h, startX, startY);
    while sp > 0
      invariant sp == |stack|
      invariant Filling(w, h, allowedGap, region, start, stackX[..], stackY[..], stack, {}, seen)
      invariant start in seen && pixelCounter == |seen|
      invariant data[..] == Painted(img, seen, resultColor)
      invariant TightCorners(w, seen, upLeftX, upLeftY, downRightX, downRightY)
      decreases Area(w, h) - pixelCounter, sp
    {
      FillPops(w, h, allowedGap, region, start, stackX[..], stackY[..], stack, seen);
      sp := sp - 1;
      var x := stackX[sp];
      var y := stackY[sp];
      ghost var cur, depth, before := stack[sp], sp, pixelCounter;
      stack := stack[..sp];
      LookedNone(w, h, allowedGap, region, seen, x, y);
      var dx := -allowedGap;
      while dx <= allowedGap
        invariant sp == |stack| < Area(w, h)
        invariant Filling(w, h, allowedGap, region, start, stackX[..], stackY[..], stack, {cur}, seen)
        invariant start in seen && cur in seen && pixelCounter == |seen|
        invariant data[..] == Painted(img, seen, resultColor)
        invariant TightCorners(w, seen, upLeftX, upLeftY, downRightX, downRightY)
        invariant before <= pixelCounter && (pixelCounter == before ==> sp == depth)
        invariant -allowedGap <= dx
        invariant Looked(w, h, allowedGap, region, seen, x, y, dx, -allowedGap)
      {
        var dy := -allowedGap;
        while dy <= allowedGap
          invariant sp == |stack| < Area(w, h)
          invariant Filling(w, h, allowedGap, region, start, stackX[..], stackY[..], stack, {cur}, seen)
          invariant start in seen && cur in seen && pixelCounter == |seen|
          invariant data[..] == Painted(img, seen, resultColor)
          invariant TightCorners(w, seen, upLeftX, upLeftY, downRightX, downRightY)
          invariant before <= pixelCounter && (pixelCounter == before ==> sp == depth)
          invariant -allowedGap <= dy <= allowedGap + 1
          invariant Looked(w, h, allowedGap, region, seen, x, y, dx, dy)
        {
          var rx := x + dx;
          var ry := y + dy;
          ghost var found, seenThen := At(w, rx, ry), seen;
          if 0 <= rx < w && 0 <= ry < h {
            NextTo(w, h, allowedGap, x, y, rx, ry);
            StillFillable(img, startColor, start, seen, resultColor, found);
            if data[At(w, rx, ry)] >= startColor {
              IndexOf(w, h, rx, ry);
              TightGrows(w, seen, upLeftX, upLeftY, downRightX, downRightY, found);
              if rx < upLeftX { upLeftX := rx; }
              if ry < upLeftY { upLeftY := ry; }
              if rx > downRightX { downRightX := rx; }
              if ry > downRightY { downRightY := ry; }
              FillPushes(w, h, allowedGap, region, start, stackX[..], stackY[..], stack, cur, seen, rx, ry);
              PaintedMore(img, seen, resultColor, found);
              PushPixel(data, stackX, stackY, sp, rx, ry, At(w, rx, ry), resultColor);
              pixelCounter := pixelCounter + 1;
              sp := sp + 1;
              stack, seen := stack + [found], seen + {found};
            }
          }
          LookedNext(w, h, allowedGap, region, seenThen, seen, x, y, dx, dy);
          dy := dy + 1;
        }
        LookedColumn(w, h, allowedGap, region, seen, x, y, dx);
        dx := dx + 1;
      }
      LookedAll(w, h, allowedGap, region, seen, x, y, dx);
      FillCloses(w, h, allowedGap, region, start, stackX[..], stackY[..], stack, cur, seen);
    }
    assert stack == [];
    FillEnds(w, h, allowedGap, region, start, stackX[..], stackY[..], seen);
    rect := Rect(upLeftX, upLeftY, downRightX - upLeftX, downRightY - upLeftY);
    TightCornersToRect(w, seen, upLeftX, upLeftY, downRightX, downRightY);
  }

  lemma TightCornersToRect(w: Pos, area: set<int>, l: int, t: int, r: int, b: int)
    requires TightCorners(w, area, l, t, r, b)
    ensures Tight(w, area, Rect(l, t, r - l, b - t))
  {
    assert l + (r - l) == r && t + (b - t) == b;
  }

  // ---------------------------------------------------------------------------
  // The whole image.

  /** The colours and the gap that `find_rects` is called with. */
  datatype Query = Query(w: Pos, gap: int, startColor: Byte, minColor: Byte, resultColor: Byte, minObjSize: int) {
    predicate Valid() { startColor >= minColor > resultColor }

    ghost function Area(img: Image, p: int): set<int> {
      Component(w, gap, Bright(img, minColor), p)
    }

    /** Pixel `p` lies in an area that holds a pixel of at least `startColor`. */
    ghost predicate InObject(img: Image, p: int) {
      p in Bright(img, minColor) && exists q :: q in Area(img, p) && img[q] >= startColor
    }

    /** The first pixel of its area, in raster order, that is at least `startColor`. */
    ghost predicate IsSeed(img: Image, k: int) {
      && k in Bright(img, startColor)
      && forall q :: q in Area(img, k) && img[q] >= startColor ==> k <= q
    }

    predicate Large(rect: Rect, h: Pos) {
      || rect.width as real > minObjSize as real * 0.01 * w as real
      || rect.height as real > minObjSize as real * 0.01 * h as real
    }

    /** Boxes of the large objects whose seeds come before pixel `k`, in seed order. */
    ghost function Boxes(img: Image, h: Pos, k: nat): seq<Rect>
      requires Valid()
    {
      if k == 0 then []
      else if !IsSeed(img, k - 1) then Boxes(img, h, k - 1)
      else
        SeedInArea(img, k - 1);
        var rect := BoxOf(w, Area(img, k - 1));
        Boxes(img, h, k - 1) + if Large(rect, h) then [rect] else []
    }

    /** The largest box of any object whose seed comes before pixel `k`, kept or not. */
    ghost function Largest(img: Image, k: nat): int
      requires Valid()
    {
      if k == 0 then 0
      else if !IsSeed(img, k - 1) then Largest(img, k - 1)
      else
        SeedInArea(img, k - 1);
        var size, others := BoxOf(w, Area(img, k - 1)).Size(), Largest(img, k - 1);
        if size > others then size else others
    }

    lemma SeedInArea(img: Image, k: int)
      requires Valid() && k in Bright(img, startColor)
      ensures k in Area(img, k)
    {
      ReachesSelf(w, gap, Bright(img, minColor), k);
    }
  }

  /** Every object has exactly one seed, so it is boxed exactly once. */
  lemma OneSeedPerObject(img: Image, q: Query, p: int)
    requires q.Valid() && q.InObject(img, p)
    ensures exists k :: k in q.Area(img, p) && q.IsSeed(img, k)
    ensures forall j, k :: j in q.Area(img, p) && k in q.Area(img, p) && q.IsSeed(img, j) && q.IsSeed(img, k) ==> j == k
  {
    var k :| k in q.Area(img, p) && img[k] >= q.startColor;
    while exists j :: j in q.Area(img, p) && img[j] >= q.startColor && j < k
      invariant k in q.Area(img, p) && img[k] >= q.startColor
      decreases k
    {
      var j :| j in q.Area(img, p) && img[j] >= q.startColor && j < k;
      k := j;
    }
    forall j | j in q.Area(img, p) ensures q.Area(img, j) == q.Area(img, p) {
      SameComponent(q.w, q.gap, Bright(img, q.minColor), p, j);
    }
    assert q.IsSeed(img, k);
  }

  ghost predicate Settled(img: Image, now: Image, q: Query, k: int) {
    && |now| == |img|
    && (forall p :: 0 <= p < |img| ==>
          now[p] == img[p] || (now[p] == q.resultColor && p in Bright(img, q.minColor)))
    && (forall p :: p in Bright(img, q.startColor) && p < k ==> now[p] == q.resultColor)
    && (forall p :: p in Bright(img, q.minColor) && now[p] == q.resultColor ==>
          exists s :: s in q.Area(img, p) && img[s] >= q.startColor && s < k)
    && (forall p, r :: p in Bright(img, q.minColor) && now[p] == img[p] && r in q.Area(img, p) ==> now[r] == img[r])
  }

  lemma SettledStart(img: Image, q: Query)
    requires q.Valid()
    ensures Settled(img, img, q, 0)
  {
  }

  lemma SettledEnd(img: Image, now: Image, q: Query)
    requires q.Valid() && Settled(img, now, q, |img|)
    ensures forall p :: 0 <= p < |img| ==> now[p] == if q.InObject(img, p) then q.resultColor else img[p]
  {
    forall p | 0 <= p < |img| && q.InObject(img, p) ensures now[p] == q.resultColor {
      var s :| s in q.Area(img, p) && img[s] >= q.startColor;
      assert s in Bright(img, q.startColor);
    }
  }

  /** The scan finds a start pixel still bright exactly at the seed of an object. */
  lemma SettledSeed(img: Image, now: Image, q: Query, k: int)
    requires q.Valid() && Settled(img, now, q, k) && 0 <= k < |img|
    ensures now[k] >= q.startColor <==> q.IsSeed(img, k)
  {
    if k in Bright(img, q.minColor) && now[k] == q.resultColor {
      var s :| s in q.Area(img, k) && img[s] >= q.startColor && s < k;
      assert !q.IsSeed(img, k);
    }
    if now[k] >= q.startColor {
      assert now[k] == img[k];
      forall s | s in q.Area(img, k) && img[s] >= q.startColor ensures k <= s {
        assert now[s] == img[s];
        assert s in Bright(img, q.startColor);
      }
    }
  }

  lemma SettledSkip(img: Image, now: Image, q: Query, k: int)
    requires q.Valid() && Settled(img, now, q, k) && 0 <= k < |img| && now[k] < q.startColor
    ensures Settled(img, now, q, k + 1)
  {
  }

  /** The bright pixels of the object at hand are all still there to be filled. */
  lemma SettledComponent(img: Image, now: Image, q: Query, k: int)
    requires q.Valid() && Settled(img, now, q, k) && 0 <= k < |img| && now[k] >= q.startColor
    ensures Component(q.w, q.gap, Fillable(now, q.minColor, k), k) == q.Area(img, k)
  {
    var region, part := Bright(img, q.minColor), Fillable(now, q.minColor, k);
    assert part <= region;
    q.SeedInArea(img, k);
    forall r | r in q.Area(img, k) ensures r in part { assert now[r] == img[r]; }
    ComponentOfPart(q.w, q.gap, region, part, k);
  }

  lemma SameArea(img: Image, q: Query, p: int, r: int)
    requires q.Valid() && r in q.Area(img, p)
    ensures 0 <= r < |img| && r in Bright(img, q.minColor) && q.Area(img, r) == q.Area(img, p)
  {
    SameComponent(q.w, q.gap, Bright(img, q.minColor), p, r);
  }

  /** After object `k` is painted: a bright pixel that is erased has a start pixel of its object behind it. */
  lemma PaintedHasStart(img: Image, now: Image, q: Query, k: int, p: int)
    requires q.Valid() && Settled(img, now, q, k) && 0 <= k < |img| && now[k] >= q.startColor
    requires p in Bright(img, q.minColor) && Painted(now, q.Area(img, k), q.resultColor)[p] == q.resultColor
    ensures exists s :: s in q.Area(img, p) && img[s] >= q.startColor && s < k + 1
  {
    if p in q.Area(img, k) {
      q.SeedInArea(img, k);
      SameArea(img, q, k, p);
      hide Component, Query.Area;
      assert k in q.Area(img, p);
    }
  }

  /** And an object that is not erased is not erased anywhere. */
  lemma PaintedIsWhole(img: Image, now: Image, q: Query, k: int, p: int, r: int)
    requires q.Valid() && Settled(img, now, q, k) && 0 <= k < |img|
    requires p in Bright(img, q.minColor) && r in q.Area(img, p)
    requires Painted(now, q.Area(img, k), q.resultColor)[p] == img[p]
    ensures 0 <= r < |img| && Painted(now, q.Area(img, k), q.resultColor)[r] == img[r]
  {
    SameArea(img, q, p, r);
    ReachesSelf(q.w, q.gap, Bright(img, q.minColor), p);
    assert p in q.Area(img, p);
    if r in q.Area(img, k) { SameArea(img, q, k, r); }
  }

  lemma SettledFill(img: Image, now: Image, q: Query, k: int)
    requires q.Valid() && Settled(img, now, q, k) && 0 <= k < |img| && now[k] >= q.startColor
    ensures Component(q.w, q.gap, Fillable(now, q.minColor, k), k) == q.Area(img, k)
    ensures Settled(img, Painted(now, q.Area(img, k), q.resultColor), q, k + 1)
  {
    SettledComponent(img, now, q, k);
    q.SeedInArea(img, k);
    var region, area := Bright(img, q.minColor), q.Area(img, k);
    assert area <= region;
    hide Component, Fillable, Query.Area;
    var next := Painted(now, area, q.resultColor);
    forall p | p in region && next[p] == q.resultColor
      ensures exists s :: s in q.Area(img, p) && img[s] >= q.startColor && s < k + 1
    {
      PaintedHasStart(img, now, q, k, p);
    }
    forall p, r | p in region && next[p] == img[p] && r in q.Area(img, p)
      ensures 0 <= r < |img| && next[r] == img[r]
    {
      PaintedIsWhole(img, now, q, k, p, r);
    }
  }

  /** Boxes every object once, erases all objects and leaves every other pixel alone. */
  method FindRects(data: array<Byte>, h: Pos, q: Query) returns (rects: seq<Rect>, maxRectSquare: int)
    requires data.Length == Area(q.w, h) && q.Valid()
    modifies data
    ensures forall p :: 0 <= p < data.Length ==>
      data[p] == if q.InObject(old(data[..]), p) then q.resultColor else old(data[p])
    ensures rects == q.Boxes(old(data[..]), h, data.Length)
    ensures maxRectSquare == q.Largest(old(data[..]), data.Length)
  {
    hide At, Grid.Area, Col, Row, Component, Near, Settled, Fillable, Bright, Tight, Query.Area, Query.InObject, Query.IsSeed;
    ghost var img := data[..];
    RasterOrder(q.w, h);
    rects, maxRectSquare := [], 0;
    SettledStart(img, q);
    for y := 0 to h
      invariant Settled(img, data[..], q, At(q.w, 0, y))
      invariant rects == q.Boxes(img, h, At(q.w, 0, y)) && maxRectSquare == q.Largest(img, At(q.w, 0, y))
    {
      for x := 0 to q.w
        invariant Settled(img, data[..], q, At(q.w, x, y))
        invariant rects == q.Boxes(img, h, At(q.w, x, y)) && maxRectSquare == q.Largest(img, At(q.w, x, y))
      {
        ghost var k, now := At(q.w, x, y), data[..];
        IndexOf(q.w, h, x, y);
        SettledSeed(img, now, q, k);
        var b := data[At(q.w, x, y)];
        if b < q.startColor {
          SettledSkip(img, now, q, k);
          continue;
        }
        SettledFill(img, now, q, k);
        SeedBoxed(img, q, h, k);
        var rect := FindBoundingRect(data, q.w, h, q.minColor, q.resultColor, x, y, q.gap);
        TightUnique(q.w, q.Area(img, k), rect, BoxOf(q.w, q.Area(img, k)));
        var area := rect.Size();
        if q.Large(rect, h) {
          rects := rects + [rect];
        }
        if area > maxRectSquare {
          maxRectSquare := area;
        }
      }
    }
    SettledEnd(img, data[..], q);
  }

  lemma SeedBoxed(img: Image, q: Query, h: Pos, k: nat)
    requires q.Valid() && q.IsSeed(img, k)
    ensures q.Area(img, k) != {}
    ensures var rect := BoxOf(q.w, q.Area(img, k));
      && q.Boxes(img, h, k + 1) == q.Boxes(img, h, k) + (if q.Large(rect, h) then [rect] else [])
      && q.Largest(img, k + 1) == if rect.Size() > q.Largest(img, k) then rect.Size() else q.Largest(img, k)
  {
    q.SeedInArea(img, k);
  }

  // ---------------------------------------------------------------------------
  // Which boxes are kept, in terms of pixels.

  /** More than `percent` hundredths of `side`. */
  predicate Exceeds(distance: int, percent: int, side: int) {
    100 * distance > percent * side
  }

  /** Two pixels of the object of `k` lie farther apart, along a side of the image, than the query allows a small
      object to reach. */
  ghost predicate Spread(img: Image, q: Query, h: Pos, k: int) {
    exists a, b :: a in q.Area(img, k) && b in q.Area(img, k)
      && (Exceeds(Col(q.w, a) - Col(q.w, b), q.minObjSize, q.w) || Exceeds(Row(q.w, a) - Row(q.w, b), q.minObjSize, h))
  }

  lemma ExceedsIs(distance: int, percent: int, side: int)
    ensures distance as real > percent as real * 0.01 * side as real <==> Exceeds(distance, percent, side)
  {
    assert percent as real * side as real == (percent * side) as real;
  }

  lemma LargeIsSpread(img: Image, q: Query, h: Pos, k: int, rect: Rect)
    requires Tight(q.w, q.Area(img, k), rect)
    ensures q.Large(rect, h) <==> Spread(img, q, h, k)
  {
    hide Query.Area, Query.Large, Col, Row, Tight, Exceeds;
    LargeExceeds(q, h, rect);
    BoxIsSpread(q.w, q.Area(img, k), rect, q.minObjSize, h);
  }

  lemma LargeExceeds(q: Query, h: Pos, rect: Rect)
    ensures q.Large(rect, h) <==> Exceeds(rect.width, q.minObjSize, q.w) || Exceeds(rect.height, q.minObjSize, h)
  {
    hide Exceeds;
    ExceedsIs(rect.width, q.minObjSize, q.w);
    ExceedsIs(rect.height, q.minObjSize, h);
  }

  lemma ExceedsMore(distance: int, longer: int, percent: int, side: int)
    requires distance <= longer
    ensures Exceeds(distance, percent, side) ==> Exceeds(longer, percent, side)
  {
  }

  /** The sides of a tight box are as long as the distances between some pixels, and no distance is longer. */
  lemma BoxIsSpread(w: Pos, area: set<int>, rect: Rect, percent: int, h: Pos)
    requires Tight(w, area, rect)
    ensures Exceeds(rect.width, percent, w) || Exceeds(rect.height, percent, h) <==>
      exists a, b :: a in area && b in area
        && (Exceeds(Col(w, a) - Col(w, b), percent, w) || Exceeds(Row(w, a) - Row(w, b), percent, h))
  {
    hide Col, Row, Exceeds;
    var a :| a in area && Col(w, a) == rect.x + rect.width;
    var b :| b in area && Col(w, b) == rect.x;
    assert Col(w, a) - Col(w, b) == rect.width;
    var c :| c in area && Row(w, c) == rect.y + rect.height;
    var d :| d in area && Row(w, d) == rect.y;
    assert Row(w, c) - Row(w, d) == rect.height;
    forall a, b | a in area && b in area
      ensures Exceeds(Col(w, a) - Col(w, b), percent, w) ==> Exceeds(rect.width, percent, w)
      ensures Exceeds(Row(w, a) - Row(w, b), percent, h) ==> Exceeds(rect.height, percent, h)
    {
      ExceedsMore(Col(w, a) - Col(w, b), rect.width, percent, w);
      ExceedsMore(Row(w, a) - Row(w, b), rect.height, percent, h);
    }
  }

  /** The boxes that `FindRects` returns are those of the objects, each once and in the order of their first start
      pixels, that have two pixels far enough apart. */
  lemma {:induction false} KeptBoxes(img: Image, q: Query, h: Pos, n: nat) returns (seeds: seq<int>)
    requires q.Valid()
    ensures |seeds| == |q.Boxes(img, h, n)|
    ensures forall i, j :: 0 <= i < j < |seeds| ==> seeds[i] < seeds[j]
    ensures forall k :: k in seeds <==> 0 <= k < n && q.IsSeed(img, k) && Spread(img, q, h, k)
    ensures forall i :: 0 <= i < |seeds| ==> Tight(q.w, q.Area(img, seeds[i]), q.Boxes(img, h, n)[i])
  {
    hide Query.Area, Query.IsSeed, Tight, Spread, Query.Large;
    if n == 0 {
      seeds := [];
    } else {
      seeds := KeptBoxes(img, q, h, n - 1);
      assert forall i :: 0 <= i < |seeds| ==> seeds[i] in seeds;
      if q.IsSeed(img, n - 1) {
        SeedBoxed(img, q, h, n - 1);
        var rect := BoxOf(q.w, q.Area(img, n - 1));
        LargeIsSpread(img, q, h, n - 1, rect);
        if Spread(img, q, h, n - 1) { seeds := seeds + [n - 1]; }
      }
    }
  }

  /** `a`, `b` are as far apart in columns, and `c`, `d` in rows, as two pixels of the object of `k`. */
  ghost predicate Spans(img: Image, q: Query, k: int, a: int, b: int, c: int, d: int) {
    && a in q.Area(img, k) && b in q.Area(img, k) && c in q.Area(img, k) && d in q.Area(img, k)
    && Col(q.w, a) >= Col(q.w, b) && Row(q.w, c) >= Row(q.w, d)
  }

  ghost function Span(q: Query, a: int, b: int, c: int, d: int): int {
    (Col(q.w, a) - Col(q.w, b)) * (Row(q.w, c) - Row(q.w, d))
  }

  lemma SpanInBox(img: Image, q: Query, k: int, rect: Rect, a: int, b: int, c: int, d: int)
    requires Tight(q.w, q.Area(img, k), rect) && Spans(img, q, k, a, b, c, d)
    ensures Span(q, a, b, c, d) <= rect.Size()
  {
    SidesOfSpan(img, q, k, rect, a, b, c, d);
    hide Tight, Col, Row, Query.Area, Spans;
    ProductGrows(Col(q.w, a) - Col(q.w, b), rect.width, Row(q.w, c) - Row(q.w, d), rect.height);
  }

  lemma ProductGrows(x: int, width: int, y: int, height: int)
    requires 0 <= x <= width && 0 <= y <= height
    ensures x * y <= width * height
  {
    assert x * y <= width * y <= width * height;
  }

  lemma SidesOfSpan(img: Image, q: Query, k: int, rect: Rect, a: int, b: int, c: int, d: int)
    requires Tight(q.w, q.Area(img, k), rect) && Spans(img, q, k, a, b, c, d)
    ensures 0 <= Col(q.w, a) - Col(q.w, b) <= rect.width && 0 <= Row(q.w, c) - Row(q.w, d) <= rect.height
  {
    hide Col, Row, Query.Area;
  }

  lemma BoxIsSpan(img: Image, q: Query, k: int, rect: Rect) returns (a: int, b: int, c: int, d: int)
    requires q.Valid() && Tight(q.w, q.Area(img, k), rect)
    ensures Spans(img, q, k, a, b, c, d) && Span(q, a, b, c, d) == rect.Size()
  {
    hide Query.Area, Col, Row;
    var area := q.Area(img, k);
    a :| a in area && Col(q.w, a) == rect.x + rect.width;
    b :| b in area && Col(q.w, b) == rect.x;
    c :| c in area && Row(q.w, c) == rect.y + rect.height;
    d :| d in area && Row(q.w, d) == rect.y;
  }

  /** The returned size is that of the largest box around an object: no two pairs of pixels of one object span more,
      and if there is an object some do span it. */
  lemma {:induction false} LargestSpan(img: Image, q: Query, n: nat)
    requires q.Valid()
    ensures forall k, a, b, c, d :: 0 <= k < n && q.IsSeed(img, k) && Spans(img, q, k, a, b, c, d) ==>
      Span(q, a, b, c, d) <= q.Largest(img, n)
    ensures q.Largest(img, n) == 0 ||
      exists k, a, b, c, d :: 0 <= k < n && q.IsSeed(img, k) && Spans(img, q, k, a, b, c, d)
                              && Span(q, a, b, c, d) == q.Largest(img, n)
  {
    hide Query.Area, Query.IsSeed, Tight, Spans, Span;
    if n > 0 {
      LargestSpan(img, q, n - 1);
      if q.IsSeed(img, n - 1) {
        q.SeedInArea(img, n - 1) by { SeedIsStart(img, q, n - 1); }
        var rect := BoxOf(q.w, q.Area(img, n - 1));
        var a, b, c, d := BoxIsSpan(img, q, n - 1, rect);
        forall a, b, c, d | Spans(img, q, n - 1, a, b, c, d) ensures Span(q, a, b, c, d) <= rect.Size() {
          SpanInBox(img, q, n - 1, rect, a, b, c, d);
        }
      }
    }
  }

  lemma SeedIsStart(img: Image, q: Query, k: int)
    requires q.IsSeed(img, k)
    ensures k in Bright(img, q.startColor)
  {
  }
  // ---------------------------------------------------------------------------
  // Which pixels are erased, in terms of hops over pixels.

  /** A sequence of pixels of at least `least`, each no more than `gap` columns and rows from the one before. */
  ghost predicate Hops(img: Image, w: Pos, gap: int, least: Byte, path: seq<int>) {
    && path != []
    && (forall i :: 0 <= i < |path| ==> 0 <= path[i] < |img| && img[path[i]] >= least)
    && (forall i :: 0 < i < |path| ==>
          && -gap <= Col(w, path[i]) - Col(w, path[i - 1]) <= gap
          && -gap <= Row(w, path[i]) - Row(w, path[i - 1]) <= gap)
  }

  lemma HopsArePath(img: Image, w: Pos, gap: int, least: Byte, path: seq<int>)
    ensures Hops(img, w, gap, least, path) <==> Path(w, gap, Bright(img, least), path)
  {
    hide Col, Row;
  }

  /** `FindRects` erases exactly the pixels from which a start pixel can be reached by hops. */
  lemma ErasedExactly(img: Image, q: Query, p: int)
    requires q.Valid()
    ensures q.InObject(img, p) <==>
      exists path :: Hops(img, q.w, q.gap, q.minColor, path) && path[0] == p && img[path[|path| - 1]] >= q.startColor
  {
    hide Col, Row, Near;
    forall path ensures Hops(img, q.w, q.gap, q.minColor, path) <==> Path(q.w, q.gap, Bright(img, q.minColor), path) {
      HopsArePath(img, q.w, q.gap, q.minColor, path);
    }
    if q.InObject(img, p) {
      var r :| r in q.Area(img, p) && img[r] >= q.startColor;
      var path :| Path(q.w, q.gap, Bright(img, q.minColor), path) && path[0] == p && path[|path| - 1] == r;
      assert Hops(img, q.w, q.gap, q.minColor, path);
    }
    if path :| Hops(img, q.w, q.gap, q.minColor, path) && path[0] == p && img[path[|path| - 1]] >= q.startColor {
      assert Path(q.w, q.gap, Bright(img, q.minColor), path);
      assert path[|path| - 1] in q.Area(img, p);
    }
  }
}
