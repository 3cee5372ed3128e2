/** Pixels of a row-major image and the connectivity that both fills search.

    A pixel is its flat index; in an image of width `w` pixel `p` lies in column
    `p % w` and row `p / w`.  Two pixels are neighbours when neither coordinate
    differs by more than `gap`: gap 1 is the usual 8-neighbourhood.
  */
module Grid {
  type Byte = b: int | 0 <= b < 256
  type Pos = n: int | 0 < n witness 1

  type Image = seq<Byte>

  function Col(w: Pos, p: int): int { p % w }

  function Row(w: Pos, p: int): int { p / w }

  /** The flat index of column `x`, row `y`. */
  function At(w: Pos, x: int, y: int): int { y * w + x }

  function Area(w: Pos, h: Pos): int { w * h }

  lemma Monotone(a: int, b: int, w: int)
    requires a <= b && 0 <= w
    ensures a * w <= b * w
  {
    assert 0 <= (b - a) * w;
  }

  lemma QuotientUnique(w: Pos, q: int, r: int, y: int, x: int)
    requires q * w + r == y * w + x && 0 <= r < w && 0 <= x < w
    ensures q == y && r == x
  {
    assert (y + 1) * w == y * w + w && (q + 1) * w == q * w + w;
    if q > y { Monotone(y + 1, q, w); }
    if q < y { Monotone(q + 1, y, w); }
  }

  lemma Quotient(w: Pos, p: int)
    ensures (p / w) * w + p % w == p && 0 <= p % w < w
  {
  }

  lemma IndexOf(w: Pos, h: Pos, x: int, y: int)
    requires 0 <= x < w && 0 <= y < h
    ensures 0 <= At(w, x, y) < Area(w, h)
    ensures Col(w, At(w, x, y)) == x && Row(w, At(w, x, y)) == y
  {
    Monotone(0, y, w);
    Monotone(y + 1, h, w);
    assert (y + 1) * w == y * w + w;
    Quotient(w, At(w, x, y));
    QuotientUnique(w, At(w, x, y) / w, At(w, x, y) % w, y, x);
  }

  /** The order of the raster scans: the row's end is the next row's start. */
  lemma RasterOrder(w: Pos, h: Pos)
    ensures At(w, 0, 0) == 0 && At(w, 0, h) == Area(w, h)
    ensures forall x, y :: At(w, x, y) == At(w, 0, y) + x
    ensures forall y :: At(w, 0, y + 1) == At(w, 0, y) + w
    ensures forall x, y :: 0 <= x && 0 <= y ==> 0 <= At(w, x, y)
  {
    forall x, y | 0 <= x && 0 <= y ensures 0 <= At(w, x, y) { Monotone(0, y, w); }
  }

  lemma CoordinatesOf(w: Pos, h: Pos, p: int)
    requires 0 <= p < Area(w, h)
    ensures 0 <= Col(w, p) < w && 0 <= Row(w, p) < h
    ensures At(w, Col(w, p), Row(w, p)) == p
  {
    var q := p / w;
    assert q * w + p % w == p;
    if q >= h { Monotone(h, q, w); }
  }

  ghost predicate Near(w: Pos, gap: int, p: int, q: int) {
    && -gap <= Col(w, p) - Col(w, q) <= gap
    && -gap <= Row(w, p) - Row(w, q) <= gap
  }

  lemma NextTo(w: Pos, h: Pos, gap: int, x: int, y: int, rx: int, ry: int)
    requires 0 <= x < w && 0 <= y < h && 0 <= rx < w && 0 <= ry < h
    requires -gap <= rx - x <= gap && -gap <= ry - y <= gap
    ensures 0 <= At(w, rx, ry) < Area(w, h) && Near(w, gap, At(w, x, y), At(w, rx, ry))
  {
    IndexOf(w, h, x, y);
    IndexOf(w, h, rx, ry);
  }

  ghost predicate Path(w: Pos, gap: int, region: set<int>, path: seq<int>) {
    && path != []
    && (forall i :: 0 <= i < |path| ==> path[i] in region)
    && (forall i :: 0 < i < |path| ==> Near(w, gap, path[i - 1], path[i]))
  }

  ghost predicate Reaches(w: Pos, gap: int, region: set<int>, p: int, q: int) {
    exists path :: Path(w, gap, region, path) && path[0] == p && path[|path| - 1] == q
  }

  /** The connected component of `p` inside `region`. */
  ghost function Component(w: Pos, gap: int, region: set<int>, p: int): set<int> {
    set q | q in region && Reaches(w, gap, region, p, q)
  }

  lemma ReachesSelf(w: Pos, gap: int, region: set<int>, p: int)
    requires p in region
    ensures Reaches(w, gap, region, p, p)
  {
    assert Path(w, gap, region, [p]);
  }

  lemma ReachesNext(w: Pos, gap: int, region: set<int>, p: int, q: int, r: int)
    requires Reaches(w, gap, region, p, q) && r in region && Near(w, gap, q, r)
    ensures Reaches(w, gap, region, p, r)
  {
    var path :| Path(w, gap, region, path) && path[0] == p && path[|path| - 1] == q;
    assert Path(w, gap, region, path + [r]);
  }

  lemma ReachesBack(w: Pos, gap: int, region: set<int>, p: int, q: int)
    requires Reaches(w, gap, region, p, q)
    ensures Reaches(w, gap, region, q, p)
  {
    var path :| Path(w, gap, region, path) && path[0] == p && path[|path| - 1] == q;
    var back := seq(|path|, i requires 0 <= i < |path| => path[|path| - 1 - i]);
    forall i | 0 < i < |back| ensures Near(w, gap, back[i - 1], back[i]) {
      assert Near(w, gap, path[|path| - 1 - i], path[|path| - i]);
    }
    assert Path(w, gap, region, back);
  }

  lemma ReachesTrans(w: Pos, gap: int, region: set<int>, p: int, q: int, r: int)
    requires Reaches(w, gap, region, p, q) && Reaches(w, gap, region, q, r)
    ensures Reaches(w, gap, region, p, r)
  {
    var a :| Path(w, gap, region, a) && a[0] == p && a[|a| - 1] == q;
    var b :| Path(w, gap, region, b) && b[0] == q && b[|b| - 1] == r;
    var path := a + b[1..];
    forall i | 0 < i < |path| ensures Near(w, gap, path[i - 1], path[i]) {
      if i == |a| { assert path[i - 1] == b[0]; }
      if i > |a| { assert path[i] == b[i - |a| + 1] && path[i - 1] == b[i - |a|]; }
    }
    assert Path(w, gap, region, path);
  }

  /** A set that holds `p` and is closed under neighbours holds everything `p` reaches. */
  lemma {:induction false} ClosedHoldsPath(w: Pos, gap: int, region: set<int>, closed: set<int>, path: seq<int>)
    requires Path(w, gap, region, path) && path[0] in closed
    requires forall u, v :: u in closed && v in region && Near(w, gap, u, v) ==> v in closed
    ensures path[|path| - 1] in closed
  {
    if |path| > 1 {
      var shorter := path[..|path| - 1];
      assert Path(w, gap, region, shorter);
      ClosedHoldsPath(w, gap, region, closed, shorter);
      assert Near(w, gap, path[|path| - 2], path[|path| - 1]);
    }
  }

  /** Components are equivalence classes: any member names the same component. */
  lemma SameComponent(w: Pos, gap: int, region: set<int>, p: int, q: int)
    requires q in Component(w, gap, region, p)
    ensures Component(w, gap, region, q) == Component(w, gap, region, p)
  {
    ReachesBack(w, gap, region, p, q);
    forall r | r in region
      ensures r in Component(w, gap, region, p) <==> r in Component(w, gap, region, q)
    {
      if Reaches(w, gap, region, p, r) { ReachesTrans(w, gap, region, q, p, r); }
      if Reaches(w, gap, region, q, r) { ReachesTrans(w, gap, region, p, q, r); }
    }
  }

  /** Shrinking the region without touching the component of `p` leaves that component alone. */
  lemma ComponentOfPart(w: Pos, gap: int, region: set<int>, part: set<int>, p: int)
    requires p in part && part <= region
    requires Component(w, gap, region, p) <= part
    ensures Component(w, gap, part, p) == Component(w, gap, region, p)
  {
    var whole, inner := Component(w, gap, region, p), Component(w, gap, part, p);
    forall q | q in inner ensures q in whole {
      var path :| Path(w, gap, part, path) && path[0] == p && path[|path| - 1] == q;
      assert Path(w, gap, region, path);
    }
    ReachesSelf(w, gap, part, p);
    forall u, v | u in inner && v in region && Near(w, gap, u, v) ensures v in inner {
      assert Reaches(w, gap, region, p, u);
      ReachesNext(w, gap, region, p, u, v);
      ReachesNext(w, gap, part, p, u, v);
    }
    forall q | q in whole ensures q in inner {
      var path :| Path(w, gap, region, path) && path[0] == p && path[|path| - 1] == q;
      ClosedHoldsPath(w, gap, region, inner, path);
    }
  }

  // ---------------------------------------------------------------------------
  // The search shared by both fills: `seen` is what has been painted so far and
  // `open` the painted pixels whose neighbours are still to be looked at.

  ghost predicate Search(w: Pos, gap: int, region: set<int>, start: int, seen: set<int>, open: set<int>) {
    && start in seen
    && open <= seen <= region
    && (forall v :: v in seen ==> Reaches(w, gap, region, start, v))
    && (forall v, q :: v in seen && v !in open && q in region && Near(w, gap, v, q) ==> q in seen)
  }

  lemma SearchBegins(w: Pos, gap: int, region: set<int>, start: int)
    requires start in region
    ensures Search(w, gap, region, start, {start}, {start})
  {
    ReachesSelf(w, gap, region, start);
  }

  lemma SearchFinds(w: Pos, gap: int, region: set<int>, start: int, seen: set<int>, open: set<int>, from: int, q: int)
    requires Search(w, gap, region, start, seen, open)
    requires from in seen && q in region && Near(w, gap, from, q)
    ensures Search(w, gap, region, start, seen + {q}, open + {q})
  {
    ReachesNext(w, gap, region, start, from, q);
  }

  lemma SearchEnds(w: Pos, gap: int, region: set<int>, start: int, seen: set<int>)
    requires Search(w, gap, region, start, seen, {})
    ensures seen == Component(w, gap, region, start)
  {
    forall q | q in Component(w, gap, region, start) ensures q in seen {
      var path :| Path(w, gap, region, path) && path[0] == start && path[|path| - 1] == q;
      ClosedHoldsPath(w, gap, region, seen, path);
    }
  }

  // ---------------------------------------------------------------------------
  // Counting: a stack of distinct pixels fits in `w * h` slots.

  ghost predicate Distinct(s: seq<int>) {
    forall i, j :: 0 <= i < j < |s| ==> s[i] != s[j]
  }

  ghost function Elems(s: seq<int>): set<int> {
    set x | x in s
  }

  lemma {:induction false} RangeSize(s: set<int>, n: nat)
    requires forall x :: x in s ==> 0 <= x < n
    ensures |s| <= n
  {
    if n == 0 {
      assert forall x :: x !in s;
      assert s == {};
    } else {
      RangeSize(s - {n - 1}, n - 1);
    }
  }

  lemma {:induction false} DistinctSize(s: seq<int>)
    requires Distinct(s)
    ensures |Elems(s)| == |s|
  {
    if s != [] {
      var rest := s[..|s| - 1];
      DistinctSize(rest);
      assert Elems(s) == Elems(rest) + {s[|s| - 1]};
    }
  }

  /** No stack of distinct pixels of an image of `n` pixels is deeper than `n`. */
  lemma StackFits(s: seq<int>, n: nat)
    requires Distinct(s) && forall i :: 0 <= i < |s| ==> 0 <= s[i] < n
    ensures |s| <= n
  {
    DistinctSize(s);
    RangeSize(Elems(s), n);
  }

  // ---------------------------------------------------------------------------

  ghost function Pixels(img: Image, color: int): set<int> {
    set p | 0 <= p < |img| && img[p] == color
  }

  ghost function Bright(img: Image, least: int): set<int> {
    set p | 0 <= p < |img| && img[p] >= least
  }

  /** `img` with every pixel of `area` set to `color`. */
  ghost function Painted(img: Image, area: set<int>, color: Byte): (r: Image)
    ensures |r| == |img|
    ensures forall p :: 0 <= p < |img| ==> r[p] == if p in area then color else img[p]
  {
    seq(|img|, p requires 0 <= p < |img| => if p in area then color else img[p])
  }

  lemma PaintedMore(img: Image, area: set<int>, color: Byte, p: int)
    requires 0 <= p < |img|
    ensures Painted(img, area, color)[p := color] == Painted(img, area + {p}, color)
  {
  }

  /** A pixel found by a fill: onto both stacks, and painted. */
  method PushPixel(data: array<Byte>, stackX: array<int>, stackY: array<int>, sp: int, rx: int, ry: int, p: int, color: Byte)
    requires 0 <= sp < stackX.Length == stackY.Length && stackX != stackY && 0 <= p < data.Length
    modifies data, stackX, stackY
    ensures stackX[..] == old(stackX[..])[sp := rx] && stackY[..] == old(stackY[..])[sp := ry]
    ensures data[..] == old(data[..])[p := color]
  {
    stackX[sp] := rx;
    stackY[sp] := ry;
    data[p] := color;
  }

  // ---------------------------------------------------------------------------
  // One state of a running fill, over the contents of its arrays.  `stack` lists
  // the pixels held by the two coordinate stacks, `busy` the pixel being expanded.

  ghost predicate OnStack(w: Pos, h: Pos, xs: seq<int>, ys: seq<int>, stack: seq<int>) {
    && |stack| <= |xs| == |ys| == Area(w, h)
    && forall i :: 0 <= i < |stack| ==> 0 <= xs[i] < w && 0 <= ys[i] < h && stack[i] == At(w, xs[i], ys[i])
  }

  ghost predicate Filling(w: Pos, h: Pos, gap: int, region: set<int>, start: int, xs: seq<int>, ys: seq<int>,
                          stack: seq<int>, busy: set<int>, seen: set<int>)
  {
    && OnStack(w, h, xs, ys, stack)
    && Distinct(stack)
    && busy !! Elems(stack)
    && Search(w, gap, region, start, seen, Elems(stack) + busy)
    && (forall p :: p in region ==> 0 <= p < Area(w, h))
  }

  lemma FillBegins(w: Pos, h: Pos, gap: int, region: set<int>, x: int, y: int, xs: seq<int>, ys: seq<int>)
    requires 0 <= x < w && 0 <= y < h && At(w, x, y) in region
    requires forall p :: p in region ==> 0 <= p < Area(w, h)
    requires |xs| == |ys| == Area(w, h) && 0 < Area(w, h) && xs[0] == x && ys[0] == y
    ensures Filling(w, h, gap, region, At(w, x, y), xs, ys, [At(w, x, y)], {}, {At(w, x, y)})
  {
    var start := At(w, x, y);
    SearchBegins(w, gap, region, start);
    assert Elems([start]) + {} == {start};
  }

  lemma FillPops(w: Pos, h: Pos, gap: int, region: set<int>, start: int, xs: seq<int>, ys: seq<int>,
                 stack: seq<int>, seen: set<int>)
    requires Filling(w, h, gap, region, start, xs, ys, stack, {}, seen) && stack != []
    ensures var cur := stack[|stack| - 1];
      && Filling(w, h, gap, region, start, xs, ys, stack[..|stack| - 1], {cur}, seen)
      && cur in seen && |seen| <= Area(w, h) && |stack| <= |xs| == |ys|
      && 0 <= xs[|stack| - 1] < w && 0 <= ys[|stack| - 1] < h && cur == At(w, xs[|stack| - 1], ys[|stack| - 1])
  {
    var cur := stack[|stack| - 1];
    RangeSize(seen, Area(w, h));
    assert Elems(stack) + {} == Elems(stack[..|stack| - 1]) + {cur};
  }

  lemma FillPushes(w: Pos, h: Pos, gap: int, region: set<int>, start: int, xs: seq<int>, ys: seq<int>,
                   stack: seq<int>, cur: int, seen: set<int>, rx: int, ry: int)
    requires Filling(w, h, gap, region, start, xs, ys, stack, {cur}, seen) && cur in seen
    requires 0 <= rx < w && 0 <= ry < h
    requires At(w, rx, ry) in region - seen && Near(w, gap, cur, At(w, rx, ry))
    ensures |stack| + 1 < Area(w, h)
    ensures Filling(w, h, gap, region, start, xs[|stack| := rx], ys[|stack| := ry],
                    stack + [At(w, rx, ry)], {cur}, seen + {At(w, rx, ry)})
  {
    var found := At(w, rx, ry);
    SearchFinds(w, gap, region, start, seen, Elems(stack) + {cur}, cur, found);
    assert Elems(stack + [found]) + {cur} == Elems(stack) + {cur} + {found};
    assert forall i :: 0 <= i < |stack| ==> stack[i] in Elems(stack);
    StackFits(stack + [cur] + [found], Area(w, h));
  }

  lemma FillCloses(w: Pos, h: Pos, gap: int, region: set<int>, start: int, xs: seq<int>, ys: seq<int>,
                   stack: seq<int>, cur: int, seen: set<int>)
    requires Filling(w, h, gap, region, start, xs, ys, stack, {cur}, seen)
    requires forall q :: q in region && Near(w, gap, cur, q) ==> q in seen
    ensures Filling(w, h, gap, region, start, xs, ys, stack, {}, seen)
  {
  }

  lemma FillEnds(w: Pos, h: Pos, gap: int, region: set<int>, start: int, xs: seq<int>, ys: seq<int>, seen: set<int>)
    requires Filling(w, h, gap, region, start, xs, ys, [], {}, seen)
    ensures seen == Component(w, gap, region, start)
  {
    assert Elems([]) + {} == {};
    SearchEnds(w, gap, region, start, seen);
  }
}
