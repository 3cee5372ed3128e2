/** `IntStreamMedian` of common/stream-median.cpp: a typical value of a stream from a bounded sorted set. */
module StreamMedian {

  const MIN_AVAILABLE_SET_SIZE := 3

  ghost predicate Sorted(s: seq<int>) {
    forall i, j :: 0 <= i <= j < |s| ==> s[i] <= s[j]
  }

  /** Where `std::multiset::insert` puts `x`: after everything that is not greater. */
  function Position(s: seq<int>, x: int): (p: nat)
    ensures p <= |s| && (forall i :: 0 <= i < p ==> s[i] <= x) && (p < |s| ==> x < s[p])
  {
    if s == [] || x < s[0] then 0 else 1 + Position(s[1..], x)
  }

  function Inserted(s: seq<int>, x: int): (r: seq<int>)
    ensures |r| == |s| + 1 && multiset(r) == multiset(s) + multiset{x}
  {
    var p := Position(s, x);
    assert s == s[..p] + s[p..];
    s[..p] + [x] + s[p..]
  }

  lemma InsertedSorted(s: seq<int>, x: int)
    requires Sorted(s)
    ensures Sorted(Inserted(s, x))
  {
  }

  /** What is kept, the median, and every number thrown away at either end so far. */
  datatype Run = Run(nums: seq<int>, median: int, lows: seq<int>, highs: seq<int>)

  const START := Run([], 0, [], [])

  function Trimmed(r: Run): Run
    requires |r.nums| >= 2
  {
    var last := |r.nums| - 1;
    Run(r.nums[1..last], r.median, r.lows + [r.nums[0]], r.highs + [r.nums[last]])
  }

  function Pushed(r: Run, num: int, size: nat): Run
    requires size >= MIN_AVAILABLE_SET_SIZE
  {
    var nums := Inserted(r.nums, num);
    var t := r.(nums := nums, median := nums[|nums| / 2]);
    if |nums| >= size then Trimmed(t) else t
  }

  function AllPushed(xs: seq<int>, size: nat): Run
    requires size >= MIN_AVAILABLE_SET_SIZE
  {
    if xs == [] then START else Pushed(AllPushed(xs[..|xs| - 1], size), xs[|xs| - 1], size)
  }

  /** The multiset of all numbers seen. */
  function Seen(r: Run): multiset<int> { multiset(r.nums) + multiset(r.lows) + multiset(r.highs) }

  ghost predicate Coherent(r: Run, size: nat) {
    && Sorted(r.nums)
    && |r.nums| < size
    && (r.nums != [] ==> r.median == r.nums[|r.nums| / 2])
    && |r.lows| == |r.highs|
  }

  lemma TrimmedSeen(r: Run)
    requires |r.nums| >= 2
    ensures Seen(Trimmed(r)) == Seen(r)
  {
    var last := |r.nums| - 1;
    assert r.nums == [r.nums[0]] + r.nums[1..last] + [r.nums[last]];
  }

  lemma TrimmedKeeps(r: Run)
    requires |r.nums| >= 3 && Sorted(r.nums) && r.median == r.nums[|r.nums| / 2] && |r.lows| == |r.highs|
    ensures Coherent(Trimmed(r), |r.nums|) && Seen(Trimmed(r)) == Seen(r)
    ensures forall x :: x in Trimmed(r).nums ==> r.nums[0] <= x <= r.nums[|r.nums| - 1]
  {
    hide Seen;
    TrimmedSeen(r);
    var n := |r.nums|;
    assert r.nums[1..n - 1][(n - 2) / 2] == r.nums[n / 2];
  }

  lemma PushedKeeps(r: Run, num: int, size: nat)
    requires size >= MIN_AVAILABLE_SET_SIZE && Coherent(r, size)
    ensures Coherent(Pushed(r, num, size), size) && Pushed(r, num, size).nums != []
    ensures Seen(Pushed(r, num, size)) == Seen(r) + multiset{num}
  {
    hide Inserted;
    InsertedSorted(r.nums, num);
    var nums := Inserted(r.nums, num);
    var t := r.(nums := nums, median := nums[|nums| / 2]);
    assert Seen(t) == Seen(r) + multiset{num};
    if |nums| >= size { TrimmedKeeps(t); }
  }

  /** How often both ends have been trimmed after `n` numbers. */
  function Trims(n: nat, size: nat): nat {
    if n < size then 0 else (n - size) / 2 + 1
  }

  lemma PushedCounts(r: Run, num: int, size: nat, n: nat)
    requires size >= MIN_AVAILABLE_SET_SIZE && |r.nums| < size
    requires |r.lows| == Trims(n, size) && |r.nums| + 2 * Trims(n, size) == n
    ensures var q := Pushed(r, num, size);
            |q.lows| == Trims(n + 1, size) && |q.nums| + 2 * Trims(n + 1, size) == n + 1
  {
    hide Inserted;
  }

  lemma StartFacts(size: nat)
    requires size >= MIN_AVAILABLE_SET_SIZE
    ensures Coherent(START, size) && Trims(0, size) == 0 && Seen(START) == multiset([])
  {
  }

  lemma {:induction false} EveryRunCoherent(xs: seq<int>, size: nat)
    requires size >= MIN_AVAILABLE_SET_SIZE
    ensures Coherent(AllPushed(xs, size), size) && (xs != [] ==> AllPushed(xs, size).nums != [])
  {
    hide Pushed, Coherent;
    StartFacts(size);
    if xs != [] {
      EveryRunCoherent(xs[..|xs| - 1], size);
      PushedKeeps(AllPushed(xs[..|xs| - 1], size), xs[|xs| - 1], size);
    }
  }

  lemma {:induction false} EveryRunCounts(xs: seq<int>, size: nat)
    requires size >= MIN_AVAILABLE_SET_SIZE
    ensures var r := AllPushed(xs, size);
            |r.lows| == Trims(|xs|, size) && |r.nums| + 2 * Trims(|xs|, size) == |xs|
  {
    hide Pushed, Trims;
    StartFacts(size);
    if xs != [] {
      var before := xs[..|xs| - 1];
      EveryRunCoherent(before, size);
      EveryRunCounts(before, size);
      PushedCounts(AllPushed(before, size), xs[|xs| - 1], size, |before|);
    }
  }

  lemma {:induction false} EveryRunSeen(xs: seq<int>, size: nat)
    requires size >= MIN_AVAILABLE_SET_SIZE
    ensures Seen(AllPushed(xs, size)) == multiset(xs)
  {
    hide Pushed, Coherent, Seen;
    if xs == [] {
      StartFacts(size);
    } else {
      var before := xs[..|xs| - 1];
      EveryRunCoherent(before, size);
      EveryRunSeen(before, size);
      PushedKeeps(AllPushed(before, size), xs[|xs| - 1], size);
      assert xs == before + [xs[|xs| - 1]];
    }
  }

  /** Over every run: the set stays below its size, the median is its middle element, trimmed or not, and
      no number is lost or made up, equally many having gone at either end.
    */
  lemma EveryRun(xs: seq<int>, size: nat)
    requires size >= MIN_AVAILABLE_SET_SIZE
    ensures var r := AllPushed(xs, size);
            && Sorted(r.nums) && |r.nums| < size
            && (xs != [] ==> r.nums != [] && r.median == r.nums[|r.nums| / 2])
            && multiset(xs) == multiset(r.nums) + multiset(r.lows) + multiset(r.highs)
            && |r.lows| == |r.highs| == Trims(|xs|, size)
            && |r.nums| == |xs| - 2 * Trims(|xs|, size)
  {
    hide Sorted, AllPushed, Trims;
    EveryRunCoherent(xs, size);
    EveryRunCounts(xs, size);
    EveryRunSeen(xs, size);
  }

  lemma TrimmedExtremes(r: Run, num: int, size: nat)
    requires size >= MIN_AVAILABLE_SET_SIZE && Coherent(r, size)
    ensures var q := Pushed(r, num, size);
            && (|r.nums| + 1 < size ==> q.lows == r.lows && q.highs == r.highs)
            && (|r.nums| + 1 >= size ==>
                  && q.lows != [] && q.lows[..|q.lows| - 1] == r.lows
                  && q.highs != [] && q.highs[..|q.highs| - 1] == r.highs
                  && forall y :: y in q.nums ==> q.lows[|q.lows| - 1] <= y <= q.highs[|q.highs| - 1])
  {
    InsertedSorted(r.nums, num);
    hide Inserted;
  }

  /** Over every run: when one more number makes the set full, one number goes at either end; the one that goes low
      is at most, and the one that goes high at least, every number that stays.  Otherwise none goes. */
  lemma ExtremesGo(xs: seq<int>, x: int, size: nat)
    requires size >= MIN_AVAILABLE_SET_SIZE
    ensures var r, q := AllPushed(xs, size), AllPushed(xs + [x], size);
            && (|r.nums| + 1 < size ==> q.lows == r.lows && q.highs == r.highs)
            && (|r.nums| + 1 >= size ==> exists low, high ::
                  q.lows == r.lows + [low] && q.highs == r.highs + [high] && forall y :: y in q.nums ==> low <= y <= high)
  {
    hide Pushed, Coherent;
    assert (xs + [x])[..|xs|] == xs;
    EveryRunCoherent(xs, size);
    var r, q := AllPushed(xs, size), AllPushed(xs + [x], size);
    TrimmedExtremes(r, x, size);
    if |r.nums| + 1 >= size {
      var low, high := q.lows[|q.lows| - 1], q.highs[|q.highs| - 1];
      assert q.lows == r.lows + [low] && q.highs == r.highs + [high];
    }
  }

  function Clamp(x: int, low: int, high: int): int {
    if x < low then low else if high < x then high else x
  }

  /** What an insertion puts at index `k`: between the two elements that were around it. */
  lemma InsertedAt(s: seq<int>, x: int, k: nat)
    requires Sorted(s) && 0 < k < |s|
    ensures Inserted(s, x)[k] == Clamp(x, s[k - 1], s[k])
  {
    var p := Position(s, x);
    assert Inserted(s, x)[k] == if k < p then s[k] else if k == p then x else s[k - 1];
    assert s[k - 1] <= s[k];
    if p < k { assert x < s[p] <= s[k - 1]; }
  }

  /** An outlier cannot carry the median away: one push moves it no further than to the element that was
      next to it, on the side on which there was one more to spare.
    */
  lemma MedianMoves(r: Run, num: int, size: nat)
    requires size >= MIN_AVAILABLE_SET_SIZE && Coherent(r, size) && |r.nums| >= 2
    ensures var k := |r.nums| / 2;
            Pushed(r, num, size).median == if |r.nums| % 2 == 0 then Clamp(num, r.nums[k - 1], r.nums[k])
                                           else Clamp(num, r.nums[k], r.nums[k + 1])
  {
    hide Inserted, Clamp, Sorted;
    var k := |r.nums| / 2;
    InsertedAt(r.nums, num, if |r.nums| % 2 == 0 then k else k + 1);
  }

  // ---------------------------------------------------------------------------

  class IntStreamMedian {
    const setSize: nat
    var nums: seq<int>
    var median: int
    ghost var lows: seq<int>
    ghost var highs: seq<int>

    ghost function Contents(): Run
      reads this
    {
      Run(nums, median, lows, highs)
    }

    constructor (size: nat)
      requires size >= MIN_AVAILABLE_SET_SIZE
      ensures setSize == size && Contents() == START
    {
      setSize, nums, median, lows, highs := size, [], 0, [], [];
    }

    /** The constructor's exception for a size that is too small becomes a null. */
    static method Create(size: nat) returns (m: IntStreamMedian?)
      ensures m == null <==> size < 3
      ensures m != null ==> fresh(m) && m.setSize == size && m.Contents() == START
    {
      if size < MIN_AVAILABLE_SET_SIZE { return null; }
      m := new IntStreamMedian(size);
    }

    method Push(num: int)
      requires setSize >= MIN_AVAILABLE_SET_SIZE
      modifies this
      ensures Contents() == Pushed(old(Contents()), num, setSize)
      ensures Coherent(old(Contents()), setSize) && |old(nums)| + 1 >= setSize ==>
        lows != [] && highs != [] && forall y :: y in nums ==> lows[|lows| - 1] <= y <= highs[|highs| - 1]
    {
      hide Inserted, Coherent;
      ghost var before := Contents();
      if Coherent(before, setSize) { TrimmedExtremes(before, num, setSize); }
      nums := Inserted(nums, num);
      var mid := |nums| / 2;
      if mid == |nums| { mid := 0; }
      median := nums[mid];
      if |nums| >= setSize {
        lows, highs := lows + [nums[0]], highs + [nums[|nums| - 1]];
        nums := nums[..|nums| - 1];
        nums := nums[1..];
      }
    }

    method GetMedian() returns (m: int)
      ensures m == median
    {
      m := median;
    }

    method Reset()
      modifies this
      ensures Contents() == START
    {
      nums, median, lows, highs := [], 0, [], [];
    }
  }
}
