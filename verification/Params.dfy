/** URL parameters: `split_by_substr` of common/stringutils.cpp, `parse_params` of network/http-common.cpp
    and the two map converters of network/netclient.cpp.

    A `std::map` is a Dafny map; the order in which it is iterated is arbitrary, and so covers the sorted one.
  */
module Params {

  import opened Common

  // ---------------------------------------------------------------------------
  // Occurrences and pieces.

  predicate Occurs(s: string, d: string, i: nat) { i + |d| <= |s| && s[i..i + |d|] == d }

  /** The leftmost occurrence at or after `from`; the length of `s` stands for `npos`. */
  function Find(s: string, d: string, from: nat): (n: nat)
    requires d != "" && from <= |s|
    ensures from <= n <= |s| && (n < |s| ==> Occurs(s, d, n))
    ensures forall i :: from <= i < n ==> !Occurs(s, d, i)
    decreases |s| - from
  {
    if from == |s| || Occurs(s, d, from) then from else Find(s, d, from + 1)
  }

  /** The pieces of `s` from `from` on between leftmost occurrences of `d`, empty ones included. */
  function Split(s: string, d: string, from: nat): (r: seq<string>)
    requires d != "" && from <= |s|
    ensures r != []
    decreases |s| - from
  {
    var n := Find(s, d, from);
    if n == |s| then [s[from..]] else [s[from..n]] + Split(s, d, n + |d|)
  }

  function Join(pieces: seq<string>, d: string): string {
    if pieces == [] then ""
    else if |pieces| == 1 then pieces[0]
    else pieces[0] + d + Join(pieces[1..], d)
  }

  function NonEmpty(pieces: seq<string>): (r: seq<string>)
    ensures forall i :: 0 <= i < |r| ==> r[i] != ""
  {
    if pieces == [] then []
    else (if pieces[0] == "" then [] else [pieces[0]]) + NonEmpty(pieces[1..])
  }

  lemma SplitStep(s: string, d: string, from: nat)
    requires d != "" && from <= |s|
    ensures var n := Find(s, d, from);
            Split(s, d, from) == if n == |s| then [s[from..]] else [s[from..n]] + Split(s, d, n + |d|)
  {
  }

  lemma JoinStep(p: string, rest: seq<string>, d: string)
    requires rest != []
    ensures Join([p] + rest, d) == p + d + Join(rest, d)
  {
    assert ([p] + rest)[1..] == rest;
  }

  lemma JoinOne(p: string, d: string)
    ensures Join([p], d) == p
  {
  }

  lemma Pasted(s: string, d: string, from: nat, n: nat)
    requires from <= n && Occurs(s, d, n)
    ensures s[from..n] + d + s[n + |d|..] == s[from..]
  {
  }

  /** No text is lost in splitting. */
  lemma {:induction false} JoinSplit(s: string, d: string, from: nat)
    requires d != "" && from <= |s|
    ensures Join(Split(s, d, from), d) == s[from..]
    decreases |s| - from
  {
    hide Find, Split, Occurs, Join;
    JoinOne(s[from..], d);
    var n := Find(s, d, from);
    SplitStep(s, d, from);
    FindAgain(s, d, from);
    if n < |s| {
      JoinSplit(s, d, n + |d|);
      JoinStep(s[from..n], Split(s, d, n + |d|), d);
      Pasted(s, d, from, n);
    }
  }

  lemma SliceOfSlice(s: string, a: nat, b: nat, i: nat, l: nat)
    requires a <= b <= |s| && i + l <= b - a
    ensures s[a..b][i..i + l] == s[a + i..a + i + l]
  {
    var x, y := s[a..b][i..i + l], s[a + i..a + i + l];
    forall k | 0 <= k < l ensures x[k] == y[k] {}
  }

  /** And no piece holds a delimiter. */
  lemma {:induction false} PiecesFree(s: string, d: string, from: nat, p: nat, i: nat)
    requires d != "" && from <= |s| && p < |Split(s, d, from)|
    ensures !Occurs(Split(s, d, from)[p], d, i)
    decreases |s| - from
  {
    hide Find, Split;
    var n := Find(s, d, from);
    SplitStep(s, d, from);
    if p > 0 {
      PiecesFree(s, d, n + |d|, p - 1, i);
    } else if i + |d| <= n - from {
      var j := from + i;
      assert !Occurs(s, d, j);
      SliceOfSlice(s, from, n, i, |d|);
    }
  }

  // ---------------------------------------------------------------------------
  // Splitting at one character undoes joining.

  predicate Free(s: string, c: char) { c !in s }

  lemma {:induction false} FindIs(s: string, c: char, from: nat, n: nat)
    requires from <= n <= |s| && c !in s[from..n] && (n < |s| ==> s[n] == c)
    ensures Find(s, [c], from) == n
    decreases n - from
  {
    if from < n {
      assert s[from] == s[from..n][0];
      assert s[from..from + 1][0] == s[from];
      assert s[from + 1..n] == s[from..n][1..];
      FindIs(s, c, from + 1, n);
    } else if n < |s| {
      assert s[n..n + 1] == [c];
    }
  }

  lemma {:induction false} SplitShift(s: string, d: string, off: nat, from: nat)
    requires d != "" && off + from <= |s|
    ensures Split(s, d, off + from) == Split(s[off..], d, from)
    decreases |s| - from
  {
    hide Find, Split, Occurs;
    FindShift(s, d, off, from);
    SplitStep(s, d, off + from);
    var t := s[off..];
    SplitStep(t, d, from);
    var n := Find(t, d, from);
    assert s[off + from..off + n] == t[from..n];
    FindAgain(t, d, from);
    if n < |t| {
      assert off + (n + |d|) == off + n + |d|;
      SplitShift(s, d, off, n + |d|);
    } else {
      assert s[off + from..] == t[from..];
    }
  }

  lemma {:induction false} FindShift(s: string, d: string, off: nat, from: nat)
    requires d != "" && off + from <= |s|
    ensures Find(s, d, off + from) == off + Find(s[off..], d, from)
    decreases |s| - from
  {
    if from < |s[off..]| {
      assert Occurs(s, d, off + from) <==> Occurs(s[off..], d, from) by {
        if off + from + |d| <= |s| { assert s[off + from..off + from + |d|] == s[off..][from..from + |d|]; }
      }
      if !Occurs(s, d, off + from) { FindShift(s, d, off, from + 1); }
    }
  }

  lemma SplitOne(a: string, c: char)
    requires Free(a, c)
    ensures Split(a, [c], 0) == [a]
  {
    assert a[0..|a|] == a;
    FindIs(a, c, 0, |a|);
  }

  lemma SplitFirst(a: string, c: char, rest: string)
    requires Free(a, c)
    ensures Split(a + [c] + rest, [c], 0) == [a] + Split(rest, [c], 0)
  {
    var s := a + [c] + rest;
    assert s[0..|a|] == a && s[|a| + 1..] == rest;
    FindIs(s, c, 0, |a|);
    SplitShift(s, [c], |a| + 1, 0);
  }

  lemma {:induction false} SplitJoin(pieces: seq<string>, c: char)
    requires pieces != [] && forall i :: 0 <= i < |pieces| ==> Free(pieces[i], c)
    ensures Split(Join(pieces, [c]), [c], 0) == pieces
  {
    hide Find, Split, Occurs;
    if |pieces| == 1 {
      SplitOne(pieces[0], c);
    } else {
      SplitJoin(pieces[1..], c);
      SplitFirst(pieces[0], c, Join(pieces[1..], [c]));
    }
  }

  lemma {:induction false} AllNonEmpty(pieces: seq<string>)
    requires forall i :: 0 <= i < |pieces| ==> pieces[i] != ""
    ensures NonEmpty(pieces) == pieces
  {
    if pieces != [] { AllNonEmpty(pieces[1..]); }
  }

  // ---------------------------------------------------------------------------

  /** What `split_by_substr` returns: the non-empty pieces, or the first two of them. */
  function Elements(s: string, d: string, onlyFirst: bool): seq<string>
    requires d != ""
  {
    var all := NonEmpty(Split(s, d, 0));
    if onlyFirst && |all| > 2 then all[..2] else all
  }

  /** What is still to come from `cur` on. */
  function Rest(s: string, d: string, cur: nat): seq<string>
    requires d != "" && cur <= |s|
  {
    NonEmpty(Split(s, d, cur))
  }

  lemma ElementsOfRest(s: string, d: string, onlyFirst: bool)
    requires d != ""
    ensures var all := Rest(s, d, 0); Elements(s, d, onlyFirst) == if onlyFirst && |all| > 2 then all[..2] else all
  {
  }

  lemma NoPieces()
    ensures NonEmpty([]) == []
  {
  }

  lemma NonEmptyStep(p: string, rest: seq<string>)
    ensures NonEmpty([p] + rest) == (if p == "" then [] else [p]) + NonEmpty(rest)
  {
    assert ([p] + rest)[1..] == rest;
  }

  lemma FindAgain(s: string, d: string, cur: nat)
    requires d != "" && cur <= |s|
    ensures var n := Find(s, d, cur); n < |s| ==> n + |d| <= |s| && Find(s, d, n) == n
  {
  }

  lemma RestStep(s: string, d: string, cur: nat)
    requires d != "" && cur <= |s|
    ensures var n := Find(s, d, cur);
            && (n < |s| ==> n + |d| <= |s|)
            && (n == cur < |s| ==> Rest(s, d, cur) == Rest(s, d, cur + |d|))
            && (cur < n < |s| ==> Rest(s, d, cur) == [s[cur..n]] + Rest(s, d, n))
            && (cur < n == |s| ==> Rest(s, d, cur) == [s[cur..n]])
            && (cur == |s| ==> Rest(s, d, cur) == [])
  {
    hide Split, NonEmpty, Find, Occurs;
    NoPieces();
    var n := Find(s, d, cur);
    SplitStep(s, d, cur);
    FindAgain(s, d, cur);
    if n == |s| {
      NonEmptyStep(s[cur..], []);
      assert [s[cur..]] + [] == [s[cur..]];
      assert s[cur..] == s[cur..n];
    } else {
      NonEmptyStep(s[cur..n], Split(s, d, n + |d|));
      SplitStep(s, d, n);
      NonEmptyStep(s[n..n], Split(s, d, n + |d|));
    }
  }

  /** The inner loop: over the delimiters at `from`, to the next place that has none. */
  method SkipDelimiters(input: string, delim: string, from: nat) returns (cur: nat, next: nat)
    requires delim != "" && from <= |input|
    ensures from <= cur <= |input| && next == Find(input, delim, cur) && (cur == next ==> cur == |input|)
    ensures Rest(input, delim, cur) == Rest(input, delim, from)
  {
    hide Find, Rest, Occurs;
    cur := from;
    next := Find(input, delim, cur);
    while next == cur && next != |input|
      invariant from <= cur <= |input| && next == Find(input, delim, cur)
      invariant Rest(input, delim, cur) == Rest(input, delim, from)
      decreases |input| - cur
    {
      RestStep(input, delim, cur);
      cur := cur + |delim|;
      next := Find(input, delim, cur);
    }
  }

  method SplitBySubstr(input: string, delim: string, onlyFirst: bool) returns (elems: seq<string>)
    requires delim != ""
    ensures elems == Elements(input, delim, onlyFirst)
    ensures var all := Elements(input, delim, false);
      elems <= all && |elems| == if onlyFirst && |all| >= 2 then 2 else |all|
  {
    hide Find, Rest, Occurs, Elements;
    ElementsOfRest(input, delim, false);
    ghost var all := Rest(input, delim, 0);
    ElementsOfRest(input, delim, onlyFirst);
    elems := [];
    var npos := |input|;
    var cur, next, more := 0, 0, true;
    while more
      invariant cur <= |input|
      invariant all == elems + if more then Rest(input, delim, cur) else []
      invariant onlyFirst ==> |elems| <= 2
      invariant onlyFirst && more ==> |elems| <= 1
      decreases |input| - cur, more
    {
      cur, next := SkipDelimiters(input, delim, cur);
      RestStep(input, delim, cur);
      if cur != |input| {
        elems := elems + [input[cur..next]];
        if onlyFirst && |elems| == 2 { break; }
      }
      cur := next;
      more := next != npos;
    }
  }

  // ---------------------------------------------------------------------------
  // Maps as text.

  datatype Pair = Pair(key: string, value: string)

  /** The map that a list of assignments leaves. */
  function MapOf(es: seq<Pair>): map<string, string> {
    if es == [] then map[]
    else MapOf(es[..|es| - 1])[es[|es| - 1].key := es[|es| - 1].value]
  }

  /** The entries of `m`, each once, in some order. */
  ghost predicate Enumerates(es: seq<Pair>, m: map<string, string>) {
    && (forall i :: 0 <= i < |es| ==> es[i].key in m && m[es[i].key] == es[i].value)
    && (forall i, j :: 0 <= i < j < |es| ==> es[i].key != es[j].key)
    && (forall k :: k in m ==> HasKey(es, k))
  }

  predicate HasKey(es: seq<Pair>, k: string) { exists i :: 0 <= i < |es| && es[i].key == k }

  lemma {:induction false} MapOfAt(es: seq<Pair>, k: string)
    ensures k in MapOf(es) <==> HasKey(es, k)
    ensures k in MapOf(es) ==> Pair(k, MapOf(es)[k]) in es
  {
    if es != [] {
      var before, last := es[..|es| - 1], es[|es| - 1];
      MapOfAt(before, k);
      assert HasKey(es, k) <==> HasKey(before, k) || last.key == k by {
        if HasKey(before, k) {
          var i :| 0 <= i < |before| && before[i].key == k;
          assert es[i].key == k;
        }
        if HasKey(es, k) && last.key != k {
          var i :| 0 <= i < |es| && es[i].key == k;
          assert before[i].key == k;
        }
        if last.key == k { assert es[|es| - 1].key == k; }
      }
    }
  }

  lemma MapOfEntries(es: seq<Pair>, m: map<string, string>)
    requires Enumerates(es, m)
    ensures MapOf(es) == m
  {
    forall k ensures k in m <==> k in MapOf(es) { MapOfAt(es, k); }
    forall k | k in m ensures MapOf(es)[k] == m[k] {
      MapOfAt(es, k);
    }
  }

  lemma {:induction false} KeysOfMap(es: seq<Pair>)
    ensures (forall i, j :: 0 <= i < j < |es| ==> es[i].key != es[j].key) ==> |MapOf(es)| == |es|
  {
    if es != [] {
      var before, last := es[..|es| - 1], es[|es| - 1];
      KeysOfMap(before);
      MapOfAt(before, last.key);
      assert forall i :: 0 <= i < |before| ==> before[i] == es[i];
      if last.key !in MapOf(before) { assert MapOf(es).Keys == MapOf(before).Keys + {last.key}; }
    }
  }

  /** A list of the entries of a map is as long as the map: no entry comes twice. */
  lemma EachOnce(es: seq<Pair>, m: map<string, string>)
    requires Enumerates(es, m)
    ensures |es| == |m|
  {
    KeysOfMap(es);
    MapOfEntries(es, m);
  }

  function Line(p: Pair): string { p.key + ['='] + p.value }

  function Lines(es: seq<Pair>): (r: seq<string>)
    ensures |r| == |es| && forall i :: 0 <= i < |es| ==> r[i] == Line(es[i])
  {
    seq(|es|, i requires 0 <= i < |es| => Line(es[i]))
  }

  function Written(es: seq<Pair>): string { Join(Lines(es), "&") }

  /** What the loop of `map_to_string_parser` has built, with its last separator. */
  function WithAmpersand(es: seq<Pair>): string {
    if es == [] then "" else Line(es[0]) + "&" + WithAmpersand(es[1..])
  }

  lemma {:induction false} WithAmpersandMore(es: seq<Pair>, p: Pair)
    ensures WithAmpersand(es + [p]) == WithAmpersand(es) + Line(p) + "&"
  {
    hide Line;
    if es == [] {
      assert ([] + [p])[1..] == [];
    } else {
      assert (es + [p])[1..] == es[1..] + [p];
      WithAmpersandMore(es[1..], p);
    }
  }

  lemma {:induction false} WithAmpersandCut(es: seq<Pair>)
    requires es != []
    ensures WithAmpersand(es) == Written(es) + "&"
  {
    hide Line;
    if |es| > 1 {
      WithAmpersandCut(es[1..]);
      assert Lines(es)[1..] == Lines(es[1..]);
    }
  }

  /** The entries of `m` outside `left` have been listed. */
  ghost predicate Listed(es: seq<Pair>, m: map<string, string>, left: set<string>) {
    && (forall i :: 0 <= i < |es| ==> es[i].key in m && es[i].key !in left && m[es[i].key] == es[i].value)
    && (forall i, j :: 0 <= i < j < |es| ==> es[i].key != es[j].key)
    && (forall k :: k in m ==> k in left || HasKey(es, k))
  }

  lemma ListedMore(es: seq<Pair>, m: map<string, string>, left: set<string>, key: string)
    requires Listed(es, m, left) && left <= m.Keys && key in left
    ensures Listed(es + [Pair(key, m[key])], m, left - {key})
  {
    var more := es + [Pair(key, m[key])];
    forall k | k in m && k !in left - {key} ensures HasKey(more, k) {
      if k == key {
        assert more[|es|].key == k;
      } else {
        var i :| 0 <= i < |es| && es[i].key == k;
        assert more[i].key == k;
      }
    }
  }

  lemma NothingListed(m: map<string, string>)
    ensures WithAmpersand([]) == "" && Written([]) == "" && MapOf([]) == map[] && Listed([], m, m.Keys)
    ensures |m| == 0 ==> Enumerates([], m)
  {
  }

  lemma ListedAll(es: seq<Pair>, m: map<string, string>)
    requires Listed(es, m, {})
    ensures Enumerates(es, m)
  {
  }

  lemma LineIs(p: Pair)
    ensures Line(p) == p.key + ['='] + p.value
  {
  }

  /** `text` lists the entries of `m`, each once, in some order. */
  ghost predicate IsTextOf(text: string, m: map<string, string>) {
    exists es :: Enumerates(es, m) && text == Written(es)
  }

  method MapToString(m: map<string, string>) returns (ret: string)
    ensures IsTextOf(ret, m)
  {
    hide Line, Join, Lines, Listed, WithAmpersand, Written, HasKey, Enumerates;
    ret := "";
    ghost var es: seq<Pair> := [];
    NothingListed(m);
    if |m| == 0 { return; }
    var left := m.Keys;
    while left != {}
      invariant left <= m.Keys && Listed(es, m, left)
      invariant ret == WithAmpersand(es)
      decreases |left|
    {
      var key :| key in left;
      ListedMore(es, m, left, key);
      WithAmpersandMore(es, Pair(key, m[key]));
      var element := key + ['='] + m[key];
      LineIs(Pair(key, m[key]));
      left := left - {key};
      ret, es := ret + element + "&", es + [Pair(key, m[key])];
    }
    ListedAll(es, m);
    if es != [] {
      WithAmpersandCut(es);
    }
    if ret != "" { ret := ret[..|ret| - 1]; }
  }

  // ---------------------------------------------------------------------------
  // And back, as a server reads a query.

  predicate AreAssignments(pieces: seq<string>) {
    forall i :: 0 <= i < |pieces| ==> |Elements(pieces[i], "=", false)| == 2
  }

  function Assignments(pieces: seq<string>): seq<Pair>
    requires AreAssignments(pieces)
  {
    seq(|pieces|, i requires 0 <= i < |pieces| =>
      var kv := Elements(pieces[i], "=", false); Pair(kv[0], kv[1]))
  }

  /** A failure exactly when some non-empty piece is not a non-empty key, `=` and a non-empty value. */
  method ParseParams(text: string) returns (r: Option<map<string, string>>)
    ensures var pieces := Elements(text, "&", false);
            r == if AreAssignments(pieces) then Some(MapOf(Assignments(pieces))) else None
  {
    hide Elements;
    var params: map<string, string> := map[];
    var pieces := SplitBySubstr(text, "&", false);
    for i := 0 to |pieces|
      invariant AreAssignments(pieces[..i])
      invariant params == MapOf(Assignments(pieces[..i]))
    {
      var kv := SplitBySubstr(pieces[i], "=", false);
      if |kv| != 2 { return None; }
      assert pieces[..i + 1][i] == pieces[i] && pieces[..i + 1][..i] == pieces[..i];
      AssignmentsMore(pieces[..i], pieces[i]);
      assert pieces[..i + 1] == pieces[..i] + [pieces[i]];
      params := params[kv[0] := kv[1]];
    }
    assert pieces[..|pieces|] == pieces;
    r := Some(params);
  }

  lemma AssignmentsMore(pieces: seq<string>, piece: string)
    requires AreAssignments(pieces) && |Elements(piece, "=", false)| == 2
    ensures AreAssignments(pieces + [piece])
    ensures var kv := Elements(piece, "=", false);
            MapOf(Assignments(pieces + [piece])) == MapOf(Assignments(pieces))[kv[0] := kv[1]]
  {
    hide Elements;
    var all := Assignments(pieces + [piece]);
    assert all[..|all| - 1] == Assignments(pieces);
  }

  predicate Clean(p: Pair) { Free(p.key, '&') && Free(p.key, '=') && Free(p.value, '&') && Free(p.value, '=') }

  lemma LineClean(p: Pair)
    requires Clean(p)
    ensures Line(p) != "" && Free(Line(p), '&') && Split(Line(p), "=", 0) == [p.key, p.value]
  {
    hide Find, Split, Occurs;
    SplitFirst(p.key, '=', p.value);
    SplitOne(p.value, '=');
  }

  predicate Full(p: Pair) { p.key != "" && p.value != "" }

  lemma LineElements(p: Pair)
    requires Clean(p)
    ensures Full(p) ==> Elements(Line(p), "=", false) == [p.key, p.value]
    ensures !Full(p) ==> |Elements(Line(p), "=", false)| < 2
  {
    hide Find, Split, Occurs, Line, NonEmpty;
    NoPieces();
    LineClean(p);
    assert [p.key, p.value] == [p.key] + [p.value] && [p.value] == [p.value] + [];
    NonEmptyStep(p.key, [p.value]);
    NonEmptyStep(p.value, []);
  }

  lemma WrittenElements(es: seq<Pair>)
    requires forall i :: 0 <= i < |es| ==> Clean(es[i])
    ensures es != [] ==> Split(Written(es), "&", 0) == Lines(es)
    ensures Elements(Written(es), "&", false) == Lines(es)
  {
    hide Find, Split, Occurs, Line, NonEmpty, Join;
    NoPieces();
    NothingListed(map[]);
    forall i | 0 <= i < |es| ensures Free(Lines(es)[i], '&') && Lines(es)[i] != "" {
      LineClean(es[i]);
    }
    if es == [] {
      SplitOne("", '&');
      NonEmptyStep("", []);
      assert [""] + [] == [""];
    } else {
      SplitJoin(Lines(es), '&');
      AllNonEmpty(Lines(es));
    }
  }

  lemma EntriesRoundTrip(es: seq<Pair>, m: map<string, string>)
    requires Enumerates(es, m) && forall i :: 0 <= i < |es| ==> Clean(es[i])
    ensures var pieces := Elements(Written(es), "&", false);
            && (AreAssignments(pieces) <==> forall i :: 0 <= i < |es| ==> Full(es[i]))
            && (AreAssignments(pieces) ==> MapOf(Assignments(pieces)) == m)
  {
    hide Elements, Written, Line, Enumerates, MapOf, Full;
    WrittenElements(es);
    var pieces := Lines(es);
    forall i | 0 <= i < |es|
      ensures Full(es[i]) ==> Elements(pieces[i], "=", false) == [es[i].key, es[i].value]
      ensures !Full(es[i]) ==> |Elements(pieces[i], "=", false)| < 2
    {
      LineElements(es[i]);
    }
    if AreAssignments(pieces) {
      forall i | 0 <= i < |es| ensures Assignments(pieces)[i] == es[i] {
        assert |Elements(pieces[i], "=", false)| == 2;
      }
      assert Assignments(pieces) == es;
      MapOfEntries(es, m);
    }
  }

  lemma EntriesAre(es: seq<Pair>, m: map<string, string>)
    requires Enumerates(es, m)
    ensures forall i :: 0 <= i < |es| ==> es[i].key in m && es[i] == Pair(es[i].key, m[es[i].key])
    ensures forall k :: k in m ==> exists i :: 0 <= i < |es| && es[i] == Pair(k, m[k])
  {
    forall k | k in m ensures exists i :: 0 <= i < |es| && es[i] == Pair(k, m[k]) {
      var i :| 0 <= i < |es| && es[i].key == k;
      assert es[i] == Pair(k, m[k]);
    }
  }

  // ---------------------------------------------------------------------------
  // What a parsed key or value can be.

  lemma {:induction false} NonEmptyFrom(pieces: seq<string>, e: string)
    requires e in NonEmpty(pieces)
    ensures e in pieces && e != ""
  {
    if pieces[0] != e { NonEmptyFrom(pieces[1..], e); }
  }

  lemma {:induction false} PieceOf(s: string, d: string, from: nat, e: string, c: char)
    requires d != "" && from <= |s| && e in Split(s, d, from) && Free(s, c)
    ensures Free(e, c)
    decreases |s| - from
  {
    hide Find, Occurs, Split;
    SplitStep(s, d, from);
    FindAgain(s, d, from);
    var n := Find(s, d, from);
    if n < |s| && e != s[from..n] { PieceOf(s, d, n + |d|, e, c); }
  }

  lemma PieceClean(s: string, c: char, e: string)
    requires e in Split(s, [c], 0)
    ensures Free(e, c)
  {
    hide Find, Split;
    var p :| 0 <= p < |Split(s, [c], 0)| && Split(s, [c], 0)[p] == e;
    forall i | 0 <= i < |e| ensures e[i] != c {
      assert e[i..i + 1] == [e[i]];
      PiecesFree(s, [c], 0, p, i);
    }
  }

  lemma ElementClean(s: string, c: char, e: string)
    requires e in Elements(s, [c], false)
    ensures e != "" && Free(e, c) && e in Split(s, [c], 0)
  {
    hide Split, NonEmpty, Find;
    NonEmptyFrom(Split(s, [c], 0), e);
    PieceClean(s, c, e);
  }

  /** A parsed assignment has a key and a value that could be written. */
  lemma AssignmentsClean(text: string, i: nat)
    requires var pieces := Elements(text, "&", false); AreAssignments(pieces) && i < |pieces|
    ensures var p := Assignments(Elements(text, "&", false))[i]; Clean(p) && Full(p)
  {
    hide Elements, Split, Find;
    var pieces := Elements(text, "&", false);
    var kv := Elements(pieces[i], "=", false);
    ElementClean(text, '&', pieces[i]);
    ElementClean(pieces[i], '=', kv[0]);
    ElementClean(pieces[i], '=', kv[1]);
    PieceOf(pieces[i], "=", 0, kv[0], '&');
    PieceOf(pieces[i], "=", 0, kv[1], '&');
  }

  predicate Writable(m: map<string, string>) {
    forall k :: k in m ==> Clean(Pair(k, m[k])) && Full(Pair(k, m[k]))
  }

  predicate ParsesTo(text: string, m: map<string, string>) {
    var pieces := Elements(text, "&", false);
    AreAssignments(pieces) && MapOf(Assignments(pieces)) == m
  }

  /** Over all maps: what is written parses back exactly when no key and no value is empty or holds a
      separator.
    */
  lemma ParamsRoundTrip(text: string, m: map<string, string>)
    requires IsTextOf(text, m)
    ensures ParsesTo(text, m) <==> Writable(m)
  {
    hide Elements, Written, MapOf, Full, Clean;
    var es :| Enumerates(es, m) && text == Written(es);
    EntriesAre(es, m);
    if Writable(m) { EntriesRoundTrip(es, m); }
    if ParsesTo(text, m) {
      var parsed := Assignments(Elements(text, "&", false));
      forall k | k in m ensures Clean(Pair(k, m[k])) && Full(Pair(k, m[k])) {
        MapOfAt(parsed, k);
        var i :| 0 <= i < |parsed| && parsed[i] == Pair(k, m[k]);
        AssignmentsClean(text, i);
      }
    }
  }

  /** A map that does not come back: the client writes an empty value, the server refuses it. */
  lemma EmptyValueRefused()
    ensures IsTextOf("k=", map["k" := ""]) && !AreAssignments(Elements("k=", "&", false))
  {
    hide Elements;
    var p := Pair("k", "");
    assert [p][0].key == "k";
    assert Enumerates([p], map["k" := ""]);
    LineIs(p);
    assert Line(p) == "k=";
    assert Lines([p]) == ["k="];
    assert Written([p]) == "k=";
    EntriesRoundTrip([p], map["k" := ""]);
    assert !Full([p][0]);
  }

  // ---------------------------------------------------------------------------
  // `string_to_map_parser`, which keeps empty pieces.

  predicate HaveValues(pieces: seq<string>) {
    forall i :: 0 <= i < |pieces| ==> |Split(pieces[i], "=", 0)| >= 2
  }

  function KeyValues(pieces: seq<string>): (r: seq<Pair>)
    requires HaveValues(pieces)
    ensures |r| == |pieces|
  {
    seq(|pieces|, i requires 0 <= i < |pieces| => var kv := Split(pieces[i], "=", 0); Pair(kv[0], kv[1]))
  }

  /** The program indexes the second piece without a check, so each assignment must have a `=`. */
  method StringToMap(text: string) returns (m: map<string, string>)
    requires text != "" ==> HaveValues(Split(text, "&", 0))
    ensures m == if text == "" then map[] else MapOf(KeyValues(Split(text, "&", 0)))
  {
    hide Split;
    m := map[];
    if text == "" { return; }
    var pieces := Split(text, "&", 0);
    ghost var es := KeyValues(pieces);
    for i := 0 to |pieces|
      invariant m == MapOf(es[..i])
    {
      var kv := Split(pieces[i], "=", 0);
      m := m[kv[0] := kv[1]];
      assert es[..i + 1][..i] == es[..i] && es[..i + 1][i] == es[i];
    }
    assert es[..|pieces|] == es;
  }

  lemma EntriesReadBack(es: seq<Pair>, m: map<string, string>)
    requires Enumerates(es, m) && forall i :: 0 <= i < |es| ==> Clean(es[i])
    ensures es == [] ==> Written(es) == "" && m == map[]
    ensures es != [] ==>
            Written(es) != "" && HaveValues(Split(Written(es), "&", 0))
            && MapOf(KeyValues(Split(Written(es), "&", 0))) == m
  {
    hide Elements, Written, Split, Line, Enumerates, MapOf;
    NothingListed(m);
    MapOfEntries(es, m);
    if es != [] {
      WrittenElements(es);
      var pieces := Lines(es);
      forall i | 0 <= i < |es| ensures Split(pieces[i], "=", 0) == [es[i].key, es[i].value] { LineClean(es[i]); }
      assert KeyValues(pieces) == es;
      SplitOne("", '&');
      LineClean(es[0]);
      assert Written(es) == "" ==> pieces == [""];
    }
  }

  /** What `StringToMap` may be called with, and that it returns `m`. */
  predicate ReadsBack(text: string, m: map<string, string>) {
    if text == "" then m == map[]
    else HaveValues(Split(text, "&", 0)) && MapOf(KeyValues(Split(text, "&", 0))) == m
  }

  lemma KeyValuesClean(text: string, i: nat)
    requires HaveValues(Split(text, "&", 0)) && i < |Split(text, "&", 0)|
    ensures Clean(KeyValues(Split(text, "&", 0))[i])
  {
    hide Split, Find;
    var piece := Split(text, "&", 0)[i];
    var kv := Split(piece, "=", 0);
    assert |Split(piece, "=", 0)| >= 2;
    PieceClean(text, '&', piece);
    PieceClean(piece, '=', kv[0]);
    PieceClean(piece, '=', kv[1]);
    PieceOf(piece, "=", 0, kv[0], '&');
    PieceOf(piece, "=", 0, kv[1], '&');
  }

  /** Over all maps: what is written reads back exactly when no key and no value holds a separator. */
  lemma StringToMapRoundTrip(text: string, m: map<string, string>)
    requires IsTextOf(text, m)
    ensures ReadsBack(text, m) <==> forall k :: k in m ==> Clean(Pair(k, m[k]))
  {
    hide Split, Written, MapOf, Clean;
    var es :| Enumerates(es, m) && text == Written(es);
    EntriesAre(es, m);
    if forall k :: k in m ==> Clean(Pair(k, m[k])) { EntriesReadBack(es, m); }
    if ReadsBack(text, m) && text != "" {
      var parsed := KeyValues(Split(text, "&", 0));
      forall k | k in m ensures Clean(Pair(k, m[k])) {
        MapOfAt(parsed, k);
        var i :| 0 <= i < |parsed| && parsed[i] == Pair(k, m[k]);
        KeyValuesClean(text, i);
      }
    }
  }
}
