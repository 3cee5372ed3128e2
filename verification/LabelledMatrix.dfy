/** The labelled matrix of common/adjacency-matrix.cpp with its two label-to-index maps.  Weights are
    exact reals.
  */
module LabelledMatrix {

  /** Vertex names are only ever compared for equality; integers stand for them. */
  type Label = int

  datatype Vertex = Vertex(y: Label, x: Label, weight: real)

  type Matrix = seq<seq<Vertex>>

  // ---------------------------------------------------------------------------
  // Labels and their index maps.

  predicate Distinct<T(==)>(s: seq<T>) {
    forall i, j :: 0 <= i < j < |s| ==> s[i] != s[j]
  }

  /** Row `i` of `m` is labelled `ys[i]` and column `j` is labelled `xs[j]`. */
  predicate Labelled(m: Matrix, ys: seq<Label>, xs: seq<Label>) {
    && |m| == |ys| == |xs| && Distinct(ys) && Distinct(xs)
    && forall i :: 0 <= i < |m| ==> RowLabelled(m[i], ys[i], xs)
  }

  predicate RowLabelled(row: seq<Vertex>, y: Label, xs: seq<Label>) {
    |row| == |xs| && forall j :: 0 <= j < |xs| ==> row[j].y == y && row[j].x == xs[j]
  }

  /** `names` maps exactly the labels, each to its place. */
  predicate Indexes(names: map<Label, int>, labels: seq<Label>) {
    && (forall j :: 0 <= j < |labels| ==> labels[j] in names && names[labels[j]] == j)
    && (forall name :: name in names ==> 0 <= names[name] < |labels| && labels[names[name]] == name)
  }

  function NameSet(labels: seq<Label>): set<Label> {
    set name | name in labels
  }

  type Weights = map<Label, map<Label, real>>

  predicate Known(w: Weights, y: Label, x: Label) {
    y in w && x in w[y]
  }

  /** The weight of a label pair, 0 for an unknown one. */
  function At(w: Weights, y: Label, x: Label): real {
    if Known(w, y, x) then w[y][x] else 0.0
  }

  function Put(w: Weights, y: Label, x: Label, weight: real): Weights
    requires Known(w, y, x)
  {
    w[y := w[y][x := weight]]
  }

  predicate Inside(names: map<Label, int>, n: int) {
    forall name :: name in names ==> 0 <= names[name] < n
  }

  ghost function RowWeights(row: seq<Vertex>, xNames: map<Label, int>): map<Label, real>
    requires Inside(xNames, |row|)
  {
    map x | x in xNames :: row[xNames[x]].weight
  }

  /** The weight found for every pair of labels, row label first: all a caller can see. */
  ghost function WeightsOf(m: Matrix, ys: seq<Label>, xs: seq<Label>, yNames: map<Label, int>, xNames: map<Label, int>)
    : (w: Weights)
    requires Labelled(m, ys, xs) && Indexes(yNames, ys) && Indexes(xNames, xs)
  {
    Places(m, ys, xs);
    map y | y in yNames :: RowWeights(m[yNames[y]], xNames)
  }

  lemma Places(m: Matrix, ys: seq<Label>, xs: seq<Label>)
    requires Labelled(m, ys, xs)
    ensures Square(m)
  {
    forall i | 0 <= i < |m| ensures |m[i]| == |m| { assert RowLabelled(m[i], ys[i], xs); }
  }

  lemma RowFacts(m: Matrix, ys: seq<Label>, xs: seq<Label>, yNames: map<Label, int>, xNames: map<Label, int>)
    requires Labelled(m, ys, xs) && Indexes(yNames, ys) && Indexes(xNames, xs)
    ensures Square(m) && Inside(yNames, |m|) && Inside(xNames, |m|)
    ensures var w := WeightsOf(m, ys, xs, yNames, xNames);
      w.Keys == yNames.Keys && forall y :: y in yNames ==> w[y] == RowWeights(m[yNames[y]], xNames)
  {
    Places(m, ys, xs);
    hide RowLabelled, Distinct, RowWeights;
  }

  /** The weight found for one pair of labels is that of the cell the two maps name. */
  lemma WeightAt(m: Matrix, ys: seq<Label>, xs: seq<Label>, yNames: map<Label, int>, xNames: map<Label, int>,
                 y: Label, x: Label)
    requires Labelled(m, ys, xs) && Indexes(yNames, ys) && Indexes(xNames, xs)
    ensures var w := WeightsOf(m, ys, xs, yNames, xNames);
      && (y in w <==> y in yNames) && (y in w ==> (x in w[y] <==> x in xNames))
      && (Known(w, y, x) ==>
            0 <= yNames[y] < |m| && 0 <= xNames[x] < |m[yNames[y]]| && At(w, y, x) == m[yNames[y]][xNames[x]].weight)
  {
    RowFacts(m, ys, xs, yNames, xNames);
  }

  lemma SameWeights(w: Weights, w': Weights)
    requires w.Keys == w'.Keys && forall y :: y in w ==> w[y].Keys == w'[y].Keys
    requires forall y, x :: y in w && x in w[y] ==> w'[y][x] == w[y][x]
    ensures w' == w
  {
    forall y | y in w ensures w'[y] == w[y] { assert forall x :: x in w[y] ==> w'[y][x] == w[y][x]; }
  }

  function SetInRow(row: seq<Vertex>, j: int, weight: real): (r: seq<Vertex>)
    requires 0 <= j < |row|
    ensures |r| == |row| && forall k :: 0 <= k < |row| ==> r[k] == if k == j then row[k].(weight := weight) else row[k]
  {
    row[j := row[j].(weight := weight)]
  }

  function SetCell(m: Matrix, i: int, j: int, weight: real): (r: Matrix)
    requires 0 <= i < |m| && 0 <= j < |m[i]|
    ensures |r| == |m| && forall k :: 0 <= k < |m| ==> r[k] == if k == i then SetInRow(m[k], j, weight) else m[k]
  {
    m[i := SetInRow(m[i], j, weight)]
  }

  lemma RowUpdate(row: seq<Vertex>, xs: seq<Label>, xNames: map<Label, int>, x: Label, weight: real)
    requires Indexes(xNames, xs) && |row| == |xs| && Inside(xNames, |row|) && x in xNames
    ensures RowWeights(SetInRow(row, xNames[x], weight), xNames) == RowWeights(row, xNames)[x := weight]
  {
    var w := RowWeights(SetInRow(row, xNames[x], weight), xNames);
    forall x' | x' in xNames ensures w[x'] == if x' == x then weight else row[xNames[x']].weight {
      assert xs[xNames[x']] == x';
    }
  }

  lemma CellLabelled(m: Matrix, ys: seq<Label>, xs: seq<Label>, i: int, j: int, weight: real)
    requires Labelled(m, ys, xs) && 0 <= i < |m| && 0 <= j < |m[i]|
    ensures Labelled(SetCell(m, i, j, weight), ys, xs)
  {
    var m' := SetCell(m, i, j, weight);
    forall k | 0 <= k < |m| ensures RowLabelled(m'[k], ys[k], xs) { assert RowLabelled(m[k], ys[k], xs); }
  }

  /** Changing the weight of one cell changes the weight of its label pair only. */
  lemma CellUpdate(m: Matrix, ys: seq<Label>, xs: seq<Label>, yNames: map<Label, int>, xNames: map<Label, int>,
                   y: Label, x: Label, weight: real)
    requires Labelled(m, ys, xs) && Indexes(yNames, ys) && Indexes(xNames, xs) && y in yNames && x in xNames
    requires 0 <= yNames[y] < |m| && 0 <= xNames[x] < |m[yNames[y]]|
    ensures var m' := SetCell(m, yNames[y], xNames[x], weight);
      var w := WeightsOf(m, ys, xs, yNames, xNames);
      && Labelled(m', ys, xs) && Known(w, y, x)
      && WeightsOf(m', ys, xs, yNames, xNames) == Put(w, y, x, weight)
  {
    hide Labelled, RowLabelled, Indexes, Distinct, WeightsOf, RowWeights, Inside, Square, SetCell, SetInRow;
    var i, j := yNames[y], xNames[x];
    CellLabelled(m, ys, xs, i, j, weight);
    WeightAt(m, ys, xs, yNames, xNames, y, x);
    var w, w' := WeightsOf(m, ys, xs, yNames, xNames), WeightsOf(SetCell(m, i, j, weight), ys, xs, yNames, xNames);
    RowsAfterCell(m, ys, xs, yNames, xNames, y, x, weight);
    UpdatedAt(w, w', y, w[y][x := weight]);
  }

  /** Row by row: the row of the cell has the new weight, all others are as they were. */
  lemma RowsAfterCell(m: Matrix, ys: seq<Label>, xs: seq<Label>, yNames: map<Label, int>, xNames: map<Label, int>,
                      y: Label, x: Label, weight: real)
    requires Labelled(m, ys, xs) && Indexes(yNames, ys) && Indexes(xNames, xs) && y in yNames && x in xNames
    requires 0 <= yNames[y] < |m| && 0 <= xNames[x] < |m[yNames[y]]|
    requires Labelled(SetCell(m, yNames[y], xNames[x], weight), ys, xs)
    ensures var w := WeightsOf(m, ys, xs, yNames, xNames);
      var w' := WeightsOf(SetCell(m, yNames[y], xNames[x], weight), ys, xs, yNames, xNames);
      && w'.Keys == w.Keys && y in w && w'[y] == w[y][x := weight]
      && forall y' :: y' in w && y' != y ==> w'[y'] == w[y']
  {
    hide Labelled, RowLabelled, Distinct, WeightsOf, RowWeights, Square, SetInRow;
    var i, j := yNames[y], xNames[x];
    RowFacts(m, ys, xs, yNames, xNames);
    RowFacts(SetCell(m, i, j, weight), ys, xs, yNames, xNames);
    SquareRow(m, ys, xs, i);
    RowUpdate(m[i], xs, xNames, x, weight);
    forall y' | y' in yNames && y' != y ensures yNames[y'] != i { assert ys[yNames[y']] == y' && ys[i] == y; }
  }

  lemma SquareRow(m: Matrix, ys: seq<Label>, xs: seq<Label>, i: int)
    requires Labelled(m, ys, xs) && 0 <= i < |m|
    ensures |m[i]| == |xs| == |m|
  {
    assert RowLabelled(m[i], ys[i], xs);
  }

  lemma UpdatedAt(w: Weights, w': Weights, y: Label, row: map<Label, real>)
    requires w'.Keys == w.Keys && y in w && w'[y] == row
    requires forall y' :: y' in w && y' != y ==> w'[y'] == w[y']
    ensures w' == w[y := row]
  {
    var u := w[y := row];
    forall k | k in w' ensures k in u && w'[k] == u[k] {
      if k == y { assert u[k] == row; } else { assert u[k] == w[k]; }
    }
  }

  // ---------------------------------------------------------------------------
  // Rearranging rows and columns changes no weight.

  predicate Permutation(order: seq<int>, n: nat) {
    && |order| == n && Distinct(order)
    && (forall i :: 0 <= i < n ==> 0 <= order[i] < n)
    && (forall k :: 0 <= k < n ==> k in order)
  }

  ghost predicate Rearranged(m: Matrix, ys: seq<Label>, xs: seq<Label>, m': Matrix, ys': seq<Label>, xs': seq<Label>,
                             rows: seq<int>, cols: seq<int>)
    requires Labelled(m, ys, xs) && Permutation(rows, |m|) && Permutation(cols, |m|)
  {
    && |m'| == |ys'| == |xs'| == |m|
    && (forall i :: 0 <= i < |m| ==> |m'[i]| == |m| && ys'[i] == ys[rows[i]] && xs'[i] == xs[cols[i]])
    && (forall i, j :: 0 <= i < |m| && 0 <= j < |m| ==> m'[i][j] == m[rows[i]][cols[j]])
  }

  function ByOrder<T>(s: seq<T>, order: seq<int>): (r: seq<T>)
    requires Permutation(order, |s|)
    ensures |r| == |s| && forall i :: 0 <= i < |s| ==> r[i] == s[order[i]]
  {
    seq(|s|, i requires 0 <= i < |s| => s[order[i]])
  }

  function Identity(n: nat): (r: seq<int>)
    ensures |r| == n && forall i :: 0 <= i < n ==> r[i] == i
    ensures Permutation(r, n)
  {
    var r := seq(n, i => i);
    assert forall k :: 0 <= k < n ==> k in r by {
      forall k | 0 <= k < n ensures k in r { assert r[k] == k; }
    }
    r
  }

  lemma RowsRearranged(m: Matrix, ys: seq<Label>, xs: seq<Label>, order: seq<int>)
    requires Labelled(m, ys, xs) && Permutation(order, |m|)
    ensures Rearranged(m, ys, xs, ByOrder(m, order), ByOrder(ys, order), xs, order, Identity(|m|))
  {
    forall i | 0 <= i < |m| ensures |ByOrder(m, order)[i]| == |m| { assert RowLabelled(m[order[i]], ys[order[i]], xs); }
  }

  lemma OrderedLabelled(m: Matrix, ys: seq<Label>, xs: seq<Label>, order: seq<int>)
    requires Labelled(m, ys, xs) && Permutation(order, |m|)
    ensures Labelled(ByOrder(m, order), ByOrder(ys, order), xs)
  {
    RowsRearranged(m, ys, xs, order);
    RearrangedLabelled(m, ys, xs, ByOrder(m, order), ByOrder(ys, order), xs, order, Identity(|m|));
  }

  lemma OrderedWeights(m: Matrix, ys: seq<Label>, xs: seq<Label>, order: seq<int>,
                       yNames: map<Label, int>, xNames: map<Label, int>, yNames': map<Label, int>)
    requires Labelled(m, ys, xs) && Indexes(yNames, ys) && Indexes(xNames, xs) && Permutation(order, |m|)
    requires Labelled(ByOrder(m, order), ByOrder(ys, order), xs) && Indexes(yNames', ByOrder(ys, order))
    ensures WeightsOf(ByOrder(m, order), ByOrder(ys, order), xs, yNames', xNames) == WeightsOf(m, ys, xs, yNames, xNames)
    ensures yNames'.Keys == yNames.Keys
  {
    RowsRearranged(m, ys, xs, order);
    RearrangedWeights(m, ys, xs, ByOrder(m, order), ByOrder(ys, order), xs, order, Identity(|m|), yNames, xNames, yNames', xNames);
  }

  lemma NothingRearranged(m: Matrix, ys: seq<Label>, xs: seq<Label>)
    requires Labelled(m, ys, xs)
    ensures Rearranged(m, ys, xs, m, ys, xs, Identity(|m|), Identity(|m|))
  {
    Places(m, ys, xs);
  }

  lemma SwapRearranged(m: Matrix, ys: seq<Label>, xs: seq<Label>, m': Matrix, ys': seq<Label>, xs': seq<Label>,
                       rows: seq<int>, cols: seq<int>, i: int)
    requires Labelled(m, ys, xs) && Permutation(rows, |m|) && Permutation(cols, |m|)
    requires Rearranged(m, ys, xs, m', ys', xs', rows, cols) && 0 <= i && i + 1 < |m|
    ensures Permutation(SwapAt(cols, i), |m|)
    ensures Rearranged(m, ys, xs, SwapColumnsAt(m', i), ys', SwapAt(xs', i), rows, SwapAt(cols, i))
  {
    SwapPermutation(cols, |m|, i);
  }

  lemma SwapPermutation(order: seq<int>, n: nat, i: int)
    requires Permutation(order, n) && 0 <= i && i + 1 < n
    ensures Permutation(SwapAt(order, i), n)
  {
    var swapped := SwapAt(order, i);
    forall k | 0 <= k < n ensures k in swapped {
      assert k in order;
      var j :| 0 <= j < n && order[j] == k;
      assert swapped[if j == i then i + 1 else if j == i + 1 then i else j] == k;
    }
  }

  lemma RearrangedLabelled(m: Matrix, ys: seq<Label>, xs: seq<Label>, m': Matrix, ys': seq<Label>, xs': seq<Label>,
                           rows: seq<int>, cols: seq<int>)
    requires Labelled(m, ys, xs) && Permutation(rows, |m|) && Permutation(cols, |m|)
    requires Rearranged(m, ys, xs, m', ys', xs', rows, cols)
    ensures Labelled(m', ys', xs')
  {
    forall i | 0 <= i < |m| ensures RowLabelled(m'[i], ys'[i], xs') {
      var a := rows[i];
      assert RowLabelled(m[a], ys[a], xs);
      forall j | 0 <= j < |m| ensures m'[i][j].y == ys'[i] && m'[i][j].x == xs'[j] {
        assert m'[i][j] == m[a][cols[j]];
      }
    }
    DistinctRearranged(ys, ys', rows);
    DistinctRearranged(xs, xs', cols);
  }

  lemma DistinctRearranged(labels: seq<Label>, labels': seq<Label>, order: seq<int>)
    requires Distinct(labels) && Permutation(order, |labels|) && |labels'| == |labels|
    requires forall i :: 0 <= i < |labels| ==> labels'[i] == labels[order[i]]
    ensures Distinct(labels')
  {
    forall i, j | 0 <= i < j < |labels| ensures labels'[i] != labels'[j] {
      assert order[i] != order[j];
      var a, b := order[i], order[j];
      assert if a < b then labels[a] != labels[b] else labels[b] != labels[a];
    }
  }

  lemma RearrangedWeights(m: Matrix, ys: seq<Label>, xs: seq<Label>, m': Matrix, ys': seq<Label>, xs': seq<Label>,
                          rows: seq<int>, cols: seq<int>, yNames: map<Label, int>, xNames: map<Label, int>,
                          yNames': map<Label, int>, xNames': map<Label, int>)
    requires Labelled(m, ys, xs) && Indexes(yNames, ys) && Indexes(xNames, xs)
    requires Permutation(rows, |m|) && Permutation(cols, |m|) && Rearranged(m, ys, xs, m', ys', xs', rows, cols)
    requires Labelled(m', ys', xs') && Indexes(yNames', ys') && Indexes(xNames', xs')
    ensures WeightsOf(m', ys', xs', yNames', xNames') == WeightsOf(m, ys, xs, yNames, xNames)
    ensures yNames'.Keys == yNames.Keys && xNames'.Keys == xNames.Keys
  {
    SameNames(ys, ys', rows, yNames, yNames');
    SameNames(xs, xs', cols, xNames, xNames');
    RowFacts(m, ys, xs, yNames, xNames);
    RowFacts(m', ys', xs', yNames', xNames');
    hide *;
    forall y | y in yNames
      ensures WeightsOf(m', ys', xs', yNames', xNames')[y] == WeightsOf(m, ys, xs, yNames, xNames)[y]
    {
      RearrangedRow(m, ys, xs, m', ys', xs', rows, cols, yNames, xNames, yNames', xNames', y);
    }
  }

  lemma RearrangedRow(m: Matrix, ys: seq<Label>, xs: seq<Label>, m': Matrix, ys': seq<Label>, xs': seq<Label>,
                      rows: seq<int>, cols: seq<int>, yNames: map<Label, int>, xNames: map<Label, int>,
                      yNames': map<Label, int>, xNames': map<Label, int>, y: Label)
    requires Labelled(m, ys, xs) && Indexes(yNames, ys) && Indexes(xNames, xs)
    requires Permutation(rows, |m|) && Permutation(cols, |m|) && Rearranged(m, ys, xs, m', ys', xs', rows, cols)
    requires Labelled(m', ys', xs') && Indexes(yNames', ys') && Indexes(xNames', xs')
    requires y in yNames && y in yNames' && xNames'.Keys == xNames.Keys
    requires Square(m) && Square(m') && 0 <= yNames[y] < |m| && 0 <= yNames'[y] < |m'|
    requires Inside(xNames, |m|) && Inside(xNames', |m'|)
    ensures RowWeights(m'[yNames'[y]], xNames') == RowWeights(m[yNames[y]], xNames)
  {
    forall x | x in xNames ensures m'[yNames'[y]][xNames'[x]] == m[yNames[y]][xNames[x]] {
      RearrangedCell(m, ys, xs, m', ys', xs', rows, cols, yNames, xNames, yNames', xNames', y, x);
    }
    hide Labelled, Indexes, Permutation, Rearranged, Distinct, RowLabelled;
  }

  lemma RearrangedCell(m: Matrix, ys: seq<Label>, xs: seq<Label>, m': Matrix, ys': seq<Label>, xs': seq<Label>,
                       rows: seq<int>, cols: seq<int>, yNames: map<Label, int>, xNames: map<Label, int>,
                       yNames': map<Label, int>, xNames': map<Label, int>, y: Label, x: Label)
    requires Labelled(m, ys, xs) && Indexes(yNames, ys) && Indexes(xNames, xs)
    requires Permutation(rows, |m|) && Permutation(cols, |m|) && Rearranged(m, ys, xs, m', ys', xs', rows, cols)
    requires Labelled(m', ys', xs') && Indexes(yNames', ys') && Indexes(xNames', xs')
    ensures (y in yNames <==> y in yNames') && (x in xNames <==> x in xNames')
    ensures y in yNames && x in xNames ==>
      0 <= yNames[y] < |m| && 0 <= yNames'[y] < |m| && 0 <= xNames[x] < |m[yNames[y]]| && 0 <= xNames'[x] < |m'[yNames'[y]]|
      && m'[yNames'[y]][xNames'[x]] == m[yNames[y]][xNames[x]]
  {
    SameNames(ys, ys', rows, yNames, yNames');
    SameNames(xs, xs', cols, xNames, xNames');
    hide Permutation, Distinct, RowLabelled;
    if y in yNames && x in xNames {
      var i, j := yNames'[y], xNames'[x];
      assert m'[i][j] == m[rows[i]][cols[j]];
    }
  }

  lemma SameNames(labels: seq<Label>, labels': seq<Label>, order: seq<int>, names: map<Label, int>, names': map<Label, int>)
    requires Permutation(order, |labels|) && |labels'| == |labels| && Distinct(labels)
    requires forall i :: 0 <= i < |labels| ==> labels'[i] == labels[order[i]]
    requires Indexes(names, labels) && Indexes(names', labels')
    ensures names.Keys == names'.Keys
    ensures forall name :: name in names ==> order[names'[name]] == names[name]
  {
    forall name | name in names ensures name in names' && order[names'[name]] == names[name] {
      assert names[name] in order;
      var i :| 0 <= i < |order| && order[i] == names[name];
      assert labels'[i] == name;
    }
    forall name | name in names' ensures name in names {
      assert labels'[names'[name]] == labels[order[names'[name]]];
    }
  }

  // ---------------------------------------------------------------------------
  // Sums.

  function RowTotal(row: seq<Vertex>): real {
    if row == [] then 0.0 else RowTotal(row[..|row| - 1]) + row[|row| - 1].weight
  }

  function ColumnTotal(m: Matrix, j: int): real
    requires 0 <= j && forall i :: 0 <= i < |m| ==> j < |m[i]|
  {
    if m == [] then 0.0 else ColumnTotal(m[..|m| - 1], j) + m[|m| - 1][j].weight
  }

  predicate Descending(s: seq<real>) {
    forall i, j :: 0 <= i < j < |s| ==> s[i] >= s[j]
  }

  predicate Square(m: Matrix) {
    forall i :: 0 <= i < |m| ==> |m[i]| == |m|
  }

  ghost function RowTotals(m: Matrix): (r: seq<real>)
    ensures |r| == |m| && forall i :: 0 <= i < |m| ==> r[i] == RowTotal(m[i])
  {
    seq(|m|, i requires 0 <= i < |m| => RowTotal(m[i]))
  }

  ghost function ColumnTotals(m: Matrix): (r: seq<real>)
    requires Square(m)
    ensures |r| == |m| && forall j :: 0 <= j < |m| ==> r[j] == ColumnTotal(m, j)
  {
    seq(|m|, j requires 0 <= j < |m| => ColumnTotal(m, j))
  }

  // ---------------------------------------------------------------------------
  // Swapping neighbouring columns.

  function SwapAt<T>(s: seq<T>, i: int): (r: seq<T>)
    requires 0 <= i && i + 1 < |s|
    ensures |r| == |s| && forall k :: 0 <= k < |s| ==> r[k] == s[if k == i then i + 1 else if k == i + 1 then i else k]
  {
    s[i := s[i + 1]][i + 1 := s[i]]
  }

  function SwapColumnsAt(m: Matrix, i: int): (r: Matrix)
    requires 0 <= i && forall k :: 0 <= k < |m| ==> i + 1 < |m[k]|
    ensures |r| == |m| && forall k :: 0 <= k < |m| ==> r[k] == SwapAt(m[k], i)
  {
    seq(|m|, k requires 0 <= k < |m| => SwapAt(m[k], i))
  }

  lemma {:induction false} RowTotalSwap(row: seq<Vertex>, i: int)
    requires 0 <= i && i + 1 < |row|
    ensures RowTotal(SwapAt(row, i)) == RowTotal(row)
  {
    var n := |row| - 1;
    if i + 1 < n {
      RowTotalSwap(row[..n], i);
      assert SwapAt(row, i)[..n] == SwapAt(row[..n], i);
    } else {
      assert SwapAt(row, i)[..n][..n - 1] == row[..n][..n - 1];
    }
  }

  lemma {:induction false} ColumnTotalSwap(m: Matrix, i: int, j: int)
    requires 0 <= i && 0 <= j && forall k :: 0 <= k < |m| ==> i + 1 < |m[k]| && j < |m[k]|
    ensures ColumnTotal(SwapColumnsAt(m, i), j) == ColumnTotal(m, if j == i then i + 1 else if j == i + 1 then i else j)
  {
    if m != [] {
      var n := |m| - 1;
      ColumnTotalSwap(m[..n], i, j);
      assert SwapColumnsAt(m, i)[..n] == SwapColumnsAt(m[..n], i);
    }
  }

  lemma TotalsAfterSwap(m: Matrix, i: int)
    requires 0 <= i && i + 1 < |m| && Square(m)
    ensures Square(SwapColumnsAt(m, i))
    ensures ColumnTotals(SwapColumnsAt(m, i)) == SwapAt(ColumnTotals(m), i)
    ensures RowTotals(SwapColumnsAt(m, i)) == RowTotals(m)
  {
    forall j | 0 <= j < |m| { ColumnTotalSwap(m, i, j); }
    forall k | 0 <= k < |m| { RowTotalSwap(m[k], i); }
  }

  // ---------------------------------------------------------------------------
  // Inversions of the column sums: the measure of the bubble sort.

  ghost function Above(s: seq<real>, v: real): nat {
    if s == [] then 0 else Above(s[1..], v) + if v < s[0] then 1 else 0
  }

  ghost function Inversions(s: seq<real>): nat {
    if s == [] then 0 else Above(s[1..], s[0]) + Inversions(s[1..])
  }

  lemma {:induction false} AboveSwap(s: seq<real>, v: real, i: int)
    requires 0 <= i && i + 1 < |s|
    ensures Above(SwapAt(s, i), v) == Above(s, v)
  {
    if i == 0 {
      assert SwapAt(s, 0)[1..][1..] == s[1..][1..];
    } else {
      AboveSwap(s[1..], v, i - 1);
      assert SwapAt(s, i)[1..] == SwapAt(s[1..], i - 1);
    }
  }

  /** Swapping an ascending neighbouring pair removes exactly one inversion. */
  lemma {:induction false} SwapRemovesInversion(s: seq<real>, i: int)
    requires 0 <= i && i + 1 < |s| && s[i] < s[i + 1]
    ensures Inversions(SwapAt(s, i)) == Inversions(s) - 1
  {
    var t := SwapAt(s, i);
    if i == 0 {
      assert t[1..][1..] == s[1..][1..];
    } else {
      assert t[1..] == SwapAt(s[1..], i - 1);
      SwapRemovesInversion(s[1..], i - 1);
      AboveSwap(s[1..], s[0], i - 1);
    }
  }

  lemma NeighboursDescending(s: seq<real>)
    requires forall i :: 0 <= i && i + 1 < |s| ==> s[i] >= s[i + 1]
    ensures Descending(s)
  {
    forall i, j | 0 <= i < j < |s| ensures s[i] >= s[j] { DescendingFrom(s, i, j); }
  }

  lemma {:induction false} DescendingFrom(s: seq<real>, i: int, j: int)
    requires forall k :: 0 <= k && k + 1 < |s| ==> s[k] >= s[k + 1]
    requires 0 <= i <= j < |s|
    ensures s[i] >= s[j]
    decreases j
  {
    if i < j { DescendingFrom(s, i, j - 1); assert s[j - 1] >= s[j - 1 + 1]; }
  }

  // ---------------------------------------------------------------------------
  // Label sets.

  lemma {:induction false} NameSetSize(labels: seq<Label>)
    requires Distinct(labels)
    ensures |NameSet(labels)| == |labels|
  {
    if labels != [] {
      var n := |labels| - 1;
      NameSetSize(labels[..n]);
      assert NameSet(labels) == NameSet(labels[..n]) + {labels[n]};
    }
  }

  lemma IndexedNames(names: map<Label, int>, labels: seq<Label>)
    requires Indexes(names, labels)
    ensures names.Keys == NameSet(labels)
  {
    forall name | name in labels ensures name in names {
      var j :| 0 <= j < |labels| && labels[j] == name;
    }
    forall name | name in names ensures name in labels {
      assert labels[names[name]] == name;
    }
  }

  lemma SubsetOfSameSize(a: set<Label>, b: set<Label>)
    requires a <= b && |a| == |b|
    ensures a == b
  {
    assert b == a + (b - a);
    assert |b| == |a| + |b - a|;
    assert |b - a| == 0;
    assert b - a == {};
  }

  /** Weights over the label set, all zero. */
  ghost function ZeroWeights(labels: set<Label>): Weights {
    map y | y in labels :: map x | x in labels :: 0.0
  }

  ghost predicate Over(w: Weights, labels: set<Label>) {
    w.Keys == labels && forall y :: y in labels ==> w[y].Keys == labels
  }

  /** `s` is the label by label sum of `a` and `b`, all over the same labels. */
  ghost predicate IsSum(s: Weights, a: Weights, b: Weights, labels: set<Label>) {
    && Over(s, labels) && Over(a, labels) && Over(b, labels)
    && forall y, x :: y in labels && x in labels ==> At(s, y, x) == At(a, y, x) + At(b, y, x)
  }

  lemma WeightsOver(m: Matrix, ys: seq<Label>, xs: seq<Label>, yNames: map<Label, int>, xNames: map<Label, int>, labels: set<Label>)
    requires Labelled(m, ys, xs) && Indexes(yNames, ys) && Indexes(xNames, xs)
    requires labels == yNames.Keys == xNames.Keys
    ensures Over(WeightsOf(m, ys, xs, yNames, xNames), labels)
  {
    RowFacts(m, ys, xs, yNames, xNames);
  }

  lemma CellLabels(m: Matrix, ys: seq<Label>, xs: seq<Label>, i: int, j: int)
    requires Labelled(m, ys, xs) && 0 <= i < |m| && 0 <= j < |m|
    ensures |m[i]| == |ys| == |xs| == |m| && m[i][j].y == ys[i] && m[i][j].x == xs[j]
  {
    assert RowLabelled(m[i], ys[i], xs);
  }

  // ---------------------------------------------------------------------------
  // Adding cell by cell, in the order of the other matrix.

  /** The cell of labels `y`, `x` comes before place (i, j) in a matrix indexed by the two maps. */
  predicate Before(yNames: map<Label, int>, xNames: map<Label, int>, y: Label, x: Label, i: int, j: int) {
    && y in yNames && x in xNames
    && (yNames[y] < i || (yNames[y] == i && xNames[x] < j))
  }

  ghost predicate PartlyAdded(w: Weights, before: Weights, r: Weights, labels: set<Label>,
                              yNames: map<Label, int>, xNames: map<Label, int>, i: int, j: int)
  {
    && Over(w, labels)
    && forall y, x :: y in labels && x in labels ==>
         At(w, y, x) == At(before, y, x) + (if Before(yNames, xNames, y, x, i, j) then At(r, y, x) else 0.0)
  }

  lemma AddNone(w: Weights, r: Weights, labels: set<Label>, ys: seq<Label>, xs: seq<Label>,
                yNames: map<Label, int>, xNames: map<Label, int>)
    requires Over(w, labels) && Indexes(yNames, ys) && Indexes(xNames, xs)
    ensures PartlyAdded(w, w, r, labels, yNames, xNames, 0, 0)
  {
  }

  lemma AddCell(w: Weights, before: Weights, r: Weights, labels: set<Label>, ys: seq<Label>, xs: seq<Label>,
                yNames: map<Label, int>, xNames: map<Label, int>, i: int, j: int, y: Label, x: Label, w': Weights)
    requires PartlyAdded(w, before, r, labels, yNames, xNames, i, j) && Indexes(yNames, ys) && Indexes(xNames, xs)
    requires 0 <= i < |ys| && 0 <= j < |xs| && y == ys[i] && x == xs[j] && y in labels && x in labels
    requires Known(w, y, x) && w' == Put(w, y, x, At(w, y, x) + At(r, y, x))
    ensures PartlyAdded(w', before, r, labels, yNames, xNames, i, j + 1)
  {
    forall y', x' | y' in labels && x' in labels
      ensures At(w', y', x') == At(before, y', x') + (if Before(yNames, xNames, y', x', i, j + 1) then At(r, y', x') else 0.0)
    {
      if y' == y && x' == x {
        assert yNames[y] == i && xNames[x] == j;
      } else {
        assert At(w', y', x') == At(w, y', x');
        if y' in yNames && x' in xNames && yNames[y'] == i && xNames[x'] == j {
          assert ys[yNames[y']] == y' && xs[xNames[x']] == x';
        }
      }
    }
  }

  /** A cell not reached yet still has the weight it started with. */
  lemma NotYetAdded(w: Weights, before: Weights, r: Weights, labels: set<Label>, ys: seq<Label>, xs: seq<Label>,
                    yNames: map<Label, int>, xNames: map<Label, int>, i: int, j: int)
    requires PartlyAdded(w, before, r, labels, yNames, xNames, i, j) && Indexes(yNames, ys) && Indexes(xNames, xs)
    requires 0 <= i < |ys| && 0 <= j < |xs| && ys[i] in labels && xs[j] in labels
    ensures At(w, ys[i], xs[j]) == At(before, ys[i], xs[j])
  {
    assert yNames[ys[i]] == i && xNames[xs[j]] == j;
  }

  lemma OverMember(w: Weights, labels: set<Label>, y: Label, x: Label)
    requires Over(w, labels)
    ensures Known(w, y, x) <==> y in labels && x in labels
  {
  }

  lemma AddRow(w: Weights, before: Weights, r: Weights, labels: set<Label>, ys: seq<Label>, xs: seq<Label>,
               yNames: map<Label, int>, xNames: map<Label, int>, i: int)
    requires PartlyAdded(w, before, r, labels, yNames, xNames, i, |xs|) && Indexes(yNames, ys) && Indexes(xNames, xs)
    ensures PartlyAdded(w, before, r, labels, yNames, xNames, i + 1, 0)
  {
    forall y, x | y in labels && x in labels
      ensures Before(yNames, xNames, y, x, i, |xs|) == Before(yNames, xNames, y, x, i + 1, 0)
    {
    }
  }

  lemma AllNamesKnown(labels: set<Label>, ys: seq<Label>, yNames: map<Label, int>)
    requires Indexes(yNames, ys) && forall i :: 0 <= i < |ys| ==> ys[i] in labels
    requires |labels| == |yNames.Keys|
    ensures labels == yNames.Keys
  {
    forall y | y in yNames ensures y in labels { assert ys[yNames[y]] == y; }
    SubsetOfSameSize(yNames.Keys, labels);
  }

  lemma AddedAll(w: Weights, before: Weights, r: Weights, labels: set<Label>, ys: seq<Label>, xs: seq<Label>,
                 yNames: map<Label, int>, xNames: map<Label, int>)
    requires PartlyAdded(w, before, r, labels, yNames, xNames, |ys|, 0) && Indexes(yNames, ys) && Indexes(xNames, xs)
    requires labels == yNames.Keys == xNames.Keys && Over(before, labels) && Over(r, labels)
    ensures IsSum(w, before, r, labels)
  {
  }

  // ---------------------------------------------------------------------------
  // Comparing cell by cell, in the order of the other matrix.

  ghost predicate Agree(w: Weights, r: Weights, yNames: map<Label, int>, xNames: map<Label, int>, i: int, j: int) {
    forall y, x :: Before(yNames, xNames, y, x, i, j) ==> Known(w, y, x) && At(w, y, x) == At(r, y, x)
  }

  /** Some label pair of `r` is unknown to `w` or has another weight there. */
  ghost predicate Differ(w: Weights, r: Weights) {
    exists y, x :: Known(r, y, x) && !(Known(w, y, x) && At(w, y, x) == At(r, y, x))
  }

  lemma DifferAt(w: Weights, r: Weights, y: Label, x: Label)
    requires Known(r, y, x) && !(Known(w, y, x) && At(w, y, x) == At(r, y, x))
    ensures Differ(w, r)
  {
  }

  lemma DifferNotSame(w: Weights, r: Weights)
    requires Differ(w, r)
    ensures w != r
  {
  }

  lemma AgreeNone(w: Weights, r: Weights, ys: seq<Label>, xs: seq<Label>, yNames: map<Label, int>, xNames: map<Label, int>)
    requires Indexes(yNames, ys) && Indexes(xNames, xs)
    ensures Agree(w, r, yNames, xNames, 0, 0)
  {
  }

  lemma AgreeCell(w: Weights, r: Weights, ys: seq<Label>, xs: seq<Label>, yNames: map<Label, int>, xNames: map<Label, int>,
                  i: int, j: int)
    requires Agree(w, r, yNames, xNames, i, j) && Indexes(yNames, ys) && Indexes(xNames, xs)
    requires 0 <= i < |ys| && 0 <= j < |xs| && Known(w, ys[i], xs[j]) && At(w, ys[i], xs[j]) == At(r, ys[i], xs[j])
    ensures Agree(w, r, yNames, xNames, i, j + 1)
  {
    forall y, x | Before(yNames, xNames, y, x, i, j + 1) && !Before(yNames, xNames, y, x, i, j)
      ensures y == ys[i] && x == xs[j]
    {
      assert ys[yNames[y]] == y && xs[xNames[x]] == x;
    }
  }

  lemma AgreeRow(w: Weights, r: Weights, ys: seq<Label>, xs: seq<Label>, yNames: map<Label, int>, xNames: map<Label, int>, i: int)
    requires Agree(w, r, yNames, xNames, i, |xs|) && Indexes(yNames, ys) && Indexes(xNames, xs)
    ensures Agree(w, r, yNames, xNames, i + 1, 0)
  {
    forall y, x | Before(yNames, xNames, y, x, i + 1, 0) ensures Known(w, y, x) && At(w, y, x) == At(r, y, x) {
      assert Before(yNames, xNames, y, x, i, |xs|);
    }
  }

  /** Every cell of `r` found in `w` with its weight, and as many labels: the same weights. */
  lemma AgreeAll(w: Weights, r: Weights, labels: set<Label>, rLabels: set<Label>, ys: seq<Label>, xs: seq<Label>,
                 yNames: map<Label, int>, xNames: map<Label, int>)
    requires Agree(w, r, yNames, xNames, |ys|, 0) && Indexes(yNames, ys) && Indexes(xNames, xs)
    requires rLabels == yNames.Keys == xNames.Keys && |labels| == |rLabels|
    requires Over(w, labels) && Over(r, rLabels)
    ensures w == r
  {
    forall y | y in rLabels ensures y in labels {
      assert Before(yNames, xNames, y, y, |ys|, 0);
    }
    SubsetOfSameSize(rLabels, labels);
    forall y, x | y in w && x in w[y] ensures r[y][x] == w[y][x] {
      assert Before(yNames, xNames, y, x, |ys|, 0);
    }
    SameWeights(w, r);
  }

  // ---------------------------------------------------------------------------
  // A new matrix over index maps that may hold stale entries.

  predicate ZeroRow(row: seq<Vertex>, y: Label, names: seq<Label>) {
    |row| == |names| && forall j :: 0 <= j < |names| ==> row[j] == Vertex(y, names[j], 0.0)
  }

  predicate ZeroMatrix(m: Matrix, names: seq<Label>) {
    |m| == |names| && forall i :: 0 <= i < |names| ==> ZeroRow(m[i], names[i], names)
  }

  /** `map'` is `map0` with the first `n` labels entered at their places. */
  predicate Entered(map0: map<Label, int>, map': map<Label, int>, names: seq<Label>, n: nat)
    requires n <= |names|
  {
    && map'.Keys == map0.Keys + NameSet(names[..n])
    && (Distinct(names) ==> forall j :: 0 <= j < n ==> names[j] in map' && map'[names[j]] == j)
  }

  lemma EnterNone(map0: map<Label, int>, names: seq<Label>)
    ensures Entered(map0, map0, names, 0)
  {
    assert NameSet(names[..0]) == {};
  }

  lemma EnterNext(map0: map<Label, int>, map': map<Label, int>, names: seq<Label>, n: nat)
    requires n < |names| && Entered(map0, map', names, n)
    ensures Entered(map0, map'[names[n] := n], names, n + 1)
  {
    assert names[..n + 1] == names[..n] + [names[n]];
  }

  /** The filled map is an index of the labels exactly if the labels are distinct and it held no others. */
  lemma EnteredAll(map0: map<Label, int>, map': map<Label, int>, names: seq<Label>)
    requires Entered(map0, map', names, |names|)
    ensures Distinct(names) && map0.Keys <= NameSet(names) ==> Indexes(map', names) && map'.Keys == NameSet(names)
    ensures Indexes(map', names) ==> map0.Keys <= NameSet(names)
  {
    assert names[..|names|] == names;
    if Distinct(names) && map0.Keys <= NameSet(names) {
      forall name | name in map' ensures 0 <= map'[name] < |names| && names[map'[name]] == name {
        assert name in NameSet(names);
        var j :| 0 <= j < |names| && names[j] == name;
      }
    }
    if Indexes(map', names) {
      forall name | name in map0 ensures name in NameSet(names) {
        assert name in map';
        assert names[map'[name]] == name;
      }
    }
  }

  lemma ZeroCell(m: Matrix, names: seq<Label>, i: int, j: int)
    requires ZeroMatrix(m, names) && 0 <= i < |names| && 0 <= j < |names|
    ensures |m[i]| == |names| && m[i][j] == Vertex(names[i], names[j], 0.0)
  {
    assert ZeroRow(m[i], names[i], names);
  }

  lemma ZeroLabelled(m: Matrix, names: seq<Label>)
    requires ZeroMatrix(m, names) && Distinct(names)
    ensures Labelled(m, names, names)
  {
    forall i | 0 <= i < |m| ensures RowLabelled(m[i], names[i], names) { assert ZeroRow(m[i], names[i], names); }
  }

  lemma ZeroMatrixWeights(m: Matrix, names: seq<Label>, yNames: map<Label, int>, xNames: map<Label, int>)
    requires ZeroMatrix(m, names) && Distinct(names) && Indexes(yNames, names) && Indexes(xNames, names)
    ensures Labelled(m, names, names)
    ensures WeightsOf(m, names, names, yNames, xNames) == ZeroWeights(NameSet(names))
  {
    forall i | 0 <= i < |m| ensures RowLabelled(m[i], names[i], names) { assert ZeroRow(m[i], names[i], names); }
    IndexedNames(yNames, names);
    IndexedNames(xNames, names);
    var w, zero := WeightsOf(m, names, names, yNames, xNames), ZeroWeights(NameSet(names));
    forall y, x
      ensures (y in w <==> y in zero) && (y in w ==> (x in w[y] <==> x in zero[y]))
      ensures y in w && x in w[y] ==> zero[y][x] == w[y][x]
    {
      WeightAt(m, names, names, yNames, xNames, y, x);
      if y in w && x in w[y] { assert ZeroRow(m[yNames[y]], y, names); }
    }
    SameWeights(w, zero);
  }
}
