/** The sums by which an `AdjacencyMatrix` is sorted, in terms of the labels: they are sums of the weights of label
    pairs, whatever order the cells are in.
  */
module LabelSums {
  import opened LabelledMatrix

  lemma HasLabel(f: map<Label, real>)
    ensures f == map[] || exists x :: x in f
  {
    if forall x :: x !in f { assert f == map[]; }
  }

  ghost function AnyOf(f: map<Label, real>): (x: Label)
    requires f != map[]
    ensures x in f
  {
    HasLabel(f);
    var x :| x in f; x
  }

  /** The sum of the values of a map, in any order. */
  ghost function SumOf(f: map<Label, real>): real
    decreases |f|
  {
    if f == map[] then 0.0 else SumOf(f - {AnyOf(f)}) + f[AnyOf(f)]
  }

  lemma {:induction false} SumWithout(f: map<Label, real>, x: Label)
    requires x in f
    ensures SumOf(f) == SumOf(f - {x}) + f[x]
    decreases |f|
  {
    var z := AnyOf(f);
    if z != x {
      SumWithout(f - {z}, x);
      SumWithout(f - {x}, z);
      assert f - {z} - {x} == f - {x} - {z};
    }
  }

  /** A value that changes, or is new, changes the sum by as much. */
  lemma SumChanges(f: map<Label, real>, x: Label, v: real)
    ensures SumOf(map[]) == 0.0
    ensures SumOf(f[x := v]) == SumOf(f) + v - (if x in f then f[x] else 0.0)
  {
    SumWithout(f[x := v], x);
    assert f[x := v] - {x} == f - {x};
    if x in f { SumWithout(f, x); } else { assert f - {x} == f; }
  }

  /** The weights of the pairs of `y` and each label, and of each label and `x`. */
  ghost function RowOf(w: Weights, labels: set<Label>, y: Label): map<Label, real> {
    map x | x in labels :: At(w, y, x)
  }

  ghost function ColumnOf(w: Weights, labels: set<Label>, x: Label): map<Label, real> {
    map y | y in labels :: At(w, y, x)
  }

  lemma LastLabel(labels: seq<Label>, f: map<Label, real>)
    requires labels != [] && Distinct(labels) && f.Keys == NameSet(labels)
    ensures var n := |labels| - 1;
      Distinct(labels[..n]) && labels[n] in f && (f - {labels[n]}).Keys == NameSet(labels[..n])
  {
    var n := |labels| - 1;
    assert labels == labels[..n] + [labels[n]];
    assert forall name :: name in labels <==> name in labels[..n] || name == labels[n];
    assert labels[n] !in labels[..n];
    assert labels[n] in f.Keys;
    assert (f - {labels[n]}).Keys == f.Keys - {labels[n]};
  }

  lemma {:induction false} RowTotalIsSum(row: seq<Vertex>, xs: seq<Label>, f: map<Label, real>)
    requires |row| == |xs| && Distinct(xs) && f.Keys == NameSet(xs)
    requires forall j :: 0 <= j < |xs| ==> xs[j] in f && f[xs[j]] == row[j].weight
    ensures RowTotal(row) == SumOf(f)
  {
    var n := |row| - 1;
    if row == [] {
      assert f.Keys == {};
    } else {
      LastLabel(xs, f);
      RowTotalIsSum(row[..n], xs[..n], f - {xs[n]});
      SumWithout(f, xs[n]);
    }
  }

  lemma {:induction false} ColumnTotalIsSum(m: Matrix, j: int, ys: seq<Label>, f: map<Label, real>)
    requires 0 <= j && forall i :: 0 <= i < |m| ==> j < |m[i]|
    requires |m| == |ys| && Distinct(ys) && f.Keys == NameSet(ys)
    requires forall i :: 0 <= i < |ys| ==> ys[i] in f && f[ys[i]] == m[i][j].weight
    ensures ColumnTotal(m, j) == SumOf(f)
  {
    var n := |m| - 1;
    if m == [] {
      assert f.Keys == {};
    } else {
      LastLabel(ys, f);
      ColumnTotalIsSum(m[..n], j, ys[..n], f - {ys[n]});
      SumWithout(f, ys[n]);
    }
  }

  /** The weight of the labels of a cell is that of the cell. */
  lemma WeightOfCell(m: Matrix, ys: seq<Label>, xs: seq<Label>, yNames: map<Label, int>, xNames: map<Label, int>, i: int, j: int)
    requires Labelled(m, ys, xs) && Indexes(yNames, ys) && Indexes(xNames, xs) && 0 <= i < |m| && 0 <= j < |m|
    ensures |ys| == |xs| == |m| == |m[i]|
    ensures At(WeightsOf(m, ys, xs, yNames, xNames), ys[i], xs[j]) == m[i][j].weight
  {
    CellLabels(m, ys, xs, i, j);
    WeightAt(m, ys, xs, yNames, xNames, ys[i], xs[j]);
    hide WeightsOf, RowLabelled, Distinct;
  }

  /** The sum of row `i` is the sum, over all labels, of the weights of its label and that label. */
  lemma RowTotalOfWeights(m: Matrix, ys: seq<Label>, xs: seq<Label>, yNames: map<Label, int>, xNames: map<Label, int>,
                          labels: set<Label>, i: int)
    requires Labelled(m, ys, xs) && Indexes(yNames, ys) && Indexes(xNames, xs) && labels == NameSet(xs)
    requires 0 <= i < |m| == |ys|
    ensures RowTotal(m[i]) == SumOf(RowOf(WeightsOf(m, ys, xs, yNames, xNames), labels, ys[i]))
  {
    var w := WeightsOf(m, ys, xs, yNames, xNames);
    SquareRow(m, ys, xs, i);
    forall j | 0 <= j < |xs| ensures xs[j] in labels && At(w, ys[i], xs[j]) == m[i][j].weight {
      WeightOfCell(m, ys, xs, yNames, xNames, i, j);
    }
    hide WeightsOf, RowLabelled, At;
    RowTotalIsSum(m[i], xs, RowOf(w, labels, ys[i]));
  }

  lemma ColumnTotalOfWeights(m: Matrix, ys: seq<Label>, xs: seq<Label>, yNames: map<Label, int>, xNames: map<Label, int>,
                             labels: set<Label>, j: int)
    requires Labelled(m, ys, xs) && Indexes(yNames, ys) && Indexes(xNames, xs) && labels == NameSet(ys)
    requires 0 <= j < |m| == |xs| && forall i :: 0 <= i < |m| ==> j < |m[i]|
    ensures ColumnTotal(m, j) == SumOf(ColumnOf(WeightsOf(m, ys, xs, yNames, xNames), labels, xs[j]))
  {
    var w := WeightsOf(m, ys, xs, yNames, xNames);
    forall i | 0 <= i < |ys| ensures ys[i] in labels && At(w, ys[i], xs[j]) == m[i][j].weight {
      WeightOfCell(m, ys, xs, yNames, xNames, i, j);
    }
    hide WeightsOf, RowLabelled, At;
    ColumnTotalIsSum(m, j, ys, ColumnOf(w, labels, xs[j]));
  }

  /** A matrix whose totals descend is in descending order of the sums of its labels. */
  ghost predicate SortedByWeights(w: Weights, labels: set<Label>, ys: seq<Label>, xs: seq<Label>) {
    && (forall i, j :: 0 <= i < j < |ys| ==> SumOf(RowOf(w, labels, ys[i])) >= SumOf(RowOf(w, labels, ys[j])))
    && (forall i, j :: 0 <= i < j < |xs| ==> SumOf(ColumnOf(w, labels, xs[i])) >= SumOf(ColumnOf(w, labels, xs[j])))
  }

  lemma DescendingWeights(m: Matrix, ys: seq<Label>, xs: seq<Label>, yNames: map<Label, int>, xNames: map<Label, int>,
                          labels: set<Label>)
    requires Labelled(m, ys, xs) && Indexes(yNames, ys) && Indexes(xNames, xs) && labels == NameSet(xs) == NameSet(ys)
    requires Square(m) && Descending(RowTotals(m)) && Descending(ColumnTotals(m))
    ensures SortedByWeights(WeightsOf(m, ys, xs, yNames, xNames), labels, ys, xs)
  {
    hide RowLabelled, Indexes, WeightsOf, NameSet, Distinct, RowTotal, ColumnTotal, RowOf, ColumnOf;
    var w := WeightsOf(m, ys, xs, yNames, xNames);
    forall i | 0 <= i < |ys| ensures RowTotals(m)[i] == SumOf(RowOf(w, labels, ys[i])) {
      RowTotalOfWeights(m, ys, xs, yNames, xNames, labels, i);
    }
    forall j | 0 <= j < |xs| ensures ColumnTotals(m)[j] == SumOf(ColumnOf(w, labels, xs[j])) {
      ColumnTotalOfWeights(m, ys, xs, yNames, xNames, labels, j);
    }
  }
  // ---------------------------------------------------------------------------
  // What adding two matrices label by label comes to.

  lemma {:induction false} SumOfSums(f: map<Label, real>, g: map<Label, real>, h: map<Label, real>)
    requires f.Keys == g.Keys == h.Keys && forall x :: x in h ==> h[x] == f[x] + g[x]
    ensures SumOf(h) == SumOf(f) + SumOf(g)
    decreases |h|
  {
    if h == map[] {
      assert f == map[] && g == map[];
    } else {
      var x := AnyOf(h);
      SumWithout(f, x);
      SumWithout(g, x);
      SumOfSums(f - {x}, g - {x}, h - {x});
    }
  }

  /** The weights of a sum of two matrices are determined by theirs, and so are its sums of rows and of columns: they
      are the sums of theirs. */
  lemma SumsAdd(s: Weights, a: Weights, b: Weights, labels: set<Label>, name: Label)
    requires IsSum(s, a, b, labels) && name in labels
    ensures forall t :: IsSum(t, a, b, labels) ==> t == s
    ensures SumOf(RowOf(s, labels, name)) == SumOf(RowOf(a, labels, name)) + SumOf(RowOf(b, labels, name))
    ensures SumOf(ColumnOf(s, labels, name)) == SumOf(ColumnOf(a, labels, name)) + SumOf(ColumnOf(b, labels, name))
  {
    forall t | IsSum(t, a, b, labels) ensures t == s { SumIsUnique(s, t, a, b, labels); }
    SumOfSums(RowOf(a, labels, name), RowOf(b, labels, name), RowOf(s, labels, name));
    SumOfSums(ColumnOf(a, labels, name), ColumnOf(b, labels, name), ColumnOf(s, labels, name));
  }

  lemma SumIsUnique(s: Weights, t: Weights, a: Weights, b: Weights, labels: set<Label>)
    requires IsSum(s, a, b, labels) && IsSum(t, a, b, labels)
    ensures t == s
  {
    forall y, x | y in s && x in s[y] ensures t[y][x] == s[y][x] {
      assert At(t, y, x) == At(s, y, x);
    }
    SameWeights(s, t);
  }
}
