/** `AdjacencyMatrix` of common/adjacency-matrix.cpp: the class and its methods. */
module AdjacencyMatrix {
  import opened LabelSums
  import opened LabelledMatrix

  /** Stands for `std::sort` with the row-sum comparison: some order of the rows, sums descending. */
  method StdSort(rows: Matrix) returns (order: seq<int>)
    ensures Permutation(order, |rows|)
    ensures forall i, j :: 0 <= i < j < |rows| ==> RowTotal(rows[order[i]]) >= RowTotal(rows[order[j]])
  {
    hide RowTotal;
    order := [];
    for k := 0 to |rows|
      invariant Permutation(order, k)
      invariant forall i, j :: 0 <= i < j < k ==> RowTotal(rows[order[i]]) >= RowTotal(rows[order[j]])
    {
      var p := 0;
      while p < k && RowTotal(rows[order[p]]) >= RowTotal(rows[k])
        invariant 0 <= p <= k
        invariant forall i :: 0 <= i < p ==> RowTotal(rows[order[i]]) >= RowTotal(rows[k])
      {
        p := p + 1;
      }
      InsertPermutation(order, k, p);
      order := order[..p] + [k] + order[p..];
    }
  }

  lemma InsertPermutation(order: seq<int>, n: nat, p: int)
    requires Permutation(order, n) && 0 <= p <= n
    ensures Permutation(order[..p] + [n] + order[p..], n + 1)
  {
    var more := order[..p] + [n] + order[p..];
    forall k | 0 <= k < n + 1 ensures k in more {
      if k == n {
        assert more[p] == n;
      } else {
        assert k in order;
        var i :| 0 <= i < n && order[i] == k;
        assert more[if i < p then i else i + 1] == k;
      }
    }
  }

  lemma LabelledIndexes(m: Matrix, ys: seq<Label>, xs: seq<Label>, yNames: map<Label, int>, xNames: map<Label, int>)
    requires Labelled(m, ys, xs) && Indexes(yNames, ys) && Indexes(xNames, xs)
    ensures (forall y :: y in yNames ==> yNames[y] != -1) && (forall x :: x in xNames ==> xNames[x] != -1)
  {
  }

  lemma CellUpdateSize(m: Matrix, i: int, j: int, weight: real)
    requires 0 <= i < |m| && 0 <= j < |m[i]|
    ensures |SetCell(m, i, j, weight)| == |m|
  {
  }

  lemma OverSame(w: Weights, labels: set<Label>, r: Weights, rLabels: set<Label>)
    requires Over(w, labels) && Over(r, rLabels)
    ensures w == r ==> labels == rLabels
  {
  }

  lemma LabelledDistinct(m: Matrix, ys: seq<Label>, xs: seq<Label>)
    ensures Labelled(m, ys, xs) ==> Distinct(ys) && Distinct(xs) && |m| == |ys| == |xs|
  {
  }

  class AdjacencyMatrix {
    var size: int
    var matr: Matrix
    var vertexNames: seq<Label>
    var xNames: map<Label, int>
    var yNames: map<Label, int>
    ghost var ys: seq<Label>
    ghost var xs: seq<Label>

    /** Labels and both maps agree with the cells. */
    ghost predicate Valid()
      reads this
    {
      && size == |matr| == |vertexNames|
      && Labelled(matr, ys, xs) && Indexes(yNames, ys) && Indexes(xNames, xs)
      && Distinct(vertexNames) && NameSet(vertexNames) == xNames.Keys == yNames.Keys
    }

    ghost function Weights(): Weights
      requires Valid()
      reads this
    {
      WeightsOf(matr, ys, xs, yNames, xNames)
    }

    method SumRow(row: seq<Vertex>) returns (sum: real)
      ensures sum == RowTotal(row)
    {
      sum := 0.0;
      for k := 0 to |row|
        invariant sum == RowTotal(row[..k])
      {
        assert row[..k + 1][..k] == row[..k];
        sum := sum + row[k].weight;
      }
      assert row[..|row|] == row;
    }

    method SumColumn(j: int) returns (sum: real)
      requires size == |matr| && 0 <= j && forall i :: 0 <= i < |matr| ==> j < |matr[i]|
      ensures sum == ColumnTotal(matr, j)
    {
      sum := 0.0;
      for i := 0 to size
        invariant sum == ColumnTotal(matr[..i], j)
      {
        assert matr[..i + 1][..i] == matr[..i];
        sum := sum + matr[i][j].weight;
      }
      assert matr[..size] == matr;
    }

    /** Refills the row index from the first cell of every row. */
    method RebuildRowIndex()
      requires size == |matr| && Labelled(matr, ys, xs)
      modifies this`yNames
      ensures Indexes(yNames, ys)
    {
      yNames := map[];
      for i := 0 to size
        invariant Indexes(yNames, ys[..i])
      {
        assert RowLabelled(matr[i], ys[i], xs);
        yNames := yNames[matr[i][0].y := i];
        assert ys[..i + 1] == ys[..i] + [ys[i]];
      }
      assert ys[..size] == ys;
    }

    method RebuildColumnIndex()
      requires size == |matr| && Labelled(matr, ys, xs)
      modifies this`xNames
      ensures Indexes(xNames, xs)
    {
      xNames := map[];
      for j := 0 to size
        invariant Indexes(xNames, xs[..j])
      {
        assert RowLabelled(matr[0], ys[0], xs);
        xNames := xNames[matr[0][j].x := j];
        assert xs[..j + 1] == xs[..j] + [xs[j]];
      }
      assert xs[..size] == xs;
    }

    /** Rows by descending sums. */
    method SortRows()
      requires Valid()
      modifies this`matr, this`ys, this`yNames
      ensures Valid() && Weights() == old(Weights())
      ensures Descending(RowTotals(matr))
    {
      hide Distinct, RowLabelled, Permutation, Indexes, WeightsOf, RowTotal, ByOrder, NameSet;
      var order := StdSort(matr);
      ghost var m0, ys0, yNames0 := matr, ys, yNames;
      OrderedLabelled(m0, ys0, xs, order);
      matr, ys := ByOrder(matr, order), ByOrder(ys, order);
      RebuildRowIndex();
      OrderedWeights(m0, ys0, xs, order, yNames0, xNames, yNames);
    }

    /** Exchanges two columns in every row; used on neighbours only. */
    method SwapColumns(i: int, j: int)
      requires 0 <= i && j == i + 1 < size == |matr| && forall k :: 0 <= k < size ==> |matr[k]| == size
      modifies this`matr
      ensures matr == SwapColumnsAt(old(matr), i)
    {
      for k := 0 to size
        invariant |matr| == size
        invariant forall r :: 0 <= r < size ==> matr[r] == if r < k then SwapAt(old(matr)[r], i) else old(matr)[r]
      {
        matr := matr[k := matr[k][i := matr[k][j]][j := matr[k][i]]];
      }
    }

    /** The swapping passes of the bubble sort.  Each swap removes one inversion of the column sums. */
    method BubbleColumns() returns (ghost cols: seq<int>)
      requires size == |matr| && Labelled(matr, ys, xs)
      modifies this`matr, this`xs
      ensures Permutation(cols, size) && |matr| == size
      ensures Rearranged(old(matr), ys, old(xs), matr, ys, xs, Identity(size), cols)
      ensures Square(matr) && Descending(ColumnTotals(matr)) && RowTotals(matr) == RowTotals(old(matr))
    {
      hide Distinct, RowLabelled, Permutation, Rearranged, RowTotal, ColumnTotal, Inversions, SwapColumnsAt, SwapAt;
      ghost var m0, xs0 := matr, xs;
      cols := Identity(|matr|);
      NothingRearranged(matr, ys, xs);
      Places(matr, ys, xs);
      var sorted := false;
      while !sorted
        invariant size == |matr| && Square(matr)
        invariant Permutation(cols, size) && Rearranged(m0, ys, xs0, matr, ys, xs, Identity(size), cols)
        invariant RowTotals(matr) == RowTotals(m0)
        invariant sorted ==> forall k :: 0 <= k < size - 1 ==> ColumnTotals(matr)[k] >= ColumnTotals(matr)[k + 1]
        decreases Inversions(ColumnTotals(matr)), !sorted
        modifies this`matr, this`xs
      {
        sorted := true;
        ghost var before := Inversions(ColumnTotals(matr));
        var i := 0;
        while i < size - 1
          invariant size == |matr| && Square(matr) && 0 <= i && (i <= size - 1 || i == 0)
          invariant Permutation(cols, size) && Rearranged(m0, ys, xs0, matr, ys, xs, Identity(size), cols)
          invariant RowTotals(matr) == RowTotals(m0)
          invariant if sorted then Inversions(ColumnTotals(matr)) == before else Inversions(ColumnTotals(matr)) < before
          invariant sorted ==> forall k :: 0 <= k < i ==> ColumnTotals(matr)[k] >= ColumnTotals(matr)[k + 1]
        {
          var left := SumColumn(i);
          var right := SumColumn(i + 1);
          if left < right {
            SwapRearranged(m0, ys, xs0, matr, ys, xs, Identity(size), cols, i);
            TotalsAfterSwap(matr, i);
            SwapRemovesInversion(ColumnTotals(matr), i);
            SwapColumns(i, i + 1);
            cols, xs := SwapAt(cols, i), SwapAt(xs, i);
            sorted := false;
          }
          i := i + 1;
        }
      }
      NeighboursDescending(ColumnTotals(matr));
    }

    /** Columns by descending sums; the order of the rows and their sums stay. */
    method SortColumns()
      requires Valid()
      modifies this`matr, this`xs, this`xNames
      ensures Valid() && Weights() == old(Weights())
      ensures Square(matr) && Descending(ColumnTotals(matr)) && RowTotals(matr) == old(RowTotals(matr))
    {
      hide Distinct, RowLabelled, Permutation, Indexes, Rearranged, WeightsOf, NameSet, Square;
      ghost var m0, xs0, xNames0 := matr, xs, xNames;
      ghost var cols := BubbleColumns();
      RearrangedLabelled(m0, ys, xs0, matr, ys, xs, Identity(size), cols);
      RebuildColumnIndex();
      RearrangedWeights(m0, ys, xs0, matr, ys, xs, Identity(size), cols, yNames, xNames0, yNames, xNames);
    }

    /** Rows, then columns, by descending sums; every label pair keeps its weight. */
    method Sort()
      requires Valid()
      modifies this`matr, this`xs, this`ys, this`xNames, this`yNames
      ensures Valid() && Weights() == old(Weights())
      ensures Square(matr) && Descending(RowTotals(matr)) && Descending(ColumnTotals(matr))
      ensures SortedByWeights(Weights(), NameSet(vertexNames), ys, xs)
    {
      hide Labelled, Indexes, WeightsOf, NameSet, Distinct, Square, Descending, RowTotals, ColumnTotals, SortedByWeights;
      SortRows();
      SortColumns();
      SortedWeights();
    }

    /** Sums of rows and columns are sums of weights of label pairs, so the labels are in the order of those. */
    lemma SortedWeights()
      requires Valid() && Square(matr) && Descending(RowTotals(matr)) && Descending(ColumnTotals(matr))
      ensures SortedByWeights(Weights(), NameSet(vertexNames), ys, xs)
    {
      ValidFacts();
      hide Labelled, Indexes, WeightsOf, NameSet, Distinct, Square, Descending, RowTotals, ColumnTotals, SortedByWeights;
      DescendingWeights(matr, ys, xs, yNames, xNames, NameSet(vertexNames));
    }

    /** Builds the matrix over `names`.  `clear` keeps both maps, so what they held before stays in them;
        `ok` is the verdict of the two assertions at the end. */
    method Init(names: seq<Label>) returns (ok: bool)
      modifies this
      ensures Valid() <==> Distinct(names) && old(xNames.Keys) <= NameSet(names) && old(yNames.Keys) <= NameSet(names)
      ensures Valid() ==> ok && vertexNames == names && Weights() == ZeroWeights(NameSet(names))
    {
      hide *;
      FillCells(names);
      EnterColumns(names);
      EnterRows(names);
      ys, xs := names, names;
      ok := |xNames| == |yNames| && |vertexNames| == |xNames|;
      ValidIffIndexed(names, old(xNames), old(yNames));
      if Valid() { FreshWeights(names); }
    }

    /** The loop that fills the map of the columns. */
    method EnterColumns(names: seq<Label>)
      requires ZeroMatrix(matr, names) && size == |names| && forall i :: 0 <= i < size ==> |matr[i]| == size
      modifies this`xNames
      ensures Entered(old(xNames), xNames, names, |names|)
    {
      hide Distinct, NameSet, Entered, ZeroRow;
      EnterNone(xNames, names);
      for j := 0 to size
        invariant Entered(old(xNames), xNames, names, j)
      {
        ZeroCell(matr, names, 0, j);
        EnterNext(old(xNames), xNames, names, j);
        xNames := xNames[matr[0][j].x := j];
      }
    }

    method EnterRows(names: seq<Label>)
      requires ZeroMatrix(matr, names) && size == |names| && forall i :: 0 <= i < size ==> |matr[i]| == size
      modifies this`yNames
      ensures Entered(old(yNames), yNames, names, |names|)
    {
      hide Distinct, NameSet, Entered, ZeroRow;
      EnterNone(yNames, names);
      for i := 0 to size
        invariant Entered(old(yNames), yNames, names, i)
      {
        ZeroCell(matr, names, i, 0);
        EnterNext(old(yNames), yNames, names, i);
        yNames := yNames[matr[i][0].y := i];
      }
    }

    /** After the loops of `init` the matrix is coherent exactly if the names are and no others were known. */
    lemma ValidIffIndexed(names: seq<Label>, xMap: map<Label, int>, yMap: map<Label, int>)
      requires ZeroMatrix(matr, names) && size == |names| && vertexNames == ys == xs == names
      requires Entered(xMap, xNames, names, |names|) && Entered(yMap, yNames, names, |names|)
      ensures Valid() <==> Distinct(names) && xMap.Keys <= NameSet(names) && yMap.Keys <= NameSet(names)
    {
      hide Distinct, NameSet, Labelled, Indexes, Entered, ZeroRow;
      EnteredAll(xMap, xNames, names);
      EnteredAll(yMap, yNames, names);
      LabelledDistinct(matr, ys, xs);
      if Distinct(names) { ZeroLabelled(matr, names); }
    }

    lemma FreshWeights(names: seq<Label>)
      requires Valid() && ZeroMatrix(matr, names) && ys == xs == vertexNames == names
      ensures |xNames| == |yNames| == |vertexNames| && Weights() == ZeroWeights(NameSet(names))
    {
      hide Distinct, NameSet, Labelled, Indexes, ZeroMatrix, ZeroWeights, WeightsOf;
      NameSetSize(names);
      assert |xNames| == |xNames.Keys| && |yNames| == |yNames.Keys|;
      ZeroMatrixWeights(matr, names, yNames, xNames);
    }

    /** `clear` followed by the two nested loops that create the cells. */
    method FillCells(names: seq<Label>)
      modifies this`matr, this`size, this`vertexNames
      ensures ZeroMatrix(matr, names) && size == |names| && vertexNames == names
      ensures forall i :: 0 <= i < size ==> |matr[i]| == size
    {
      matr, size, vertexNames := [], 0, [];
      size := |names|;
      vertexNames := names;
      for i := 0 to size
        invariant |matr| == i && size == |names| && vertexNames == names
        invariant forall a :: 0 <= a < i ==> ZeroRow(matr[a], names[a], names)
      {
        var row: seq<Vertex> := [];
        for j := 0 to size
          invariant |row| == j && forall b :: 0 <= b < j ==> row[b] == Vertex(names[i], names[b], 0.0)
        {
          row := row + [Vertex(vertexNames[i], vertexNames[j], 0.0)];
        }
        matr := matr + [row];
      }
    }

    /** `find_y_index` and `find_x_index`: -1 for an unknown label. */
    method FindYIndex(y: Label) returns (i: int)
      ensures i == if y in yNames then yNames[y] else -1
    {
      if y in yNames { i := yNames[y]; } else { i := -1; }
    }

    method FindXIndex(x: Label) returns (j: int)
      ensures j == if x in xNames then xNames[x] else -1
    {
      if x in xNames { j := xNames[x]; } else { j := -1; }
    }

    /** `find_element`: where the cell of a label pair is, or no place at all. */
    method FindElement(y: Label, x: Label) returns (found: bool, i: int, j: int)
      requires Valid()
      ensures found <==> Known(Weights(), y, x)
      ensures found ==> 0 <= i < |matr| && 0 <= j < |matr[i]| && i == yNames[y] && j == xNames[x]
      ensures found ==> matr[i][j].weight == At(Weights(), y, x)
    {
      WeightAt(matr, ys, xs, yNames, xNames, y, x);
      LabelledIndexes(matr, ys, xs, yNames, xNames);
      hide Labelled, Indexes, WeightsOf, Distinct, NameSet, At, Put;
      i := FindYIndex(y);
      j := FindXIndex(x);
      found := i != -1 && j != -1;
    }

    /** Assigning through `operator()`: refused for unknown labels. */
    method SetWeight(y: Label, x: Label, weight: real) returns (found: bool)
      requires Valid()
      modifies this`matr
      ensures Valid()
      ensures found <==> Known(old(Weights()), y, x)
      ensures Weights() == if found then Put(old(Weights()), y, x, weight) else old(Weights())
    {
      hide Labelled, Indexes, WeightsOf, Distinct, NameSet, At, Put;
      var i, j;
      found, i, j := FindElement(y, x);
      if found {
        WeightAt(matr, ys, xs, yNames, xNames, y, x);
        CellUpdate(matr, ys, xs, yNames, xNames, y, x, weight);
        CellUpdateSize(matr, i, j, weight);
        matr := SetCell(matr, i, j, weight);
      }
    }

    lemma ValidFacts()
      requires Valid()
      ensures |vertexNames| == size == |matr| == |ys| == |xs|
      ensures NameSet(vertexNames) == NameSet(ys) == NameSet(xs) == yNames.Keys == xNames.Keys
      ensures |NameSet(vertexNames)| == size
      ensures Over(Weights(), NameSet(vertexNames))
    {
      hide RowLabelled, Distinct, Indexes, NameSet, Over, WeightsOf;
      IndexedNames(yNames, ys);
      IndexedNames(xNames, xs);
      NameSetSize(vertexNames);
      WeightsOver(matr, ys, xs, yNames, xNames, NameSet(vertexNames));
    }

    lemma CellFacts(i: int, j: int)
      requires Valid() && 0 <= i < size && 0 <= j < size
      ensures |ys| == |xs| == |matr| == size && |matr[i]| == size
      ensures matr[i][j].y == ys[i] && matr[i][j].x == xs[j]
      ensures Known(Weights(), ys[i], xs[j]) && At(Weights(), ys[i], xs[j]) == matr[i][j].weight
    {
      CellLabels(matr, ys, xs, i, j);
      WeightAt(matr, ys, xs, yNames, xNames, ys[i], xs[j]);
      hide RowLabelled, Distinct, WeightsOf;
    }

    /** `operator==`: the same weight for every pair of labels, however either side is sorted. */
    method Equals(rhs: AdjacencyMatrix) returns (same: bool)
      requires Valid() && rhs.Valid()
      ensures same <==> Weights() == rhs.Weights()
    {
      hide *;
      ValidFacts();
      rhs.ValidFacts();
      rhs.ValidIndexes();
      OverSame(Weights(), NameSet(vertexNames), rhs.Weights(), NameSet(rhs.vertexNames));
      if |matr| != |rhs.matr| {
        return false;
      }
      AgreeNone(Weights(), rhs.Weights(), rhs.ys, rhs.xs, rhs.yNames, rhs.xNames);
      for a := 0 to rhs.size
        invariant Agree(Weights(), rhs.Weights(), rhs.yNames, rhs.xNames, a, 0)
      {
        same := RowEquals(rhs, a);
        if !same {
          DifferNotSame(Weights(), rhs.Weights());
          return false;
        }
      }
      AgreeAll(Weights(), rhs.Weights(), NameSet(vertexNames), NameSet(rhs.vertexNames),
               rhs.ys, rhs.xs, rhs.yNames, rhs.xNames);
      same := true;
    }

    /** The inner loop of `operator==`: row `a` of the other matrix. */
    method RowEquals(rhs: AdjacencyMatrix, a: int) returns (same: bool)
      requires Valid() && rhs.Valid() && 0 <= a < rhs.size
      requires Agree(Weights(), rhs.Weights(), rhs.yNames, rhs.xNames, a, 0)
      ensures same ==> Agree(Weights(), rhs.Weights(), rhs.yNames, rhs.xNames, a + 1, 0)
      ensures !same ==> Differ(Weights(), rhs.Weights())
    {
      rhs.ValidIndexes();
      hide Valid, Weights, Labelled, Indexes, WeightsOf, Distinct, NameSet, Over, Agree, At, Known, Differ;
      for b := 0 to rhs.size
        invariant Agree(Weights(), rhs.Weights(), rhs.yNames, rhs.xNames, a, b)
      {
        rhs.CellFacts(a, b);
        var v := rhs.matr[a][b];
        var found, i, j := FindElement(v.y, v.x);
        if !found {
          DifferAt(Weights(), rhs.Weights(), v.y, v.x);
          return false;
        }
        if matr[i][j].weight != v.weight {
          DifferAt(Weights(), rhs.Weights(), v.y, v.x);
          return false;
        }
        AgreeCell(Weights(), rhs.Weights(), rhs.ys, rhs.xs, rhs.yNames, rhs.xNames, a, b);
      }
      AgreeRow(Weights(), rhs.Weights(), rhs.ys, rhs.xs, rhs.yNames, rhs.xNames, a);
      same := true;
    }

    lemma KnownNames(y: Label, x: Label)
      requires Valid()
      ensures Known(Weights(), y, x) <==> y in NameSet(vertexNames) && x in NameSet(vertexNames)
    {
      ValidFacts();
      OverMember(Weights(), NameSet(vertexNames), y, x);
    }

    lemma ValidIndexes()
      requires Valid()
      ensures Indexes(yNames, ys) && Indexes(xNames, xs) && |ys| == |xs| == |matr| == size == |vertexNames|
    {
    }

    /** `find_element(y, x).edge_weight += delta`. */
    method AddWeight(y: Label, x: Label, delta: real) returns (found: bool)
      requires Valid()
      modifies this`matr
      ensures Valid()
      ensures found <==> Known(old(Weights()), y, x)
      ensures found ==> Weights() == Put(old(Weights()), y, x, At(old(Weights()), y, x) + delta)
      ensures !found ==> matr == old(matr)
    {
      hide Labelled, Indexes, WeightsOf, Distinct, NameSet, At, Put;
      var i, j;
      found, i, j := FindElement(y, x);
      if found {
        found := SetWeight(y, x, matr[i][j].weight + delta);
      }
    }

    /** How far `operator+=` has got when it comes to cell (a, b) of the other matrix. */
    ghost predicate Adding(rhs: AdjacencyMatrix, a: int, b: int, before: Weights, r: Weights)
      reads this, rhs
    {
      && Valid() && rhs.Valid()
      && PartlyAdded(Weights(), before, r, NameSet(vertexNames), rhs.yNames, rhs.xNames, a, b)
      && (if rhs == this then before == r else rhs.Weights() == r)
    }

    /** The body of its loops: one cell. */
    method AddCellOf(rhs: AdjacencyMatrix, a: int, b: int, ghost before: Weights, ghost r: Weights) returns (ok: bool)
      requires Adding(rhs, a, b, before, r) && 0 <= a < rhs.size && 0 <= b < rhs.size
      modifies this`matr
      ensures Valid()
      ensures ok ==> Adding(rhs, a, b + 1, before, r) && rhs.RowName(a) in NameSet(vertexNames)
      ensures !ok ==> NameSet(vertexNames) != NameSet(rhs.vertexNames)
    {
      hide *;
      AddingParts(rhs, a, b, before, r);
      rhs.ValidIndexes();
      rhs.CellFacts(a, b);
      ghost var y, x, w, labels := rhs.ys[a], rhs.xs[b], Weights(), NameSet(vertexNames);
      KnownNames(y, x);
      rhs.KnownNames(y, x);
      var v := rhs.matr[a][b];
      if y in labels && x in labels {
        NotYetAdded(w, before, r, labels, rhs.ys, rhs.xs, rhs.yNames, rhs.xNames, a, b);
      }
      ok := AddWeight(v.y, v.x, v.weight);
      if ok {
        AddCell(w, before, r, labels, rhs.ys, rhs.xs, rhs.yNames, rhs.xNames, a, b, y, x, Weights());
        AddingAt(rhs, a, b + 1, before, r);
        rhs.RowNameIs(a);
      }
    }

    lemma AddingParts(rhs: AdjacencyMatrix, a: int, b: int, before: Weights, r: Weights)
      requires Adding(rhs, a, b, before, r)
      ensures Valid() && rhs.Valid()
      ensures PartlyAdded(Weights(), before, r, NameSet(vertexNames), rhs.yNames, rhs.xNames, a, b)
      ensures if rhs == this then before == r else rhs.Weights() == r
    {
    }

    lemma AddingAt(rhs: AdjacencyMatrix, a: int, b: int, before: Weights, r: Weights)
      requires Valid() && rhs.Valid()
      requires PartlyAdded(Weights(), before, r, NameSet(vertexNames), rhs.yNames, rhs.xNames, a, b)
      requires if rhs == this then before == r else rhs.Weights() == r
      ensures Adding(rhs, a, b, before, r)
    {
    }

    ghost function RowName(a: int): Label
      requires Valid() && 0 <= a < size
      reads this
    {
      ys[a]
    }

    lemma RowNameIs(a: int)
      requires Valid() && 0 <= a < size
      ensures 0 <= a < |ys| && RowName(a) == ys[a]
    {
    }

    /** The inner loop of `operator+=`: row `a` of the other matrix. */
    method AddRowOf(rhs: AdjacencyMatrix, a: int, ghost before: Weights, ghost r: Weights) returns (ok: bool)
      requires 0 <= a && rhs.Valid() && a < rhs.size && Adding(rhs, a, 0, before, r) && RowNamesKnown(rhs, a)
      modifies this`matr
      ensures Valid()
      ensures ok ==> Adding(rhs, a + 1, 0, before, r) && RowNamesKnown(rhs, a + 1)
      ensures !ok ==> NameSet(vertexNames) != NameSet(rhs.vertexNames)
    {
      hide *;
      for b := 0 to rhs.size
        invariant Adding(rhs, a, b, before, r)
        invariant b > 0 ==> rhs.Valid() && rhs.RowName(a) in NameSet(vertexNames)
        modifies this`matr
      {
        AddingParts(rhs, a, b, before, r);
        ok := AddCellOf(rhs, a, b, before, r);
        if !ok { return false; }
      }
      AddingParts(rhs, a, rhs.size, before, r);
      AddingNextRow(rhs, a, before, r);
      ok := true;
    }

    /** The outer loop, over matrices of the same size. */
    method AddCells(rhs: AdjacencyMatrix, ghost before: Weights, ghost r: Weights) returns (ok: bool)
      requires Valid() && rhs.Valid() && size == rhs.size && before == Weights() && r == rhs.Weights()
      modifies this`matr
      ensures Valid()
      ensures ok ==> NameSet(vertexNames) == NameSet(rhs.vertexNames) && IsSum(Weights(), before, r, NameSet(rhs.vertexNames))
      ensures !ok ==> NameSet(vertexNames) != NameSet(rhs.vertexNames)
    {
      hide *;
      OverFacts();
      rhs.OverFacts();
      rhs.ValidIndexes();
      AddingNone(rhs, before, r);
      for a := 0 to rhs.size
        invariant Adding(rhs, a, 0, before, r)
        invariant RowNamesKnown(rhs, a)
        modifies this`matr
      {
        AddingParts(rhs, a, 0, before, r);
        ok := AddRowOf(rhs, a, before, r);
        if !ok { return false; }
      }
      AddingParts(rhs, rhs.size, 0, before, r);
      AddedEverything(rhs, before, r);
      ok := true;
    }

    /** `operator+=`: adds the other matrix label by label.  An empty matrix first takes over the labels of
        the other one; otherwise a label that is not known here is an error, found when its cell is met. */
    method AddAll(rhs: AdjacencyMatrix) returns (ok: bool)
      requires Valid() && rhs.Valid()
      modifies this
      ensures Valid()
      ensures ok <==> old(size) == 0 || NameSet(old(vertexNames)) == NameSet(old(rhs.vertexNames))
      ensures ok ==>
        IsSum(Weights(), if old(size) == 0 then ZeroWeights(NameSet(old(rhs.vertexNames))) else old(Weights()),
              old(rhs.Weights()), NameSet(old(rhs.vertexNames)))
      ensures !ok ==> NameSet(vertexNames) == NameSet(old(vertexNames))
    {
      hide *;
      TakeOver(rhs);
      ValidIndexes();
      rhs.ValidIndexes();
      if |matr| != |rhs.matr| {
        DifferentSizes(rhs);
        return false;
      }
      ok := AddCells(rhs, Weights(), rhs.Weights());
    }

    /** The first test of `operator+=`. */
    method TakeOver(rhs: AdjacencyMatrix)
      requires Valid() && rhs.Valid()
      modifies this
      ensures Valid() && rhs.Valid() && rhs.Weights() == old(rhs.Weights()) && rhs.vertexNames == old(rhs.vertexNames)
      ensures if old(size) == 0
        then NameSet(vertexNames) == NameSet(rhs.vertexNames) && Weights() == ZeroWeights(NameSet(rhs.vertexNames))
        else Weights() == old(Weights()) && NameSet(vertexNames) == NameSet(old(vertexNames))
    {
      hide *;
      ValidIndexes();
      rhs.DistinctNames();
      if |matr| == 0 {
        EmptyFacts();
        var ok := Init(rhs.vertexNames);
        ValidIndexes();
        if rhs == this { EmptyFacts(); }
      }
    }

    lemma DistinctNames()
      requires Valid()
      ensures Distinct(vertexNames)
    {
    }

    lemma EmptyFacts()
      requires Valid() && |matr| == 0
      ensures size == 0 && vertexNames == [] && xNames.Keys == {} && yNames.Keys == {} && Weights() == map[]
      ensures ZeroWeights(NameSet(vertexNames)) == map[]
    {
      ValidFacts();
      assert NameSet([]) == {};
      assert Weights().Keys == {};
    }

    lemma OverFacts()
      requires Valid()
      ensures Over(Weights(), NameSet(vertexNames))
    {
      ValidFacts();
    }

    ghost predicate RowNamesKnown(rhs: AdjacencyMatrix, n: int)
      reads this`vertexNames, rhs`ys
    {
      n <= |rhs.ys| && forall i :: 0 <= i < n ==> rhs.ys[i] in NameSet(vertexNames)
    }

    lemma DifferentSizes(rhs: AdjacencyMatrix)
      requires Valid() && rhs.Valid() && |matr| != |rhs.matr|
      ensures NameSet(vertexNames) != NameSet(rhs.vertexNames) && size == |matr|
    {
      ValidFacts();
      rhs.ValidFacts();
    }

    lemma AddingNone(rhs: AdjacencyMatrix, before: Weights, r: Weights)
      requires Valid() && rhs.Valid() && before == Weights() && r == rhs.Weights()
      ensures Adding(rhs, 0, 0, before, r) && RowNamesKnown(rhs, 0)
    {
      ValidFacts();
      rhs.ValidIndexes();
      hide Labelled, Indexes, WeightsOf, Distinct, NameSet, Over, PartlyAdded;
      AddNone(before, r, NameSet(vertexNames), rhs.ys, rhs.xs, rhs.yNames, rhs.xNames);
    }

    lemma AddingNextRow(rhs: AdjacencyMatrix, a: int, before: Weights, r: Weights)
      requires 0 <= a && rhs.Valid() && a < rhs.size && Adding(rhs, a, rhs.size, before, r) && RowNamesKnown(rhs, a)
      requires rhs.RowName(a) in NameSet(vertexNames)
      ensures Adding(rhs, a + 1, 0, before, r) && RowNamesKnown(rhs, a + 1)
    {
      hide *;
      AddingParts(rhs, a, rhs.size, before, r);
      rhs.ValidIndexes();
      AddRow(Weights(), before, r, NameSet(vertexNames), rhs.ys, rhs.xs, rhs.yNames, rhs.xNames, a);
      AddingAt(rhs, a + 1, 0, before, r);
      rhs.RowNameIs(a);
      RowNamesMore(rhs, a);
    }

    lemma RowNamesMore(rhs: AdjacencyMatrix, a: int)
      requires 0 <= a < |rhs.ys| && RowNamesKnown(rhs, a) && rhs.ys[a] in NameSet(vertexNames)
      ensures RowNamesKnown(rhs, a + 1)
    {
      hide NameSet;
    }

    lemma AddedEverything(rhs: AdjacencyMatrix, before: Weights, r: Weights)
      requires rhs.Valid() && Adding(rhs, rhs.size, 0, before, r) && RowNamesKnown(rhs, rhs.size)
      requires size == rhs.size && Over(before, NameSet(vertexNames)) && Over(r, NameSet(rhs.vertexNames))
      ensures NameSet(vertexNames) == NameSet(rhs.vertexNames)
      ensures IsSum(Weights(), before, r, NameSet(rhs.vertexNames))
    {
      ValidFacts();
      rhs.ValidFacts();
      rhs.ValidIndexes();
      hide Labelled, Indexes, WeightsOf, Distinct, NameSet, Over, PartlyAdded;
      AllNamesKnown(NameSet(vertexNames), rhs.ys, rhs.yNames);
      AddedAll(Weights(), before, r, NameSet(vertexNames), rhs.ys, rhs.xs, rhs.yNames, rhs.xNames);
    }
  }
}
