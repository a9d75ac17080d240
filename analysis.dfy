/**
  The Analysis page: for each numeric column of the current dataset, the
  mean, median, minimum, maximum and spread of the preview values that
  `parseFloat` can read, over exact reals.
 */
module Analysis {
  import opened Common
  import opened DataModel
  import opened DatasetStore

  function Sum(xs: seq<real>): real
  {
    if xs == [] then 0.0 else Sum(xs[..|xs| - 1]) + xs[|xs| - 1]
  }

  function Mean(xs: seq<real>): real
    requires xs != []
  {
    Sum(xs) / (|xs| as real)
  }

  /** `Math.min(...xs)`. */
  function MinOf(xs: seq<real>): (m: real)
    requires xs != []
    ensures m in xs
    ensures forall i :: 0 <= i < |xs| ==> m <= xs[i]
  {
    if |xs| == 1 then xs[0]
    else
      var rest := MinOf(xs[..|xs| - 1]);
      if xs[|xs| - 1] < rest then xs[|xs| - 1] else rest
  }

  /** `Math.max(...xs)`. */
  function MaxOf(xs: seq<real>): (m: real)
    requires xs != []
    ensures m in xs
    ensures forall i :: 0 <= i < |xs| ==> xs[i] <= m
  {
    if |xs| == 1 then xs[0]
    else
      var rest := MaxOf(xs[..|xs| - 1]);
      if xs[|xs| - 1] > rest then xs[|xs| - 1] else rest
  }

  predicate Sorted(s: seq<real>)
  {
    forall i, j :: 0 <= i < j < |s| ==> s[i] <= s[j]
  }

  function Insert(x: real, s: seq<real>): (r: seq<real>)
    requires Sorted(s)
    ensures Sorted(r)
    ensures multiset(r) == multiset(s) + multiset{x}
  {
    if s == [] then [x]
    else if x <= s[0] then [x] + s
    else
      var rest := Insert(x, s[1..]);
      assert s == [s[0]] + s[1..];
      InsertedAbove(x, s, rest);
      SortedCons(s[0], rest);
      [s[0]] + rest
  }

  /** Whatever is inserted into the tail of a sorted list stays above its head, when the new value does. */
  lemma InsertedAbove(x: real, s: seq<real>, rest: seq<real>)
    requires Sorted(s) && s != [] && s[0] < x
    requires multiset(rest) == multiset(s[1..]) + multiset{x}
    ensures forall k :: 0 <= k < |rest| ==> s[0] <= rest[k]
  {
    forall k | 0 <= k < |rest| ensures s[0] <= rest[k] {
      assert rest[k] in multiset(rest);
      if rest[k] != x {
        assert rest[k] in multiset(s[1..]);
        var j :| 0 <= j < |s[1..]| && s[1..][j] == rest[k];
        assert s[j + 1] == rest[k];
      }
    }
  }

  lemma SortedCons(a: real, r: seq<real>)
    requires Sorted(r) && forall k :: 0 <= k < |r| ==> a <= r[k]
    ensures Sorted([a] + r)
  {
  }

  /** `[...xs].sort((a, b) => a - b)`: the same values in ascending order. */
  function SortAscending(xs: seq<real>): (r: seq<real>)
    ensures Sorted(r)
    ensures multiset(r) == multiset(xs)
  {
    if xs == [] then []
    else
      var init := xs[..|xs| - 1];
      assert xs == init + [xs[|xs| - 1]];
      Insert(xs[|xs| - 1], SortAscending(init))
  }

  /** The middle of a sorted list, or the average of the two middle values when their number is even. */
  function Median(sorted: seq<real>): real
    requires sorted != []
  {
    var mid := |sorted| / 2;
    if |sorted| % 2 == 0 then (sorted[mid - 1] + sorted[mid]) / 2.0 else sorted[mid]
  }

  lemma SquareNonNegative(d: real)
    ensures d * d >= 0.0
  {
    if d < 0.0 {
      assert d * d == (-d) * (-d);
    }
  }

  /** The sum of squared deviations from `m`, never negative. */
  function SquaredDeviations(xs: seq<real>, m: real): (r: real)
    ensures r >= 0.0
  {
    if xs == [] then 0.0
    else
      SquareNonNegative(xs[|xs| - 1] - m);
      SquaredDeviations(xs[..|xs| - 1], m) + (xs[|xs| - 1] - m) * (xs[|xs| - 1] - m)
  }

  /** The population variance: squared deviations from the mean, divided by their number. */
  function Variance(xs: seq<real>): (v: real)
    requires xs != []
    ensures v >= 0.0
  {
    SquaredDeviations(xs, Mean(xs)) / (|xs| as real)
  }

  /** A sorted arrangement of the values starts with their minimum and ends with their maximum. */
  lemma SortedEnds(xs: seq<real>, s: seq<real>)
    requires xs != [] && Sorted(s) && multiset(s) == multiset(xs)
    ensures |s| == |xs|
    ensures s[0] == MinOf(xs) && s[|s| - 1] == MaxOf(xs)
  {
    assert |s| == |multiset(s)| == |multiset(xs)| == |xs|;
    forall i | 0 <= i < |s| ensures s[i] in xs {
      assert s[i] in multiset(s);
    }
    forall i | 0 <= i < |xs| ensures xs[i] in s {
      assert xs[i] in multiset(xs);
    }
    var lo := MinOf(xs);
    assert lo in multiset(xs);
    var k :| 0 <= k < |s| && s[k] == lo;
    assert s[0] <= s[k];
    var hi := MaxOf(xs);
    assert hi in multiset(xs);
    var h :| 0 <= h < |s| && s[h] == hi;
    assert s[h] <= s[|s| - 1];
  }

  /** The median lies between the minimum and the maximum. */
  lemma MedianBetween(xs: seq<real>)
    requires xs != []
    ensures MinOf(xs) <= Median(SortAscending(xs)) <= MaxOf(xs)
  {
    var s := SortAscending(xs);
    SortedEnds(xs, s);
    SortedMedianBetween(s);
  }

  /** The median of sorted values lies between the first and the last. */
  lemma SortedMedianBetween(s: seq<real>)
    requires s != [] && Sorted(s)
    ensures s[0] <= Median(s) <= s[|s| - 1]
  {
    var mid := |s| / 2;
    assert s[0] <= s[mid] <= s[|s| - 1];
    if |s| % 2 == 0 {
      assert s[0] <= s[mid - 1] <= s[|s| - 1];
      HalfSumBetween(s[mid - 1], s[mid], s[0], s[|s| - 1]);
    }
  }

  lemma HalfSumBetween(a: real, b: real, lo: real, hi: real)
    requires lo <= a <= hi && lo <= b <= hi
    ensures lo <= (a + b) / 2.0 <= hi
  {
  }

  lemma {:induction false} SumBounds(xs: seq<real>, lo: real, hi: real)
    requires forall i :: 0 <= i < |xs| ==> lo <= xs[i] <= hi
    ensures (|xs| as real) * lo <= Sum(xs) <= (|xs| as real) * hi
  {
    if xs != [] {
      SumBounds(xs[..|xs| - 1], lo, hi);
    }
  }

  /** The mean lies between the minimum and the maximum. */
  lemma MeanBetween(xs: seq<real>)
    requires xs != []
    ensures MinOf(xs) <= Mean(xs) <= MaxOf(xs)
  {
    var lo, hi, n := MinOf(xs), MaxOf(xs), |xs| as real;
    var total := Sum(xs);
    assert n * lo <= total <= n * hi by {
      SumBounds(xs, lo, hi);
    }
    assert lo <= total / n <= hi by {
      QuotientBetween(total, n, lo, hi);
    }
    assert Mean(xs) == total / n;
  }

  /** Multiplying by a positive number keeps the sign. */
  lemma SignOfProduct(a: real, n: real)
    requires n > 0.0
    ensures a * n > 0.0 <==> a > 0.0
    ensures a * n < 0.0 <==> a < 0.0
  {
  }

  lemma QuotientBetween(s: real, n: real, lo: real, hi: real)
    requires n > 0.0 && n * lo <= s <= n * hi
    ensures lo <= s / n <= hi
  {
    var q := s / n;
    SignOfProduct(q - lo, n);
    SignOfProduct(hi - q, n);
    assert (q - lo) * n == s - lo * n;
    assert (hi - q) * n == hi * n - s;
  }

  lemma {:induction false} SquaredDeviationsOfConstant(xs: seq<real>, c: real)
    requires forall i :: 0 <= i < |xs| ==> xs[i] == c
    ensures SquaredDeviations(xs, c) == 0.0
  {
    if xs != [] {
      SquaredDeviationsOfConstant(xs[..|xs| - 1], c);
    }
  }

  lemma {:induction false} SumOfConstant(xs: seq<real>, c: real)
    requires forall i :: 0 <= i < |xs| ==> xs[i] == c
    ensures Sum(xs) == (|xs| as real) * c
  {
    if xs != [] {
      SumOfConstant(xs[..|xs| - 1], c);
    }
  }

  /** Equal values have themselves as mean and no spread. */
  lemma ConstantValues(xs: seq<real>)
    requires xs != []
    requires forall i :: 0 <= i < |xs| ==> xs[i] == xs[0]
    ensures Mean(xs) == xs[0]
    ensures Variance(xs) == 0.0
  {
    SumOfConstant(xs, xs[0]);
    SquaredDeviationsOfConstant(xs, xs[0]);
  }

  /** The five statistics of a column; `stdDev` is the square root of `variance`. */
  datatype Stats = Stats(mean: real, median: real, min: real, max: real, variance: real)

  /** One row of the results table; no statistics stands for the five `'N/A'` entries. */
  datatype AnalysisResult = AnalysisResult(column: string, stats: Option<Stats>)

  /** The test the `filter(v => !isNaN(v))` step applies to a row: its value of `column` parses. */
  function ParseIn(column: string): Row -> Option<real>
  {
    (row: Row) => ParseFloat(Lookup(row, column))
  }

  function ParsesIn(column: string): Row -> bool
  {
    (row: Row) => ParseFloat(Lookup(row, column)).Some?
  }

  /** The preview values of `column` that `parseFloat` reads, in row order; the rest are dropped. */
  function ParsedValues(rows: seq<Row>, column: string): (r: seq<real>)
    ensures |r| <= |rows|
    ensures r == [] <==> forall i :: 0 <= i < |rows| ==> ParseFloat(Lookup(rows[i], column)).None?
    ensures forall x :: x in r <==> exists i :: 0 <= i < |rows| && ParseFloat(Lookup(rows[i], column)) == Some(x)
  {
    ParsedMembers(rows, column);
    Present(Map(rows, ParseIn(column)))
  }

  /**
    Each row whose value parses contributes its value exactly once and in row
    order, so repeated values are all kept: the k-th value is the parse of
    the k-th such row.
   */
  lemma ParsedValuesOrder(rows: seq<Row>, column: string)
    ensures exists idx :: (IsPositions(idx, rows, ParsesIn(column)) && |idx| == |ParsedValues(rows, column)| &&
      forall k :: 0 <= k < |idx| ==> ParseFloat(Lookup(rows[idx[k]], column)) == Some(ParsedValues(rows, column)[k]))
  {
    PresentOfMap(rows, ParseIn(column), ParsesIn(column));
  }

  /** A value is kept exactly when some row's cell parses to it. */
  lemma ParsedMembers(rows: seq<Row>, column: string)
    ensures var r := Present(Map(rows, ParseIn(column)));
      && (r == [] <==> forall i :: 0 <= i < |rows| ==> ParseFloat(Lookup(rows[i], column)).None?)
      && (forall x :: x in r <==> exists i :: 0 <= i < |rows| && ParseFloat(Lookup(rows[i], column)) == Some(x))
  {
    var cells := Map(rows, ParseIn(column));
    assert forall o :: o in cells <==> exists i :: 0 <= i < |rows| && ParseFloat(Lookup(rows[i], column)) == o;
  }

  /** The statistics of one column, or `'N/A'` throughout when no value parses. */
  function Summarize(column: string, values: seq<real>): (r: AnalysisResult)
    ensures r.column == column
    ensures r.stats.None? <==> values == []
    ensures r.stats.Some? ==>
      r.stats.value.min <= r.stats.value.median <= r.stats.value.max &&
      r.stats.value.min <= r.stats.value.mean <= r.stats.value.max &&
      r.stats.value.variance >= 0.0
    ensures r.stats.Some? ==> r.stats.value.min in values && r.stats.value.max in values
    ensures r.stats.Some? ==> forall v :: v in values ==> r.stats.value.min <= v <= r.stats.value.max
    ensures r.stats.Some? ==> r.stats.value == Stats(Mean(values), Median(SortAscending(values)),
                                                     MinOf(values), MaxOf(values), Variance(values))
  {
    if values == [] then AnalysisResult(column, None)
    else
      MedianBetween(values);
      MeanBetween(values);
      AnalysisResult(column, Some(Stats(
        Mean(values), Median(SortAscending(values)), MinOf(values), MaxOf(values), Variance(values))))
  }

  /** `newResults`: one result per numeric column, in schema order. */
  function AnalyzeColumns(d: Dataset): (r: seq<AnalysisResult>)
    ensures |r| == |ColumnNames(d.columns, Some(NumberType))|
    ensures forall i :: 0 <= i < |r| ==>
      r[i] == Summarize(ColumnNames(d.columns, Some(NumberType))[i],
                        ParsedValues(d.previewData, ColumnNames(d.columns, Some(NumberType))[i]))
  {
    Map(ColumnNames(d.columns, Some(NumberType)), (c: string) => Summarize(c, ParsedValues(d.previewData, c)))
  }

  class AnalysisPage {
    var results: seq<AnalysisResult>

    constructor ()
      ensures results == []
    {
      results := [];
    }

    /**
      `analyzeData`: with a current dataset that has numeric columns, replace
      the results by its analysis; otherwise leave them as they are.
     */
    method AnalyzeData(store: Store)
      modifies this
      ensures store.currentDataset.None? ==> results == old(results)
      ensures store.currentDataset.Some? && ColumnNames(store.currentDataset.value.columns, Some(NumberType)) == [] ==>
        results == old(results)
      ensures store.currentDataset.Some? && ColumnNames(store.currentDataset.value.columns, Some(NumberType)) != [] ==>
        results == AnalyzeColumns(store.currentDataset.value)
    {
      if store.currentDataset.None? {
        return;
      }
      var d := store.currentDataset.value;
      var numeric := ColumnNames(d.columns, Some(NumberType));
      if numeric == [] {
        return;
      }
      results := AnalyzeColumns(d);
    }

    /** `handleDatasetChange`: select the dataset and clear the results. */
    method HandleDatasetChange(store: Store, id: string)
      requires store.Valid()
      modifies this, store
      ensures store.Valid()
      ensures store.datasets == old(store.datasets)
      ensures FindById(store.datasets, id).Some? ==> store.currentDataset == FindById(store.datasets, id)
      ensures FindById(store.datasets, id).None? ==> store.currentDataset == old(store.currentDataset)
      ensures results == []
    {
      store.SetCurrentDataset(id);
      results := [];
    }
  }
}
