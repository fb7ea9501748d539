/** The column statistics pandas computes with its default `skipna=True`:
    sums, means and sample variances over the present cells only. */
module Stats {
  import opened Wrappers
  import opened Panels

  /** The present values of a column, in row order (what pandas aggregates over). */
  function Present(col: seq<Cell>): (xs: seq<real>)
    ensures |xs| <= |col|
    ensures forall x :: x in xs <==> Some(x) in col
  {
    if col == [] then []
    else Present(col[..|col| - 1]) + (if col[|col| - 1].Some? then [col[|col| - 1].value] else [])
  }

  /** Present keeps every present value as often as it occurs: pandas
      aggregates over all of them, duplicates included. */
  lemma {:induction false} PresentCounts(col: seq<Cell>)
    ensures forall x :: multiset(Present(col))[x] == multiset(col)[Some(x)]
  {
    if col != [] {
      var n := |col| - 1;
      PresentCounts(col[..n]);
      assert col == col[..n] + [col[n]];
    }
  }

  /** On a column without NaN, Present is the column's values. */
  lemma {:induction false} PresentOfComplete(col: seq<Cell>)
    requires AllPresent(col)
    ensures |Present(col)| == |col|
    ensures forall i :: 0 <= i < |col| ==> Present(col)[i] == col[i].value
  {
    if col != [] {
      PresentOfComplete(col[..|col| - 1]);
    }
  }

  function Sum(xs: seq<real>): real
  {
    if xs == [] then 0.0 else Sum(xs[..|xs| - 1]) + xs[|xs| - 1]
  }

  lemma {:induction false} SumBounds(xs: seq<real>, lo: real, hi: real)
    requires forall i :: 0 <= i < |xs| ==> lo <= xs[i] <= hi
    ensures |xs| as real * lo <= Sum(xs) <= |xs| as real * hi
  {
    if xs != [] {
      SumBounds(xs[..|xs| - 1], lo, hi);
    }
  }

  lemma {:induction false} SumOfConstant(xs: seq<real>, c: real)
    requires forall i :: 0 <= i < |xs| ==> xs[i] == c
    ensures Sum(xs) == |xs| as real * c
  {
    if xs != [] {
      SumOfConstant(xs[..|xs| - 1], c);
    }
  }

  function Mean(xs: seq<real>): real
    requires |xs| > 0
  {
    Sum(xs) / |xs| as real
  }

  /** The mean times the number of values gives back their sum. */
  lemma MeanTimesCount(xs: seq<real>)
    requires |xs| > 0
    ensures Mean(xs) * |xs| as real == Sum(xs)
  {
    var n, s := |xs| as real, Sum(xs);
    assert (s / n) * n == s;
  }

  /** A mean lies between the smallest and the largest value averaged. */
  lemma MeanBounds(xs: seq<real>, lo: real, hi: real)
    requires |xs| > 0 && forall i :: 0 <= i < |xs| ==> lo <= xs[i] <= hi
    ensures lo <= Mean(xs) <= hi
  {
    SumBounds(xs, lo, hi);
    var n := |xs| as real;
    assert Sum(xs) / n >= lo by { assert Sum(xs) >= n * lo; }
    assert Sum(xs) / n <= hi by { assert Sum(xs) <= n * hi; }
  }

  /** The mean of equal values is that value. */
  lemma MeanOfConstant(xs: seq<real>, c: real)
    requires |xs| > 0 && forall i :: 0 <= i < |xs| ==> xs[i] == c
    ensures Mean(xs) == c
  {
    SumOfConstant(xs, c);
  }

  function SquaredDeviations(xs: seq<real>, m: real): (ys: seq<real>)
    ensures |ys| == |xs|
    ensures forall i :: 0 <= i < |xs| ==> ys[i] == (xs[i] - m) * (xs[i] - m)
  {
    seq(|xs|, i requires 0 <= i < |xs| => (xs[i] - m) * (xs[i] - m))
  }

  /** The sample variance (divisor n - 1) of the present cells of a column,
      NaN when fewer than two are present: the square of what `DataFrame.std` reports. */
  function ColumnVariance(col: seq<Cell>): (r: Cell)
    ensures r.Some? <==> |Present(col)| >= 2
    ensures r.Some? ==> r.value >= 0.0
  {
    var xs := Present(col);
    if |xs| < 2 then None
    else
      var ys := SquaredDeviations(xs, Mean(xs));
      NonNegativeSum(ys);
      var v := Sum(ys) / (|xs| - 1) as real;
      assert v >= 0.0;
      Some(v)
  }

  /** `DataFrame.mean` of one column: the mean of its present cells, NaN when there are none. */
  function ColumnMean(col: seq<Cell>): (r: Cell)
    ensures r.Some? <==> exists i :: 0 <= i < |col| && col[i].Some?
  {
    var xs := Present(col);
    if |xs| == 0 then None
    else
      assert Some(xs[0]) in col;
      Some(Mean(xs))
  }

  /** The column mean lies within the range of the column's present values,
      and it is NaN exactly when the column has no present value. */
  lemma ColumnMeanBounds(col: seq<Cell>, lo: real, hi: real)
    requires forall i :: 0 <= i < |col| && col[i].Some? ==> lo <= col[i].value <= hi
    ensures ColumnMean(col).Some? <==> exists i :: 0 <= i < |col| && col[i].Some?
    ensures ColumnMean(col).Some? ==> lo <= ColumnMean(col).value <= hi
  {
    var xs := Present(col);
    if exists i :: 0 <= i < |col| && col[i].Some? {
      var i :| 0 <= i < |col| && col[i].Some?;
      assert col[i] in col;
      assert col[i].value in xs;
    }
    if |xs| > 0 {
      assert Some(xs[0]) in col;
      forall k | 0 <= k < |xs| ensures lo <= xs[k] <= hi {
        assert Some(xs[k]) in col;
      }
      MeanBounds(xs, lo, hi);
    }
  }

  /** A column whose present cells all hold the same value has variance zero. */
  lemma ColumnVarianceOfConstant(col: seq<Cell>, c: real)
    requires forall i :: 0 <= i < |col| && col[i].Some? ==> col[i].value == c
    ensures ColumnVariance(col).Some? ==> ColumnVariance(col).value == 0.0
  {
    var xs := Present(col);
    if |xs| >= 2 {
      forall k | 0 <= k < |xs| ensures xs[k] == c {
        assert Some(xs[k]) in col;
      }
      MeanOfConstant(xs, c);
      var ys := SquaredDeviations(xs, c);
      SumOfConstant(ys, 0.0);
    }
  }

  lemma {:induction false} NonNegativeSum(ys: seq<real>)
    requires forall i :: 0 <= i < |ys| ==> 0.0 <= ys[i]
    ensures 0.0 <= Sum(ys)
  {
    if ys != [] {
      NonNegativeSum(ys[..|ys| - 1]);
    }
  }
}
