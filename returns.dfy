/** Daily simple returns: `pct_change(1)` followed by `dropna()`. */
module Returns {
  import opened Wrappers
  import opened Order
  import opened Dates
  import opened Panels
  import opened Preprocess

  /** One cell of `pct_change(1)`: p[t] / p[t-1] - 1, missing when either price is. */
  function Change(prev: Cell, cur: Cell): (r: Cell)
    ensures r.Some? <==> prev.Some? && cur.Some? && prev.value != 0.0
    ensures r.Some? ==> prev.value * (1.0 + r.value) == cur.value
  {
    if prev.Some? && cur.Some? && prev.value != 0.0 then Some(cur.value / prev.value - 1.0) else None
  }

  /** `pct_change(1)` with its default padding: the prices are forward-filled,
      then row t holds the change from row t - 1; row 0 has no base and is all NaN. */
  function PctChange(p: Panel): (r: Panel)
    requires Valid(p)
    ensures Valid(r) && r.dates == p.dates && r.labels == p.labels
  {
    var f := ForwardFill(p);
    p.(rows := seq(|p.rows|, i requires 0 <= i < |p.rows| =>
      seq(|p.labels|, j requires 0 <= j < |p.labels| =>
        if i == 0 then None else Change(f.rows[i - 1][j], f.rows[i][j]))))
  }

  /** The rows `dropna()` keeps: those without a missing cell. */
  function KeptRows(p: Panel): (ix: seq<nat>)
    requires Valid(p)
    ensures IncreasingIndices(ix)
    ensures forall i: nat :: i in ix <==> i < |p.rows| && AllPresent(p.rows[i])
    ensures forall k :: 0 <= k < |ix| ==> ix[k] < |p.rows|
  {
    Where(|p.rows|, (i: nat) => i < |p.rows| && AllPresent(p.rows[i]))
  }

  function DropNa(p: Panel): (r: Panel)
    requires Valid(p)
    ensures Valid(r) && Complete(r) && r.labels == p.labels
  {
    SelectRows(p, KeptRows(p))
  }

  /** The daily return panel of a price panel. */
  function DailyReturns(p: Panel): (r: Panel)
    requires Valid(p)
    ensures Valid(r) && Complete(r) && r.labels == p.labels && |r.rows| <= |p.rows|
  {
    DropNa(PctChange(p))
  }

  /** `pct_change` and `dropna` keep the surviving rows in their order, so
      an increasing date index stays increasing. */
  lemma DailyReturnsKeepsOrder(p: Panel)
    requires Valid(p) && Increasing(DateLess, p.dates)
    ensures Increasing(DateLess, DailyReturns(p).dates)
  {
    var c := PctChange(p);
    SelectRowsKeepsOrder(c, KeptRows(c));
  }

  /** Which rows survive and what they hold: with at least one symbol, output row
      k comes from some input row t >= 1 (the first row never survives), the rows
      keep their order, and each cell is the change between rows t - 1 and t of
      the padded prices. */
  lemma DailyReturnsAt(p: Panel, k: nat)
    requires Valid(p) && |p.labels| >= 1 && k < |DailyReturns(p).rows|
    ensures var ix := KeptRows(PctChange(p));
      && IncreasingIndices(ix)
      && 1 <= ix[k] < |p.rows|
      && DailyReturns(p).dates[k] == p.dates[ix[k]]
      && forall j :: 0 <= j < |p.labels| ==>
           DailyReturns(p).rows[k][j] == Change(ForwardFill(p).rows[ix[k] - 1][j], ForwardFill(p).rows[ix[k]][j])
  {
    var c := PctChange(p);
    var ix := KeptRows(c);
    assert ix[k] in ix;
    assert AllPresent(c.rows[ix[k]]);
    assert c.rows[ix[k]][0].Some?;
  }

  predicate NoZeroPrice(p: Panel)
  {
    forall i, j :: 0 <= i < |p.rows| && 0 <= j < |p.rows[i]| ==> p.rows[i][j] != Some(0.0)
  }

  /** On a panel without gaps or zero prices every row but the first survives dropna. */
  lemma KeptRowsOfComplete(p: Panel)
    requires Valid(p) && Complete(p) && NoZeroPrice(p) && |p.rows| >= 1 && |p.labels| >= 1
    ensures KeptRows(PctChange(p)) == seq(|p.rows| - 1, k => k + 1)
  {
    ForwardFillOfComplete(p);
    var c := PctChange(p);
    assert !AllPresent(c.rows[0]) by { assert c.rows[0][0].None?; }
    forall t: nat | 1 <= t < |p.rows| ensures AllPresent(c.rows[t]) {
      forall j | 0 <= j < |p.labels| ensures c.rows[t][j].Some? {
        assert p.rows[t - 1][j] != Some(0.0);
      }
    }
    WhereAllButFirst(|c.rows|, (i: nat) => i < |c.rows| && AllPresent(c.rows[i]));
  }

  /** On a panel of n >= 1 rows with no gap and no zero price, there are exactly
      n - 1 daily returns, dated by rows 1..n-1, the k-th being p[k+1] / p[k] - 1. */
  lemma DailyReturnsOfComplete(p: Panel)
    requires Valid(p) && Complete(p) && NoZeroPrice(p) && |p.rows| >= 1 && |p.labels| >= 1
    ensures |DailyReturns(p).rows| == |p.rows| - 1
    ensures DailyReturns(p).dates == p.dates[1..]
    ensures forall k, j :: 0 <= k < |p.rows| - 1 && 0 <= j < |p.labels| ==>
      DailyReturns(p).rows[k][j] == Some(p.rows[k + 1][j].value / p.rows[k][j].value - 1.0)
  {
    KeptRowsOfComplete(p);
    ForwardFillOfComplete(p);
    var r := DailyReturns(p);
    assert forall k :: 0 <= k < |r.rows| ==> r.dates[k] == p.dates[k + 1];
    assert r.dates == p.dates[1..];
  }

  /** A symbol whose every recorded price is the same non-zero value c earns a
      return of exactly 0 on every day that survives. */
  lemma DailyReturnsOfConstant(p: Panel, j: nat, c: real)
    requires Valid(p) && j < |p.labels| && c != 0.0
    requires forall i :: 0 <= i < |p.rows| && p.rows[i][j].Some? ==> p.rows[i][j] == Some(c)
    ensures forall k :: 0 <= k < |DailyReturns(p).rows| ==> DailyReturns(p).rows[k][j] == Some(0.0)
  {
    forall k | 0 <= k < |DailyReturns(p).rows| ensures DailyReturns(p).rows[k][j] == Some(0.0) {
      DailyReturnsAt(p, k);
      var t := KeptRows(PctChange(p))[k];
      ForwardFillCells(p, t - 1, j);
      ForwardFillCells(p, t, j);
    }
  }

  /** The padding inside `pct_change` is a no-op on a cleaned panel: cleaning has
      already filled every gap that can be filled. */
  lemma PaddingAfterCleanIsNoOp(p: Panel)
    requires Valid(p)
    ensures ForwardFill(Clean(p)) == Clean(p)
  {
    CleanIsFilledDrop(p);
    ForwardFillIdempotent(DropSparse(p));
  }
}
