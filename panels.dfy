/** A wide price or return panel: one row per date, one column per symbol,
    `None` where pandas holds NaN. */
module Panels {
  import opened Wrappers
  import opened Order
  import opened Dates

  type Cell = Option<real>

  datatype Panel = Panel(dates: seq<Date>, labels: seq<string>, rows: seq<seq<Cell>>)

  /** `pd.DataFrame({})`, the value every cached frame of a handler starts as. */
  const Empty: Panel := Panel([], [], [])

  /** One date per row and one cell per label in every row. */
  predicate Valid(p: Panel)
  {
    |p.rows| == |p.dates| && forall i :: 0 <= i < |p.rows| ==> |p.rows[i]| == |p.labels|
  }

  /** `DataFrame.empty`: no rows or no columns. */
  predicate IsEmpty(p: Panel)
  {
    |p.dates| == 0 || |p.labels| == 0
  }

  function Column(p: Panel, j: nat): (c: seq<Cell>)
    requires Valid(p) && j < |p.labels|
    ensures |c| == |p.rows|
    ensures forall i :: 0 <= i < |c| ==> c[i] == p.rows[i][j]
  {
    seq(|p.rows|, i requires 0 <= i < |p.rows| => p.rows[i][j])
  }

  predicate AllPresent(row: seq<Cell>)
  {
    forall j :: 0 <= j < |row| ==> row[j].Some?
  }

  /** No NaN anywhere (`not data.isna().any().any()`). */
  predicate Complete(p: Panel)
  {
    forall i :: 0 <= i < |p.rows| ==> AllPresent(p.rows[i])
  }

  predicate IncreasingIndices(ix: seq<nat>)
  {
    forall a, b :: 0 <= a < b < |ix| ==> ix[a] < ix[b]
  }

  /** The positions below n that satisfy keep, in ascending order. */
  function Where(n: nat, keep: nat -> bool): (ix: seq<nat>)
    ensures IncreasingIndices(ix)
    ensures forall k: nat :: k in ix <==> k < n && keep(k)
    ensures forall a :: 0 <= a < |ix| ==> ix[a] < n
    ensures |ix| <= n
  {
    if n == 0 then []
    else Where(n - 1, keep) + (if keep(n - 1) then [n - 1] else [])
  }

  /** Where keeps every position exactly when keep holds everywhere. */
  lemma {:induction false} WhereAll(n: nat, keep: nat -> bool)
    requires forall k: nat :: k < n ==> keep(k)
    ensures Where(n, keep) == seq(n, k => k)
  {
    if n > 0 {
      WhereAll(n - 1, keep);
      assert seq(n, k => k) == seq(n - 1, k => k) + [n - 1];
    }
  }

  /** Where drops position 0 and keeps every later one when keep says so. */
  lemma {:induction false} WhereAllButFirst(n: nat, keep: nat -> bool)
    requires n >= 1 && !keep(0) && forall k: nat :: 1 <= k < n ==> keep(k)
    ensures Where(n, keep) == seq(n - 1, k => k + 1)
  {
    if n > 1 {
      WhereAllButFirst(n - 1, keep);
    }
  }

  /** The panel restricted to the columns at positions ix, in that order. */
  function SelectColumns(p: Panel, ix: seq<nat>): (r: Panel)
    requires Valid(p) && forall k :: 0 <= k < |ix| ==> ix[k] < |p.labels|
    ensures Valid(r) && r.dates == p.dates && |r.labels| == |ix|
    ensures forall k :: 0 <= k < |ix| ==> r.labels[k] == p.labels[ix[k]]
    ensures forall i, k :: 0 <= i < |r.rows| && 0 <= k < |ix| ==> r.rows[i][k] == p.rows[i][ix[k]]
  {
    Panel(p.dates,
          seq(|ix|, k requires 0 <= k < |ix| => p.labels[ix[k]]),
          seq(|p.rows|, i requires 0 <= i < |p.rows| =>
            seq(|ix|, k requires 0 <= k < |ix| => p.rows[i][ix[k]])))
  }

  /** The panel restricted to the rows at positions ix, in that order. */
  function SelectRows(p: Panel, ix: seq<nat>): (r: Panel)
    requires Valid(p) && forall k :: 0 <= k < |ix| ==> ix[k] < |p.rows|
    ensures Valid(r) && r.labels == p.labels && |r.rows| == |ix|
    ensures forall k :: 0 <= k < |ix| ==> r.dates[k] == p.dates[ix[k]] && r.rows[k] == p.rows[ix[k]]
  {
    Panel(seq(|ix|, k requires 0 <= k < |ix| => p.dates[ix[k]]),
          p.labels,
          seq(|ix|, k requires 0 <= k < |ix| => p.rows[ix[k]]))
  }

  /** Selecting rows at increasing positions keeps a chronological index chronological. */
  lemma SelectRowsKeepsOrder(p: Panel, ix: seq<nat>)
    requires Valid(p) && forall k :: 0 <= k < |ix| ==> ix[k] < |p.rows|
    requires IncreasingIndices(ix) && Increasing(DateLess, p.dates)
    ensures Increasing(DateLess, SelectRows(p, ix).dates)
  {
    var ds := SelectRows(p, ix).dates;
    forall a, b | 0 <= a < b < |ds| ensures DateLess(ds[a], ds[b]) {
      assert ds[a] == p.dates[ix[a]] && ds[b] == p.dates[ix[b]];
    }
  }
}
