/** Monthly returns: `resample('M').agg(lambda x: (x + 1).prod() - 1)` over a
    daily return panel. */
module Monthly {
  import opened Wrappers
  import opened Order
  import opened Dates
  import opened Panels
  import opened Stats

  /** ∏ (1 + r) over the values, in order. */
  function Growth(xs: seq<real>): (g: real)
    ensures (forall i :: 0 <= i < |xs| ==> xs[i] > -1.0) ==> g > 0.0
    ensures (forall i :: 0 <= i < |xs| ==> xs[i] >= 0.0) ==> g >= 1.0
  {
    if xs == [] then 1.0
    else
      var g, f := Growth(xs[..|xs| - 1]), 1.0 + xs[|xs| - 1];
      assert g > 0.0 && f > 0.0 ==> g * f > 0.0;
      assert g >= 1.0 && f >= 1.0 ==> g * f >= 1.0 by {
        if g >= 1.0 && f >= 1.0 { assert g * f >= g * 1.0; }
      }
      g * f
  }

  /** The compounded return of a run of simple returns: ∏ (1 + r) - 1. A run of
      returns above -100% never loses more than everything, and a run without a
      loss does not compound to one. */
  function Compound(xs: seq<real>): (r: real)
    ensures (forall i :: 0 <= i < |xs| ==> xs[i] > -1.0) ==> r > -1.0
    ensures (forall i :: 0 <= i < |xs| ==> xs[i] >= 0.0) ==> r >= 0.0
  {
    Growth(xs) - 1.0
  }

  /** Compounding two consecutive runs multiplies their growth factors. */
  lemma {:induction false} GrowthConcat(a: seq<real>, b: seq<real>)
    ensures Growth(a + b) == Growth(a) * Growth(b)
  {
    if b == [] {
      assert a + b == a;
    } else {
      assert (a + b)[..|a + b| - 1] == a + b[..|b| - 1];
      GrowthConcat(a, b[..|b| - 1]);
    }
  }

  /** A month with a single daily return r compounds to r; an empty month to 0. */
  lemma CompoundShort(r: real)
    ensures Compound([r]) == r
    ensures Compound([]) == 0.0
  {
    assert [r][..0] == [];
    assert Growth([r]) == Growth([]) * (1.0 + r);
  }

  function Power(x: real, k: nat): real
  {
    if k == 0 then 1.0 else Power(x, k - 1) * x
  }

  /** k equal daily returns c compound to (1 + c)^k - 1. */
  lemma {:induction false} CompoundConstant(xs: seq<real>, c: real)
    requires forall i :: 0 <= i < |xs| ==> xs[i] == c
    ensures Compound(xs) == Power(1.0 + c, |xs|) - 1.0
  {
    if xs != [] {
      CompoundConstant(xs[..|xs| - 1], c);
    }
  }

  /** The cells of col whose date falls in month m, in row order. */
  function InMonth(dates: seq<Date>, col: seq<Cell>, m: int): (c: seq<Cell>)
    requires |dates| == |col|
    ensures |c| <= |col|
  {
    if col == [] then []
    else
      var n := |col| - 1;
      InMonth(dates[..n], col[..n], m) + (if MonthIndex(dates[n]) == m then [col[n]] else [])
  }

  /** InMonth selects one cell for every row dated in month m. */
  lemma {:induction false} InMonthCount(dates: seq<Date>, col: seq<Cell>, m: int)
    requires |dates| == |col|
    ensures |InMonth(dates, col, m)| == |set t | 0 <= t < |col| && MonthIndex(dates[t]) == m|
  {
    if col != [] {
      var n := |col| - 1;
      InMonthCount(dates[..n], col[..n], m);
      var before := set t | 0 <= t < n && MonthIndex(dates[..n][t]) == m;
      var last: set<int> := if MonthIndex(dates[n]) == m then {n} else {};
      assert (set t | 0 <= t < |col| && MonthIndex(dates[t]) == m) == before + last;
      assert before * last == {};
    }
  }

  /** InMonth selects each row dated in month m exactly once: every value
      occurs in the bin as often as it occurs among that month's cells. */
  lemma {:induction false} InMonthMultiset(dates: seq<Date>, col: seq<Cell>, m: int)
    requires |dates| == |col|
    ensures forall x ::
      multiset(InMonth(dates, col, m))[x] == |set t | 0 <= t < |col| && MonthIndex(dates[t]) == m && col[t] == x|
  {
    if col != [] {
      var n := |col| - 1;
      InMonthMultiset(dates[..n], col[..n], m);
      forall x
        ensures multiset(InMonth(dates, col, m))[x]
          == |set t | 0 <= t < |col| && MonthIndex(dates[t]) == m && col[t] == x|
      {
        var before := set t | 0 <= t < n && MonthIndex(dates[..n][t]) == m && col[..n][t] == x;
        var last: set<int> := if MonthIndex(dates[n]) == m && col[n] == x then {n} else {};
        assert (set t | 0 <= t < |col| && MonthIndex(dates[t]) == m && col[t] == x) == before + last;
        assert before * last == {};
      }
    }
  }

  /** A month that contains only row i selects just that row's cell. */
  lemma {:induction false} InMonthSingle(dates: seq<Date>, col: seq<Cell>, i: nat)
    requires |dates| == |col| && i < |col|
    requires forall t :: 0 <= t < |dates| && t != i ==> MonthIndex(dates[t]) != MonthIndex(dates[i])
    ensures InMonth(dates, col, MonthIndex(dates[i])) == [col[i]]
  {
    var n := |col| - 1;
    if i == n {
      InMonthNone(dates[..n], col[..n], MonthIndex(dates[i]));
    } else {
      InMonthSingle(dates[..n], col[..n], i);
    }
  }

  lemma {:induction false} InMonthNone(dates: seq<Date>, col: seq<Cell>, m: int)
    requires |dates| == |col|
    requires forall t :: 0 <= t < |dates| ==> MonthIndex(dates[t]) != m
    ensures InMonth(dates, col, m) == []
  {
    if col != [] {
      InMonthNone(dates[..|dates| - 1], col[..|col| - 1], m);
    }
  }

  /** Every cell InMonth selects is a cell of col dated in month m. */
  lemma {:induction false} InMonthFrom(dates: seq<Date>, col: seq<Cell>, m: int)
    requires |dates| == |col|
    ensures forall x :: x in InMonth(dates, col, m) ==>
      exists t :: 0 <= t < |col| && MonthIndex(dates[t]) == m && col[t] == x
  {
    if col != [] {
      var n := |col| - 1;
      InMonthFrom(dates[..n], col[..n], m);
      forall x | x in InMonth(dates, col, m)
        ensures exists t :: 0 <= t < |col| && MonthIndex(dates[t]) == m && col[t] == x
      {
        if x in InMonth(dates[..n], col[..n], m) {
          var t :| 0 <= t < n && MonthIndex(dates[..n][t]) == m && col[..n][t] == x;
          assert col[t] == x;
        } else {
          assert col[n] == x;
        }
      }
    }
  }

  /** The first and last month of the daily index and the number of monthly bins. */
  function FirstMonth(p: Panel): int
  {
    if |p.dates| == 0 then 0 else MonthIndex(p.dates[0])
  }

  function MonthCount(p: Panel): nat
  {
    if |p.dates| == 0 then 0
    else
      var last := MonthIndex(p.dates[|p.dates| - 1]);
      if last < FirstMonth(p) then 0 else last - FirstMonth(p) + 1
  }

  /** The labels of n consecutive monthly bins starting at month lo. */
  function MonthEnds(lo: int, n: nat): (ds: seq<Date>)
    ensures |ds| == n
    ensures forall k :: 0 <= k < n ==> ds[k] == MonthEnd(lo + k) && ValidDate(ds[k]) && MonthIndex(ds[k]) == lo + k
  {
    if n == 0 then [] else MonthEnds(lo, n - 1) + [MonthEnd(lo + n - 1)]
  }

  /** The monthly return panel: one row per calendar month from the first daily
      row's month to the last one's, labelled by the month's last day; each cell
      compounds the column's present daily returns in that month. A month
      without a daily row compounds the empty product, 0. */
  function MonthlyReturns(p: Panel): (r: Panel)
    requires Valid(p)
    ensures Valid(r) && Complete(r) && r.labels == p.labels && |r.dates| == MonthCount(p)
    ensures forall k :: 0 <= k < |r.dates| ==> ValidDate(r.dates[k]) && MonthIndex(r.dates[k]) == FirstMonth(p) + k
  {
    var n, lo := MonthCount(p), FirstMonth(p);
    Panel(MonthEnds(lo, n),
          p.labels,
          seq(n, k => seq(|p.labels|, j requires 0 <= j < |p.labels| =>
            Some(Compound(Present(InMonth(p.dates, Column(p, j), lo + k)))))))
  }

  /** Monthly row k, column j compounds the present daily returns of symbol j
      dated in the k-th month from the first one. */
  lemma MonthlyCell(p: Panel, k: nat, j: nat)
    requires Valid(p) && k < |MonthlyReturns(p).rows| && j < |p.labels|
    ensures MonthlyReturns(p).rows[k][j] == Some(Compound(Present(InMonth(p.dates, Column(p, j), FirstMonth(p) + k))))
  {
  }

  /** The monthly index is chronological and skips no month. */
  lemma MonthlyChronological(p: Panel)
    requires Valid(p)
    ensures Increasing(DateLess, MonthlyReturns(p).dates)
    ensures forall k :: 0 <= k < |MonthlyReturns(p).dates| - 1 ==>
      MonthIndex(MonthlyReturns(p).dates[k + 1]) == MonthIndex(MonthlyReturns(p).dates[k]) + 1
  {
    var ds := MonthlyReturns(p).dates;
    forall a, b | 0 <= a < b < |ds| ensures DateLess(ds[a], ds[b]) {
      if !DateLess(ds[a], ds[b]) {
        DateLessIsOrder();
        MonthIndexMonotone(ds[b], ds[a]);
      }
    }
  }

  predicate Chronological(p: Panel)
  {
    Increasing(DateLess, p.dates) && forall i :: 0 <= i < |p.dates| ==> ValidDate(p.dates[i])
  }

  /** Every daily row has its month among the monthly rows: there is one monthly
      row per calendar month, between the first and the last daily row. */
  lemma MonthlyCoversEveryDay(p: Panel, i: nat)
    requires Valid(p) && Chronological(p) && i < |p.dates|
    ensures 0 <= MonthIndex(p.dates[i]) - FirstMonth(p) < |MonthlyReturns(p).dates|
    ensures MonthlyReturns(p).dates[MonthIndex(p.dates[i]) - FirstMonth(p)] == MonthEnd(MonthIndex(p.dates[i]))
  {
    var last := |p.dates| - 1;
    if i > 0 {
      assert DateLess(p.dates[0], p.dates[i]);
      MonthIndexMonotone(p.dates[0], p.dates[i]);
    }
    if i < last {
      assert DateLess(p.dates[i], p.dates[last]);
      MonthIndexMonotone(p.dates[i], p.dates[last]);
    }
  }

  lemma CompoundOfSingleDay(dates: seq<Date>, col: seq<Cell>, i: nat)
    requires |dates| == |col| && i < |col| && col[i].Some?
    requires forall t :: 0 <= t < |dates| && t != i ==> MonthIndex(dates[t]) != MonthIndex(dates[i])
    ensures Some(Compound(Present(InMonth(dates, col, MonthIndex(dates[i]))))) == col[i]
  {
    var v := col[i].value;
    InMonthSingle(dates, col, i);
    assert Present([Some(v)]) == [v] by {
      assert [Some(v)][..0] == [];
    }
    CompoundShort(v);
  }

  /** A month in which a symbol traded on a single day has that day's return as
      its monthly return. */
  lemma MonthlyOfSingleDay(p: Panel, i: nat, j: nat, k: nat)
    requires Valid(p) && i < |p.rows| && j < |p.labels| && p.rows[i][j].Some?
    requires forall t :: 0 <= t < |p.dates| && t != i ==> MonthIndex(p.dates[t]) != MonthIndex(p.dates[i])
    requires k < |MonthlyReturns(p).rows| && FirstMonth(p) + k == MonthIndex(p.dates[i])
    ensures MonthlyReturns(p).rows[k][j] == p.rows[i][j]
  {
    var col := Column(p, j);
    assert col[i] == p.rows[i][j];
    CompoundOfSingleDay(p.dates, col, i);
    MonthlyCell(p, k, j);
  }

  /** When every present cell of a month is c, so is every value it compounds. */
  lemma {:induction false} InMonthConstant(dates: seq<Date>, col: seq<Cell>, m: int, c: real)
    requires |dates| == |col|
    requires forall t :: 0 <= t < |col| && MonthIndex(dates[t]) == m && col[t].Some? ==> col[t] == Some(c)
    ensures forall a :: 0 <= a < |Present(InMonth(dates, col, m))| ==> Present(InMonth(dates, col, m))[a] == c
  {
    var cells := InMonth(dates, col, m);
    var xs := Present(cells);
    InMonthFrom(dates, col, m);
    forall a | 0 <= a < |xs| ensures xs[a] == c {
      assert Some(xs[a]) in cells;
    }
  }

  /** A month in which a symbol's d present daily returns all equal c compounds
      to (1 + c)^d - 1. */
  lemma MonthlyOfConstantRate(p: Panel, j: nat, k: nat, c: real)
    requires Valid(p) && j < |p.labels| && k < |MonthlyReturns(p).rows|
    requires forall t :: (0 <= t < |p.rows| && MonthIndex(p.dates[t]) == FirstMonth(p) + k && p.rows[t][j].Some?
      ==> p.rows[t][j] == Some(c))
    ensures var d := |Present(InMonth(p.dates, Column(p, j), FirstMonth(p) + k))|;
      MonthlyReturns(p).rows[k][j] == Some(Power(1.0 + c, d) - 1.0)
  {
    var col := Column(p, j);
    InMonthConstant(p.dates, col, FirstMonth(p) + k, c);
    CompoundConstant(Present(InMonth(p.dates, col, FirstMonth(p) + k)), c);
    MonthlyCell(p, k, j);
  }
}
