/** Reading stored price bars: the date-range and symbol filter of the stocks
    query, the long result, and its pivot into a wide panel. */
module Loader {
  import opened Wrappers
  import opened Order
  import opened Dates
  import opened Panels
  import opened Stats

  /** The price columns of the stocks table that a query may select. */
  datatype Field = Open | High | Low | Close | AdjClose | Volume

  /** One row of the stocks table. */
  datatype StockRow = StockRow(date: Date, symbol: string, open: Cell, high: Cell, low: Cell,
                               close: Cell, adjClose: Cell, volume: Cell)

  function Get(r: StockRow, f: Field): Cell
  {
    match f
    case Open => r.open
    case High => r.high
    case Low => r.low
    case Close => r.close
    case AdjClose => r.adjClose
    case Volume => r.volume
  }

  /** `WHERE date BETWEEN start AND end AND symbol IN tickers`, in table order. */
  function Query(stocks: seq<StockRow>, start: Date, end: Date, tickers: set<string>): (r: seq<StockRow>)
    ensures forall x :: x in r <==> x in stocks && InRange(x.date, start, end) && x.symbol in tickers
    ensures |r| <= |stocks|
  {
    if stocks == [] then []
    else
      var rest := Query(stocks[1..], start, end, tickers);
      if InRange(stocks[0].date, start, end) && stocks[0].symbol in tickers then [stocks[0]] + rest else rest
  }

  /** A row of the long result: `SELECT date, symbol, <fields>`. */
  datatype LongRow = LongRow(date: Date, symbol: string, values: seq<Cell>)

  function Project(rows: seq<StockRow>, fields: seq<Field>): (r: seq<LongRow>)
    ensures |r| == |rows|
    ensures forall i :: 0 <= i < |rows| ==>
      r[i].date == rows[i].date && r[i].symbol == rows[i].symbol && |r[i].values| == |fields|
      && forall k :: 0 <= k < |fields| ==> r[i].values[k] == Get(rows[i], fields[k])
  {
    seq(|rows|, i requires 0 <= i < |rows| =>
      LongRow(rows[i].date, rows[i].symbol, seq(|fields|, k requires 0 <= k < |fields| => Get(rows[i], fields[k]))))
  }

  /** One (date, symbol, value) observation of the single field a pivot spreads out. */
  datatype Obs = Obs(date: Date, symbol: string, value: Cell)

  function Observations(rows: seq<LongRow>): (obs: seq<Obs>)
    requires forall i :: 0 <= i < |rows| ==> |rows[i].values| >= 1
    ensures |obs| == |rows|
    ensures forall i :: 0 <= i < |rows| ==> obs[i] == Obs(rows[i].date, rows[i].symbol, rows[i].values[0])
  {
    seq(|rows|, i requires 0 <= i < |rows| => Obs(rows[i].date, rows[i].symbol, rows[i].values[0]))
  }

  /** The non-missing values observed for (d, s), in order. */
  function ValuesAt(obs: seq<Obs>, d: Date, s: string): (vs: seq<real>)
    ensures |vs| > 0 <==> exists o :: o in obs && o.date == d && o.symbol == s && o.value.Some?
  {
    if obs == [] then []
    else
      var o := obs[0];
      (if o.date == d && o.symbol == s && o.value.Some? then [o.value.value] else []) + ValuesAt(obs[1..], d, s)
  }

  /** `pivot_table`'s default aggregation: the mean of the values observed at
      (d, s), NaN when there are none. */
  function PivotCell(obs: seq<Obs>, d: Date, s: string): (c: Cell)
    ensures c.Some? <==> exists o :: o in obs && o.date == d && o.symbol == s && o.value.Some?
  {
    var vs := ValuesAt(obs, d, s);
    if |vs| == 0 then None else Some(Mean(vs))
  }

  function ObservedDates(obs: seq<Obs>): (ds: seq<Date>)
    ensures forall d :: d in ds <==> exists o :: o in obs && o.date == d && o.value.Some?
  {
    if obs == [] then []
    else (if obs[0].value.Some? then [obs[0].date] else []) + ObservedDates(obs[1..])
  }

  function ObservedSymbols(obs: seq<Obs>): (ss: seq<string>)
    ensures forall s :: s in ss <==> exists o :: o in obs && o.symbol == s && o.value.Some?
  {
    if obs == [] then []
    else (if obs[0].value.Some? then [obs[0].symbol] else []) + ObservedSymbols(obs[1..])
  }

  /** `pivot_table(index='date', columns='symbol', values=field)`: one row per
      date and one column per symbol that has at least one non-missing value,
      both sorted ascending, each cell the mean of the values observed there. */
  function Pivot(obs: seq<Obs>): (p: Panel)
    ensures Valid(p)
    ensures Increasing(DateLess, p.dates) && Increasing(SymbolLess, p.labels)
    ensures forall d :: d in p.dates <==> exists o :: o in obs && o.date == d && o.value.Some?
    ensures forall s :: s in p.labels <==> exists o :: o in obs && o.symbol == s && o.value.Some?
    ensures forall i, j :: 0 <= i < |p.rows| && 0 <= j < |p.labels| ==>
      p.rows[i][j] == PivotCell(obs, p.dates[i], p.labels[j])
  {
    DateLessIsOrder();
    SymbolLessIsOrder();
    var dates := SortedDistinct(DateLess, ObservedDates(obs));
    var labels := SortedDistinct(SymbolLess, ObservedSymbols(obs));
    Panel(dates, labels,
          seq(|dates|, i requires 0 <= i < |dates| =>
            seq(|labels|, j requires 0 <= j < |labels| => PivotCell(obs, dates[i], labels[j]))))
  }

  /** At most one observation per (date, symbol): the stocks table's natural key. */
  predicate UniqueKeys(obs: seq<Obs>)
  {
    forall a, b :: 0 <= a < b < |obs| ==> obs[a].date != obs[b].date || obs[a].symbol != obs[b].symbol
  }

  lemma {:induction false} ValuesAtUnique(obs: seq<Obs>, k: nat)
    requires UniqueKeys(obs) && k < |obs| && obs[k].value.Some?
    ensures ValuesAt(obs, obs[k].date, obs[k].symbol) == [obs[k].value.value]
  {
    if k == 0 {
      ValuesAtNone(obs[1..], obs[k].date, obs[k].symbol);
    } else {
      ValuesAtUnique(obs[1..], k - 1);
    }
  }

  lemma {:induction false} ValuesAtNone(obs: seq<Obs>, d: Date, s: string)
    requires forall i :: 0 <= i < |obs| ==> obs[i].date != d || obs[i].symbol != s
    ensures ValuesAt(obs, d, s) == []
  {
    if obs != [] {
      ValuesAtNone(obs[1..], d, s);
    }
  }

  /** The present cells of a wide panel as (date, symbol, value) triples: what
      melting it back to long form yields. */
  ghost function Triples(p: Panel): set<(Date, string, real)>
    requires Valid(p)
  {
    set i, j | 0 <= i < |p.rows| && 0 <= j < |p.labels| && p.rows[i][j].Some? ::
      (p.dates[i], p.labels[j], p.rows[i][j].value)
  }

  /** With unique keys the pivot cell at an observation's (date, symbol) is its value. */
  lemma PivotCellAtKey(obs: seq<Obs>, k: nat)
    requires UniqueKeys(obs) && k < |obs| && obs[k].value.Some?
    ensures PivotCell(obs, obs[k].date, obs[k].symbol) == obs[k].value
  {
    ValuesAtUnique(obs, k);
    var v := obs[k].value.value;
    assert Sum([v]) == v by {
      assert [v][..0] == [];
    }
  }

  lemma PivotKeepsObservations(obs: seq<Obs>, t: (Date, string, real))
    requires UniqueKeys(obs)
    requires t in set o | o in obs && o.value.Some? :: (o.date, o.symbol, o.value.value)
    ensures t in Triples(Pivot(obs))
  {
    var p := Pivot(obs);
    var o :| o in obs && o.value.Some? && t == (o.date, o.symbol, o.value.value);
    var k :| 0 <= k < |obs| && obs[k] == o;
    assert o.date in p.dates;
    assert o.symbol in p.labels;
    var i :| 0 <= i < |p.dates| && p.dates[i] == o.date;
    var j :| 0 <= j < |p.labels| && p.labels[j] == o.symbol;
    PivotCellAtKey(obs, k);
    assert p.rows[i][j] == o.value;
  }

  lemma PivotInventsNothing(obs: seq<Obs>, t: (Date, string, real))
    requires UniqueKeys(obs) && t in Triples(Pivot(obs))
    ensures t in set o | o in obs && o.value.Some? :: (o.date, o.symbol, o.value.value)
  {
    var p := Pivot(obs);
    var i, j :| 0 <= i < |p.rows| && 0 <= j < |p.labels| && p.rows[i][j].Some?
      && t == (p.dates[i], p.labels[j], p.rows[i][j].value);
    var o :| o in obs && o.date == p.dates[i] && o.symbol == p.labels[j] && o.value.Some?;
    var k :| 0 <= k < |obs| && obs[k] == o;
    PivotCellAtKey(obs, k);
  }

  /** Pivoting loses and invents nothing: with one observation per
      (date, symbol), melting the pivot recovers exactly the non-missing observations. */
  lemma PivotRoundTrip(obs: seq<Obs>)
    requires UniqueKeys(obs)
    ensures Triples(Pivot(obs)) == set o | o in obs && o.value.Some? :: (o.date, o.symbol, o.value.value)
  {
    forall t | t in Triples(Pivot(obs))
      ensures t in set o | o in obs && o.value.Some? :: (o.date, o.symbol, o.value.value)
    {
      PivotInventsNothing(obs, t);
    }
    forall t | t in set o | o in obs && o.value.Some? :: (o.date, o.symbol, o.value.value)
      ensures t in Triples(Pivot(obs))
    {
      PivotKeepsObservations(obs, t);
    }
  }
}
