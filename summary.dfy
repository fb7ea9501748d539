/** The per-symbol summary table: each return column's mean and variance,
    inner-joined with the sector of the symbol's company record. */
module Summary {
  import opened Wrappers
  import opened Panels
  import opened Stats

  /** The columns of the companies table the summary reads. */
  datatype CompanyRow = CompanyRow(symbol: string, sector: Option<string>)

  /** `SELECT * FROM companies WHERE symbol IN tickers AND sector IS NOT NULL`, in table order. */
  function QueryCompanies(companies: seq<CompanyRow>, tickers: set<string>): (r: seq<CompanyRow>)
    ensures forall c :: c in r <==> c in companies && c.symbol in tickers && c.sector.Some?
  {
    if companies == [] then []
    else
      var c := companies[0];
      (if c.symbol in tickers && c.sector.Some? then [c] else []) + QueryCompanies(companies[1..], tickers)
  }

  /** One row of the table, columns `symbol, mean, vol, sector`; the model keeps
      the variance whose square root pandas reports as `vol`. */
  datatype MeanRow = MeanRow(symbol: string, mean: Cell, variance: Cell, sector: Option<string>)

  /** One row of `DataFrame({'mean': means, 'vol': stds}).reset_index()`: a
      return column's symbol with its mean and variance. */
  datatype SymbolStats = SymbolStats(symbol: string, mean: Cell, variance: Cell)

  /** The statistics of return column j. */
  function StatsOf(p: Panel, j: nat): SymbolStats
    requires Valid(p) && j < |p.labels|
  {
    SymbolStats(p.labels[j], ColumnMean(Column(p, j)), ColumnVariance(Column(p, j)))
  }

  /** The statistics frame: one row per return column, in column order. */
  function StatsFrame(p: Panel): (fs: seq<SymbolStats>)
    requires Valid(p)
    ensures |fs| == |p.labels|
    ensures forall j :: 0 <= j < |fs| ==> fs[j] == StatsOf(p, j)
  {
    seq(|p.labels|, j requires 0 <= j < |p.labels| => StatsOf(p, j))
  }

  /** A statistics row joined with a company row of the same symbol. */
  function Joined(s: SymbolStats, c: CompanyRow): MeanRow
  {
    MeanRow(s.symbol, s.mean, s.variance, c.sector)
  }

  /** The table row of return column j joined with company row c. */
  function RowFor(p: Panel, j: nat, c: CompanyRow): MeanRow
    requires Valid(p) && j < |p.labels|
  {
    Joined(StatsOf(p, j), c)
  }

  /** The joined rows of one statistics row: one per company record with its symbol. */
  function JoinRow(s: SymbolStats, info: seq<CompanyRow>): (r: seq<MeanRow>)
    ensures forall x :: x in r <==> exists c :: c in info && c.symbol == s.symbol && x == Joined(s, c)
  {
    if info == [] then []
    else
      (if info[0].symbol == s.symbol then [Joined(s, info[0])] else []) + JoinRow(s, info[1..])
  }

  /** Joining against two runs of company rows joins against each in turn. */
  lemma {:induction false} JoinRowAppend(s: SymbolStats, a: seq<CompanyRow>, b: seq<CompanyRow>)
    ensures JoinRow(s, a + b) == JoinRow(s, a) + JoinRow(s, b)
  {
    if a != [] {
      assert (a + b)[0] == a[0] && (a + b)[1..] == a[1..] + b;
      JoinRowAppend(s, a[1..], b);
    } else {
      assert a + b == b;
    }
  }

  /** The last company row contributes its joined row after the others'. */
  lemma JoinRowSnoc(s: SymbolStats, info: seq<CompanyRow>)
    requires info != []
    ensures var n := |info| - 1;
      JoinRow(s, info) == JoinRow(s, info[..n]) + (if info[n].symbol == s.symbol then [Joined(s, info[n])] else [])
  {
    var n := |info| - 1;
    assert info == info[..n] + [info[n]];
    JoinRowAppend(s, info[..n], [info[n]]);
    assert [info[n]][1..] == [];
  }

  /** Company row c joins with statistics row s and produces the table row x. */
  predicate Produces(s: SymbolStats, c: CompanyRow, x: MeanRow)
  {
    c.symbol == s.symbol && Joined(s, c) == x
  }

  /** Counting the company rows that produce x: those before the last row,
      plus the last row if it does. */
  lemma ProducersSnoc(s: SymbolStats, info: seq<CompanyRow>, x: MeanRow)
    requires info != []
    ensures var n := |info| - 1;
      |set i | 0 <= i < |info| && Produces(s, info[i], x)|
      == |set i | 0 <= i < n && Produces(s, info[..n][i], x)| + (if Produces(s, info[n], x) then 1 else 0)
  {
    var n := |info| - 1;
    var head := info[..n];
    var all := set i | 0 <= i < |info| && Produces(s, info[i], x);
    var before := set i | 0 <= i < n && Produces(s, head[i], x);
    var last: set<int> := if Produces(s, info[n], x) then {n} else {};
    forall i ensures i in all <==> i in before + last {
      if 0 <= i < n {
        assert head[i] == info[i];
      }
    }
    assert all == before + last;
    assert |before + last| == |before| + |last|;
  }

  /** The joined value x occurs once per company row that produces it. */
  lemma {:induction false} JoinRowCount(s: SymbolStats, info: seq<CompanyRow>, x: MeanRow)
    ensures multiset(JoinRow(s, info))[x] == |set i | 0 <= i < |info| && Produces(s, info[i], x)|
  {
    if info != [] {
      var n := |info| - 1;
      JoinRowCount(s, info[..n], x);
      JoinRowSnoc(s, info);
      ProducersSnoc(s, info, x);
    }
  }

  /** A statistics row yields one joined row per company row of its symbol:
      each joined value occurs as often as the company rows that produce it. */
  lemma JoinRowCounts(s: SymbolStats, info: seq<CompanyRow>)
    ensures forall x :: multiset(JoinRow(s, info))[x] == |set i | 0 <= i < |info| && Produces(s, info[i], x)|
  {
    forall x ensures multiset(JoinRow(s, info))[x] == |set i | 0 <= i < |info| && Produces(s, info[i], x)| {
      JoinRowCount(s, info, x);
    }
  }

  /** `merge(left_on='index', right_on='symbol')`: an inner join of the
      statistics frame with the company rows that keeps the frame's order.
      Every joined row pairs a statistics row with a company of its symbol. */
  function InnerJoin(fs: seq<SymbolStats>, info: seq<CompanyRow>): (r: seq<MeanRow>)
    ensures forall x :: x in r ==>
      exists k, c :: 0 <= k < |fs| && c in info && c.symbol == fs[k].symbol && x == Joined(fs[k], c)
  {
    if fs == [] then []
    else
      var n := |fs| - 1;
      var r := InnerJoin(fs[..n], info) + JoinRow(fs[n], info);
      assert forall x :: x in InnerJoin(fs[..n], info) ==>
        exists k, c :: 0 <= k < n && c in info && c.symbol == fs[k].symbol && x == Joined(fs[k], c);
      r
  }

  /** The join keeps the statistics frame's order: joining two runs of
      statistics rows is joining each in turn. */
  lemma {:induction false} InnerJoinAppend(fs: seq<SymbolStats>, gs: seq<SymbolStats>, info: seq<CompanyRow>)
    ensures InnerJoin(fs + gs, info) == InnerJoin(fs, info) + InnerJoin(gs, info)
  {
    if gs == [] {
      assert fs + gs == fs;
    } else {
      var n := |gs| - 1;
      var front := fs + gs[..n];
      assert (fs + gs)[..|fs + gs| - 1] == front && (fs + gs)[|fs + gs| - 1] == gs[n];
      assert InnerJoin(fs + gs, info) == InnerJoin(front, info) + JoinRow(gs[n], info);
      assert InnerJoin(gs, info) == InnerJoin(gs[..n], info) + JoinRow(gs[n], info);
      InnerJoinAppend(fs, gs[..n], info);
    }
  }

  /** A single statistics row joins to exactly its own joined rows. */
  lemma InnerJoinOne(s: SymbolStats, info: seq<CompanyRow>)
    ensures InnerJoin([s], info) == JoinRow(s, info)
  {
    assert [s][..0] == [];
  }

  /** Every statistics row meets every company row of its symbol in the join. */
  lemma {:induction false} InnerJoinComplete(fs: seq<SymbolStats>, info: seq<CompanyRow>, k: nat, c: CompanyRow)
    requires k < |fs| && c in info && c.symbol == fs[k].symbol
    ensures Joined(fs[k], c) in InnerJoin(fs, info)
  {
    var n := |fs| - 1;
    assert InnerJoin(fs, info) == InnerJoin(fs[..n], info) + JoinRow(fs[n], info);
    if k < n {
      InnerJoinComplete(fs[..n], info, k, c);
      assert Joined(fs[k], c) in InnerJoin(fs[..n], info);
    } else {
      assert Joined(fs[k], c) in JoinRow(fs[n], info);
    }
  }

  /** The mean/variance/sector table of a return panel. Each of its rows is a
      return column's statistics joined with a company row of that symbol. */
  function MeanSectorTable(p: Panel, info: seq<CompanyRow>): (r: seq<MeanRow>)
    requires Valid(p)
    ensures forall x :: x in r ==>
      exists j, c :: 0 <= j < |p.labels| && c in info && c.symbol == p.labels[j] && x == RowFor(p, j, c)
  {
    MeanSectorTableSound(p, info);
    InnerJoin(StatsFrame(p), info)
  }

  lemma MeanSectorTableSound(p: Panel, info: seq<CompanyRow>)
    requires Valid(p)
    ensures forall x :: x in InnerJoin(StatsFrame(p), info) ==>
      exists j, c :: 0 <= j < |p.labels| && c in info && c.symbol == p.labels[j] && x == RowFor(p, j, c)
  {
    var fs := StatsFrame(p);
    forall x | x in InnerJoin(fs, info)
      ensures exists j, c :: 0 <= j < |p.labels| && c in info && c.symbol == p.labels[j] && x == RowFor(p, j, c)
    {
      var k, c :| 0 <= k < |fs| && c in info && c.symbol == fs[k].symbol && x == Joined(fs[k], c);
      assert x == RowFor(p, k, c);
    }
  }

  /** The table holds exactly the symbols that are both a return column and a
      company with a non-null sector among the tickers; each row carries that
      column's mean and variance and that company's sector. */
  lemma MeanSectorTableExact(p: Panel, companies: seq<CompanyRow>, tickers: set<string>, x: MeanRow)
    requires Valid(p)
    ensures x in MeanSectorTable(p, QueryCompanies(companies, tickers)) <==>
      exists j: nat, c :: j < |p.labels| && c in companies && c.symbol in tickers && c.sector.Some?
        && c.symbol == p.labels[j] && x == RowFor(p, j, c)
  {
    var info := QueryCompanies(companies, tickers);
    if x in MeanSectorTable(p, info) {
      var j, c :| 0 <= j < |p.labels| && c in info && c.symbol == p.labels[j] && x == RowFor(p, j, c);
      assert j as nat < |p.labels|;
    }
    if exists j: nat, c :: j < |p.labels| && c in companies && c.symbol in tickers && c.sector.Some?
        && c.symbol == p.labels[j] && x == RowFor(p, j, c) {
      var j: nat, c :| j < |p.labels| && c in companies && c.symbol in tickers && c.sector.Some?
        && c.symbol == p.labels[j] && x == RowFor(p, j, c);
      InnerJoinComplete(StatsFrame(p), info, j, c);
    }
  }

  /** Every row of the table names a return column, has a sector, and reports
      that column's mean and a non-negative variance. */
  lemma MeanSectorTableRows(p: Panel, companies: seq<CompanyRow>, tickers: set<string>, x: MeanRow)
    requires Valid(p)
    ensures x in MeanSectorTable(p, QueryCompanies(companies, tickers)) ==>
      x.symbol in p.labels && x.symbol in tickers && x.sector.Some?
    ensures x in MeanSectorTable(p, QueryCompanies(companies, tickers)) ==>
      exists j :: (0 <= j < |p.labels| && p.labels[j] == x.symbol && x.mean == ColumnMean(Column(p, j))
        && (x.variance.Some? ==> x.variance.value >= 0.0))
  {
    if x in MeanSectorTable(p, QueryCompanies(companies, tickers)) {
      MeanSectorTableExact(p, companies, tickers, x);
      var j: nat, c :| j < |p.labels| && c in companies && c.symbol in tickers && c.sector.Some?
        && c.symbol == p.labels[j] && x == RowFor(p, j, c);
    }
  }
}
