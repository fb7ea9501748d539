/** The `DataHandler` object: its cached fields and the pipeline methods that
    fill them. The scraped index lists, the stored tables and today's date are
    passed in by the caller. */
module Handler {
  import opened Wrappers
  import opened Order
  import opened Dates
  import opened Tickers
  import opened Panels
  import opened Loader
  import opened Preprocess
  import opened Returns
  import opened Monthly
  import opened Summary

  /** The constituent lists of the DAX, MDAX and SDAX pages, as scraped. */
  datatype Listings = Listings(dax: seq<string>, mdax: seq<string>, sdax: seq<string>)

  /** The two tables of the price database the handler reads. */
  datatype Store = Store(stocks: seq<StockRow>, companies: seq<CompanyRow>)

  /** What `_data` holds: the long query result, or its wide pivot. */
  datatype Frame = Long(rows: seq<LongRow>) | Wide(panel: Panel)

  /** The ticker set `get_tickers` answers with: the cached one if there is
      one, otherwise the normalised union of the scraped lists. */
  function Resolved(cached: Option<set<string>>, web: Listings): (r: set<string>)
    ensures cached.Some? ==> r == cached.value
    ensures cached.None? ==> forall x :: x in r ==> Contains(x, Suffix)
  {
    if cached.Some? then cached.value
    else
      UniverseNormalised(web.dax, web.mdax, web.sdax);
      Universe(web.dax, web.mdax, web.sdax)
  }

  /** The long rows of the stocks query for one price column. */
  function LongPrices(stocks: seq<StockRow>, start: Date, end: Date, tickers: set<string>, field: Field): (r: seq<LongRow>)
    ensures forall i :: 0 <= i < |r| ==> |r[i].values| == 1
  {
    Project(Query(stocks, start, end, tickers), [field])
  }

  /** The wide panel of one price column: every date lies in the queried range
      and every column is one of the queried tickers. */
  function PricePanel(stocks: seq<StockRow>, start: Date, end: Date, tickers: set<string>, field: Field): (p: Panel)
    ensures Valid(p) && Increasing(DateLess, p.dates)
    ensures forall d :: d in p.dates ==> InRange(d, start, end)
    ensures forall s :: s in p.labels ==> s in tickers
  {
    var rows := LongPrices(stocks, start, end, tickers, field);
    PricePanelFacts(stocks, start, end, tickers, field);
    Pivot(Observations(rows))
  }

  lemma PricePanelFacts(stocks: seq<StockRow>, start: Date, end: Date, tickers: set<string>, field: Field)
    ensures var obs := Observations(LongPrices(stocks, start, end, tickers, field));
      forall o :: o in obs ==> InRange(o.date, start, end) && o.symbol in tickers
  {
    var q := Query(stocks, start, end, tickers);
    var rows := LongPrices(stocks, start, end, tickers, field);
    var obs := Observations(rows);
    forall o | o in obs
      ensures InRange(o.date, start, end) && o.symbol in tickers
    {
      var i :| 0 <= i < |obs| && obs[i] == o;
      assert q[i] in q;
    }
  }

  class DataHandler {
    var tickers: Option<set<string>>
    var startDate: Date
    var endDate: Option<Date>
    var data: Frame
    var dlyChg: Panel
    var mthChg: Panel
    var companiesInfo: seq<CompanyRow>
    var meanVar: seq<MeanRow>

    /** A handler with the given ticker set (or none yet) and date range, and
        every frame empty. */
    constructor (tickers: Option<set<string>>, startDate: Date, endDate: Option<Date>)
      ensures this.tickers == tickers && this.startDate == startDate && this.endDate == endDate
      ensures data == Wide(Empty) && dlyChg == Empty && mthChg == Empty
      ensures companiesInfo == [] && meanVar == []
      ensures ValidFrames()
    {
      this.tickers := tickers;
      this.startDate := startDate;
      this.endDate := endDate;
      data := Wide(Empty);
      dlyChg := Empty;
      mthChg := Empty;
      companiesInfo := [];
      meanVar := [];
    }

    /** A handler built with the default arguments: no ticker set yet, the
        history from `FirstDate` on, and no end date. */
    constructor Default()
      ensures tickers == None && startDate == FirstDate && endDate == None
      ensures data == Wide(Empty) && dlyChg == Empty && mthChg == Empty
      ensures companiesInfo == [] && meanVar == []
      ensures ValidFrames()
    {
      tickers := None;
      startDate := FirstDate;
      endDate := None;
      data := Wide(Empty);
      dlyChg := Empty;
      mthChg := Empty;
      companiesInfo := [];
      meanVar := [];
    }

    /** The stored return frames are well-formed panels, and the stored daily
        returns are in date order, as the sorted pivot they come from is. */
    predicate ValidFrames()
      reads this`dlyChg, this`mthChg
    {
      Valid(dlyChg) && Increasing(DateLess, dlyChg.dates) && Valid(mthChg)
    }

    /** The adjusted-close panel the pipeline would load now: every date lies
        between the start date and today, and every symbol is one of the
        handler's tickers. */
    function Prices(web: Listings, store: Store, today: Date): (p: Panel)
      reads this`tickers, this`startDate, this`endDate
      ensures Valid(p) && Increasing(DateLess, p.dates)
      ensures forall d :: d in p.dates ==> NotAfter(startDate, d) && NotAfter(d, today)
      ensures forall s :: s in p.labels ==> s in Resolved(tickers, web)
    {
      PricePanel(store.stocks, startDate, ClampEndDate(endDate, today), Resolved(tickers, web), AdjClose)
    }

    /** `get_tickers`: a supplied or cached set is returned as it is; otherwise
        the normalised union of the three lists is computed and cached, so every
        later call answers with the same set whatever the lists say then. */
    method GetTickers(web: Listings) returns (r: set<string>)
      modifies this
      ensures r == Resolved(old(tickers), web)
      ensures tickers == Some(r)
      ensures forall w :: Resolved(tickers, w) == r
      ensures startDate == old(startDate) && endDate == old(endDate) && data == old(data)
      ensures dlyChg == old(dlyChg) && mthChg == old(mthChg)
      ensures companiesInfo == old(companiesInfo) && meanVar == old(meanVar)
    {
      if tickers.None? {
        tickers := Some(Universe(web.dax, web.mdax, web.sdax));
      }
      r := tickers.value;
    }

    /** `fetch_stocks_from_db`: the end date is clamped to today and kept, the
        stocks in the date range for the handler's tickers are read, and `_data`
        becomes the long result or, in wide format, its pivot. */
    method FetchStocksFromDb(web: Listings, store: Store, today: Date, field: Field, wide: bool) returns (r: Frame)
      modifies this
      ensures endDate == Some(ClampEndDate(old(endDate), today))
      ensures NotAfter(endDate.value, today)
      ensures tickers == Some(Resolved(old(tickers), web))
      ensures var rows := LongPrices(store.stocks, startDate, endDate.value, tickers.value, field);
        r == if wide then Wide(Pivot(Observations(rows))) else Long(rows)
      ensures data == r
      ensures startDate == old(startDate) && dlyChg == old(dlyChg) && mthChg == old(mthChg)
      ensures companiesInfo == old(companiesInfo) && meanVar == old(meanVar)
    {
      endDate := Some(ClampEndDate(endDate, today));
      var ts := GetTickers(web);
      var rows := LongPrices(store.stocks, startDate, endDate.value, ts, field);
      data := Long(rows);
      if wide {
        data := Wide(Pivot(Observations(rows)));
      }
      r := data;
    }

    /** `fetch_info_from_db`: the company records of the handler's tickers that
        have a sector. */
    method FetchInfoFromDb(web: Listings, store: Store) returns (r: seq<CompanyRow>)
      modifies this
      ensures tickers == Some(Resolved(old(tickers), web))
      ensures r == QueryCompanies(store.companies, tickers.value) && companiesInfo == r
      ensures forall c :: c in r <==> c in store.companies && c.symbol in tickers.value && c.sector.Some?
      ensures startDate == old(startDate) && endDate == old(endDate) && data == old(data)
      ensures dlyChg == old(dlyChg) && mthChg == old(mthChg) && meanVar == old(meanVar)
    {
      var ts := GetTickers(web);
      companiesInfo := QueryCompanies(store.companies, ts);
      r := companiesInfo;
    }

    /** `preprocess`: load the wide adjusted-close panel, drop the sparse
        symbols and forward-fill the rest. Loading does not change which panel
        the handler would load next. */
    method Preprocess(web: Listings, store: Store, today: Date) returns (r: Panel)
      modifies this
      ensures r == Clean(old(Prices(web, store, today)))
      ensures Prices(web, store, today) == old(Prices(web, store, today))
      ensures data == Wide(old(Prices(web, store, today)))
      ensures endDate == Some(ClampEndDate(old(endDate), today)) && tickers == Some(Resolved(old(tickers), web))
      ensures startDate == old(startDate) && dlyChg == old(dlyChg) && mthChg == old(mthChg)
      ensures companiesInfo == old(companiesInfo) && meanVar == old(meanVar)
    {
      ClampEndDateStable(endDate, today);
      var frame := FetchStocksFromDb(web, store, today, AdjClose, true);
      r := Clean(frame.panel);
    }

    /** `create_daily_change`: the daily returns of the preprocessed prices,
        stored in `_dly_chg`. */
    method CreateDailyChange(web: Listings, store: Store, today: Date) returns (r: Panel)
      modifies this
      ensures r == DailyReturns(Clean(old(Prices(web, store, today)))) && dlyChg == r
      ensures Valid(r) && Complete(r) && Increasing(DateLess, r.dates)
      ensures Prices(web, store, today) == old(Prices(web, store, today))
      ensures data == Wide(old(Prices(web, store, today)))
      ensures endDate == Some(ClampEndDate(old(endDate), today)) && tickers == Some(Resolved(old(tickers), web))
      ensures startDate == old(startDate) && mthChg == old(mthChg)
      ensures companiesInfo == old(companiesInfo) && meanVar == old(meanVar)
    {
      var prices := Preprocess(web, store, today);
      DailyReturnsKeepsOrder(prices);
      dlyChg := DailyReturns(prices);
      r := dlyChg;
    }

    /** `create_monthly_change`: compounds the stored daily returns by month,
        computing them first only when none are stored. When the stored daily
        returns are those of the current prices, the result is the same either
        way. */
    method CreateMonthlyChange(web: Listings, store: Store, today: Date) returns (r: Panel)
      requires ValidFrames()
      modifies this
      ensures ValidFrames()
      ensures dlyChg == if old(IsEmpty(dlyChg)) then DailyReturns(Clean(old(Prices(web, store, today)))) else old(dlyChg)
      ensures data == if old(IsEmpty(dlyChg)) then Wide(old(Prices(web, store, today))) else old(data)
      ensures endDate == if old(IsEmpty(dlyChg)) then Some(ClampEndDate(old(endDate), today)) else old(endDate)
      ensures tickers == if old(IsEmpty(dlyChg)) then Some(Resolved(old(tickers), web)) else old(tickers)
      ensures r == MonthlyReturns(dlyChg) && mthChg == r
      ensures old(dlyChg) == DailyReturns(Clean(old(Prices(web, store, today)))) ==>
        r == MonthlyReturns(DailyReturns(Clean(old(Prices(web, store, today)))))
      ensures Prices(web, store, today) == old(Prices(web, store, today))
      ensures startDate == old(startDate) && companiesInfo == old(companiesInfo) && meanVar == old(meanVar)
    {
      var daily := StoredDailyChange(web, store, today);
      mthChg := MonthlyReturns(daily);
      r := mthChg;
    }

    /** The daily returns `create_monthly_change` compounds: the stored ones,
        or freshly computed ones when none are stored. */
    method StoredDailyChange(web: Listings, store: Store, today: Date) returns (daily: Panel)
      requires ValidFrames()
      modifies this
      ensures ValidFrames() && daily == dlyChg
      ensures dlyChg == if old(IsEmpty(dlyChg)) then DailyReturns(Clean(old(Prices(web, store, today)))) else old(dlyChg)
      ensures data == if old(IsEmpty(dlyChg)) then Wide(old(Prices(web, store, today))) else old(data)
      ensures endDate == if old(IsEmpty(dlyChg)) then Some(ClampEndDate(old(endDate), today)) else old(endDate)
      ensures tickers == if old(IsEmpty(dlyChg)) then Some(Resolved(old(tickers), web)) else old(tickers)
      ensures Prices(web, store, today) == old(Prices(web, store, today))
      ensures startDate == old(startDate) && mthChg == old(mthChg)
      ensures companiesInfo == old(companiesInfo) && meanVar == old(meanVar)
    {
      if IsEmpty(dlyChg) {
        daily := CreateDailyChange(web, store, today);
      } else {
        daily := dlyChg;
      }
    }

    /** The returns `create_mean_var_df` summarises: the daily ones, always
        recomputed, or the monthly ones, reusing stored daily returns. */
    method ReturnsFor(web: Listings, store: Store, today: Date, dailyFreq: bool) returns (rts: Panel)
      requires ValidFrames()
      modifies this
      ensures ValidFrames()
      ensures rts == if dailyFreq then dlyChg else mthChg
      ensures tickers == if dailyFreq || old(IsEmpty(dlyChg)) then Some(Resolved(old(tickers), web)) else old(tickers)
      ensures dailyFreq || old(IsEmpty(dlyChg)) ==> (dlyChg == DailyReturns(Clean(old(Prices(web, store, today))))
        && endDate == Some(ClampEndDate(old(endDate), today)) && data == Wide(old(Prices(web, store, today))))
      ensures !dailyFreq && !old(IsEmpty(dlyChg)) ==> (dlyChg == old(dlyChg)
        && endDate == old(endDate) && data == old(data))
      ensures dailyFreq ==> mthChg == old(mthChg)
      ensures !dailyFreq ==> mthChg == MonthlyReturns(dlyChg)
      ensures startDate == old(startDate) && companiesInfo == old(companiesInfo) && meanVar == old(meanVar)
    {
      if dailyFreq {
        rts := CreateDailyChange(web, store, today);
      } else {
        rts := CreateMonthlyChange(web, store, today);
      }
    }

    /** The second half of `create_mean_var_df`: the per-symbol mean and
        variance of rts, inner-joined with the companies query, stored in
        `_mean_std`. */
    method Summarise(web: Listings, store: Store, rts: Panel) returns (r: seq<MeanRow>)
      requires Valid(rts)
      modifies this
      ensures tickers == Some(Resolved(old(tickers), web))
      ensures companiesInfo == QueryCompanies(store.companies, tickers.value)
      ensures r == MeanSectorTable(rts, companiesInfo) && meanVar == r
      ensures startDate == old(startDate) && endDate == old(endDate) && data == old(data)
      ensures dlyChg == old(dlyChg) && mthChg == old(mthChg)
    {
      var info := FetchInfoFromDb(web, store);
      meanVar := MeanSectorTable(rts, info);
      r := meanVar;
    }

    /** `create_mean_var_df`: the daily (or monthly) returns' per-symbol mean
        and variance, inner-joined with the sectors of the handler's companies. */
    method CreateMeanVarDf(web: Listings, store: Store, today: Date, dailyFreq: bool) returns (r: seq<MeanRow>)
      requires ValidFrames()
      modifies this
      ensures ValidFrames()
      ensures tickers == Some(Resolved(old(tickers), web))
      ensures dailyFreq || old(IsEmpty(dlyChg)) ==> (dlyChg == DailyReturns(Clean(old(Prices(web, store, today))))
        && endDate == Some(ClampEndDate(old(endDate), today)) && data == Wide(old(Prices(web, store, today))))
      ensures !dailyFreq && !old(IsEmpty(dlyChg)) ==> (dlyChg == old(dlyChg)
        && endDate == old(endDate) && data == old(data))
      ensures dailyFreq ==> mthChg == old(mthChg)
      ensures !dailyFreq ==> mthChg == MonthlyReturns(dlyChg)
      ensures companiesInfo == QueryCompanies(store.companies, tickers.value)
      ensures r == MeanSectorTable(if dailyFreq then dlyChg else mthChg, companiesInfo) && meanVar == r
      ensures startDate == old(startDate)
    {
      ghost var cached := tickers;
      var rts := ReturnsFor(web, store, today, dailyFreq);
      assert Resolved(tickers, web) == Resolved(cached, web);
      r := Summarise(web, store, rts);
    }
  }
}
