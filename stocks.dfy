/**
 * The stock routes (Financial-advisor/Backend/routes/stocks.js): classifying the
 * quote provider's answer, the `/summary` fold over the watch-list with its
 * staggered dispatch, and the `/live`, `/daily` and `/history` handlers.
 *
 * Nothing is sent over the network: what the provider answers to each request
 * is an input (`Response`), and every handler returns the requests it would
 * have sent (`calls`) together with the reply it gives.
 */
module Stocks {
  import opened Base
  import opened Quotes
  import opened Series

  /** The watch-list of `/summary`. */
  const TopStocks: seq<string> := ["RELIANCE.BSE", "TCS.BSE", "INFY.BSE", "HDFCBANK.BSE", "SBIN.BSE"]

  /** Milliseconds between two consecutive dispatches of `/summary`. */
  const StaggerMs: nat := 12000
  /** The provider's free-tier quota: requests per minute. */
  const QuotaPerMinute: nat := 5

  const IntradaySeries := "Time Series (5min)"
  const DailySeries := "Time Series (Daily)"

  const RateLimitMessage := "API rate limit exceeded. Please try again later."
  const NoDataMessage := "No data available"
  const NoSymbolDataMessage := "No data available for this symbol"
  const MissingSymbolMessage := "Please provide a symbol parameter"
  const MissingKeyMessage := "Alpha Vantage API key is not configured"
  /** What reading '4. close' of the missing latest record of an empty series throws. */
  const NoRecordMessage := "Cannot read properties of undefined (reading '4. close')"

  /** The provider's JSON body: the optional 'Error Message' and 'Note' fields
      and the series objects it carries, by name. */
  datatype Body = Body(errorMessage: Option<string>, note: Option<string>, series: map<string, seq<Entry>>)

  /** What one request to the provider comes back with. */
  datatype Response = Delivered(body: Body) | TransportFailure(message: string)

  /** Every series in the body is a JSON object, so its keys are distinct. */
  predicate WellFormed(resp: Response)
  {
    resp.Delivered? ==> forall name :: name in resp.body.series ==> DistinctKeys(resp.body.series[name])
  }

  /** `fetchAlphaVantageData` (stocks.js:31-54): a transport failure is rethrown;
      a truthy 'Error Message' is thrown as the error, checked before 'Note';
      a truthy 'Note' is thrown as the rate-limit error; otherwise the body is
      returned as it came. */
  function FetchAlphaVantage(resp: Response): (r: Result<Body>)
    ensures resp.TransportFailure? ==> r == Err(resp.message)
    ensures resp.Delivered? && Truthy(resp.body.errorMessage) ==> r == Err(resp.body.errorMessage.value)
    ensures resp.Delivered? && !Truthy(resp.body.errorMessage) && Truthy(resp.body.note) ==> r == Err(RateLimitMessage)
    ensures r.Ok? <==> resp.Delivered? && !Truthy(resp.body.errorMessage) && !Truthy(resp.body.note)
    ensures r.Ok? ==> r.value == resp.body
  {
    match resp
    case TransportFailure(m) => Err(m)
    case Delivered(body) =>
      if Truthy(body.errorMessage) then Err(body.errorMessage.value)
      else if Truthy(body.note) then Err(RateLimitMessage)
      else Ok(body)
  }

  // ---------------------------------------------------------------------------
  // Requests

  /** One request to the provider: its query parameters and how long after the
      handler starts it is sent. */
  datatype Call = Call(params: map<string, string>, delayMs: nat)

  function IntradayParams(symbol: string, outputSize: string, apiKey: string): map<string, string>
  {
    map["function" := "TIME_SERIES_INTRADAY", "symbol" := symbol, "interval" := "5min",
        "outputsize" := outputSize, "apikey" := apiKey]
  }

  function DailyParams(symbol: string, apiKey: string): map<string, string>
  {
    map["function" := "TIME_SERIES_DAILY", "symbol" := symbol, "outputsize" := "compact", "apikey" := apiKey]
  }

  /** How long the summary waits before fetching the symbol at `index`
      (stocks.js:93-95): nothing for the first, index × 12 s for the others. */
  function DispatchDelay(index: nat): (ms: nat)
    ensures ms == index * StaggerMs
  {
    if index > 0 then index * StaggerMs else 0
  }

  /** The symbols whose dispatch falls in the minute [t, t + 60000). */
  function DispatchedWithin(n: nat, t: int): set<nat>
  {
    set i: nat | i < n && t <= DispatchDelay(i) < t + 60000
  }

  /** Whatever the batch size, no minute sees more dispatches than the quota. */
  lemma AtMostQuotaPerMinute(n: nat, t: int)
    ensures |DispatchedWithin(n, t)| <= QuotaPerMinute
  {
    var a: nat := if t <= 0 then 0 else (t + StaggerMs - 1) / StaggerMs;
    assert a * StaggerMs >= t;
    assert a == 0 || (a - 1) * StaggerMs < t;
    var window := {a, a + 1, a + 2, a + 3, a + 4};
    forall i | i in DispatchedWithin(n, t) ensures i in window {
      assert i * StaggerMs >= t;
      assert i * StaggerMs < t + 60000;
      assert i >= a;
      assert i < a + 5;
    }
    assert DispatchedWithin(n, t) <= window;
    SubsetCard(DispatchedWithin(n, t), window);
  }

  lemma SubsetCard(small: set<nat>, big: set<nat>)
    requires small <= big
    ensures |small| <= |big|
  {
    assert big == small + (big - small);
  }

  // ---------------------------------------------------------------------------
  // GET /summary

  /** One element of the summary's `data` array; `error` is absent on success. */
  datatype SymbolSummary = SymbolSummary(symbol: string, price: string, change: string, time: string, error: Option<string>)

  function Unavailable(symbol: string, message: string): SymbolSummary
  {
    SymbolSummary(symbol, "N/A", "N/A", "N/A", Some(message))
  }

  /** `timeKeys[1] || timeKeys[0]`: the second newest key, unless there is none
      or it is the empty string (which is falsy). */
  function PreviousIndex(sorted: seq<Entry>): (i: nat)
    requires sorted != []
    ensures i < |sorted|
  {
    if |sorted| > 1 && sorted[1].key != "" then 1 else 0
  }

  /** The summary of one symbol once the provider has answered (stocks.js:97-142). */
  function SummarizeSymbol(symbol: string, resp: Response): (r: SymbolSummary)
    ensures r.symbol == symbol
    ensures r.error.Some? ==> r.price == "N/A" && r.change == "N/A" && r.time == "N/A"
    ensures FetchAlphaVantage(resp).Err? ==> r.error == Some(FetchAlphaVantage(resp).message)
    ensures FetchAlphaVantage(resp).Ok? && IntradaySeries !in resp.body.series ==> r.error == Some(NoDataMessage)
    ensures r.error.None? <==>
              FetchAlphaVantage(resp).Ok? && IntradaySeries in resp.body.series && resp.body.series[IntradaySeries] != []
  {
    match FetchAlphaVantage(resp)
    case Err(m) => Unavailable(symbol, m)
    case Ok(body) =>
      if IntradaySeries !in body.series then Unavailable(symbol, NoDataMessage)
      else
        var sorted := SortDesc(body.series[IntradaySeries]);
        if sorted == [] then Unavailable(symbol, NoRecordMessage)
        else
          var latest := sorted[0];
          var previous := sorted[PreviousIndex(sorted)];
          SymbolSummary(symbol, FixedOrNaN(latest.quote.close),
                        CalculateChange(latest.quote.close, previous.quote.close),
                        FormatTime(latest.key), None)
  }

  /** On success the price and time come from the entry with the greatest key. */
  lemma SummaryUsesNewest(symbol: string, resp: Response)
    requires WellFormed(resp)
    requires SummarizeSymbol(symbol, resp).error.None?
    ensures exists latest :: IsNewestOf(latest, resp.body.series[IntradaySeries])
              && SummarizeSymbol(symbol, resp).price == FixedOrNaN(latest.quote.close)
              && SummarizeSymbol(symbol, resp).time == FormatTime(latest.key)
  {
    SortDescHeadIsNewest(resp.body.series[IntradaySeries]);
  }

  /** On success with a non-empty second newest key, the change compares the
      newest close with the second newest close. */
  lemma SummaryComparesTwoNewest(symbol: string, resp: Response)
    requires WellFormed(resp)
    requires SummarizeSymbol(symbol, resp).error.None?
    requires var s := resp.body.series[IntradaySeries]; |s| >= 2 && SortDesc(s)[1].key != ""
    ensures exists latest, previous ::
              var s := resp.body.series[IntradaySeries];
              IsNewestOf(latest, s) && previous in s && previous != latest
              && (forall x :: x in s && x != latest ==> x == previous || LexLess(x.key, previous.key))
              && SummarizeSymbol(symbol, resp).change == CalculateChange(latest.quote.close, previous.quote.close)
  {
    var s := resp.body.series[IntradaySeries];
    var r := SortDesc(s);
    assert FetchAlphaVantage(resp) == Ok(resp.body);
    assert PreviousIndex(r) == 1;
    assert SummarizeSymbol(symbol, resp).change == CalculateChange(r[0].quote.close, r[1].quote.close);
    SortDescHeadIsNewest(s);
    SortDescSecondIsNextNewest(s);
    LexLessIrreflexive(r[0].key);
    assert r[1] in s && r[1] != r[0] by {
      assert r[1] in multiset(s);
    }
    forall x | x in s && x != r[0] ensures x == r[1] || LexLess(x.key, r[1].key) {
      assert x in r[1..];
    }
  }

  /** When there is no second key, or it is the empty string, `timeKeys[1] ||
      timeKeys[0]` falls back to the newest key: the change compares the newest
      close with itself. */
  lemma SummaryFallsBackToNewest(symbol: string, resp: Response)
    requires WellFormed(resp)
    requires SummarizeSymbol(symbol, resp).error.None?
    requires var s := resp.body.series[IntradaySeries]; |s| == 1 || (|s| >= 2 && SortDesc(s)[1].key == "")
    ensures exists latest :: IsNewestOf(latest, resp.body.series[IntradaySeries])
              && SummarizeSymbol(symbol, resp).change == CalculateChange(latest.quote.close, latest.quote.close)
  {
    var s := resp.body.series[IntradaySeries];
    var r := SortDesc(s);
    assert FetchAlphaVantage(resp) == Ok(resp.body);
    assert |r| == |s| by {
      assert |multiset(r)| == |multiset(s)|;
    }
    assert PreviousIndex(r) == 0;
    SortDescHeadIsNewest(s);
  }

  /** A series with a single point compares the point with itself: the change
      is "+0.00%" when its close is a non-zero number. */
  lemma SinglePointChange(symbol: string, resp: Response, c: real)
    requires FetchAlphaVantage(resp).Ok? && IntradaySeries in resp.body.series
    requires |resp.body.series[IntradaySeries]| == 1
    requires resp.body.series[IntradaySeries][0].quote.close == Some(c) && c != 0.0
    ensures SummarizeSymbol(symbol, resp).change == "+0.00%"
  {
    var s := resp.body.series[IntradaySeries];
    var r := SortDesc(s);
    assert r[0] in multiset(s);
    assert r[0] == s[0];
    assert ChangePercent(c, c) == 0.0;
    assert Cents(0.0) == 0;
    assert Fixed2(0.0) == "0.00";
  }

  /** The fold over the watch-list (stocks.js:91-145): the symbol at index i is
      dispatched after DispatchDelay(i) and answered by `resps[i]`; the results
      are held by index, so the order is the watch-list's whatever the order of
      completion. */
  function Summarize(symbols: seq<string>, resps: seq<Response>): (r: seq<SymbolSummary>)
    requires |resps| == |symbols|
    ensures |r| == |symbols|
    ensures forall i :: 0 <= i < |r| ==> r[i].symbol == symbols[i]
    ensures forall i :: 0 <= i < |r| && FetchAlphaVantage(resps[i]).Err? ==>
              r[i] == Unavailable(symbols[i], FetchAlphaVantage(resps[i]).message)
  {
    seq(|symbols|, i requires 0 <= i < |symbols| => SummarizeSymbol(symbols[i], resps[i]))
  }

  /** A failure of one symbol does not affect the others: two runs that differ
      only in one symbol's answer agree on every other symbol. */
  lemma SummaryIsPerSymbol(symbols: seq<string>, resps: seq<Response>, j: nat, other: Response)
    requires |resps| == |symbols| && j < |symbols|
    ensures var a := Summarize(symbols, resps);
            var b := Summarize(symbols, resps[j := other]);
            |a| == |b| && forall i :: 0 <= i < |a| && i != j ==> a[i] == b[i]
  {
  }

  /** The requests of the summary: one per symbol, in order, staggered. */
  function SummaryCalls(symbols: seq<string>, apiKey: string): (calls: seq<Call>)
    ensures |calls| == |symbols|
    ensures forall i :: 0 <= i < |calls| ==> "symbol" in calls[i].params && calls[i].params["symbol"] == symbols[i] && calls[i].delayMs == i * StaggerMs
  {
    seq(|symbols|, i requires 0 <= i < |symbols| => Call(IntradayParams(symbols[i], "compact", apiKey), DispatchDelay(i)))
  }

  // ---------------------------------------------------------------------------
  // Replies

  /** One element of the `/daily` (`date`) or `/history` (`timestamp`) table. */
  datatype Row = Row(stamp: string, open: string, high: string, low: string, close: string, volume: Option<string>)

  datatype Reply =
    | Failure(status: nat, message: string, error: Option<string>)
    | Summary(data: seq<SymbolSummary>)
    | Live(symbol: string, price: string, open: string, high: string, low: string,
           volume: Option<string>, lastUpdated: string)
    | Table(symbol: string, rows: seq<Row>)
  {
    function Status(): nat
    {
      if Failure? then status else 200
    }
  }

  /** The requests a handler sends and the reply it gives. */
  datatype Exchange = Exchange(calls: seq<Call>, reply: Reply)

  /** GET /summary (stocks.js:80-159): 500 without an API key and no request;
      otherwise every symbol of the watch-list is fetched and summarised. */
  function SummaryEndpoint(apiKey: Option<string>, resps: seq<Response>): (x: Exchange)
    requires |resps| == |TopStocks|
    ensures !Truthy(apiKey) ==> x.calls == [] && x.reply == Failure(500, MissingKeyMessage, None)
    ensures Truthy(apiKey) ==> |x.calls| == |TopStocks| && x.reply.Summary? && |x.reply.data| == |TopStocks|
    ensures Truthy(apiKey) ==> forall i :: 0 <= i < |TopStocks| ==> x.reply.data[i].symbol == TopStocks[i]
    ensures Truthy(apiKey) ==> x.calls == SummaryCalls(TopStocks, apiKey.value) && x.reply.data == Summarize(TopStocks, resps)
  {
    if !Truthy(apiKey) then Exchange([], Failure(500, MissingKeyMessage, None))
    else Exchange(SummaryCalls(TopStocks, apiKey.value), Summary(Summarize(TopStocks, resps)))
  }

  // ---------------------------------------------------------------------------
  // GET /live, /daily, /history

  datatype Endpoint = LiveEndpoint | DailyEndpoint | HistoryEndpoint

  /** The request's query string: `symbol` and, for `/history`, `month`. */
  datatype Query = Query(symbol: Option<string>, month: Option<string>)

  function SeriesName(e: Endpoint): string
  {
    if e == DailyEndpoint then DailySeries else IntradaySeries
  }

  /** How many of the newest entries a table endpoint returns. */
  function RowLimit(e: Endpoint): nat
  {
    if e == DailyEndpoint then 5 else 10
  }

  function ErrorMessage(e: Endpoint): string
  {
    match e
    case LiveEndpoint => "Error fetching live stock data"
    case DailyEndpoint => "Error fetching daily stock data"
    case HistoryEndpoint => "Error fetching stock history"
  }

  /** The provider parameters of each endpoint (stocks.js:183-188, 245-249,
      313-323): `/history` asks for the full series and adds `month` only when
      the query has a truthy one. */
  function RequestParams(e: Endpoint, symbol: string, month: Option<string>, apiKey: string): (p: map<string, string>)
    ensures "symbol" in p && p["symbol"] == symbol && "apikey" in p && p["apikey"] == apiKey
    ensures "month" in p <==> e == HistoryEndpoint && Truthy(month)
    ensures "month" in p ==> p["month"] == month.value
  {
    match e
    case LiveEndpoint => IntradayParams(symbol, "compact", apiKey)
    case DailyEndpoint => DailyParams(symbol, apiKey)
    case HistoryEndpoint =>
      var p := IntradayParams(symbol, "full", apiKey);
      if Truthy(month) then p["month" := month.value] else p
  }

  /** A table row: the key as its date or timestamp, the four prices through
      toFixed(2), and the volume passed on as the provider wrote it. */
  function RowOf(e: Entry): (row: Row)
    ensures row.stamp == e.key && row.volume == e.quote.volume
    ensures Shows(row.open, e.quote.open) && Shows(row.high, e.quote.high)
    ensures Shows(row.low, e.quote.low) && Shows(row.close, e.quote.close)
  {
    Row(e.key, FixedOrNaN(e.quote.open), FixedOrNaN(e.quote.high), FixedOrNaN(e.quote.low),
        FixedOrNaN(e.quote.close), e.quote.volume)
  }

  /** The rows of `/daily` and `/history`, one per entry and in its order. */
  function Rows(s: seq<Entry>): (rows: seq<Row>)
    ensures |rows| == |s|
    ensures forall i :: 0 <= i < |s| ==> rows[i].stamp == s[i].key && rows[i].volume == s[i].quote.volume
    ensures forall i :: 0 <= i < |s| ==>
              Shows(rows[i].open, s[i].quote.open) && Shows(rows[i].high, s[i].quote.high)
              && Shows(rows[i].low, s[i].quote.low) && Shows(rows[i].close, s[i].quote.close)
  {
    seq(|s|, i requires 0 <= i < |s| => RowOf(s[i]))
  }

  /** The reply once the provider has answered: a thrown error is a 500 with its
      message, a missing series a 404, and otherwise the series is normalised. */
  function Respond(e: Endpoint, symbol: string, resp: Response): (reply: Reply)
    ensures FetchAlphaVantage(resp).Err? ==> reply == Failure(500, ErrorMessage(e), Some(FetchAlphaVantage(resp).message))
    ensures FetchAlphaVantage(resp).Ok? && SeriesName(e) !in resp.body.series ==>
              reply == Failure(404, NoSymbolDataMessage, None)
    ensures reply.Failure? ==> reply.status in {404, 500}
  {
    match FetchAlphaVantage(resp)
    case Err(m) => Failure(500, ErrorMessage(e), Some(m))
    case Ok(body) =>
      if SeriesName(e) !in body.series then Failure(404, NoSymbolDataMessage, None)
      else
        var s := body.series[SeriesName(e)];
        if e == LiveEndpoint then
          var sorted := SortDesc(s);
          if sorted == [] then Failure(500, ErrorMessage(e), Some(NoRecordMessage))
          else
            var latest := sorted[0];
            Live(symbol, FixedOrNaN(latest.quote.close), FixedOrNaN(latest.quote.open),
                 FixedOrNaN(latest.quote.high), FixedOrNaN(latest.quote.low),
                 latest.quote.volume, latest.key)
        else Table(symbol, Rows(Newest(s, RowLimit(e))))
  }

  /** The single-symbol handlers (stocks.js:165-365): a missing symbol is a 400
      before the API key is looked at, a missing key a 500, and neither sends a
      request; otherwise exactly one request goes out, without delay. */
  function SingleSymbol(e: Endpoint, q: Query, apiKey: Option<string>, resp: Response): (x: Exchange)
    ensures !Truthy(q.symbol) ==> x.calls == [] && x.reply == Failure(400, MissingSymbolMessage, None)
    ensures Truthy(q.symbol) && !Truthy(apiKey) ==> x.calls == [] && x.reply == Failure(500, MissingKeyMessage, None)
    ensures Truthy(q.symbol) && Truthy(apiKey) ==>
              x.calls == [Call(RequestParams(e, q.symbol.value, q.month, apiKey.value), 0)]
              && x.reply == Respond(e, q.symbol.value, resp)
  {
    if !Truthy(q.symbol) then Exchange([], Failure(400, MissingSymbolMessage, None))
    else if !Truthy(apiKey) then Exchange([], Failure(500, MissingKeyMessage, None))
    else Exchange([Call(RequestParams(e, q.symbol.value, q.month, apiKey.value), 0)], Respond(e, q.symbol.value, resp))
  }

  /** `/live` reports the entry with the greatest key: its prices and its key as
      `lastUpdated`. */
  lemma LiveReportsNewest(symbol: string, resp: Response)
    requires WellFormed(resp)
    requires Respond(LiveEndpoint, symbol, resp).Live?
    ensures exists latest :: IsNewestOf(latest, resp.body.series[IntradaySeries])
              && Respond(LiveEndpoint, symbol, resp).lastUpdated == latest.key
              && Respond(LiveEndpoint, symbol, resp).price == FixedOrNaN(latest.quote.close)
              && Respond(LiveEndpoint, symbol, resp).volume == latest.quote.volume
  {
    SortDescHeadIsNewest(resp.body.series[IntradaySeries]);
  }

  /** `/daily` and `/history` list the min(limit, #keys) newest entries of the
      series, strictly newest first, each row built from an entry of the series. */
  lemma TableListsNewest(e: Endpoint, symbol: string, resp: Response)
    requires WellFormed(resp) && e != LiveEndpoint
    requires FetchAlphaVantage(resp).Ok? && SeriesName(e) in resp.body.series
    ensures var s := resp.body.series[SeriesName(e)];
            var rows := Respond(e, symbol, resp).rows;
            && Respond(e, symbol, resp).Table?
            && |rows| == (if RowLimit(e) < |s| then RowLimit(e) else |s|)
            && (forall i, j :: 0 <= i < j < |rows| ==> LexLess(rows[j].stamp, rows[i].stamp))
            && (forall i :: 0 <= i < |rows| ==> exists x :: x in s && rows[i] == RowOf(x))
  {
    var s := resp.body.series[SeriesName(e)];
    var top := Newest(s, RowLimit(e));
    assert FetchAlphaVantage(resp) == Ok(resp.body);
    assert Respond(e, symbol, resp) == Table(symbol, Rows(top));
    NewestAreTheNewest(s, RowLimit(e));
    forall i | 0 <= i < |top| ensures exists x :: x in s && Rows(top)[i] == RowOf(x) {
      assert top[i] in top;
    }
  }

  /** No entry of the series that `/daily` or `/history` leaves out is newer
      than an entry it lists. */
  lemma TableOmitsOnlyOlder(e: Endpoint, symbol: string, resp: Response)
    requires WellFormed(resp) && e != LiveEndpoint
    requires FetchAlphaVantage(resp).Ok? && SeriesName(e) in resp.body.series
    ensures var s := resp.body.series[SeriesName(e)];
            var rows := Respond(e, symbol, resp).rows;
            forall x, i :: x in s && 0 <= i < |rows| && LexLess(rows[i].stamp, x.key) ==>
              exists j :: 0 <= j < |rows| && rows[j].stamp == x.key
  {
    var s := resp.body.series[SeriesName(e)];
    var top := Newest(s, RowLimit(e));
    var rows := Rows(top);
    assert FetchAlphaVantage(resp) == Ok(resp.body);
    assert Respond(e, symbol, resp) == Table(symbol, rows);
    NewestAreTheNewest(s, RowLimit(e));
    forall x, i | x in s && 0 <= i < |rows| && LexLess(rows[i].stamp, x.key)
      ensures exists j :: 0 <= j < |rows| && rows[j].stamp == x.key
    {
      assert top[i] in top;
      if x !in top {
        assert LexLess(x.key, top[i].key);
        LexLessTotal(x.key, top[i].key);
        LexLessIrreflexive(x.key);
        assert false;
      }
      var j :| 0 <= j < |top| && top[j] == x;
      assert rows[j].stamp == x.key;
    }
  }
}
