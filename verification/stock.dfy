/** The stock catalogue queries of `backend/models/Stock.js`: the quote list with its
    day-change columns, lookup by id or symbol, and the price-history window. */
module Stock {
  import opened Wrappers
  import opened Sorting
  import Text
  import Sums

  /** A row of the `stocks` table. `id` is the primary key, `symbol` is unique. */
  datatype Stock = Stock(
    id: int,
    symbol: string,
    companyName: string,
    currentPrice: real,
    previousClose: real)

  /** A row of `getAll`: the stock and its computed day change. The percentage is
      `None` where SQL divides by a zero previous close and yields NULL. */
  datatype Quote = Quote(stock: Stock, changeAmount: real, changePercent: Option<real>)

  /** A row of the `stock_prices` table; `recordedAt` is in seconds. */
  datatype PricePoint = PricePoint(stockId: int, price: real, volume: int, recordedAt: int)

  const SecondsPerDay: int := 86400
  /** The window `getPriceHistory` uses when no day count is given. */
  const DefaultHistoryDays: int := 30

  /** How far the price moved since the previous close. */
  function ChangeAmount(currentPrice: real, previousClose: real): (r: real)
    ensures previousClose + r == currentPrice
  {
    currentPrice - previousClose
  }

  /** The move as a percentage of the previous close; NULL when that close is zero. */
  function ChangePercent(currentPrice: real, previousClose: real): (r: Option<real>)
    ensures r.None? <==> previousClose == 0.0
    ensures r.Some? ==> r.value * previousClose == ChangeAmount(currentPrice, previousClose) * 100.0
  {
    if previousClose == 0.0 then None
    else Some(Sums.Percent(currentPrice - previousClose, previousClose))
  }

  /** With a positive previous close the percentage rises, falls or stays flat exactly
      as the amount does. */
  lemma ChangePercentSign(currentPrice: real, previousClose: real)
    requires previousClose > 0.0
    ensures ChangePercent(currentPrice, previousClose).Some?
    ensures var pct := ChangePercent(currentPrice, previousClose).value;
            var amt := ChangeAmount(currentPrice, previousClose);
            (pct > 0.0 <==> amt > 0.0) && (pct < 0.0 <==> amt < 0.0) && (pct == 0.0 <==> amt == 0.0)
  {
    var pct := ChangePercent(currentPrice, previousClose).value;
    var amt := ChangeAmount(currentPrice, previousClose);
    assert pct * previousClose == amt * 100.0;
    if pct > 0.0 { assert pct * previousClose > 0.0; }
    if pct < 0.0 { assert pct * previousClose < 0.0; }
  }

  function QuoteOf(s: Stock): (q: Quote)
    ensures q.stock == s
  {
    Quote(s, ChangeAmount(s.currentPrice, s.previousClose), ChangePercent(s.currentPrice, s.previousClose))
  }

  /** Orders stocks by symbol. */
  function BySymbol(): (Stock, Stock) -> bool {
    Text.ByLex((s: Stock) => s.symbol)
  }

  function StocksOf(qs: seq<Quote>): (r: seq<Stock>)
    ensures |r| == |qs|
    ensures forall i :: 0 <= i < |qs| ==> r[i] == qs[i].stock
  {
    seq(|qs|, i requires 0 <= i < |qs| => qs[i].stock)
  }

  /** `getAll`: every stock, exactly once each, ordered by symbol, each with its day
      change. */
  function GetAll(stocks: seq<Stock>): (r: seq<Quote>)
    ensures multiset(StocksOf(r)) == multiset(stocks)
    ensures forall i, j :: 0 <= i < j < |r| ==> Text.LexLe(r[i].stock.symbol, r[j].stock.symbol)
    ensures forall i :: 0 <= i < |r| ==>
              r[i].stock.previousClose + r[i].changeAmount == r[i].stock.currentPrice
    ensures forall i :: 0 <= i < |r| ==>
              (r[i].changePercent.None? <==> r[i].stock.previousClose == 0.0)
    ensures forall i :: 0 <= i < |r| && r[i].changePercent.Some? ==>
              r[i].changePercent.value * r[i].stock.previousClose == r[i].changeAmount * 100.0
  {
    var sorted := Sort(stocks, BySymbol());
    Text.ByLexIsTotalPreorder((s: Stock) => s.symbol);
    SortIsSorted(stocks, BySymbol());
    var r := seq(|sorted|, i requires 0 <= i < |sorted| => QuoteOf(sorted[i]));
    assert StocksOf(r) == sorted;
    r
  }

  /** The first row satisfying `matches`, as `rows[0]` of a filtered query. */
  function FirstMatch(stocks: seq<Stock>, matches: Stock -> bool): (r: Option<Stock>)
    ensures r.None? <==> forall s :: s in stocks ==> !matches(s)
    ensures r.Some? ==> matches(r.value)
    ensures r.Some? ==> exists i :: (0 <= i < |stocks| && stocks[i] == r.value
              && forall j :: 0 <= j < i ==> !matches(stocks[j]))
  {
    if |stocks| == 0 then None
    else if matches(stocks[0]) then Some(stocks[0])
    else
      var r := FirstMatch(stocks[1..], matches);
      assert stocks == [stocks[0]] + stocks[1..];
      if r.Some? then
        var i :| (0 <= i < |stocks[1..]| && stocks[1..][i] == r.value
                 && forall j :: 0 <= j < i ==> !matches(stocks[1..][j]));
        assert stocks[i + 1] == r.value;
        assert forall j :: 0 <= j < i + 1 ==> !matches(stocks[j]) by {
          forall j | 0 <= j < i + 1 ensures !matches(stocks[j]) {
            if j > 0 { assert stocks[j] == stocks[1..][j - 1]; }
          }
        }
        r
      else r
  }

  /** `getById`: the stock with that id, or nothing. */
  function GetById(stocks: seq<Stock>, id: int): (r: Option<Stock>)
    ensures r.None? <==> forall s :: s in stocks ==> s.id != id
    ensures r.Some? ==> r.value in stocks && r.value.id == id
  {
    FirstMatch(stocks, (s: Stock) => s.id == id)
  }

  /** `getBySymbol`: the stock with that symbol, or nothing. */
  function GetBySymbol(stocks: seq<Stock>, symbol: string): (r: Option<Stock>)
    ensures r.None? <==> forall s :: s in stocks ==> s.symbol != symbol
    ensures r.Some? ==> r.value in stocks && r.value.symbol == symbol
  {
    FirstMatch(stocks, (s: Stock) => s.symbol == symbol)
  }

  /** Ids are a primary key: no two rows share one. */
  ghost predicate UniqueIds(stocks: seq<Stock>) {
    forall i, j :: 0 <= i < j < |stocks| ==> stocks[i].id != stocks[j].id
  }

  /** With a primary key, lookup finds the one row carrying the id wherever it sits. */
  lemma GetByIdFindsRow(stocks: seq<Stock>, k: int)
    requires UniqueIds(stocks)
    requires 0 <= k < |stocks|
    ensures GetById(stocks, stocks[k].id) == Some(stocks[k])
  {
    var r := GetById(stocks, stocks[k].id);
    var i :| 0 <= i < |stocks| && stocks[i] == r.value && r.value.id == stocks[k].id;
    assert i == k;
  }

  /** Orders price points oldest first. */
  function ByRecordedAt(): (PricePoint, PricePoint) -> bool {
    (a: PricePoint, b: PricePoint) => a.recordedAt <= b.recordedAt
  }

  /** `getPriceHistory`: the points of one stock recorded at or after `now` minus
      `days` days (30 when not given), oldest first. The clock is a parameter. */
  function GetPriceHistory(prices: seq<PricePoint>, stockId: int, days: Option<int>, now: int)
    : (r: seq<PricePoint>)
    ensures forall p :: p in r <==>
              p in prices && p.stockId == stockId
              && p.recordedAt >= now - days.GetOr(DefaultHistoryDays) * SecondsPerDay
    ensures forall p :: multiset(r)[p] ==
              if p.stockId == stockId && p.recordedAt >= now - days.GetOr(DefaultHistoryDays) * SecondsPerDay
              then multiset(prices)[p] else 0
    ensures forall i, j :: 0 <= i < j < |r| ==> r[i].recordedAt <= r[j].recordedAt
  {
    var cutoff := now - days.GetOr(DefaultHistoryDays) * SecondsPerDay;
    var inWindow := (p: PricePoint) => p.stockId == stockId && p.recordedAt >= cutoff;
    var window := Filter(prices, inWindow);
    FilterComplete(prices, inWindow);
    FilterFromInput(prices, inWindow);
    FilterCounts(prices, inWindow);
    SortIsSorted(window, ByRecordedAt());
    var r := Sort(window, ByRecordedAt());
    assert forall p :: p in r <==> p in multiset(r);
    r
  }
}
