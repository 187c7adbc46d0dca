/** The two list handlers of `frontend/src/StockPortfolioManager.jsx` that change
    client-side state: `handleTrade`, which folds a trade into the in-memory holdings
    and records it at the head of the trade list, and `handleRemoveWatchlist`. No
    request is sent; these only rewrite the lists the page shows. */
module StockPortfolioManager {
  import opened Sorting

  /** A stock as the trading table offers it. */
  datatype Offer = Offer(symbol: string, price: real)

  /** An in-memory holding: the stock's fields plus a quantity. */
  datatype Position = Position(symbol: string, price: real, quantity: int)

  datatype TradeKind = Buy | Sell

  /** A trade record; `date` is the day part of the current time, a parameter here. */
  datatype Trade = Trade(date: string, symbol: string, quantity: int, price: real, kind: TradeKind)

  /** The page state the handlers rewrite. */
  datatype Page = Page(holdings: seq<Position>, trades: seq<Trade>)

  /** A watchlist entry as the page holds it. */
  datatype WatchItem = WatchItem(symbol: string, companyName: string)

  predicate Holds(holdings: seq<Position>, symbol: string) {
    exists i :: 0 <= i < |holdings| && holdings[i].symbol == symbol
  }

  /** `{ ...h, quantity: h.quantity + quantity }`. */
  function Added(h: Position, quantity: int): (r: Position)
    ensures r.symbol == h.symbol && r.price == h.price
    ensures r.quantity - h.quantity == quantity
  {
    Position(h.symbol, h.price, h.quantity + quantity)
  }

  /** `holdings.map(...)`: every position of `symbol` grows by `quantity`. */
  function AddToSymbol(holdings: seq<Position>, symbol: string, quantity: int): (r: seq<Position>)
    ensures |r| == |holdings|
    ensures forall i :: 0 <= i < |r| ==>
              r[i] == (if holdings[i].symbol == symbol then Added(holdings[i], quantity) else holdings[i])
  {
    seq(|holdings|, i requires 0 <= i < |holdings| =>
      if holdings[i].symbol == symbol then Added(holdings[i], quantity) else holdings[i])
  }

  /** The trade record `handleTrade` prepends. */
  function Record(stock: Offer, quantity: int, today: string): (t: Trade)
    ensures t.symbol == stock.symbol && t.quantity == quantity && t.price == stock.price
    ensures t.kind == Buy <==> quantity > 0
  {
    Trade(today, stock.symbol, quantity, stock.price, if quantity > 0 then Buy else Sell)
  }

  /** `handleTrade`: adds `quantity` to the positions in `stock`, or appends a new
      position when there is none, and puts the trade at the head of the list. A
      position is never dropped, whatever its quantity becomes. */
  function HandleTrade(page: Page, stock: Offer, quantity: int, today: string): (r: Page)
    ensures Holds(page.holdings, stock.symbol) ==>
              && |r.holdings| == |page.holdings|
              && forall i :: 0 <= i < |r.holdings| ==>
                   && r.holdings[i].symbol == page.holdings[i].symbol
                   && r.holdings[i].price == page.holdings[i].price
                   && r.holdings[i].quantity == page.holdings[i].quantity +
                        (if page.holdings[i].symbol == stock.symbol then quantity else 0)
    ensures !Holds(page.holdings, stock.symbol) ==>
              r.holdings == page.holdings + [Position(stock.symbol, stock.price, quantity)]
    ensures |r.trades| == |page.trades| + 1 && r.trades[1..] == page.trades
    ensures r.trades[0] == Record(stock, quantity, today)
    ensures Holds(r.holdings, stock.symbol)
  {
    var holdings :=
      if Holds(page.holdings, stock.symbol) then AddToSymbol(page.holdings, stock.symbol, quantity)
      else page.holdings + [Position(stock.symbol, stock.price, quantity)];
    assert Holds(holdings, stock.symbol) by {
      if Holds(page.holdings, stock.symbol) {
        var i :| 0 <= i < |page.holdings| && page.holdings[i].symbol == stock.symbol;
        assert holdings[i].symbol == stock.symbol;
      } else {
        assert holdings[|page.holdings|].symbol == stock.symbol;
      }
    }
    Page(holdings, [Record(stock, quantity, today)] + page.trades)
  }

  /** The quantity of `symbol` held over all positions. */
  function QuantityOf(holdings: seq<Position>, symbol: string): int
    decreases |holdings|
  {
    if |holdings| == 0 then 0
    else (if holdings[0].symbol == symbol then holdings[0].quantity else 0) + QuantityOf(holdings[1..], symbol)
  }

  /** No symbol has two positions. */
  predicate UniqueSymbols(holdings: seq<Position>) {
    forall i, j :: 0 <= i < j < |holdings| ==> holdings[i].symbol != holdings[j].symbol
  }

  /** With one position per symbol, a trade moves the traded symbol's quantity by
      exactly the traded amount and leaves every other symbol's quantity alone. */
  lemma TradeMovesQuantity(page: Page, stock: Offer, quantity: int, today: string, symbol: string)
    requires UniqueSymbols(page.holdings)
    ensures QuantityOf(HandleTrade(page, stock, quantity, today).holdings, symbol) ==
            QuantityOf(page.holdings, symbol) + (if symbol == stock.symbol then quantity else 0)
    ensures UniqueSymbols(HandleTrade(page, stock, quantity, today).holdings)
  {
    var hs := page.holdings;
    var r := HandleTrade(page, stock, quantity, today).holdings;
    if Holds(hs, stock.symbol) {
      var k :| 0 <= k < |hs| && hs[k].symbol == stock.symbol;
      AddToSymbolQuantity(hs, stock.symbol, quantity, symbol, k);
    } else {
      QuantityOfAppend(hs, Position(stock.symbol, stock.price, quantity), symbol);
      assert forall i :: 0 <= i < |hs| ==> hs[i].symbol != stock.symbol;
    }
  }

  lemma {:induction false} AddToSymbolQuantity(hs: seq<Position>, s: string, quantity: int, symbol: string, k: nat)
    requires UniqueSymbols(hs)
    requires k < |hs| && hs[k].symbol == s
    ensures QuantityOf(AddToSymbol(hs, s, quantity), symbol) ==
            QuantityOf(hs, symbol) + (if symbol == s then quantity else 0)
    decreases |hs|
  {
    var r := AddToSymbol(hs, s, quantity);
    assert r[1..] == AddToSymbol(hs[1..], s, quantity);
    if k == 0 {
      assert forall i :: 0 <= i < |hs[1..]| ==> hs[1..][i].symbol != s;
      AddToSymbolElsewhere(hs[1..], s, quantity, symbol);
    } else {
      AddToSymbolQuantity(hs[1..], s, quantity, symbol, k - 1);
    }
  }

  lemma AddToSymbolElsewhere(hs: seq<Position>, s: string, quantity: int, symbol: string)
    requires forall i :: 0 <= i < |hs| ==> hs[i].symbol != s
    ensures AddToSymbol(hs, s, quantity) == hs
  {
  }

  lemma {:induction false} QuantityOfAppend(hs: seq<Position>, p: Position, symbol: string)
    ensures QuantityOf(hs + [p], symbol) == QuantityOf(hs, symbol) + (if p.symbol == symbol then p.quantity else 0)
    decreases |hs|
  {
    if |hs| == 0 {
      assert hs + [p] == [p];
    } else {
      assert (hs + [p])[1..] == hs[1..] + [p];
      QuantityOfAppend(hs[1..], p, symbol);
    }
  }

  /** The watchlist entries not of `symbol`. */
  function NotOf(symbol: string): WatchItem -> bool {
    (w: WatchItem) => w.symbol != symbol
  }

  /** `handleRemoveWatchlist`: drops every entry of `symbol`, keeping the others. */
  function HandleRemoveWatchlist(watchlist: seq<WatchItem>, symbol: string): (r: seq<WatchItem>)
    ensures forall i :: 0 <= i < |r| ==> r[i].symbol != symbol
    ensures forall i :: 0 <= i < |watchlist| && watchlist[i].symbol != symbol ==> watchlist[i] in r
    ensures multiset(r) <= multiset(watchlist)
  {
    FilterComplete(watchlist, NotOf(symbol));
    Filter(watchlist, NotOf(symbol))
  }

  /** Removal keeps the survivors in their original order: it works piece by piece
      on any split of the list, and an entry survives alone exactly when its symbol
      differs. */
  lemma RemoveWatchlistKeepsOrder(a: seq<WatchItem>, b: seq<WatchItem>, symbol: string, x: WatchItem)
    ensures HandleRemoveWatchlist(a + b, symbol) ==
            HandleRemoveWatchlist(a, symbol) + HandleRemoveWatchlist(b, symbol)
    ensures HandleRemoveWatchlist([x], symbol) == (if x.symbol == symbol then [] else [x])
  {
    FilterConcat(a, b, NotOf(symbol));
    assert [x][1..] == [];
  }

  /** Removing twice removes nothing more. */
  lemma RemoveWatchlistIdempotent(watchlist: seq<WatchItem>, symbol: string)
    ensures HandleRemoveWatchlist(HandleRemoveWatchlist(watchlist, symbol), symbol) ==
            HandleRemoveWatchlist(watchlist, symbol)
  {
    FilterKeepsAll(HandleRemoveWatchlist(watchlist, symbol), NotOf(symbol));
  }
}
