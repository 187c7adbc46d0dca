# Stock portfolio ledger in Dafny

This project models the core of a stock-portfolio tracker: a REST backend over a
relational database and a React front end. The core is the **portfolio ledger** of
`backend/models/Portfolio.js`. It holds each user's cash balance, one holding row per
(user, stock) and a log of BUY and SELL transactions. Buying debits the cost and
folds the shares into the holding at a weighted-average price. Selling credits the
proceeds and scales the cost basis down, or deletes the row once it drains to zero.
Either trade fails as a whole when cash or shares are short.

Around the ledger the project also models:

- the valued holdings list, the portfolio summary and the transaction history;
- the stock catalogue queries;
- the watchlist of (user, stock) pairs;
- the news queries;
- the request guard and defaults of the portfolio controller;
- the two client-side list handlers of the React page.

The model is purely functional:

- A database table is a sequence of rows. The holdings table is taken to have at
  most one row per (user, stock) and the watchlist at most one entry per pair; both
  are stated as invariants (see "## Left out").
- Every operation is a function from the old tables to the new tables or to a
  result.
- A trade returns `Result<Ledger, TradeError>`. A failure carries no ledger, so the
  caller keeps the ledger it had. This is the model of the rollback that undoes every
  statement of a failed trade.
- Money is an exact `real` and share quantities are `int`.
- SQL `ORDER BY` is an insertion sort driven by a comparator. Its contracts promise
  only a sorted permutation, because SQL leaves the order of ties open.
- SQL `LIMIT n` keeps the first `n` rows of that order.
- A division by zero in SQL yields NULL, modelled as `None`.

Files:

| file | module | models |
|---|---|---|
| `wrappers.dfy` | `Wrappers` | `Option` and `Result` |
| `sorting.dfy` | `Sorting` | `ORDER BY`, `WHERE` and `LIMIT` over sequences of rows |
| `text.dfy` | `Text` | code-point string order and substring search |
| `sums.dfy` | `Sums` | column sums and how row changes move them |
| `stock.dfy` | `Stock` | `backend/models/Stock.js` |
| `portfolio.dfy` | `Portfolio` | buy and sell in `backend/models/Portfolio.js` |
| `portfolio_views.dfy` | `PortfolioViews` | the read side of `backend/models/Portfolio.js` |
| `watchlist.dfy` | `Watchlist` | `backend/models/Watchlist.js` |
| `news.dfy` | `News` | `backend/models/News.js` |
| `portfolio_controller.dfy` | `PortfolioController` | `backend/controllers/portfolioController.js` |
| `stock_portfolio_manager.dfy` | `StockPortfolioManager` | `handleTrade` and `handleRemoveWatchlist` in `frontend/src/StockPortfolioManager.jsx` |

The ledger invariant `Portfolio.Valid` has four parts:

- each (user, stock) key has at most one holding row;
- no row has zero or fewer shares;
- on every row, `average_price × quantity = total_invested`;
- no cash balance is negative.

Points where the code behaves in a way a reader might not expect, all followed by
the model:

- The news lookup by symbol matches by substring: `News.js:16-19` uses `LIKE
  '%symbol%'`, so "AAPL" also finds articles about "AAPLX" (`News.ShorterSymbolMatchesLonger`).
- `average_price` is written only on a buy (`Portfolio.js:63-71`). A sell leaves it
  as it was and scales `total_invested` instead (`Portfolio.js:128-135`). The
  relation between the two columns still holds (`Portfolio.SellPreservesValid`).
- A buy for a user without a `users` row is not a clean error in the code. Reading
  `cash_balance` of the missing row throws a `TypeError`. The model reports it as
  `UnknownUser`, with the message that error carries, and the controller answers 500.
  A sell for such a user succeeds: the cash `UPDATE` affects no row.
- `parseInt` of a number reads the number's string form. JavaScript writes numbers
  below 0.000001 and from 10^21 up in exponent notation, so `parseInt(1e-7)` is 1
  and `parseInt(1e21)` is 1 (`PortfolioController.ParseIntExponentForms`).

## Model

| member | source | states |
|---|---|---|
| Portfolio.IndexOf | backend/models/Portfolio.js:56-63 | the row found for a (user, stock) key is the first with that key, and there is none exactly when no row has it |
| Portfolio.BuyStock | backend/models/Portfolio.js:40-102 | a buy fails exactly when the user is unknown or the cost `quantity × price` exceeds the cash, so a cost equal to the balance succeeds; on success the buyer's cash drops by exactly the cost and stays at or above 0, no other balance moves, exactly one BUY transaction with `total_amount = quantity × price` is appended, the held share count grows by exactly the quantity, and a buy of at least one share creates no empty row |
| Portfolio.BuyUpdatesHolding | backend/models/Portfolio.js:61-79 | after a buy the key's row holds the old quantity plus the bought shares and the old basis plus the cost, with `average_price × quantity = total_invested`; a first buy opens the row at the trade price |
| Portfolio.BuyKeepsOtherHoldings | backend/models/Portfolio.js:68-78 | a buy leaves the row of every other (user, stock) key as it was |
| Portfolio.TwoBuysWeightedAverage | backend/models/Portfolio.js:64-66 | two buys of a stock not held before leave the quantity `q1 + q2` and the average price `(q1·p1 + q2·p2) / (q1 + q2)` |
| Portfolio.BuyConservesWealth | backend/models/Portfolio.js:61-85 | a buy moves the cost from cash into cost basis: every user's cash plus total invested is unchanged |
| Portfolio.BuyPreservesValid | backend/models/Portfolio.js:61-85 | a successful buy keeps keys unique, rows non-empty, average times quantity equal to the basis, and cash non-negative |
| Portfolio.SellStock | backend/models/Portfolio.js:104-158 | a sell fails exactly when the user holds no row of the stock or fewer shares than requested, so a sell of 0 shares from a row succeeds; on success the seller's cash (when the user has a row) rises by exactly `quantity × price`, no other balance moves, exactly one SELL transaction with that total is appended, and a table without empty rows keeps none |
| Portfolio.SellUpdatesHolding | backend/models/Portfolio.js:120-135 | a sell takes the shares out of the holding; a sell of every share deletes the row; a partial sell keeps the average price and scales the basis by `newQuantity / oldQuantity` |
| Portfolio.SellKeepsOtherHoldings | backend/models/Portfolio.js:124-134 | a sell leaves the row of every other (user, stock) key as it was |
| Portfolio.SellRealisesGain | backend/models/Portfolio.js:121-141 | a sell changes the seller's cash plus total invested by the proceeds less the basis of the sold shares, and every other user's not at all |
| Portfolio.BuyThenSellRestores | backend/models/Portfolio.js:40-148 | buying shares of a stock not held and then selling all of them at the same price gives back the cash and the holdings table as they were, and the log keeps both trades |
| Portfolio.SellPreservesValid | backend/models/Portfolio.js:122-141 | a successful sell at a non-negative price keeps the ledger invariant |
| Portfolio.BuyKeepsUniqueKeys | backend/models/Portfolio.js:61-79 | a successful buy keeps every (user, stock) key on at most one row, for any table whose keys were unique |
| Portfolio.SellKeepsUniqueKeys | backend/models/Portfolio.js:120-135 | a successful sell keeps every (user, stock) key on at most one row, for any table whose keys were unique |
| PortfolioViews.Valuate | backend/models/Portfolio.js:6-9 | the row carries its stock's symbol, company name and current price; a holding's current value is quantity times current price and its P&L is that value less the basis; the P&L percent is P&L per basis times 100, and NULL exactly when the basis is 0 |
| PortfolioViews.GetUserHoldings | backend/models/Portfolio.js:4-16 | the list holds each of the user's rows with shares whose stock exists, once each, every row valued at its own stock's price, largest current value first |
| PortfolioViews.GetUserHoldingsPermutes | backend/models/Portfolio.js:10-13 | the holdings behind the list are exactly the selected rows, reordered |
| PortfolioViews.ReturnPercent | backend/models/Portfolio.js:25 | the total P&L percent is P&L per invested times 100 when something is invested, and 0 otherwise |
| PortfolioViews.Summarize | backend/models/Portfolio.js:22-27 | the totals are the sums of the basis and value columns; total P&L is value less invested; total portfolio value is value plus cash |
| PortfolioViews.GetPortfolioSummary | backend/models/Portfolio.js:18-38 | the summary totals the user's valued holdings, and a user without a row counts as having cash 0 |
| PortfolioViews.SummaryBooksWealth | backend/models/Portfolio.js:19-26 | when every stock the user holds is listed, the summary's cash plus total invested is the user's cash plus total invested in the ledger, the quantity a buy conserves |
| PortfolioViews.UserTransactions | backend/models/Portfolio.js:160-165 | the inner join of the log with the catalogue for one user: each transaction of that user whose stock exists appears exactly as often as in the log, nothing else does, and each row carries its own stock's symbol and company name |
| PortfolioViews.Newest | backend/models/Portfolio.js:166-167 | at most `limit` rows, all of them when fewer exist, newest first, and no row left out is newer than one kept |
| PortfolioViews.GetTransactionHistory | backend/models/Portfolio.js:160-170 | at most `limit` of the user's joined transactions, all of them when fewer exist, newest first, and none left out is newer than one returned |
| Stock.ChangeAmount | backend/models/Stock.js:8 | the day change is what, added to the previous close, gives the current price |
| Stock.ChangePercent | backend/models/Stock.js:7 | the day change percent is change per previous close times 100, and NULL exactly when the previous close is 0 |
| Stock.ChangePercentSign | backend/models/Stock.js:7-8 | with a positive previous close the change percent has the sign of the change amount |
| Stock.GetAll | backend/models/Stock.js:4-13 | every stock appears exactly once, ordered by symbol, each with its change amount (current price less previous close) and its change percent (that amount as a percentage of the previous close, NULL when the close is 0) |
| Stock.GetById | backend/models/Stock.js:15-18 | the stock returned carries the id and is in the table, and none is returned exactly when no stock has the id |
| Stock.GetBySymbol | backend/models/Stock.js:20-23 | the stock returned carries the symbol and is in the table, and none is returned exactly when no stock has it |
| Stock.GetByIdFindsRow | backend/models/Stock.js:15-18 | with ids unique, looking up a row's id returns that row |
| Stock.GetPriceHistory | backend/models/Stock.js:25-33 | a price point is returned exactly when it belongs to the stock and was recorded at or after now less `days` days (30 by default), as often as it is stored; oldest first |
| Watchlist.AddToWatchlist | backend/models/Watchlist.js:17-27 | the pair set gains the pair; the add succeeds with "Stock added to watchlist" exactly when the pair was absent, and otherwise reports "Stock already in watchlist" with the table unchanged; the unique key is kept |
| Watchlist.AddIsIdempotent | backend/models/Watchlist.js:19-23 | adding a pair a second time leaves the table as the first add left it and reports a duplicate |
| Watchlist.RemoveFromWatchlist | backend/models/Watchlist.js:29-35 | the pair set loses the pair; removal succeeds with "Stock removed from watchlist" exactly when the pair was present, and otherwise reports "Stock not found in watchlist" with the table unchanged |
| Watchlist.RemovedCount | backend/models/Watchlist.js:30-33 | the delete affects some row exactly when the pair is in the table |
| Watchlist.RemoveUndoesAdd | backend/models/Watchlist.js:17-34 | removing a pair just added to a table that lacked it restores the table and reports success |
| Watchlist.GetUserWatchlist | backend/models/Watchlist.js:4-15 | the listing's entries are a permutation of the user's entries whose stock exists, so each appears exactly as often as in the table; each row is joined with its own stock and that stock's change columns, and the rows are ordered by symbol |
| News.GetLatestNews | backend/models/News.js:4-11 | at most `limit` articles (20 by default), all of them when fewer exist, newest first, and none left out is newer than one returned |
| News.GetNewsByStock | backend/models/News.js:13-22 | at most `limit` articles (10 by default), drawn without repetition from the articles mentioning the symbol, all of them when fewer exist, newest first, and none mentioning it left out is newer than one returned |
| News.SubstringMatches | backend/models/News.js:16-19 | a symbol matches every article whose symbol list contains it anywhere |
| News.ShorterSymbolMatchesLonger | backend/models/News.js:16-19 | "AAPL" matches an article listing "AAPLX" |
| News.EmptySymbolMatchesAll | backend/models/News.js:16-19 | an empty symbol matches every article |
| PortfolioController.BodyUserId | backend/controllers/portfolioController.js:29 | the body's user id is used when present and non-zero, user 1 otherwise |
| PortfolioController.QueryUserId | backend/controllers/portfolioController.js:6 | the query's user id is used when given, user 1 otherwise |
| PortfolioController.ZeroUserIdDiffers | backend/controllers/portfolioController.js:6-29 | a body user id of 0 falls back to user 1 but a query user id "0" does not |
| PortfolioController.ParseInt | backend/controllers/portfolioController.js:35 | the quantity passed on is what `parseInt` reads from the number's string form: the integer part, truncated toward zero, for numbers JavaScript writes in plain notation, and the leading digit with the number's sign for those it writes in exponent notation (below 0.000001 and from 10^21 up) |
| PortfolioController.ParseIntOfWhole | backend/controllers/portfolioController.js:35 | a whole quantity below 10^21 in size is passed on unchanged; from 10^21 up only its leading digit is |
| PortfolioController.ParseIntZero | backend/controllers/portfolioController.js:31-35 | a positive quantity passes the guard yet reaches the ledger as 0 shares exactly when it is from 0.000001 up to but not including 1 |
| PortfolioController.ParseIntExponentForms | backend/controllers/portfolioController.js:35 | `parseInt(1e-7)` and `parseInt(1e21)` are 1, `parseInt(0.000001)` is 0 |
| PortfolioController.Buy | backend/controllers/portfolioController.js:26-41 | a request with the stock id, quantity or price missing or zero gets 400 "Missing required fields" and the ledger is untouched; otherwise the ledger's buy runs with the defaulted user and the parsed quantity, and its success is answered 200 with "Stock purchased successfully" and its failure 500 with the failure's message and the ledger as it was |
| PortfolioController.Sell | backend/controllers/portfolioController.js:43-58 | the same guard, defaults and answers for the ledger's sell, with "Stock sold successfully" |
| PortfolioController.BuyChangesLedgerOnlyOnSuccess | backend/controllers/portfolioController.js:31-40 | a buy request answered with anything but 200 leaves the ledger as it was; a 200 adds exactly one transaction |
| PortfolioController.UnaffordableBuyIsRejected | backend/controllers/portfolioController.js:37-40 | an unaffordable buy is answered 500 "Insufficient cash balance" and changes nothing |
| PortfolioController.FractionalBuyStoresEmptyRow | backend/controllers/portfolioController.js:31-35 | as written, a first buy of 0.5 shares passes the guard, reaches the ledger as 0 shares, is answered 200, and leaves a holding row with quantity 0 |
| PortfolioController.BuyChecked | backend/controllers/portfolioController.js:31-35 | with the guard on the parsed quantity, a request whose quantity parses to no shares gets 400 like a missing field, every other request is answered as before, and no request adds a holding row without shares |
| PortfolioController.BuyCheckedDiffersOnlyOnZeroShares | backend/controllers/portfolioController.js:31-35 | the corrected and the written buy handler agree on every request whose quantity parses to a non-zero share count; for a positive quantity the corrected one answers 400 and keeps the ledger exactly when the quantity is from 0.000001 up to but not including 1 |
| PortfolioController.SellChangesLedgerOnlyOnSuccess | backend/controllers/portfolioController.js:48-57 | a sell request answered with anything but 200 leaves the ledger as it was; a 200 adds exactly one transaction |
| PortfolioController.FractionalSellLogsNoShares | backend/controllers/portfolioController.js:48-52 | as written, a sell of 0.5 shares from a held row passes the guard, reaches the ledger as 0 shares, is answered 200, leaves cash and holdings as they were and logs a SELL of 0 shares |
| PortfolioController.SellChecked | backend/controllers/portfolioController.js:48-52 | with the guard on the parsed quantity, a request whose quantity parses to no shares gets 400 like a missing field, every other request is answered as before, and every sell answered 200 logs at least one share |
| PortfolioController.SellCheckedDiffersOnlyOnZeroShares | backend/controllers/portfolioController.js:48-52 | the corrected and the written sell handler agree on every request whose quantity parses to a non-zero share count; for a positive quantity the corrected one answers 400 and keeps the ledger exactly when the quantity is from 0.000001 up to but not including 1 |
| PortfolioController.GetPortfolio | backend/controllers/portfolioController.js:4-13 | the summary is the query user's, user 1 when none is given |
| PortfolioController.GetHoldings | backend/controllers/portfolioController.js:15-24 | the list is the valued holdings list of the query user, user 1 when none is given |
| PortfolioController.HoldingsMatchPortfolio | backend/controllers/portfolioController.js:4-24 | `getHoldings` lists exactly the holdings `getPortfolio` summarises, for the same query |
| PortfolioController.GetTransactionHistory | backend/controllers/portfolioController.js:60-70 | the history is the query user's (user 1 when none is given), newest first, at most `limit` entries; with no limit it holds exactly 50 entries, or all of the user's when there are fewer |
| StockPortfolioManager.HandleTrade | frontend/src/StockPortfolioManager.jsx:65-93 | a trade in a held symbol adds the traded quantity to that symbol's positions and leaves the rest and the list length alone; a trade in a symbol not held appends one position at the end; one trade record goes to the head of the list; the symbol is held afterwards, so no position is removed |
| StockPortfolioManager.Record | frontend/src/StockPortfolioManager.jsx:81-87 | the trade record carries the symbol, quantity and price, and its type is Buy exactly when the quantity is positive |
| StockPortfolioManager.TradeMovesQuantity | frontend/src/StockPortfolioManager.jsx:69-79 | with one position per symbol, a trade moves that symbol's total quantity by exactly the traded amount, leaves every other symbol's alone, and keeps one position per symbol |
| StockPortfolioManager.HandleRemoveWatchlist | frontend/src/StockPortfolioManager.jsx:96-98 | no entry of the symbol remains and every entry of another symbol does |
| StockPortfolioManager.RemoveWatchlistKeepsOrder | frontend/src/StockPortfolioManager.jsx:96-98 | removal works piece by piece on any split of the list, so the survivors keep their order |
| StockPortfolioManager.RemoveWatchlistIdempotent | frontend/src/StockPortfolioManager.jsx:96-98 | removing a symbol twice is removing it once |
| Sorting.SortIsSorted | backend/models/Stock.js:10 | the rows come out in the order of the sort key |
| Sorting.OrderedTake | backend/models/News.js:6-7 | `ORDER BY … LIMIT n` returns at most `n` rows, all when fewer exist, in key order, and no row left out ranks before a returned one |
| Sorting.TakeLargest | backend/models/Portfolio.js:166-167 | `ORDER BY key DESC LIMIT n` returns at most `n` rows, all when fewer exist, largest key first, and no row left out has a larger key than a returned one |
| Sums.SumPermutation | backend/models/Portfolio.js:22-23 | the totals do not depend on the order of the holdings |

## Left out

- The database driver, connections, `beginTransaction`, `commit`, `rollback` and the
  SQL text. A trade is one function whose failure leaves the old ledger in place.
- Concurrency and row locking between simultaneous trades.
- IEEE floating point in `quantity * price` and `parseFloat`, SQL `ROUND(…, 2)` and
  `toFixed(2)`. Money is exact. The summary's totals are sums of the exact values, not
  of the rounded `current_value` column.
- MySQL collation. Symbols are ordered and compared by code point. Case-insensitive
  comparison is not modelled.
- `LIKE` wildcards. A `%` or `_` inside the symbol is matched literally here.
- The `NOW()` clock and the `transaction_date` default. Both are parameters (`now`).
- Columns the queries return that the model drops: the row ids of holdings,
  transactions and watchlist entries, the date a watchlist entry was added, and the
  article's text beyond its title and symbol list (`SELECT *`, `SELECT h.*`, `SELECT t.*` and
  `SELECT w.*` at `News.js:6`, `News.js:15`, `Portfolio.js:6`, `Portfolio.js:162` and
  `Watchlist.js:6`). Without the id, two transactions or price points with the same
  values are equal in the model; the contracts count them (`multiset`), so both are
  still returned, but the model cannot tell which row is which.
- Foreign keys. A holding, transaction or watchlist entry whose stock is missing
  simply drops out of the inner joins, as it does in the code.
- The watchlist's unique key on (user, stock) is not shown in the code. It is assumed,
  because it is what makes a second insert report a duplicate.
- The holdings table's key on (user, stock) is not shown in the code either. The
  model reads and changes the first row of a key, while `UPDATE … WHERE user_id = ?
  AND stock_id = ?` and the `DELETE` would change every row of it. The two agree
  while `Portfolio.UniqueKeys` holds. Every successful trade keeps it, whatever else
  holds of the table (`Portfolio.BuyKeepsUniqueKeys`, `Portfolio.SellKeepsUniqueKeys`);
  the rest of `Portfolio.Valid` is kept only by a buy of at least one share and a sell
  at a non-negative price.
- HTTP routing, the other controllers, status codes of the read handlers' error paths
  (500 on a database failure) and `apiService.js`.
- React rendering, tab and modal state, and `formatters.js`.
- Portfolio.BuyStock: requires `Portfolio.CanBuy`: a quantity of 0 or more, and, when
  the user already has a row for the stock, shares left in it after the buy. The code
  never checks the sign; a negative quantity would credit cash, and a row left with
  no shares would get the average price `total / 0`, which JavaScript stores as
  `Infinity` or `NaN`. Rows without shares are accepted, and a first buy of 0 shares
  is allowed, because the buy handler passes one on (see Findings).
- Portfolio.SellStock: requires `quantity >= 0`. The code never checks the sign; a
  negative quantity would grow the holding, debit the seller, and on a row without
  shares divide its basis by zero. A sell of 0 shares is modelled, because the sell
  handler passes one on (see Findings).
- Portfolio.SellPreservesValid: requires a non-negative price. A negative price would
  debit the seller and could make cash negative.
- PortfolioController.Buy: requires `BuyComputable`: the parsed quantity of a request
  that passes the guard meets the precondition of `Portfolio.BuyStock`. That leaves
  out quantities of -1 and below, and a buy of 0 shares into a row that has none.
- PortfolioController.Sell: requires a request that passes the guard not to parse to
  a negative share count, the precondition of `Portfolio.SellStock`. A quantity that
  parses to 0 is modelled (`PortfolioController.FractionalSellLogsNoShares`).
- PortfolioController.ParseInt: the leading digit of a number in exponent notation is
  taken from the exact number, not from the shortest decimal string of the nearest
  double, which can differ for numbers that doubles cannot hold exactly.
- PortfolioViews.SummaryBooksWealth: requires no holding row without shares. The
  listing drops such rows (`h.quantity > 0`, `Portfolio.js:12`) while the ledger's
  wealth counts their cost basis.
- Request fields are numbers. Strings, `NaN` and `parseFloat` of text are not modelled.
  Query parameters are modelled as already-parsed values.
- PortfolioController.GetTransactionHistory: the limit is a natural number. A
  non-numeric or negative query string would make the SQL fail.

## Findings

| source | as written | input that shows it | evidently intended | confidence | as-written member | corrected member |
|---|---|---|---|---|---|---|
| backend/controllers/portfolioController.js:31-35 | the guard `!quantity` tests the field before `parseInt`, so a quantity from 0.000001 up to but not including 1 passes it and the ledger buys `parseInt(quantity) = 0` shares; on a first buy that inserts a holding row with quantity 0 and answers 200 | user 1 with cash 100, no holdings, body `{ stockId: 7, quantity: 0.5, price: 10 }` | a quantity that parses to zero shares is refused with 400 like a missing one, so no holding row is ever empty | not executed | PortfolioController.FractionalBuyStoresEmptyRow | PortfolioController.BuyChecked |
| backend/controllers/portfolioController.js:48-52 | the sell handler has the same guard on the field before `parseInt`, so a quantity from 0.000001 up to but not including 1 reaches the ledger's sell as 0 shares; with a row held, the sell rewrites it unchanged, credits nothing, logs a SELL of 0 shares and answers 200 "Stock sold successfully" | user 1 holding 5 shares of stock 7, body `{ stockId: 7, quantity: 0.5, price: 12 }` | a quantity that parses to zero shares is refused with 400 like a missing one, so no sale of no shares is logged | not executed | PortfolioController.FractionalSellLogsNoShares | PortfolioController.SellChecked |
