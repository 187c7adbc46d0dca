/** The read side of `backend/models/Portfolio.js`: the valued holdings list, the
    portfolio summary and the transaction history. Money is exact; the SQL `ROUND`
    and the two-decimal rendering of the summary are not modelled. */
module PortfolioViews {
  import opened Wrappers
  import opened Sorting
  import Sums
  import opened Portfolio
  import Stock

  /** A row of `getUserHoldings`: the holding joined with its stock and valued at the
      stock's current price. The percentage is `None` where SQL divides by a zero
      cost basis and yields NULL. */
  datatype HoldingView = HoldingView(
    holding: Holding,
    symbol: string,
    companyName: string,
    currentPrice: real,
    currentValue: real,
    unrealizedPnl: real,
    pnlPercent: Option<real>)

  /** What `getPortfolioSummary` returns, before rendering. */
  datatype Summary = Summary(
    totalInvested: real,
    currentValue: real,
    totalPnL: real,
    totalPnLPercent: real,
    cashBalance: real,
    totalPortfolioValue: real,
    holdings: seq<HoldingView>)

  /** A row of `getTransactionHistory`: the transaction joined with its stock. */
  datatype TransactionView = TransactionView(transaction: Transaction, symbol: string, companyName: string)

  /** Values holding `h` at stock `s`'s current price. */
  function Valuate(h: Holding, s: Stock.Stock): (v: HoldingView)
    ensures v.holding == h && v.symbol == s.symbol && v.currentPrice == s.currentPrice
    ensures v.companyName == s.companyName
    ensures v.currentValue == h.quantity as real * s.currentPrice
    ensures v.unrealizedPnl + h.totalInvested == v.currentValue
    ensures v.pnlPercent.None? <==> h.totalInvested == 0.0
    ensures v.pnlPercent.Some? ==> v.pnlPercent.value * h.totalInvested == v.unrealizedPnl * 100.0
  {
    var value := h.quantity as real * s.currentPrice;
    var pnl := value - h.totalInvested;
    HoldingView(h, s.symbol, s.companyName, s.currentPrice, value, pnl,
                if h.totalInvested == 0.0 then None else Some(Sums.Percent(pnl, h.totalInvested)))
  }

  /** The rows `getUserHoldings` selects: the user's rows with shares whose stock is
      in the catalogue (a row whose stock is missing drops out of the inner join). */
  predicate Listed(h: Holding, stocks: seq<Stock.Stock>, userId: int) {
    h.userId == userId && h.quantity > 0 && Stock.GetById(stocks, h.stockId).Some?
  }

  function ListedBy(stocks: seq<Stock.Stock>, userId: int): Holding -> bool {
    (h: Holding) => Listed(h, stocks, userId)
  }

  /** The holding valued at its stock's current price. */
  function ValueAt(h: Holding, stocks: seq<Stock.Stock>): (v: HoldingView)
    requires Stock.GetById(stocks, h.stockId).Some?
    ensures v.holding == h
    ensures v.currentValue == CurrentValue(h, stocks)
  {
    Valuate(h, Stock.GetById(stocks, h.stockId).value)
  }

  /** The current value a holding has at its stock's current price, 0 without one. */
  function CurrentValue(h: Holding, stocks: seq<Stock.Stock>): real {
    match Stock.GetById(stocks, h.stockId)
    case Some(s) => h.quantity as real * s.currentPrice
    case None => 0.0
  }

  /** Orders holdings by current value, largest first. */
  function ByValueDescending(stocks: seq<Stock.Stock>): (Holding, Holding) -> bool {
    (a: Holding, b: Holding) => CurrentValue(a, stocks) >= CurrentValue(b, stocks)
  }

  lemma ByValueDescendingIsTotalPreorder(stocks: seq<Stock.Stock>)
    ensures TotalPreorder(ByValueDescending(stocks))
  {
  }

  function HoldingsOf(vs: seq<HoldingView>): (r: seq<Holding>)
    ensures |r| == |vs|
    ensures forall i :: 0 <= i < |vs| ==> r[i] == vs[i].holding
  {
    seq(|vs|, i requires 0 <= i < |vs| => vs[i].holding)
  }

  /** Values each of `hs`, in order. */
  function ValueAll(hs: seq<Holding>, stocks: seq<Stock.Stock>): (r: seq<HoldingView>)
    requires forall i :: 0 <= i < |hs| ==> Stock.GetById(stocks, hs[i].stockId).Some?
    ensures HoldingsOf(r) == hs
    ensures forall i :: 0 <= i < |r| ==> r[i] == ValueAt(hs[i], stocks)
  {
    var r := seq(|hs|, i requires 0 <= i < |hs| => ValueAt(hs[i], stocks));
    assert HoldingsOf(r) == hs;
    r
  }

  /** The user's listed rows, largest current value first. */
  function ListedByValue(l: Ledger, stocks: seq<Stock.Stock>, userId: int): (r: seq<Holding>)
    ensures multiset(r) == multiset(Filter(l.holdings, ListedBy(stocks, userId)))
    ensures forall i :: 0 <= i < |r| ==> Listed(r[i], stocks, userId)
    ensures Sorted(r, ByValueDescending(stocks))
  {
    var listed := Filter(l.holdings, ListedBy(stocks, userId));
    var sorted := Sort(listed, ByValueDescending(stocks));
    ByValueDescendingIsTotalPreorder(stocks);
    SortIsSorted(listed, ByValueDescending(stocks));
    SubMultisetKeeps(sorted, listed, ListedBy(stocks, userId));
    sorted
  }

  /** Every listed row of the ledger is among the sorted rows. */
  lemma ListedByValueComplete(l: Ledger, stocks: seq<Stock.Stock>, userId: int)
    ensures forall h :: h in l.holdings && Listed(h, stocks, userId) ==> h in ListedByValue(l, stocks, userId)
  {
    var sorted := ListedByValue(l, stocks, userId);
    FilterComplete(l.holdings, ListedBy(stocks, userId));
    forall h | h in l.holdings && Listed(h, stocks, userId) ensures h in sorted {
      var k :| 0 <= k < |l.holdings| && l.holdings[k] == h;
      assert h in Filter(l.holdings, ListedBy(stocks, userId));
      assert h in multiset(sorted);
    }
  }

  /** Valuing rows sorted by current value keeps them in that order. */
  lemma ValueAllOrdered(hs: seq<Holding>, stocks: seq<Stock.Stock>)
    requires forall i :: 0 <= i < |hs| ==> Stock.GetById(stocks, hs[i].stockId).Some?
    requires Sorted(hs, ByValueDescending(stocks))
    ensures var r := ValueAll(hs, stocks);
            forall i, j :: 0 <= i < j < |r| ==> r[i].currentValue >= r[j].currentValue
  {
    var r := ValueAll(hs, stocks);
    forall i, j | 0 <= i < j < |r| ensures r[i].currentValue >= r[j].currentValue {
      assert ByValueDescending(stocks)(hs[i], hs[j]);
    }
  }

  /** `getUserHoldings`: each of the user's holdings with shares, once, joined with
      its stock and valued, largest current value first. */
  function GetUserHoldings(l: Ledger, stocks: seq<Stock.Stock>, userId: int): (r: seq<HoldingView>)
    ensures multiset(HoldingsOf(r)) <= multiset(l.holdings)
    ensures forall h :: h in l.holdings && Listed(h, stocks, userId) ==> h in HoldingsOf(r)
    ensures forall i :: 0 <= i < |r| ==>
              && Listed(r[i].holding, stocks, userId)
              && r[i] == ValueAt(r[i].holding, stocks)
    ensures forall i, j :: 0 <= i < j < |r| ==> r[i].currentValue >= r[j].currentValue
  {
    var sorted := ListedByValue(l, stocks, userId);
    ListedByValueComplete(l, stocks, userId);
    ValueAllOrdered(sorted, stocks);
    ValueAll(sorted, stocks)
  }

  /** The cost basis column of a valued holding. */
  function InvestedColumn(): HoldingView -> real {
    (v: HoldingView) => v.holding.totalInvested
  }

  /** The current value column of a valued holding. */
  function ValueColumn(): HoldingView -> real {
    (v: HoldingView) => v.currentValue
  }

  /** The whole portfolio's return as a percentage of its cost basis, 0 when nothing
      is invested. */
  function ReturnPercent(pnl: real, invested: real): (r: real)
    ensures invested > 0.0 ==> r * invested == pnl * 100.0
    ensures invested <= 0.0 ==> r == 0.0
  {
    if invested > 0.0 then Sums.Percent(pnl, invested) else 0.0
  }

  /** The totals over valued holdings `vs` next to a cash balance. */
  function Summarize(vs: seq<HoldingView>, cash: real): (r: Summary)
    ensures r.holdings == vs && r.cashBalance == cash
    ensures r.totalInvested == Sums.Sum(vs, InvestedColumn())
    ensures r.currentValue == Sums.Sum(vs, ValueColumn())
    ensures r.totalPnL + r.totalInvested == r.currentValue
    ensures r.totalInvested > 0.0 ==> r.totalPnLPercent * r.totalInvested == r.totalPnL * 100.0
    ensures r.totalInvested <= 0.0 ==> r.totalPnLPercent == 0.0
    ensures r.totalPortfolioValue == r.currentValue + cash
  {
    var invested := Sums.Sum(vs, InvestedColumn());
    var value := Sums.Sum(vs, ValueColumn());
    var pnl := value - invested;
    Summary(invested, value, pnl, ReturnPercent(pnl, invested), cash, value + cash, vs)
  }

  /** `getPortfolioSummary`: the totals over the user's valued holdings next to the
      user's cash; a user without a row counts as holding no cash. */
  function GetPortfolioSummary(l: Ledger, stocks: seq<Stock.Stock>, userId: int): (r: Summary)
    ensures r.holdings == GetUserHoldings(l, stocks, userId)
    ensures r == Summarize(r.holdings, r.cashBalance)
    ensures r.cashBalance == (if userId in l.cash then l.cash[userId] else 0.0)
  {
    Summarize(GetUserHoldings(l, stocks, userId), if userId in l.cash then l.cash[userId] else 0.0)
  }

  /** Summing the listed rows' bases is summing the user's column of the ledger,
      when every one of the user's rows is listed. */
  lemma SummaryInvestedIsLedgerColumn(l: Ledger, stocks: seq<Stock.Stock>, userId: int)
    requires forall h :: h in l.holdings && h.userId == userId ==> Listed(h, stocks, userId)
    ensures Sums.Sum(GetUserHoldings(l, stocks, userId), InvestedColumn()) ==
            Sums.Sum(l.holdings, InvestedBy(userId))
  {
    var r := GetUserHoldings(l, stocks, userId);
    var listed := Filter(l.holdings, ListedBy(stocks, userId));
    HoldingsOfInvested(r);
    GetUserHoldingsPermutes(l, stocks, userId);
    Sums.SumPermutation(HoldingsOf(r), listed, TotalInvested());
    FilterInvested(l.holdings, stocks, userId);
  }

  function TotalInvested(): Holding -> real {
    (h: Holding) => h.totalInvested
  }

  lemma {:induction false} HoldingsOfInvested(vs: seq<HoldingView>)
    ensures Sums.Sum(vs, InvestedColumn()) == Sums.Sum(HoldingsOf(vs), TotalInvested())
    decreases |vs|
  {
    if |vs| > 0 {
      HoldingsOfInvested(vs[1..]);
      assert HoldingsOf(vs)[1..] == HoldingsOf(vs[1..]);
    }
  }

  /** The holdings behind `getUserHoldings` are exactly the listed rows, reordered. */
  lemma GetUserHoldingsPermutes(l: Ledger, stocks: seq<Stock.Stock>, userId: int)
    ensures multiset(HoldingsOf(GetUserHoldings(l, stocks, userId))) ==
            multiset(Filter(l.holdings, ListedBy(stocks, userId)))
  {
    var listed := Filter(l.holdings, ListedBy(stocks, userId));
    var sorted := Sort(listed, ByValueDescending(stocks));
    var r := GetUserHoldings(l, stocks, userId);
    assert HoldingsOf(r) == sorted;
  }

  /** With every row of the user listed, the listed rows' bases are the user's column. */
  lemma FilterInvested(holdings: seq<Holding>, stocks: seq<Stock.Stock>, userId: int)
    requires forall h :: h in holdings && h.userId == userId ==> Listed(h, stocks, userId)
    ensures Sums.Sum(Filter(holdings, ListedBy(stocks, userId)), TotalInvested()) ==
            Sums.Sum(holdings, InvestedBy(userId))
  {
    Sums.SumFilter(holdings, ListedBy(stocks, userId), TotalInvested(), InvestedBy(userId));
  }

  /** When every stock the user holds is in the catalogue and the ledger has no empty
      rows, the summary's cash plus cost basis is the user's wealth in the ledger, the
      quantity a buy leaves unchanged and a sell moves by the realised gain. */
  lemma SummaryBooksWealth(l: Ledger, stocks: seq<Stock.Stock>, userId: int)
    requires userId in l.cash
    requires NoEmptyRows(l.holdings)
    requires forall h :: h in l.holdings && h.userId == userId ==> Stock.GetById(stocks, h.stockId).Some?
    ensures var s := GetPortfolioSummary(l, stocks, userId);
            s.cashBalance + s.totalInvested == Wealth(l, userId)
  {
    forall h | h in l.holdings && h.userId == userId ensures Listed(h, stocks, userId) {
      var i :| 0 <= i < |l.holdings| && l.holdings[i] == h;
    }
    SummaryInvestedIsLedgerColumn(l, stocks, userId);
  }

  /** The user's transactions whose stock is in the catalogue (the inner join). */
  function JoinedBy(stocks: seq<Stock.Stock>, userId: int): Transaction -> bool {
    (t: Transaction) => t.userId == userId && Stock.GetById(stocks, t.stockId).Some?
  }

  /** The transactions behind a list of views. */
  function TransactionsOf(vs: seq<TransactionView>): (r: seq<Transaction>)
    ensures |r| == |vs|
    ensures forall i :: 0 <= i < |vs| ==> r[i] == vs[i].transaction
  {
    seq(|vs|, i requires 0 <= i < |vs| => vs[i].transaction)
  }

  /** Each of `ts` joined with its stock's symbol and company name. */
  function ViewsOf(ts: seq<Transaction>, stocks: seq<Stock.Stock>): (r: seq<TransactionView>)
    requires forall i :: 0 <= i < |ts| ==> Stock.GetById(stocks, ts[i].stockId).Some?
    ensures TransactionsOf(r) == ts
    ensures forall i :: 0 <= i < |r| ==>
              && r[i].symbol == Stock.GetById(stocks, ts[i].stockId).value.symbol
              && r[i].companyName == Stock.GetById(stocks, ts[i].stockId).value.companyName
  {
    var r := seq(|ts|, i requires 0 <= i < |ts| =>
      var s := Stock.GetById(stocks, ts[i].stockId).value;
      TransactionView(ts[i], s.symbol, s.companyName));
    assert TransactionsOf(r) == ts;
    r
  }

  /** The user's transactions, joined with their stocks, in log order: every
      transaction of the user whose stock is in the catalogue, each once, and
      nothing else, each carrying its own stock's symbol and company name. */
  function UserTransactions(transactions: seq<Transaction>, stocks: seq<Stock.Stock>, userId: int)
    : (r: seq<TransactionView>)
    ensures forall i :: 0 <= i < |r| ==>
              && r[i].transaction in transactions
              && r[i].transaction.userId == userId
              && Stock.GetById(stocks, r[i].transaction.stockId).Some?
              && r[i].symbol == Stock.GetById(stocks, r[i].transaction.stockId).value.symbol
              && r[i].companyName == Stock.GetById(stocks, r[i].transaction.stockId).value.companyName
    ensures forall t :: t in transactions && JoinedBy(stocks, userId)(t) ==>
              exists i :: 0 <= i < |r| && r[i].transaction == t
    ensures forall t :: multiset(TransactionsOf(r))[t] ==
              if t.userId == userId && Stock.GetById(stocks, t.stockId).Some? then multiset(transactions)[t] else 0
  {
    var joined := Filter(transactions, JoinedBy(stocks, userId));
    FilterFromInput(transactions, JoinedBy(stocks, userId));
    FilterCounts(transactions, JoinedBy(stocks, userId));
    var r := ViewsOf(joined, stocks);
    UserTransactionsComplete(transactions, stocks, userId, r);
    r
  }

  /** Views over the whole filtered log miss no transaction it keeps. */
  lemma UserTransactionsComplete(transactions: seq<Transaction>, stocks: seq<Stock.Stock>, userId: int,
                                 r: seq<TransactionView>)
    requires TransactionsOf(r) == Filter(transactions, JoinedBy(stocks, userId))
    ensures forall t :: t in transactions && JoinedBy(stocks, userId)(t) ==>
              exists i :: 0 <= i < |r| && r[i].transaction == t
  {
    var joined := Filter(transactions, JoinedBy(stocks, userId));
    FilterComplete(transactions, JoinedBy(stocks, userId));
    forall t | t in transactions && JoinedBy(stocks, userId)(t)
      ensures exists i :: 0 <= i < |r| && r[i].transaction == t
    {
      var k :| 0 <= k < |transactions| && transactions[k] == t;
      var i :| 0 <= i < |joined| && joined[i] == t;
      assert r[i].transaction == TransactionsOf(r)[i];
    }
  }

  /** Views of transactions of `userId` recorded in the ledger. */
  function OfUser(l: Ledger, userId: int): TransactionView -> bool {
    (v: TransactionView) => v.transaction in l.transactions && v.transaction.userId == userId
  }

  /** The sort key of the history query. */
  function TransactionDate(v: TransactionView): int { v.transaction.transactionDate }

  /** The `limit` newest of `all`, newest first: `ORDER BY transaction_date DESC LIMIT ?`. */
  function Newest(all: seq<TransactionView>, limit: nat): (r: seq<TransactionView>)
    ensures |r| <= limit
    ensures multiset(r) <= multiset(all)
    ensures |r| < limit ==> multiset(r) == multiset(all)
    ensures forall i, j :: 0 <= i < j < |r| ==>
              r[i].transaction.transactionDate >= r[j].transaction.transactionDate
    ensures forall x, y :: x in r && y in multiset(all) - multiset(r) ==>
              x.transaction.transactionDate >= y.transaction.transactionDate
  {
    var r := TakeLargest(all, TransactionDate, limit);
    forall x, y | x in r && y in multiset(all) - multiset(r)
      ensures x.transaction.transactionDate >= y.transaction.transactionDate
    {
      assert TransactionDate(x) >= TransactionDate(y);
    }
    r
  }

  /** `getTransactionHistory`: at most `limit` of the user's transactions, newest
      first, and no transaction of the user left out is newer than one returned. */
  function GetTransactionHistory(l: Ledger, stocks: seq<Stock.Stock>, userId: int, limit: nat)
    : (r: seq<TransactionView>)
    ensures |r| <= limit
    ensures |r| < limit ==> multiset(r) == multiset(UserTransactions(l.transactions, stocks, userId))
    ensures multiset(r) <= multiset(UserTransactions(l.transactions, stocks, userId))
    ensures forall i :: 0 <= i < |r| ==>
              r[i].transaction in l.transactions && r[i].transaction.userId == userId
    ensures forall i, j :: 0 <= i < j < |r| ==>
              r[i].transaction.transactionDate >= r[j].transaction.transactionDate
    ensures forall x, y :: x in r && y in multiset(UserTransactions(l.transactions, stocks, userId)) - multiset(r) ==>
              x.transaction.transactionDate >= y.transaction.transactionDate
  {
    var all := UserTransactions(l.transactions, stocks, userId);
    var r := Newest(all, limit);
    SubMultisetKeeps(r, all, OfUser(l, userId));
    r
  }
}
