/** The portfolio ledger of `backend/models/Portfolio.js`: users' cash balances, the
    holdings table and the append-only transaction log, and the two trades that
    change them. Each trade is a pure function from the ledger to a new ledger or an
    error; an error carries no ledger at all, which is how the model states that the
    database transaction rolls back and nothing of a failed trade is ever visible. */
module Portfolio {
  import opened Wrappers
  import Sums

  /** A row of the `holdings` table: one user's position in one stock. */
  datatype Holding = Holding(
    userId: int,
    stockId: int,
    quantity: int,
    averagePrice: real,
    totalInvested: real)

  datatype TransactionType = BUY | SELL

  /** A row of the append-only `transactions` table. `transactionDate` is the
      database clock at the time of the insert, passed in as `now`. */
  datatype Transaction = Transaction(
    userId: int,
    stockId: int,
    transactionType: TransactionType,
    quantity: int,
    pricePerShare: real,
    totalAmount: real,
    transactionDate: int)

  /** The ledger's part of the database: each user's cash balance (the `users`
      table), the holdings and the transaction log. */
  datatype Ledger = Ledger(
    cash: map<int, real>,
    holdings: seq<Holding>,
    transactions: seq<Transaction>)

  /** Why a trade was rolled back. A buy for a user without a row fails before any
      check of its own, when it reads the balance of a row that is not there. */
  datatype TradeError = UnknownUser | InsufficientCash | InsufficientShares {
    /** The message of the error the trade throws. */
    function Message(): string {
      match this
      case UnknownUser => "Cannot read properties of undefined (reading 'cash_balance')"
      case InsufficientCash => "Insufficient cash balance"
      case InsufficientShares => "Insufficient shares to sell"
    }
  }

  const PurchasedMessage: string := "Stock purchased successfully"
  const SoldMessage: string := "Stock sold successfully"

  predicate IsKey(h: Holding, userId: int, stockId: int) {
    h.userId == userId && h.stockId == stockId
  }

  /** Where `SELECT * FROM holdings WHERE user_id = ? AND stock_id = ?` finds its
      first row. */
  function IndexOf(holdings: seq<Holding>, userId: int, stockId: int): (r: Option<nat>)
    ensures r.Some? ==> r.value < |holdings| && IsKey(holdings[r.value], userId, stockId)
    ensures r.Some? ==> forall j :: 0 <= j < r.value ==> !IsKey(holdings[j], userId, stockId)
    ensures r.None? <==> forall j :: 0 <= j < |holdings| ==> !IsKey(holdings[j], userId, stockId)
  {
    if |holdings| == 0 then None
    else if IsKey(holdings[0], userId, stockId) then Some(0)
    else
      match IndexOf(holdings[1..], userId, stockId)
      case None =>
        assert forall j :: 1 <= j < |holdings| ==> holdings[j] == holdings[1..][j - 1];
        None
      case Some(k) =>
        assert forall j :: 1 <= j <= k ==> holdings[j] == holdings[1..][j - 1];
        Some(k + 1)
  }

  function HoldingOf(holdings: seq<Holding>, userId: int, stockId: int): Option<Holding> {
    match IndexOf(holdings, userId, stockId)
    case None => None
    case Some(i) => Some(holdings[i])
  }

  /** Shares of the stock the user holds; no row means none. */
  function QuantityHeld(holdings: seq<Holding>, userId: int, stockId: int): int {
    match HoldingOf(holdings, userId, stockId)
    case None => 0
    case Some(h) => h.quantity
  }

  /** The cost basis of the user's position in the stock; no row means none. */
  function InvestedIn(holdings: seq<Holding>, userId: int, stockId: int): real {
    match HoldingOf(holdings, userId, stockId)
    case None => 0.0
    case Some(h) => h.totalInvested
  }

  /** The `(user_id, stock_id)` pair is unique in the holdings table. */
  ghost predicate UniqueKeys(holdings: seq<Holding>) {
    forall i, j :: 0 <= i < j < |holdings| ==>
      !IsKey(holdings[j], holdings[i].userId, holdings[i].stockId)
  }

  /** A holding row exists only while it holds shares. */
  ghost predicate NoEmptyRows(holdings: seq<Holding>) {
    forall i :: 0 <= i < |holdings| ==> holdings[i].quantity > 0
  }

  /** The row's average price is its cost basis per share. */
  ghost predicate Consistent(h: Holding) {
    h.averagePrice * h.quantity as real == h.totalInvested
  }

  /** Every row's average price is its cost basis per share. */
  ghost predicate CostBasisConsistent(holdings: seq<Holding>) {
    forall i :: 0 <= i < |holdings| ==> Consistent(holdings[i])
  }

  /** What a buy needs to be computable: a non-negative share count, and shares left
      in an existing row afterwards, since the new average price divides by them. A
      row without shares may be bought into; a first buy may be of no shares. */
  predicate CanBuy(holdings: seq<Holding>, userId: int, stockId: int, quantity: int) {
    && quantity >= 0
    && (HoldingOf(holdings, userId, stockId).Some? ==> QuantityHeld(holdings, userId, stockId) + quantity != 0)
  }

  /** The ledger's invariant: unique keys, no empty rows, consistent cost basis and no
      negative cash balance. */
  ghost predicate Valid(l: Ledger) {
    && UniqueKeys(l.holdings)
    && NoEmptyRows(l.holdings)
    && CostBasisConsistent(l.holdings)
    && forall u :: u in l.cash ==> l.cash[u] >= 0.0
  }

  /** The cash a trade of `quantity` shares at `price` moves. */
  function TradeValue(quantity: int, price: real): real {
    quantity as real * price
  }

  // ---------------------------------------------------------------------------
  // Lookups after the three kinds of row change a trade makes

  lemma IndexOfUpdate(holdings: seq<Holding>, i: nat, h: Holding, userId: int, stockId: int)
    requires i < |holdings|
    requires h.userId == holdings[i].userId && h.stockId == holdings[i].stockId
    ensures IndexOf(holdings[i := h], userId, stockId) == IndexOf(holdings, userId, stockId)
  {
    var updated := holdings[i := h];
    assert forall j :: 0 <= j < |holdings| ==>
      (IsKey(updated[j], userId, stockId) <==> IsKey(holdings[j], userId, stockId));
  }

  lemma IndexOfAppend(holdings: seq<Holding>, h: Holding, userId: int, stockId: int)
    ensures IndexOf(holdings + [h], userId, stockId) ==
            if IndexOf(holdings, userId, stockId).Some? then IndexOf(holdings, userId, stockId)
            else if IsKey(h, userId, stockId) then Some(|holdings|)
            else None
  {
    var ext := holdings + [h];
    assert forall j :: 0 <= j < |holdings| ==> ext[j] == holdings[j];
    assert ext[|holdings|] == h;
  }

  /** Deleting the row of one key leaves the lookup of every other key as it was. */
  lemma HoldingOfRemove(holdings: seq<Holding>, i: nat, userId: int, stockId: int)
    requires i < |holdings|
    requires !IsKey(holdings[i], userId, stockId)
    ensures HoldingOf(holdings[..i] + holdings[i + 1..], userId, stockId) ==
            HoldingOf(holdings, userId, stockId)
  {
    var rest := holdings[..i] + holdings[i + 1..];
    assert forall j :: 0 <= j < i ==> rest[j] == holdings[j];
    assert forall j :: i <= j < |rest| ==> rest[j] == holdings[j + 1];
    var b := IndexOf(holdings, userId, stockId);
    if b.Some? {
      var jb := if b.value < i then b.value else b.value - 1;
      assert rest[jb] == holdings[b.value];
      assert forall j :: 0 <= j < jb ==> !IsKey(rest[j], userId, stockId);
    }
  }

  /** With unique keys, deleting a key's row leaves no row for it. */
  lemma HoldingOfRemoveOwnKey(holdings: seq<Holding>, i: nat)
    requires UniqueKeys(holdings)
    requires i < |holdings|
    ensures HoldingOf(holdings[..i] + holdings[i + 1..], holdings[i].userId, holdings[i].stockId).None?
  {
    var rest := holdings[..i] + holdings[i + 1..];
    var u, s := holdings[i].userId, holdings[i].stockId;
    forall j | 0 <= j < |rest| ensures !IsKey(rest[j], u, s) {
      if j < i {
        assert rest[j] == holdings[j];
      } else {
        assert rest[j] == holdings[j + 1];
      }
    }
  }

  // ---------------------------------------------------------------------------
  // Buy

  /** `buyStock`: debits the cost from the user's cash, folds the shares into the
      user's holding of the stock (creating it on the first buy) and logs a BUY. The
      cost may use the whole balance but not more. */
  function BuyStock(l: Ledger, userId: int, stockId: int, quantity: int, price: real, now: int)
    : (r: Result<Ledger, TradeError>)
    requires CanBuy(l.holdings, userId, stockId, quantity)
    ensures r.Failure? <==> userId !in l.cash || l.cash[userId] < TradeValue(quantity, price)
    ensures r.Failure? ==> r.error == (if userId in l.cash then InsufficientCash else UnknownUser)
    ensures r.Success? ==>
              && r.value.cash.Keys == l.cash.Keys
              && r.value.cash[userId] == l.cash[userId] - TradeValue(quantity, price)
              && r.value.cash[userId] >= 0.0
              && forall u :: u in l.cash && u != userId ==> r.value.cash[u] == l.cash[u]
    ensures r.Success? ==>
              && |r.value.transactions| == |l.transactions| + 1
              && r.value.transactions[..|l.transactions|] == l.transactions
              && r.value.transactions[|l.transactions|] ==
                 Transaction(userId, stockId, BUY, quantity, price, TradeValue(quantity, price), now)
    ensures r.Success? ==>
              QuantityHeld(r.value.holdings, userId, stockId) == QuantityHeld(l.holdings, userId, stockId) + quantity
    ensures r.Success? && quantity > 0 && NoEmptyRows(l.holdings) ==> NoEmptyRows(r.value.holdings)
  {
    if userId !in l.cash then Failure(UnknownUser)
    else
      var cost := TradeValue(quantity, price);
      if l.cash[userId] < cost then Failure(InsufficientCash)
      else
        Success(Ledger(
          l.cash[userId := l.cash[userId] - cost],
          BoughtHoldings(l.holdings, userId, stockId, quantity, price),
          l.transactions + [Transaction(userId, stockId, BUY, quantity, price, cost, now)]))
  }

  /** The holdings table after a buy: the existing row grown, or a new row appended. */
  function BoughtHoldings(holdings: seq<Holding>, userId: int, stockId: int, quantity: int, price: real)
    : (r: seq<Holding>)
    requires CanBuy(holdings, userId, stockId, quantity)
    ensures QuantityHeld(r, userId, stockId) == QuantityHeld(holdings, userId, stockId) + quantity
    ensures quantity > 0 && NoEmptyRows(holdings) ==> NoEmptyRows(r)
  {
    match IndexOf(holdings, userId, stockId)
    case Some(i) =>
      var g := Grown(holdings[i], quantity, price);
      IndexOfUpdate(holdings, i, g, userId, stockId);
      holdings[i := g]
    case None =>
      var h := Opened(userId, stockId, quantity, price);
      IndexOfAppend(holdings, h, userId, stockId);
      holdings + [h]
  }

  /** The row a first buy inserts: the trade price is the average price. */
  function Opened(userId: int, stockId: int, quantity: int, price: real): Holding {
    Holding(userId, stockId, quantity, price, TradeValue(quantity, price))
  }

  /** Holding `h` plus `quantity` shares bought at `price`: the cost added to the
      basis, the average price recomputed from the new basis and quantity. */
  function Grown(h: Holding, quantity: int, price: real): Holding
    requires h.quantity + quantity != 0
  {
    var newQuantity := h.quantity + quantity;
    var newInvested := h.totalInvested + TradeValue(quantity, price);
    Holding(h.userId, h.stockId, newQuantity, newInvested / newQuantity as real, newInvested)
  }

  /** Dividing a basis by a non-zero share count and multiplying back returns it. */
  lemma PerShareTimesShares(total: real, shares: int)
    requires shares != 0
    ensures total / shares as real * shares as real == total
  {
  }

  /** A buy adds the shares and their cost to the user's position in the stock and
      sets its average price to the new cost basis per share; a first buy records the
      trade price as the average. */
  lemma BuyUpdatesHolding(l: Ledger, userId: int, stockId: int, quantity: int, price: real, now: int)
    requires CanBuy(l.holdings, userId, stockId, quantity)
    requires BuyStock(l, userId, stockId, quantity, price, now).Success?
    ensures var after := BuyStock(l, userId, stockId, quantity, price, now).value.holdings;
            && HoldingOf(after, userId, stockId).Some?
            && QuantityHeld(after, userId, stockId) == QuantityHeld(l.holdings, userId, stockId) + quantity
            && InvestedIn(after, userId, stockId) ==
               InvestedIn(l.holdings, userId, stockId) + TradeValue(quantity, price)
            && Consistent(HoldingOf(after, userId, stockId).value)
            && (HoldingOf(l.holdings, userId, stockId).None? ==>
                  HoldingOf(after, userId, stockId).value.averagePrice == price)
  {
    var after := BoughtHoldings(l.holdings, userId, stockId, quantity, price);
    assert BuyStock(l, userId, stockId, quantity, price, now).value.holdings == after;
    var h := BoughtRowFacts(l.holdings, userId, stockId, quantity, price);
  }

  /** The row a buy leaves for its key, with what it says of the row before. */
  lemma BoughtRowFacts(holdings: seq<Holding>, userId: int, stockId: int, quantity: int, price: real)
    returns (h: Holding)
    requires CanBuy(holdings, userId, stockId, quantity)
    ensures HoldingOf(BoughtHoldings(holdings, userId, stockId, quantity, price), userId, stockId) == Some(h)
    ensures h.quantity == QuantityHeld(holdings, userId, stockId) + quantity
    ensures h.totalInvested == InvestedIn(holdings, userId, stockId) + TradeValue(quantity, price)
    ensures Consistent(h)
    ensures HoldingOf(holdings, userId, stockId).None? ==> h.averagePrice == price
  {
    var after := BoughtHoldings(holdings, userId, stockId, quantity, price);
    match IndexOf(holdings, userId, stockId)
    case Some(i) =>
      h := Grown(holdings[i], quantity, price);
      assert after == holdings[i := h];
      IndexOfUpdate(holdings, i, h, userId, stockId);
      GrownIsConsistent(holdings[i], quantity, price);
    case None =>
      h := Opened(userId, stockId, quantity, price);
      assert after == holdings + [h];
      IndexOfAppend(holdings, h, userId, stockId);
  }

  /** A buy changes no other user's or stock's holding. */
  lemma BuyKeepsOtherHoldings(l: Ledger, userId: int, stockId: int, quantity: int, price: real, now: int)
    requires CanBuy(l.holdings, userId, stockId, quantity)
    requires BuyStock(l, userId, stockId, quantity, price, now).Success?
    ensures forall u, s :: !(u == userId && s == stockId) ==>
              HoldingOf(BuyStock(l, userId, stockId, quantity, price, now).value.holdings, u, s) ==
              HoldingOf(l.holdings, u, s)
  {
    var before := l.holdings;
    var after := BoughtHoldings(before, userId, stockId, quantity, price);
    assert BuyStock(l, userId, stockId, quantity, price, now).value.holdings == after;
    forall u, s | !(u == userId && s == stockId)
      ensures HoldingOf(after, u, s) == HoldingOf(before, u, s)
    {
      match IndexOf(before, userId, stockId)
      case Some(i) =>
        var h := Grown(before[i], quantity, price);
        IndexOfUpdate(before, i, h, u, s);
        var k := IndexOf(before, u, s);
        if k.Some? {
          assert k.value != i;
        }
      case None =>
        IndexOfAppend(before, Opened(userId, stockId, quantity, price), u, s);
    }
  }

  /** Buying `q1` and then `q2` shares of a stock not held before leaves an average
      price that weighs each purchase price by its share count. */
  lemma TwoBuysWeightedAverage(l: Ledger, userId: int, stockId: int,
                               q1: int, p1: real, t1: int, q2: int, p2: real, t2: int)
    requires q1 > 0 && q2 > 0
    requires HoldingOf(l.holdings, userId, stockId).None?
    requires BuyStock(l, userId, stockId, q1, p1, t1).Success?
    requires BuyStock(BuyStock(l, userId, stockId, q1, p1, t1).value, userId, stockId, q2, p2, t2).Success?
    ensures var after := BuyStock(BuyStock(l, userId, stockId, q1, p1, t1).value, userId, stockId, q2, p2, t2).value;
            && HoldingOf(after.holdings, userId, stockId).Some?
            && HoldingOf(after.holdings, userId, stockId).value.quantity == q1 + q2
            && HoldingOf(after.holdings, userId, stockId).value.averagePrice ==
               (q1 as real * p1 + q2 as real * p2) / (q1 + q2) as real
  {
    var mid := BuyStock(l, userId, stockId, q1, p1, t1).value;
    BuyUpdatesHolding(l, userId, stockId, q1, p1, t1);
    BuyUpdatesHolding(mid, userId, stockId, q2, p2, t2);
    var after := BuyStock(mid, userId, stockId, q2, p2, t2).value;
    var h := HoldingOf(after.holdings, userId, stockId).value;
    assert h.quantity == q1 + q2;
    assert h.totalInvested == q1 as real * p1 + q2 as real * p2;
    assert h.averagePrice * (q1 + q2) as real == h.totalInvested;
  }

  // ---------------------------------------------------------------------------
  // Sell

  /** `sellStock`: takes the shares out of the user's holding (deleting it when none
      remain), credits the proceeds to the user's cash and logs a SELL. Selling more
      than is held, or a stock never held, fails; a sell of 0 shares from a row
      succeeds, rewriting the row as it was (or deleting it when it holds none). */
  function SellStock(l: Ledger, userId: int, stockId: int, quantity: int, price: real, now: int)
    : (r: Result<Ledger, TradeError>)
    requires quantity >= 0
    ensures r.Failure? <==>
              HoldingOf(l.holdings, userId, stockId).None? || QuantityHeld(l.holdings, userId, stockId) < quantity
    ensures r.Failure? ==> r.error == InsufficientShares
    ensures r.Success? ==>
              && r.value.cash.Keys == l.cash.Keys
              && (userId in l.cash ==> r.value.cash[userId] == l.cash[userId] + TradeValue(quantity, price))
              && forall u :: u in l.cash && u != userId ==> r.value.cash[u] == l.cash[u]
    ensures r.Success? ==>
              && |r.value.transactions| == |l.transactions| + 1
              && r.value.transactions[..|l.transactions|] == l.transactions
              && r.value.transactions[|l.transactions|] ==
                 Transaction(userId, stockId, SELL, quantity, price, TradeValue(quantity, price), now)
    ensures r.Success? && NoEmptyRows(l.holdings) ==> NoEmptyRows(r.value.holdings)
  {
    match IndexOf(l.holdings, userId, stockId)
    case None => Failure(InsufficientShares)
    case Some(i) =>
      if l.holdings[i].quantity < quantity then Failure(InsufficientShares)
      else
        var proceeds := TradeValue(quantity, price);
        var cash := if userId in l.cash then l.cash[userId := l.cash[userId] + proceeds] else l.cash;
        Success(Ledger(
          cash,
          SoldHoldings(l.holdings, i, quantity),
          l.transactions + [Transaction(userId, stockId, SELL, quantity, price, proceeds, now)]))
  }

  /** Holding `h` less `quantity` shares: the cost basis scaled by the fraction of
      shares kept, the average price not written. */
  function Reduced(h: Holding, quantity: int): Holding
    requires h.quantity != 0
  {
    var newQuantity := h.quantity - quantity;
    Holding(h.userId, h.stockId, newQuantity, h.averagePrice,
            h.totalInvested * newQuantity as real / h.quantity as real)
  }

  /** The holdings table after selling `quantity` shares of row `i`: the row deleted
      when it drains, otherwise its quantity lowered and its cost basis scaled down in
      proportion, its average price left as it was. */
  function SoldHoldings(holdings: seq<Holding>, i: nat, quantity: int): (r: seq<Holding>)
    requires i < |holdings|
    requires 0 <= quantity <= holdings[i].quantity
    ensures NoEmptyRows(holdings) ==> NoEmptyRows(r)
  {
    var h := holdings[i];
    var newQuantity := h.quantity - quantity;
    if newQuantity == 0 then
      var rest := holdings[..i] + holdings[i + 1..];
      assert forall j :: 0 <= j < i ==> rest[j] == holdings[j];
      assert forall j :: i <= j < |rest| ==> rest[j] == holdings[j + 1];
      rest
    else
      holdings[i := Reduced(h, quantity)]
  }

  /** The cost basis a sale of `quantity` shares takes out of holding `h`: all of it
      when the row drains, otherwise the sold fraction of it. */
  function BasisSold(h: Holding, quantity: int): real
    requires h.quantity != 0 || quantity == 0
  {
    if quantity == h.quantity then h.totalInvested
    else h.totalInvested * quantity as real / h.quantity as real
  }

  /** A sell takes the shares out of the position; a sell of every share leaves no row
      at all; a partial sell keeps the average price and scales the cost basis by the
      fraction of shares kept. */
  lemma SellUpdatesHolding(l: Ledger, userId: int, stockId: int, quantity: int, price: real, now: int)
    requires quantity >= 0
    requires UniqueKeys(l.holdings)
    requires SellStock(l, userId, stockId, quantity, price, now).Success?
    ensures var after := SellStock(l, userId, stockId, quantity, price, now).value.holdings;
            var held := QuantityHeld(l.holdings, userId, stockId);
            && QuantityHeld(after, userId, stockId) == held - quantity
            && (held == quantity ==> HoldingOf(after, userId, stockId).None?)
            && InvestedIn(after, userId, stockId) * held as real ==
               InvestedIn(l.holdings, userId, stockId) * (held - quantity) as real
            && (held > quantity ==>
                  && HoldingOf(after, userId, stockId).Some?
                  && HoldingOf(after, userId, stockId).value.averagePrice ==
                     HoldingOf(l.holdings, userId, stockId).value.averagePrice)
  {
    var i := IndexOf(l.holdings, userId, stockId).value;
    var h := l.holdings[i];
    var after := SoldHoldings(l.holdings, i, quantity);
    assert SellStock(l, userId, stockId, quantity, price, now).value.holdings == after;
    if h.quantity == quantity {
      HoldingOfRemoveOwnKey(l.holdings, i);
    } else {
      var newQuantity := h.quantity - quantity;
      var h' := Reduced(h, quantity);
      assert after == l.holdings[i := h'];
      IndexOfUpdate(l.holdings, i, h', userId, stockId);
      assert IndexOf(after, userId, stockId) == Some(i);
      assert after[i] == h';
      assert HoldingOf(after, userId, stockId) == Some(h');
      assert h'.totalInvested * h.quantity as real == h.totalInvested * newQuantity as real;
    }
  }

  /** A sell changes no other user's or stock's holding. */
  lemma SellKeepsOtherHoldings(l: Ledger, userId: int, stockId: int, quantity: int, price: real, now: int)
    requires quantity >= 0
    requires SellStock(l, userId, stockId, quantity, price, now).Success?
    ensures forall u, s :: !(u == userId && s == stockId) ==>
              HoldingOf(SellStock(l, userId, stockId, quantity, price, now).value.holdings, u, s) ==
              HoldingOf(l.holdings, u, s)
  {
    var i := IndexOf(l.holdings, userId, stockId).value;
    var h := l.holdings[i];
    var after := SoldHoldings(l.holdings, i, quantity);
    assert SellStock(l, userId, stockId, quantity, price, now).value.holdings == after;
    forall u, s | !(u == userId && s == stockId)
      ensures HoldingOf(after, u, s) == HoldingOf(l.holdings, u, s)
    {
      if h.quantity == quantity {
        HoldingOfRemove(l.holdings, i, u, s);
      } else {
        var h' := Reduced(h, quantity);
        IndexOfUpdate(l.holdings, i, h', u, s);
        var k := IndexOf(l.holdings, u, s);
        if k.Some? {
          assert k.value != i;
        }
      }
    }
  }

  // ---------------------------------------------------------------------------
  // Conservation and the ledger invariant

  /** The cost basis column of the user's rows. */
  function InvestedBy(userId: int): Holding -> real {
    (h: Holding) => if h.userId == userId then h.totalInvested else 0.0
  }

  /** Cash plus the cost basis of every holding: what the user has put into the
      portfolio and not yet taken out. */
  function Wealth(l: Ledger, userId: int): real
    requires userId in l.cash
  {
    l.cash[userId] + Sums.Sum(l.holdings, InvestedBy(userId))
  }

  /** A buy moves money from cash into cost basis and changes no user's wealth. */
  lemma BuyConservesWealth(l: Ledger, userId: int, stockId: int, quantity: int, price: real, now: int)
    requires CanBuy(l.holdings, userId, stockId, quantity)
    requires BuyStock(l, userId, stockId, quantity, price, now).Success?
    ensures forall u :: u in l.cash ==>
              Wealth(BuyStock(l, userId, stockId, quantity, price, now).value, u) == Wealth(l, u)
  {
    var after := BuyStock(l, userId, stockId, quantity, price, now).value;
    var cost := TradeValue(quantity, price);
    forall u | u in l.cash ensures Wealth(after, u) == Wealth(l, u) {
      match IndexOf(l.holdings, userId, stockId)
      case Some(i) =>
        Sums.SumUpdate(l.holdings, i, Grown(l.holdings[i], quantity, price), InvestedBy(u));
      case None =>
        Sums.SumAppend(l.holdings, Opened(userId, stockId, quantity, price), InvestedBy(u));
    }
  }

  /** A sell adds the proceeds to the seller's cash and takes the sold shares' cost
      basis out of the portfolio: the seller's wealth changes by the realised gain,
      every other user's not at all. */
  lemma SellRealisesGain(l: Ledger, userId: int, stockId: int, quantity: int, price: real, now: int)
    requires quantity >= 0
    requires userId in l.cash
    requires SellStock(l, userId, stockId, quantity, price, now).Success?
    ensures HoldingOf(l.holdings, userId, stockId).Some?
    ensures var after := SellStock(l, userId, stockId, quantity, price, now).value;
            Wealth(after, userId) == Wealth(l, userId) + TradeValue(quantity, price)
              - BasisSold(HoldingOf(l.holdings, userId, stockId).value, quantity)
    ensures forall u :: u in l.cash && u != userId ==>
              Wealth(SellStock(l, userId, stockId, quantity, price, now).value, u) == Wealth(l, u)
  {
    var i := IndexOf(l.holdings, userId, stockId).value;
    var after := SellStock(l, userId, stockId, quantity, price, now).value;
    assert after.holdings == SoldHoldings(l.holdings, i, quantity);
    forall u | u in l.cash
      ensures Sums.Sum(after.holdings, InvestedBy(u)) ==
              Sums.Sum(l.holdings, InvestedBy(u)) - (if u == userId then BasisSold(l.holdings[i], quantity) else 0.0)
    {
      SoldHoldingsSum(l.holdings, i, quantity, u);
    }
  }

  /** Selling from row `i` takes the sold shares' basis out of its owner's column sum. */
  lemma SoldHoldingsSum(holdings: seq<Holding>, i: nat, quantity: int, userId: int)
    requires i < |holdings|
    requires 0 <= quantity <= holdings[i].quantity
    ensures Sums.Sum(SoldHoldings(holdings, i, quantity), InvestedBy(userId)) ==
            Sums.Sum(holdings, InvestedBy(userId))
              - (if holdings[i].userId == userId then BasisSold(holdings[i], quantity) else 0.0)
  {
    var h := holdings[i];
    if h.quantity == quantity {
      Sums.SumRemove(holdings, i, InvestedBy(userId));
    } else {
      var g := Reduced(h, quantity);
      assert SoldHoldings(holdings, i, quantity) == holdings[i := g];
      Sums.SumUpdate(holdings, i, g, InvestedBy(userId));
      if h.userId == userId {
        ReducedBasis(h, quantity);
        assert InvestedBy(userId)(g) == g.totalInvested;
        assert InvestedBy(userId)(h) == h.totalInvested;
      } else {
        assert InvestedBy(userId)(g) == 0.0 && InvestedBy(userId)(h) == 0.0;
      }
    }
  }

  /** A partial sell takes exactly the sold shares' basis out of the row. */
  lemma ReducedBasis(h: Holding, quantity: int)
    requires h.quantity > 0
    ensures Reduced(h, quantity).totalInvested == h.totalInvested - BasisSold(h, quantity)
  {
    ScaledBasis(h.totalInvested, h.quantity, quantity);
    if quantity == h.quantity {
      assert Reduced(h, quantity).totalInvested == h.totalInvested * 0.0 / h.quantity as real;
    }
  }

  /** Keeping `held - sold` of `held` shares keeps the basis less the sold fraction. */
  lemma ScaledBasis(total: real, held: int, sold: int)
    requires held > 0
    ensures total * (held - sold) as real / held as real == total - total * sold as real / held as real
  {
    calc {
      total * (held - sold) as real / held as real;
      == (total * held as real - total * sold as real) / held as real;
      == total * held as real / held as real - total * sold as real / held as real;
    }
  }

  /** Rewriting a row without changing its key keeps the keys unique. */
  lemma UpdateKeepsUniqueKeys(holdings: seq<Holding>, i: nat, h: Holding)
    requires UniqueKeys(holdings)
    requires i < |holdings|
    requires h.userId == holdings[i].userId && h.stockId == holdings[i].stockId
    ensures UniqueKeys(holdings[i := h])
  {
    var hs := holdings[i := h];
    forall a, b | 0 <= a < b < |hs| ensures !IsKey(hs[b], hs[a].userId, hs[a].stockId) {
      assert !IsKey(holdings[b], holdings[a].userId, holdings[a].stockId);
    }
  }

  /** Appending a row for a key with no row keeps the keys unique. */
  lemma AppendKeepsUniqueKeys(holdings: seq<Holding>, h: Holding)
    requires UniqueKeys(holdings)
    requires IndexOf(holdings, h.userId, h.stockId).None?
    ensures UniqueKeys(holdings + [h])
  {
    var hs := holdings + [h];
    forall a, b | 0 <= a < b < |hs| ensures !IsKey(hs[b], hs[a].userId, hs[a].stockId) {
      if b < |holdings| {
        assert hs[a] == holdings[a] && hs[b] == holdings[b];
      } else {
        assert hs[a] == holdings[a];
        assert !IsKey(holdings[a], h.userId, h.stockId);
      }
    }
  }

  /** Deleting a row keeps the keys unique and every other row's properties. */
  lemma RemoveKeepsRows(holdings: seq<Holding>, i: nat)
    requires i < |holdings|
    ensures var rest := holdings[..i] + holdings[i + 1..];
            && (UniqueKeys(holdings) ==> UniqueKeys(rest))
            && (CostBasisConsistent(holdings) ==> CostBasisConsistent(rest))
  {
    var rest := holdings[..i] + holdings[i + 1..];
    assert forall j :: 0 <= j < i ==> rest[j] == holdings[j];
    assert forall j :: i <= j < |rest| ==> rest[j] == holdings[j + 1];
    if UniqueKeys(holdings) {
      forall a, b | 0 <= a < b < |rest| ensures !IsKey(rest[b], rest[a].userId, rest[a].stockId) {
        var a', b' := if a < i then a else a + 1, if b < i then b else b + 1;
        assert rest[a] == holdings[a'] && rest[b] == holdings[b'];
      }
    }
  }

  /** Rewriting a row with a consistent one keeps every row consistent. */
  lemma UpdateKeepsCostBasis(holdings: seq<Holding>, i: nat, h: Holding)
    requires CostBasisConsistent(holdings)
    requires i < |holdings|
    requires Consistent(h)
    ensures CostBasisConsistent(holdings[i := h])
  {
  }

  /** A grown row's average price is its basis per share. */
  lemma GrownIsConsistent(h: Holding, quantity: int, price: real)
    requires h.quantity + quantity != 0
    ensures Consistent(Grown(h, quantity, price))
  {
    var g := Grown(h, quantity, price);
    PerShareTimesShares(g.totalInvested, g.quantity);
  }

  /** A reduced row keeps a consistent row consistent. */
  lemma ReducedIsConsistent(h: Holding, quantity: int)
    requires h.quantity != 0
    requires Consistent(h)
    ensures Consistent(Reduced(h, quantity))
  {
    var g := Reduced(h, quantity);
    var q, nq := h.quantity as real, g.quantity as real;
    assert h.averagePrice == h.totalInvested / q by {
      PerShareTimesShares(h.totalInvested, h.quantity);
    }
    calc {
      g.totalInvested;
      == h.totalInvested * nq / q;
      == (h.totalInvested / q) * nq;
      == h.averagePrice * nq;
    }
  }

  /** A successful buy keeps the ledger's invariant. */
  lemma BuyPreservesValid(l: Ledger, userId: int, stockId: int, quantity: int, price: real, now: int)
    requires quantity > 0
    requires Valid(l)
    requires BuyStock(l, userId, stockId, quantity, price, now).Success?
    ensures Valid(BuyStock(l, userId, stockId, quantity, price, now).value)
  {
    var after := BuyStock(l, userId, stockId, quantity, price, now).value;
    assert after.holdings == BoughtHoldings(l.holdings, userId, stockId, quantity, price);
    match IndexOf(l.holdings, userId, stockId)
    case Some(i) =>
      var h := Grown(l.holdings[i], quantity, price);
      GrownIsConsistent(l.holdings[i], quantity, price);
      UpdateKeepsUniqueKeys(l.holdings, i, h);
      UpdateKeepsCostBasis(l.holdings, i, h);
    case None =>
      var h := Opened(userId, stockId, quantity, price);
      AppendKeepsUniqueKeys(l.holdings, h);
      var hs := l.holdings + [h];
      assert forall j :: 0 <= j < |l.holdings| ==> hs[j] == l.holdings[j];
      assert hs[|l.holdings|] == h;
  }

  /** A successful sell at a non-negative price keeps the ledger's invariant. */
  lemma SellPreservesValid(l: Ledger, userId: int, stockId: int, quantity: int, price: real, now: int)
    requires quantity >= 0
    requires price >= 0.0
    requires Valid(l)
    requires SellStock(l, userId, stockId, quantity, price, now).Success?
    ensures Valid(SellStock(l, userId, stockId, quantity, price, now).value)
  {
    var after := SellStock(l, userId, stockId, quantity, price, now).value;
    var i := IndexOf(l.holdings, userId, stockId).value;
    var h := l.holdings[i];
    assert after.holdings == SoldHoldings(l.holdings, i, quantity);
    if h.quantity == quantity {
      RemoveKeepsRows(l.holdings, i);
    } else {
      ReducedIsConsistent(h, quantity);
      UpdateKeepsUniqueKeys(l.holdings, i, Reduced(h, quantity));
      UpdateKeepsCostBasis(l.holdings, i, Reduced(h, quantity));
    }
    if quantity == 0 {
      assert TradeValue(quantity, price) == 0.0;
    } else {
      assert TradeValue(quantity, price) >= 0.0;
    }
  }

  /** Every successful buy keeps the (user, stock) keys unique, whatever else holds of
      the table: it rewrites the key's row or appends one for a key with none. */
  lemma BuyKeepsUniqueKeys(l: Ledger, userId: int, stockId: int, quantity: int, price: real, now: int)
    requires CanBuy(l.holdings, userId, stockId, quantity)
    requires UniqueKeys(l.holdings)
    requires BuyStock(l, userId, stockId, quantity, price, now).Success?
    ensures UniqueKeys(BuyStock(l, userId, stockId, quantity, price, now).value.holdings)
  {
    assert BuyStock(l, userId, stockId, quantity, price, now).value.holdings ==
           BoughtHoldings(l.holdings, userId, stockId, quantity, price);
    match IndexOf(l.holdings, userId, stockId)
    case Some(i) =>
      UpdateKeepsUniqueKeys(l.holdings, i, Grown(l.holdings[i], quantity, price));
    case None =>
      AppendKeepsUniqueKeys(l.holdings, Opened(userId, stockId, quantity, price));
  }

  /** Every successful sell keeps the (user, stock) keys unique, whatever else holds
      of the table: it rewrites or deletes the key's row. */
  lemma SellKeepsUniqueKeys(l: Ledger, userId: int, stockId: int, quantity: int, price: real, now: int)
    requires quantity >= 0
    requires UniqueKeys(l.holdings)
    requires SellStock(l, userId, stockId, quantity, price, now).Success?
    ensures UniqueKeys(SellStock(l, userId, stockId, quantity, price, now).value.holdings)
  {
    var i := IndexOf(l.holdings, userId, stockId).value;
    var h := l.holdings[i];
    assert SellStock(l, userId, stockId, quantity, price, now).value.holdings ==
           SoldHoldings(l.holdings, i, quantity);
    if h.quantity == quantity {
      RemoveKeepsRows(l.holdings, i);
    } else {
      UpdateKeepsUniqueKeys(l.holdings, i, Reduced(h, quantity));
    }
  }

  // ---------------------------------------------------------------------------
  // Round trip

  /** A first buy appends its row at the end of the table. */
  lemma FirstBuyAppends(holdings: seq<Holding>, userId: int, stockId: int, quantity: int, price: real)
    requires quantity >= 0
    requires HoldingOf(holdings, userId, stockId).None?
    ensures BoughtHoldings(holdings, userId, stockId, quantity, price) ==
            holdings + [Opened(userId, stockId, quantity, price)]
    ensures IndexOf(holdings + [Opened(userId, stockId, quantity, price)], userId, stockId) == Some(|holdings|)
  {
    IndexOfAppend(holdings, Opened(userId, stockId, quantity, price), userId, stockId);
  }

  /** Selling every share of the last row deletes it. */
  lemma SellingLastRowDeletesIt(holdings: seq<Holding>, h: Holding)
    requires h.quantity > 0
    ensures SoldHoldings(holdings + [h], |holdings|, h.quantity) == holdings
  {
    var ext := holdings + [h];
    assert ext[..|holdings|] == holdings;
    assert ext[|holdings| + 1..] == [];
  }

  /** Buying shares of a stock the user does not hold and selling all of them again
      at the same price undoes the buy: cash and holdings are as they were, and the
      log has gained both trades. */
  lemma BuyThenSellRestores(l: Ledger, userId: int, stockId: int, quantity: int, price: real, t1: int, t2: int)
    requires quantity > 0
    requires HoldingOf(l.holdings, userId, stockId).None?
    requires BuyStock(l, userId, stockId, quantity, price, t1).Success?
    ensures var mid := BuyStock(l, userId, stockId, quantity, price, t1).value;
            var after := SellStock(mid, userId, stockId, quantity, price, t2);
            && after.Success?
            && after.value.cash == l.cash
            && after.value.holdings == l.holdings
            && after.value.transactions[..|l.transactions|] == l.transactions
            && |after.value.transactions| == |l.transactions| + 2
  {
    var mid := BuyStock(l, userId, stockId, quantity, price, t1).value;
    var h := Opened(userId, stockId, quantity, price);
    FirstBuyAppends(l.holdings, userId, stockId, quantity, price);
    SellingLastRowDeletesIt(l.holdings, h);
    assert mid.holdings == l.holdings + [h];
    var after := SellStock(mid, userId, stockId, quantity, price, t2).value;
    assert after.holdings == SoldHoldings(mid.holdings, |l.holdings|, quantity);
    assert after.cash == l.cash;
    assert after.transactions[..|l.transactions|] == mid.transactions[..|l.transactions|];
  }
}
