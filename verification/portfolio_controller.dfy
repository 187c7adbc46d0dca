/** The request handlers of `backend/controllers/portfolioController.js`: the guard
    that turns away a trade with a missing or zero field before the ledger is touched,
    the defaults for the user id and the history limit, and how a ledger outcome
    becomes a response. Request bodies are JSON, so a field is either absent or a
    number; query parameters are strings, present when non-empty. */
module PortfolioController {
  import opened Wrappers
  import opened Portfolio
  import PortfolioViews
  import Stock

  /** A JSON body field: absent, or a number. */
  datatype Field<T> = Absent | Given(value: T)

  /** The body of a buy or sell request. */
  datatype TradeRequest = TradeRequest(userId: Field<int>, stockId: Field<int>, quantity: Field<real>, price: Field<real>)

  /** The status code and the `{ success, message }` object a trade handler sends. */
  datatype Response = Response(status: int, success: bool, message: string)

  /** The user every request without a user id acts for. */
  const DefaultUserId: int := 1
  /** The history length used when the request gives no limit. */
  const DefaultHistoryLimit: nat := 50
  const MissingFieldsMessage: string := "Missing required fields"

  /** JavaScript truthiness of a numeric field: present and not zero. */
  predicate IntTruthy(f: Field<int>) {
    f.Given? && f.value != 0
  }

  predicate RealTruthy(f: Field<real>) {
    f.Given? && f.value != 0.0
  }

  /** `req.body.userId || 1`. */
  function BodyUserId(f: Field<int>): (r: int)
    ensures IntTruthy(f) ==> r == f.value
    ensures !IntTruthy(f) ==> r == DefaultUserId
    ensures r != 0
  {
    if IntTruthy(f) then f.value else DefaultUserId
  }

  /** `req.query.userId || 1`: any non-empty string is truthy, "0" included, so
      only a missing parameter falls back to the default. */
  function QueryUserId(q: Option<int>): (r: int)
    ensures q.Some? ==> r == q.value
    ensures q.None? ==> r == DefaultUserId
  {
    q.GetOr(DefaultUserId)
  }

  /** The default applies to a body field of 0 but not to a query parameter "0". */
  lemma ZeroUserIdDiffers()
    ensures BodyUserId(Given(0)) == DefaultUserId
    ensures QueryUserId(Some(0)) == 0
  {
  }

  /** 10 to the power `n`. */
  function Power10(n: nat): (r: real)
    ensures r >= 1.0
  {
    if n == 0 then 1.0 else 10.0 * Power10(n - 1)
  }

  /** 10 to the power `k`, for any whole `k`. */
  function Pow10(k: int): (r: real)
    ensures r > 0.0
  {
    if k >= 0 then Power10(k) else 1.0 / Power10(-k)
  }

  lemma Pow10Step(k: int)
    ensures Pow10(k + 1) == 10.0 * Pow10(k)
  {
    if k < -1 {
      var p := Power10(-k - 1);
      assert Power10(-k) == 10.0 * p;
      assert 1.0 / (10.0 * p) * 10.0 == 1.0 / p;
    }
  }

  /** `d × 10^k <= x < (d + 1) × 10^k`: written in scientific notation, `x` has
      exponent `k` and starts with the digits of `d`. */
  predicate Brackets(d: int, k: int, x: real) {
    d as real * Pow10(k) <= x < (d + 1) as real * Pow10(k)
  }

  /** `d` is the first digit of `x` in scientific notation. */
  ghost predicate LeadingDigit(d: int, x: real) {
    1 <= d <= 9 && exists k :: Brackets(d, k, x)
  }

  lemma ShiftUp(d: int, k: int, x: real, y: real)
    requires Brackets(d, k, x)
    requires y == x * 10.0
    ensures Brackets(d, k + 1, y)
  {
    var p := Pow10(k);
    Pow10Step(k);
    assert d as real * Pow10(k + 1) == 10.0 * (d as real * p);
    assert (d + 1) as real * Pow10(k + 1) == 10.0 * ((d + 1) as real * p);
  }

  lemma ShiftDown(d: int, k: int, y: real, x: real)
    requires Brackets(d, k, y)
    requires y == x * 10.0
    ensures Brackets(d, k - 1, x)
  {
    var p := Pow10(k - 1);
    Pow10Step(k - 1);
    assert d as real * Pow10(k) == 10.0 * (d as real * p);
    assert (d + 1) as real * Pow10(k) == 10.0 * ((d + 1) as real * p);
  }

  /** Scaling a number from 10 up down by ten lowers its integer part. */
  lemma QuotientShrinks(x: real)
    requires x >= 10.0
    ensures 0 <= (x / 10.0).Floor < x.Floor
  {
    assert (x / 10.0).Floor as real <= x / 10.0 < x - 1.0 < x.Floor as real;
  }

  /** Scaling a number below 0.1 up by ten lowers the integer part of its reciprocal. */
  lemma ReciprocalShrinks(x: real)
    requires 0.0 < x < 0.1
    ensures 0 <= (1.0 / (x * 10.0)).Floor < (1.0 / x).Floor
  {
    var z := 1.0 / x;
    assert z > 10.0 by {
      assert z * x == 1.0;
    }
    assert 1.0 / (x * 10.0) == z / 10.0;
    assert (z / 10.0).Floor as real <= z / 10.0 < z - 1.0 < z.Floor as real;
  }

  /** Leading digit and exponent of a number from 1 up. */
  function ScientificAbove(x: real): (r: (int, int))
    requires x >= 1.0
    ensures 1 <= r.0 <= 9
    ensures Brackets(r.0, r.1, x)
    decreases x.Floor
  {
    if x < 10.0 then
      assert Brackets(x.Floor, 0, x);
      (x.Floor, 0)
    else
      QuotientShrinks(x);
      var r := ScientificAbove(x / 10.0);
      ShiftUp(r.0, r.1, x / 10.0, x);
      (r.0, r.1 + 1)
  }

  /** Leading digit and exponent of a number below 1. */
  function ScientificBelow(x: real): (r: (int, int))
    requires 0.0 < x < 1.0
    ensures 1 <= r.0 <= 9
    ensures Brackets(r.0, r.1, x)
    decreases (1.0 / x).Floor
  {
    var y := x * 10.0;
    var r := if y < 1.0 then ReciprocalShrinks(x); ScientificBelow(y) else ScientificAbove(y);
    ShiftDown(r.0, r.1, y, x);
    (r.0, r.1 - 1)
  }

  /** A positive number in scientific notation: its leading digit and exponent. */
  function Scientific(x: real): (r: (int, int))
    requires x > 0.0
    ensures 1 <= r.0 <= 9
    ensures Brackets(r.0, r.1, x)
  {
    if x >= 1.0 then ScientificAbove(x) else ScientificBelow(x)
  }

  /** A power of ten from 1 up is written as the digit 1 and its exponent. */
  lemma {:induction false} ScientificOfPowerAbove(k: nat)
    ensures Pow10(k) >= 1.0
    ensures ScientificAbove(Pow10(k)) == (1, k)
  {
    if k > 0 {
      ScientificOfPowerAbove(k - 1);
      Pow10Step(k - 1);
      assert Pow10(k) / 10.0 == Pow10(k - 1);
    }
  }

  /** A power of ten below 1 is written as the digit 1 and its exponent. */
  lemma {:induction false} ScientificOfPowerBelow(k: int)
    requires k < 0
    ensures 0.0 < Pow10(k) < 1.0
    ensures ScientificBelow(Pow10(k)) == (1, k)
    decreases -k
  {
    Pow10Step(k);
    assert Pow10(k) * 10.0 == Pow10(k + 1);
    if k < -1 {
      ScientificOfPowerBelow(k + 1);
    } else {
      ScientificOfPowerAbove(0);
    }
  }

  /** JavaScript writes zero, and magnitudes from 0.000001 up to but not including
      10^21, in plain notation, and every other number in exponent notation. */
  const MinPlain: real := 0.000001
  const MaxPlain: real := 1000000000000000000000.0

  predicate PlainNotation(x: real) {
    x == 0.0 || MinPlain <= x < MaxPlain || -MaxPlain < x <= -MinPlain
  }

  /** `parseInt` of a number. JavaScript first writes the number as a string, and
      `parseInt` reads the whole number at its head. In plain notation that is the
      integer part, truncated toward zero; in exponent notation ("1e-7", "1.5e+21")
      it is the leading digit alone, with the number's sign. */
  function ParseInt(x: real): (r: int)
    ensures PlainNotation(x) && x >= 0.0 ==> 0 <= r && r as real <= x < r as real + 1.0
    ensures PlainNotation(x) && x < 0.0 ==> r <= 0 && r as real - 1.0 < x <= r as real
    ensures !PlainNotation(x) && x > 0.0 ==> LeadingDigit(r, x)
    ensures !PlainNotation(x) && x < 0.0 ==> LeadingDigit(-r, -x)
  {
    if PlainNotation(x) then
      if x >= 0.0 then x.Floor else -((-x).Floor)
    else if x > 0.0 then
      Scientific(x).0
    else
      -Scientific(-x).0
  }

  /** `parseInt` gives back a whole number unchanged as long as it is written in
      plain notation; from 10^21 up it keeps only the leading digit. */
  lemma ParseIntOfWhole(n: int)
    ensures -MaxPlain < n as real < MaxPlain ==> ParseInt(n as real) == n
    ensures n as real >= MaxPlain ==> 1 <= ParseInt(n as real) <= 9
    ensures n as real <= -MaxPlain ==> -9 <= ParseInt(n as real) <= -1
  {
  }

  /** A positive quantity parses to no shares exactly when it is written in plain
      notation and is below one. */
  lemma ParseIntZero(x: real)
    requires x > 0.0
    ensures ParseInt(x) == 0 <==> MinPlain <= x < 1.0
  {
  }

  /** The exponent forms: 10^-7 is written "1e-7" and parses to 1; 10^21 is written
      "1e+21" and parses to 1; 10^-6 is written "0.000001" and parses to 0. */
  lemma ParseIntExponentForms()
    ensures ParseInt(0.0000001) == 1
    ensures ParseInt(MaxPlain) == 1
    ensures ParseInt(MinPlain) == 0
  {
    assert Power10(7) == 10000000.0;
    assert Power10(14) == 100000000000000.0;
    assert Pow10(21) == MaxPlain;
    ScientificOfPowerAbove(21);
    assert Pow10(-7) == 0.0000001;
    ScientificOfPowerBelow(-7);
  }

  /** The guard at the head of both trade handlers: `!stockId || !quantity || !price`. */
  predicate MissingFields(req: TradeRequest) {
    !IntTruthy(req.stockId) || !RealTruthy(req.quantity) || !RealTruthy(req.price)
  }

  /** Turns a ledger outcome into a response: success with the operation's message,
      or status 500 with the error's message and the ledger as it was. */
  function Respond(l: Ledger, outcome: Result<Ledger, TradeError>, successMessage: string): (r: (Response, Ledger))
    ensures outcome.Success? ==> r == (Response(200, true, successMessage), outcome.value)
    ensures outcome.Failure? ==> r == (Response(500, false, outcome.error.Message()), l)
  {
    match outcome
    case Success(l') => (Response(200, true, successMessage), l')
    case Failure(e) => (Response(500, false, e.Message()), l)
  }

  /** What the ledger's buy needs of a request that passes the guard: see `CanBuy`. */
  predicate BuyComputable(l: Ledger, req: TradeRequest) {
    !MissingFields(req) ==>
      CanBuy(l.holdings, BodyUserId(req.userId), req.stockId.value, ParseInt(req.quantity.value))
  }

  /** `buyStock`: turns a request with a missing or zero field away with 400 and
      leaves the ledger alone; otherwise buys `parseInt(quantity)` shares at `price`
      for the body's user (1 by default) and reports the ledger's outcome. The guard
      looks at the field before `parseInt`, so a quantity from 0.000001 up to but not
      including 1 passes it and reaches the ledger as 0 (see
      `FractionalBuyStoresEmptyRow`). */
  function Buy(l: Ledger, req: TradeRequest, now: int): (r: (Response, Ledger))
    requires BuyComputable(l, req)
    ensures MissingFields(req) ==> r == (Response(400, false, MissingFieldsMessage), l)
    ensures !MissingFields(req) ==>
              var outcome := BuyStock(l, BodyUserId(req.userId), req.stockId.value,
                                      ParseInt(req.quantity.value), req.price.value, now);
              && (r.0.status == 200 <==> outcome.Success?)
              && (outcome.Success? ==> r == (Response(200, true, PurchasedMessage), outcome.value))
              && (outcome.Failure? ==> r == (Response(500, false, outcome.error.Message()), l))
  {
    if MissingFields(req) then (Response(400, false, MissingFieldsMessage), l)
    else
      var userId := BodyUserId(req.userId);
      var quantity := ParseInt(req.quantity.value);
      Respond(l, BuyStock(l, userId, req.stockId.value, quantity, req.price.value, now), PurchasedMessage)
  }

  /** `sellStock`: the same guard and defaults as `Buy`, then the ledger's sell. A
      quantity from 0.000001 up to but not including 1 reaches the ledger as 0 (see
      `FractionalSellLogsNoShares`). */
  function Sell(l: Ledger, req: TradeRequest, now: int): (r: (Response, Ledger))
    requires !MissingFields(req) ==> ParseInt(req.quantity.value) >= 0
    ensures MissingFields(req) ==> r == (Response(400, false, MissingFieldsMessage), l)
    ensures !MissingFields(req) ==>
              var outcome := SellStock(l, BodyUserId(req.userId), req.stockId.value,
                                       ParseInt(req.quantity.value), req.price.value, now);
              && (r.0.status == 200 <==> outcome.Success?)
              && (outcome.Success? ==> r == (Response(200, true, SoldMessage), outcome.value))
              && (outcome.Failure? ==> r == (Response(500, false, outcome.error.Message()), l))
  {
    if MissingFields(req) then (Response(400, false, MissingFieldsMessage), l)
    else
      var userId := BodyUserId(req.userId);
      var quantity := ParseInt(req.quantity.value);
      Respond(l, SellStock(l, userId, req.stockId.value, quantity, req.price.value, now), SoldMessage)
  }

  /** Whatever a buy request holds, the ledger either stays as it was or took one
      successful buy: no response other than 200 comes with a changed ledger. */
  lemma BuyChangesLedgerOnlyOnSuccess(l: Ledger, req: TradeRequest, now: int)
    requires BuyComputable(l, req)
    ensures var (resp, l') := Buy(l, req, now);
            resp.status != 200 ==> l' == l && !resp.success
    ensures var (resp, l') := Buy(l, req, now);
            resp.status == 200 ==> resp.success && |l'.transactions| == |l.transactions| + 1
  {
  }

  /** A buy the user cannot afford is answered with status 500 and the ledger's
      "Insufficient cash balance", and the ledger is unchanged. */
  lemma UnaffordableBuyIsRejected(l: Ledger, req: TradeRequest, now: int)
    requires !MissingFields(req)
    requires BuyComputable(l, req)
    requires BodyUserId(req.userId) in l.cash
    requires l.cash[BodyUserId(req.userId)] < TradeValue(ParseInt(req.quantity.value), req.price.value)
    ensures Buy(l, req, now) == (Response(500, false, "Insufficient cash balance"), l)
  {
  }

  /** The buy handler as written stores a holding row with no shares: a first buy
      of 0.5 shares passes the guard, `parseInt` makes it 0, and the ledger inserts
      a row of quantity 0 and answers 200. */
  lemma FractionalBuyStoresEmptyRow()
    ensures var l := Ledger(map[1 := 100.0], [], []);
            var req := TradeRequest(Absent, Given(7), Given(0.5), Given(10.0));
            var (resp, l') := Buy(l, req, 0);
            && resp == Response(200, true, PurchasedMessage)
            && l'.holdings == [Holding(1, 7, 0, 10.0, 0.0)]
            && !NoEmptyRows(l'.holdings)
  {
    var l := Ledger(map[1 := 100.0], [], []);
    var req := TradeRequest(Absent, Given(7), Given(0.5), Given(10.0));
    assert ParseInt(0.5) == 0;
    assert IndexOf(l.holdings, 1, 7).None?;
    var l' := Buy(l, req, 0).1;
    assert l'.holdings[0].quantity == 0;
  }

  /** The guard applied to the share count the ledger is given: a quantity whose
      integer part is zero is turned away like a missing one. */
  predicate MissingFieldsParsed(req: TradeRequest) {
    MissingFields(req) || ParseInt(req.quantity.value) == 0
  }

  /** `buyStock` with its guard on the parsed quantity: no request adds a holding
      row without shares. */
  function BuyChecked(l: Ledger, req: TradeRequest, now: int): (r: (Response, Ledger))
    requires !MissingFieldsParsed(req) ==> BuyComputable(l, req)
    ensures MissingFieldsParsed(req) ==> r == (Response(400, false, MissingFieldsMessage), l)
    ensures !MissingFieldsParsed(req) ==> r == Buy(l, req, now)
    ensures NoEmptyRows(l.holdings) ==> NoEmptyRows(r.1.holdings)
  {
    if MissingFieldsParsed(req) then (Response(400, false, MissingFieldsMessage), l)
    else Buy(l, req, now)
  }

  /** The corrected guard differs from the written one only where the quantity
      parses to no shares, which for a positive quantity is exactly from 0.000001 up
      to but not including 1: there the corrected handler refuses with 400. */
  lemma BuyCheckedDiffersOnlyOnZeroShares(l: Ledger, req: TradeRequest, now: int)
    requires BuyComputable(l, req)
    ensures MissingFields(req) || ParseInt(req.quantity.value) != 0 ==>
              BuyChecked(l, req, now) == Buy(l, req, now)
    ensures !MissingFields(req) && req.quantity.value > 0.0 ==>
              (BuyChecked(l, req, now) == (Response(400, false, MissingFieldsMessage), l) <==>
               MinPlain <= req.quantity.value < 1.0)
  {
    if !MissingFields(req) && req.quantity.value > 0.0 {
      ParseIntZero(req.quantity.value);
    }
  }

  /** A sell request with a missing field, or for more shares than are held, leaves
      the ledger unchanged. */
  lemma SellChangesLedgerOnlyOnSuccess(l: Ledger, req: TradeRequest, now: int)
    requires !MissingFields(req) ==> ParseInt(req.quantity.value) >= 0
    ensures var (resp, l') := Sell(l, req, now);
            resp.status != 200 ==> l' == l && !resp.success
    ensures var (resp, l') := Sell(l, req, now);
            resp.status == 200 ==> resp.success && |l'.transactions| == |l.transactions| + 1
  {
  }

  /** The sell handler as written logs a sale of no shares: a sell of 0.5 shares
      passes the guard, `parseInt` makes it 0, and the ledger rewrites the row as it
      was, credits nothing, appends a SELL of 0 shares and answers 200. */
  lemma FractionalSellLogsNoShares()
    ensures var l := Ledger(map[1 := 100.0], [Holding(1, 7, 5, 10.0, 50.0)], []);
            var req := TradeRequest(Absent, Given(7), Given(0.5), Given(12.0));
            var (resp, l') := Sell(l, req, 0);
            && resp == Response(200, true, SoldMessage)
            && l'.cash == l.cash
            && l'.holdings == l.holdings
            && l'.transactions == [Transaction(1, 7, SELL, 0, 12.0, 0.0, 0)]
  {
    var l := Ledger(map[1 := 100.0], [Holding(1, 7, 5, 10.0, 50.0)], []);
    var req := TradeRequest(Absent, Given(7), Given(0.5), Given(12.0));
    assert ParseInt(0.5) == 0;
    assert IndexOf(l.holdings, 1, 7) == Some(0);
    assert Reduced(l.holdings[0], 0) == l.holdings[0];
    assert l.cash[1 := 100.0 + TradeValue(0, 12.0)] == l.cash;
  }

  /** `sellStock` with its guard on the parsed quantity: every sell it lets through
      and the ledger accepts logs at least one share. */
  function SellChecked(l: Ledger, req: TradeRequest, now: int): (r: (Response, Ledger))
    requires !MissingFieldsParsed(req) ==> ParseInt(req.quantity.value) >= 0
    ensures MissingFieldsParsed(req) ==> r == (Response(400, false, MissingFieldsMessage), l)
    ensures !MissingFieldsParsed(req) ==> r == Sell(l, req, now)
    ensures r.0.status == 200 ==>
              && |r.1.transactions| == |l.transactions| + 1
              && r.1.transactions[|l.transactions|].quantity > 0
  {
    if MissingFieldsParsed(req) then (Response(400, false, MissingFieldsMessage), l)
    else Sell(l, req, now)
  }

  /** The corrected sell guard differs from the written one only where the quantity
      parses to no shares, which for a positive quantity is exactly from 0.000001 up
      to but not including 1: there the corrected handler refuses with 400. */
  lemma SellCheckedDiffersOnlyOnZeroShares(l: Ledger, req: TradeRequest, now: int)
    requires !MissingFields(req) ==> ParseInt(req.quantity.value) >= 0
    ensures MissingFields(req) || ParseInt(req.quantity.value) != 0 ==>
              SellChecked(l, req, now) == Sell(l, req, now)
    ensures !MissingFields(req) && req.quantity.value > 0.0 ==>
              (SellChecked(l, req, now) == (Response(400, false, MissingFieldsMessage), l) <==>
               MinPlain <= req.quantity.value < 1.0)
  {
    if !MissingFields(req) && req.quantity.value > 0.0 {
      ParseIntZero(req.quantity.value);
    }
  }

  /** `getPortfolio`: the summary of the query's user, user 1 by default. */
  function GetPortfolio(l: Ledger, stocks: seq<Stock.Stock>, userId: Option<int>): (r: PortfolioViews.Summary)
    ensures userId.None? ==> r == PortfolioViews.GetPortfolioSummary(l, stocks, DefaultUserId)
    ensures userId.Some? ==> r == PortfolioViews.GetPortfolioSummary(l, stocks, userId.value)
  {
    PortfolioViews.GetPortfolioSummary(l, stocks, QueryUserId(userId))
  }

  /** `getHoldings`: the valued holdings of the query's user, user 1 by default. */
  function GetHoldings(l: Ledger, stocks: seq<Stock.Stock>, userId: Option<int>): (r: seq<PortfolioViews.HoldingView>)
    ensures forall i :: 0 <= i < |r| ==> r[i].holding.userId == QueryUserId(userId)
    ensures userId.None? ==> r == PortfolioViews.GetUserHoldings(l, stocks, DefaultUserId)
    ensures userId.Some? ==> r == PortfolioViews.GetUserHoldings(l, stocks, userId.value)
  {
    PortfolioViews.GetUserHoldings(l, stocks, QueryUserId(userId))
  }

  /** `getTransactionHistory`: the query's user's history (user 1 by default), at
      most `limit` entries, 50 when no limit is given. */
  function GetTransactionHistory(l: Ledger, stocks: seq<Stock.Stock>, userId: Option<int>, limit: Option<nat>)
    : (r: seq<PortfolioViews.TransactionView>)
    ensures limit.None? ==> |r| <= DefaultHistoryLimit
    ensures limit.Some? ==> |r| <= limit.value
    ensures forall i :: 0 <= i < |r| ==>
              r[i].transaction in l.transactions && r[i].transaction.userId == QueryUserId(userId)
    ensures forall i, j :: 0 <= i < j < |r| ==>
              r[i].transaction.transactionDate >= r[j].transaction.transactionDate
    ensures limit.None? ==>
              || |r| == DefaultHistoryLimit
              || multiset(r) == multiset(PortfolioViews.UserTransactions(l.transactions, stocks, QueryUserId(userId)))
    ensures r == PortfolioViews.GetTransactionHistory(l, stocks, userId.GetOr(DefaultUserId), limit.GetOr(DefaultHistoryLimit))
  {
    PortfolioViews.GetTransactionHistory(l, stocks, QueryUserId(userId), limit.GetOr(DefaultHistoryLimit))
  }

  /** The holdings listed by `getHoldings` are the ones `getPortfolio` summarises. */
  lemma HoldingsMatchPortfolio(l: Ledger, stocks: seq<Stock.Stock>, userId: Option<int>)
    ensures GetHoldings(l, stocks, userId) == GetPortfolio(l, stocks, userId).holdings
  {
  }
}
