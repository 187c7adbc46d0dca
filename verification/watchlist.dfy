/** The watchlist of `backend/models/Watchlist.js`: a set of (user, stock) pairs kept
    as rows of the `watchlist` table, the add and remove operations with the outcome
    they report, and the per-user listing joined with the stock catalogue. */
module Watchlist {
  import opened Wrappers
  import opened Sorting
  import Stock
  import Text

  /** A row of the `watchlist` table. The table has a unique key on the pair, which
      is what turns a second insert of the same pair into a duplicate-entry error. */
  datatype Entry = Entry(userId: int, stockId: int)

  /** The `{ success, message }` object add and remove return. */
  datatype Outcome = Outcome(success: bool, message: string)

  const AddedMessage: string := "Stock added to watchlist"
  const DuplicateMessage: string := "Stock already in watchlist"
  const RemovedMessage: string := "Stock removed from watchlist"
  const NotFoundMessage: string := "Stock not found in watchlist"

  /** The unique key on (user, stock): no pair is stored twice. */
  ghost predicate NoDuplicates(w: seq<Entry>) {
    forall i, j :: 0 <= i < j < |w| ==> w[i] != w[j]
  }

  /** The set of pairs the table holds. */
  function Pairs(w: seq<Entry>): set<Entry> {
    set e | e in w
  }

  /** `addToWatchlist`: inserts the pair unless it is already there, in which case the
      duplicate-key error is reported as an unsuccessful outcome and nothing changes. */
  function AddToWatchlist(w: seq<Entry>, userId: int, stockId: int): (r: (seq<Entry>, Outcome))
    ensures Pairs(r.0) == Pairs(w) + {Entry(userId, stockId)}
    ensures r.1.success <==> Entry(userId, stockId) !in Pairs(w)
    ensures r.1.message == (if r.1.success then AddedMessage else DuplicateMessage)
    ensures !r.1.success ==> r.0 == w
    ensures |w| <= |r.0| <= |w| + 1 && r.0[..|w|] == w
    ensures NoDuplicates(w) ==> NoDuplicates(r.0)
  {
    var e := Entry(userId, stockId);
    if e in w then (w, Outcome(false, DuplicateMessage))
    else
      var w' := w + [e];
      assert forall x :: x in w' <==> x in w || x == e;
      (w', Outcome(true, AddedMessage))
  }

  /** Adding a pair a second time changes nothing more. */
  lemma AddIsIdempotent(w: seq<Entry>, userId: int, stockId: int)
    ensures var once := AddToWatchlist(w, userId, stockId).0;
            AddToWatchlist(once, userId, stockId).0 == once
    ensures var once := AddToWatchlist(w, userId, stockId).0;
            AddToWatchlist(once, userId, stockId).1 == Outcome(false, DuplicateMessage)
  {
  }

  /** `removeFromWatchlist`: deletes every row of the pair; the outcome is successful
      exactly when some row was affected. */
  function RemoveFromWatchlist(w: seq<Entry>, userId: int, stockId: int): (r: (seq<Entry>, Outcome))
    ensures Pairs(r.0) == Pairs(w) - {Entry(userId, stockId)}
    ensures r.1.success <==> Entry(userId, stockId) in Pairs(w)
    ensures r.1.message == (if r.1.success then RemovedMessage else NotFoundMessage)
    ensures !r.1.success ==> r.0 == w
    ensures multiset(r.0) <= multiset(w)
    ensures NoDuplicates(w) ==> NoDuplicates(r.0)
  {
    var e := Entry(userId, stockId);
    var kept := Filter(w, Without(e));
    var affected := |w| - |kept|;
    RemoveFacts(w, e);
    (kept, if affected > 0 then Outcome(true, RemovedMessage) else Outcome(false, NotFoundMessage))
  }

  /** The rows that are not `e`. */
  function Without(e: Entry): Entry -> bool {
    (x: Entry) => x != e
  }

  /** What deleting the rows equal to `e` leaves, and how many rows it affects. */
  lemma RemoveFacts(w: seq<Entry>, e: Entry)
    ensures Pairs(Filter(w, Without(e))) == Pairs(w) - {e}
    ensures |Filter(w, Without(e))| < |w| <==> e in w
    ensures e !in w ==> Filter(w, Without(e)) == w
    ensures NoDuplicates(w) ==> NoDuplicates(Filter(w, Without(e)))
  {
    RemovedPairs(w, e);
    RemovedCount(w, e);
    if e !in w {
      FilterKeepsAll(w, Without(e));
    }
    if NoDuplicates(w) {
      KeptDistinct(w, Filter(w, Without(e)));
    }
  }

  lemma RemovedPairs(w: seq<Entry>, e: Entry)
    ensures Pairs(Filter(w, Without(e))) == Pairs(w) - {e}
  {
    var kept := Filter(w, Without(e));
    forall x | x in kept ensures x in w && x != e {
      assert x in multiset(kept);
      var i :| 0 <= i < |kept| && kept[i] == x;
    }
    FilterComplete(w, Without(e));
    forall x | x in w && x != e ensures x in kept {
      var i :| 0 <= i < |w| && w[i] == x;
    }
  }

  lemma RemovedCount(w: seq<Entry>, e: Entry)
    ensures |Filter(w, Without(e))| < |w| <==> e in w
  {
    var kept := Filter(w, Without(e));
    if e in w {
      assert e !in kept;
      assert e !in multiset(kept);
      assert e in multiset(w);
      assert multiset(kept) != multiset(w);
      assert |multiset(kept)| < |multiset(w)| by {
        var d := multiset(w) - multiset(kept);
        assert multiset(w) == multiset(kept) + d;
        assert e in d;
      }
    } else {
      FilterKeepsAll(w, Without(e));
    }
  }

  /** Removing a pair just added to a table that lacked it restores the table. */
  lemma RemoveUndoesAdd(w: seq<Entry>, userId: int, stockId: int)
    requires Entry(userId, stockId) !in w
    ensures RemoveFromWatchlist(AddToWatchlist(w, userId, stockId).0, userId, stockId)
            == (w, Outcome(true, RemovedMessage))
  {
    var e := Entry(userId, stockId);
    FilterAppendDropped(w, e, Without(e));
    FilterKeepsAll(w, Without(e));
  }

  /** Every sub-multiset of a table without duplicates has none either. */
  lemma KeptDistinct(w: seq<Entry>, kept: seq<Entry>)
    requires NoDuplicates(w)
    requires multiset(kept) <= multiset(w)
    ensures NoDuplicates(kept)
  {
    forall i, j | 0 <= i < j < |kept| ensures kept[i] != kept[j] {
      if kept[i] == kept[j] {
        var x := kept[i];
        assert kept == kept[..i] + [x] + kept[i + 1..j] + [x] + kept[j + 1..];
        assert multiset(kept)[x] >= 2;
        DistinctCountsOnce(w, x);
      }
    }
  }

  lemma {:induction false} DistinctCountsOnce(w: seq<Entry>, x: Entry)
    requires NoDuplicates(w)
    ensures multiset(w)[x] <= 1
    decreases |w|
  {
    if |w| > 0 {
      assert w == [w[0]] + w[1..];
      DistinctCountsOnce(w[1..], x);
      if w[0] == x {
        assert x !in w[1..];
      }
    }
  }

  /** A row of `getUserWatchlist`: the entry joined with its stock's quote. */
  datatype WatchView = WatchView(entry: Entry, quote: Stock.Quote)

  /** The symbol of an entry's stock, or "" when the catalogue has no such stock. */
  function SymbolOf(stocks: seq<Stock.Stock>, e: Entry): string {
    match Stock.GetById(stocks, e.stockId)
    case Some(s) => s.symbol
    case None => ""
  }

  /** Orders entries by their stock's symbol. */
  function BySymbol(stocks: seq<Stock.Stock>): (Entry, Entry) -> bool {
    Text.ByLex((e: Entry) => SymbolOf(stocks, e))
  }

  /** The entries behind a listing. */
  function EntriesOf(vs: seq<WatchView>): (r: seq<Entry>)
    ensures |r| == |vs|
    ensures forall i :: 0 <= i < |vs| ==> r[i] == vs[i].entry
  {
    seq(|vs|, i requires 0 <= i < |vs| => vs[i].entry)
  }

  /** The user's entries whose stock is in the catalogue (the inner join). */
  function JoinedBy(stocks: seq<Stock.Stock>, userId: int): Entry -> bool {
    (e: Entry) => e.userId == userId && Stock.GetById(stocks, e.stockId).Some?
  }

  /** Joins each of `es` with its stock's quote. */
  function Join(es: seq<Entry>, stocks: seq<Stock.Stock>): (r: seq<WatchView>)
    requires forall i :: 0 <= i < |es| ==> Stock.GetById(stocks, es[i].stockId).Some?
    ensures |r| == |es|
    ensures forall i :: 0 <= i < |r| ==>
              r[i].entry == es[i] && r[i].quote == Stock.QuoteOf(Stock.GetById(stocks, es[i].stockId).value)
  {
    seq(|es|, i requires 0 <= i < |es| =>
      WatchView(es[i], Stock.QuoteOf(Stock.GetById(stocks, es[i].stockId).value)))
  }

  /** What a listing row is: one of the user's entries, joined with its own stock. */
  predicate ListingRow(v: WatchView, w: seq<Entry>, stocks: seq<Stock.Stock>, userId: int) {
    && v.entry in w
    && v.entry.userId == userId
    && Stock.GetById(stocks, v.entry.stockId) == Some(v.quote.stock)
    && v.quote == Stock.QuoteOf(v.quote.stock)
  }

  /** `getUserWatchlist`: the user's entries, each once and each joined with its
      stock and day change, ordered by symbol; no other user's entry appears. */
  function GetUserWatchlist(w: seq<Entry>, stocks: seq<Stock.Stock>, userId: int): (r: seq<WatchView>)
    ensures forall i :: 0 <= i < |r| ==> ListingRow(r[i], w, stocks, userId)
    ensures multiset(EntriesOf(r)) == multiset(Filter(w, JoinedBy(stocks, userId)))
    ensures forall e :: e in w && JoinedBy(stocks, userId)(e) ==>
              exists i :: 0 <= i < |r| && r[i].entry == e
    ensures |r| <= |w|
    ensures forall i, j :: 0 <= i < j < |r| ==> Text.LexLe(r[i].quote.stock.symbol, r[j].quote.stock.symbol)
  {
    var joined := Filter(w, JoinedBy(stocks, userId));
    var sorted := Sort(joined, BySymbol(stocks));
    Text.ByLexIsTotalPreorder((e: Entry) => SymbolOf(stocks, e));
    SortIsSorted(joined, BySymbol(stocks));
    FilterFromInput(w, JoinedBy(stocks, userId));
    SubMultisetKeeps(sorted, joined,
      (e: Entry) => e in w && e.userId == userId && Stock.GetById(stocks, e.stockId).Some?);
    var r := Join(sorted, stocks);
    assert EntriesOf(r) == sorted;
    ListingRows(w, stocks, userId, sorted, r);
    ListingComplete(w, stocks, userId, sorted, r);
    r
  }

  /** Joining entries of the user, each in `w` and sorted by symbol, gives listing
      rows in symbol order. */
  lemma ListingRows(w: seq<Entry>, stocks: seq<Stock.Stock>, userId: int, sorted: seq<Entry>, r: seq<WatchView>)
    requires forall i :: 0 <= i < |sorted| ==>
               sorted[i] in w && sorted[i].userId == userId && Stock.GetById(stocks, sorted[i].stockId).Some?
    requires Sorted(sorted, BySymbol(stocks))
    requires r == Join(sorted, stocks)
    ensures forall i :: 0 <= i < |r| ==> ListingRow(r[i], w, stocks, userId)
    ensures forall i, j :: 0 <= i < j < |r| ==> Text.LexLe(r[i].quote.stock.symbol, r[j].quote.stock.symbol)
  {
    forall i | 0 <= i < |r| ensures r[i].quote.stock.symbol == SymbolOf(stocks, sorted[i]) {
    }
    forall i, j | 0 <= i < j < |r| ensures Text.LexLe(r[i].quote.stock.symbol, r[j].quote.stock.symbol) {
      assert BySymbol(stocks)(sorted[i], sorted[j]);
    }
  }

  /** A listing built from a permutation of the filtered table misses no entry the
      filter keeps. */
  lemma ListingComplete(w: seq<Entry>, stocks: seq<Stock.Stock>, userId: int, sorted: seq<Entry>, r: seq<WatchView>)
    requires multiset(sorted) == multiset(Filter(w, JoinedBy(stocks, userId)))
    requires EntriesOf(r) == sorted
    ensures forall e :: e in w && JoinedBy(stocks, userId)(e) ==>
              exists i :: 0 <= i < |r| && r[i].entry == e
  {
    var joined := Filter(w, JoinedBy(stocks, userId));
    FilterComplete(w, JoinedBy(stocks, userId));
    forall e | e in w && JoinedBy(stocks, userId)(e) ensures exists i :: 0 <= i < |r| && r[i].entry == e {
      var k :| 0 <= k < |w| && w[k] == e;
      assert e in multiset(joined);
      assert e in multiset(sorted);
      var i :| 0 <= i < |sorted| && sorted[i] == e;
      assert r[i].entry == EntriesOf(r)[i];
    }
  }
}
