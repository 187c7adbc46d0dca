/** The news queries of `backend/models/News.js`: the latest articles, and the latest
    articles whose symbol list mentions a stock, each capped at a limit. */
module News {
  import opened Wrappers
  import opened Sorting
  import Text

  /** A row of the `news` table, reduced to the columns the model uses: the queries
      return every column, the article's text included.
      `stockSymbols` is free text listing the symbols an article is about;
      `publishedAt` is in seconds. */
  datatype Article = Article(id: int, title: string, stockSymbols: string, publishedAt: int)

  /** The limits used when the caller gives none. */
  const DefaultLatestLimit: nat := 20
  const DefaultByStockLimit: nat := 10

  /** The sort key of the news queries. */
  function PublishedAt(a: Article): int { a.publishedAt }

  /** `ORDER BY published_at DESC LIMIT n` over `news`. */
  function NewestOf(news: seq<Article>, n: nat): (r: seq<Article>)
    ensures |r| <= n
    ensures multiset(r) <= multiset(news)
    ensures |r| < n ==> multiset(r) == multiset(news)
    ensures forall i, j :: 0 <= i < j < |r| ==> r[i].publishedAt >= r[j].publishedAt
    ensures forall x, y :: x in r && y in multiset(news) - multiset(r) ==> x.publishedAt >= y.publishedAt
  {
    var r := TakeLargest(news, PublishedAt, n);
    forall x, y | x in r && y in multiset(news) - multiset(r) ensures x.publishedAt >= y.publishedAt {
      assert PublishedAt(x) >= PublishedAt(y);
    }
    r
  }

  /** `getLatestNews`: at most `limit` articles (20 when not given), newest first;
      no article left out is newer than one returned. */
  function GetLatestNews(news: seq<Article>, limit: Option<nat>): (r: seq<Article>)
    ensures |r| <= limit.GetOr(DefaultLatestLimit)
    ensures multiset(r) <= multiset(news)
    ensures |r| < limit.GetOr(DefaultLatestLimit) ==> multiset(r) == multiset(news)
    ensures forall i, j :: 0 <= i < j < |r| ==> r[i].publishedAt >= r[j].publishedAt
    ensures forall x, y :: x in r && y in multiset(news) - multiset(r) ==> x.publishedAt >= y.publishedAt
  {
    NewestOf(news, limit.GetOr(DefaultLatestLimit))
  }

  /** `stock_symbols LIKE '%symbol%'`: the symbol occurs anywhere in the list, so a
      symbol also matches every longer symbol that contains it. */
  predicate Mentions(a: Article, symbol: string) {
    Text.Contains(a.stockSymbols, symbol)
  }

  function MentionsOf(symbol: string): Article -> bool {
    (a: Article) => Mentions(a, symbol)
  }

  /** `getNewsByStock`: at most `limit` (10 when not given) of the articles mentioning
      `symbol`, newest first; no mentioning article left out is newer than one
      returned. */
  function GetNewsByStock(news: seq<Article>, symbol: string, limit: Option<nat>): (r: seq<Article>)
    ensures |r| <= limit.GetOr(DefaultByStockLimit)
    ensures multiset(r) <= multiset(Filter(news, MentionsOf(symbol)))
    ensures forall i :: 0 <= i < |r| ==> r[i] in news && Mentions(r[i], symbol)
    ensures |r| < limit.GetOr(DefaultByStockLimit) ==>
              forall a :: a in news && Mentions(a, symbol) ==> a in r
    ensures forall i, j :: 0 <= i < j < |r| ==> r[i].publishedAt >= r[j].publishedAt
    ensures forall x, y :: x in r && y in multiset(Filter(news, MentionsOf(symbol))) - multiset(r) ==>
              x.publishedAt >= y.publishedAt
  {
    var matching := Filter(news, MentionsOf(symbol));
    FilterFromInput(news, MentionsOf(symbol));
    var r := NewestOf(matching, limit.GetOr(DefaultByStockLimit));
    SubMultisetKeeps(r, matching, (a: Article) => a in news && Mentions(a, symbol));
    TakesAllMatching(news, symbol, matching, r, limit.GetOr(DefaultByStockLimit));
    r
  }

  lemma TakesAllMatching(news: seq<Article>, symbol: string, matching: seq<Article>, r: seq<Article>, n: nat)
    requires matching == Filter(news, MentionsOf(symbol))
    requires |r| < n ==> multiset(r) == multiset(matching)
    ensures |r| < n ==> forall a :: a in news && Mentions(a, symbol) ==> a in r
  {
    if |r| < n {
      FilterComplete(news, MentionsOf(symbol));
      forall a | a in news && Mentions(a, symbol) ensures a in r {
        var k :| 0 <= k < |news| && news[k] == a;
        assert a in matching;
        assert a in multiset(r);
      }
    }
  }

  /** The match is by substring: a symbol matches an article about a longer symbol
      that contains it, as "AAPL" matches an article listing "AAPLX". */
  lemma SubstringMatches(a: Article, symbol: string, before: string, after: string)
    requires a.stockSymbols == before + symbol + after
    ensures Mentions(a, symbol)
  {
    Text.ContainsItself(symbol, before, after);
  }

  /** "AAPL" finds the articles about "AAPLX" too. */
  lemma ShorterSymbolMatchesLonger(id: int, title: string, publishedAt: int)
    ensures Mentions(Article(id, title, "AAPLX", publishedAt), "AAPL")
  {
    SubstringMatches(Article(id, title, "AAPLX", publishedAt), "AAPL", "", "X");
  }

  /** An empty symbol turns the pattern into `%%`, which matches every article. */
  lemma EmptySymbolMatchesAll(a: Article)
    ensures Mentions(a, "")
  {
    assert Text.OccursAt(a.stockSymbols, "", 0);
  }
}
