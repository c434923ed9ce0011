/** The headline store of backend/services/newsService.js: a fetched page of
    articles is written insert-if-absent keyed by url, and the read path pages
    through the stored articles newest first. */
module NewsService {
  import opened Common

  /** One article of the provider's response, its date already parsed. */
  datatype RawArticle = RawArticle(
    url: string,
    title: Option<string>,
    sourceName: Option<string>,
    urlToImage: Option<string>,
    description: Option<string>,
    publishedAt: Time,
    content: Option<string>)

  /** One row of the news table (backend/models/News.js), unique by `url`. */
  datatype Article = Article(
    title: Option<string>,
    source: string,
    url: string,
    urlToImage: Option<string>,
    description: Option<string>,
    publishedAt: Time,
    content: Option<string>)

  /** The provider call: a response body whose `articles` field may be
      missing, or the error the request threw. */
  datatype NewsResponse =
    | Responded(articles: Option<seq<RawArticle>>)
    | RequestFailed(message: string)

  /** The object `fetchAndStoreNews` returns. */
  datatype FetchNewsResult =
    | FetchSucceeded(storedCount: nat, requestsUsed: nat)
    | FetchFailed(message: string)

  const UnknownSource: string := "Unknown"

  /** `article.source?.name || 'Unknown'`. */
  function SourceName(a: RawArticle): (r: string)
    ensures a.sourceName.Some? && a.sourceName.value != "" ==> r == a.sourceName.value
    ensures (a.sourceName.None? || a.sourceName.value == "") ==> r == UnknownSource
    ensures r != ""
  {
    match a.sourceName
    case Some(n) => if n != "" then n else UnknownSource
    case None => UnknownSource
  }

  /** The `$setOnInsert` document built from a provider article. */
  function ToArticle(a: RawArticle): (r: Article)
    ensures r.url == a.url && r.source == SourceName(a)
    ensures r.title == a.title && r.publishedAt == a.publishedAt
  {
    Article(a.title, SourceName(a), a.url, a.urlToImage, a.description, a.publishedAt, a.content)
  }

  /** `response.data.articles || []`. */
  function ArticlesOf(articles: Option<seq<RawArticle>>): seq<RawArticle> {
    match articles
    case Some(s) => s
    case None => []
  }

  /** `updateOne({url}, {$setOnInsert: ...}, {upsert: true})`: insert when the
      url is new, leave the existing row alone otherwise. */
  function InsertIfAbsent(rows: map<string, Article>, a: RawArticle): map<string, Article> {
    if a.url in rows then rows else rows[a.url := ToArticle(a)]
  }

  /** The table after the articles are written in order; the write of article
      `i` throws, and changes nothing, when `i` is in `fails`. */
  function StoreArticles(rows: map<string, Article>, arts: seq<RawArticle>, fails: set<nat>): map<string, Article>
  {
    if arts == [] then rows
    else
      var i := |arts| - 1;
      var before := StoreArticles(rows, arts[..i], fails);
      if i in fails then before else InsertIfAbsent(before, arts[i])
  }

  /** The indices below `n` whose write did not throw. */
  function WrittenIndices(n: nat, fails: set<nat>): set<nat> {
    set i: nat | i < n && i !in fails
  }

  /** `storedCount` after `n` articles: one per write that did not throw,
      whether or not the url was already stored. */
  function StoredCount(n: nat, fails: set<nat>): (r: nat)
    ensures r == |WrittenIndices(n, fails)|
    ensures r <= n
  {
    if n == 0 then
      assert WrittenIndices(0, fails) == {};
      0
    else
      var before := StoredCount(n - 1, fails);
      if n - 1 in fails then
        assert WrittenIndices(n, fails) == WrittenIndices(n - 1, fails);
        before
      else
        assert WrittenIndices(n, fails) == WrittenIndices(n - 1, fails) + {n - 1};
        before + 1
  }

  /** What `fetchAndStoreNews` returns. A provider failure becomes
      `success: false` with its message. After the writes, the count query
      behind `remaining` runs inside the same `try`: `countError` is its
      rejection, if any, and it too becomes `success: false`, although the
      writes have already happened. Otherwise the call reports how many writes
      went through and that it used one provider request. */
  function FetchResult(resp: NewsResponse, fails: set<nat>, countError: Option<string>): (r: FetchNewsResult)
    ensures r.FetchSucceeded? <==> resp.Responded? && countError.None?
    ensures resp.RequestFailed? ==> r == FetchFailed(resp.message)
    ensures resp.Responded? && countError.Some? ==> r == FetchFailed(countError.value)
    ensures resp.Responded? && countError.None? ==>
      && r.requestsUsed == 1
      && r.storedCount == |WrittenIndices(|ArticlesOf(resp.articles)|, fails)|
      && r.storedCount <= |ArticlesOf(resp.articles)|
    ensures resp.Responded? && resp.articles.None? && countError.None? ==> r == FetchSucceeded(0, 1)
  {
    match resp
    case RequestFailed(m) => FetchFailed(m)
    case Responded(articles) =>
      if countError.Some? then FetchFailed(countError.value)
      else FetchSucceeded(StoredCount(|ArticlesOf(articles)|, fails), 1)
  }

  /** The table after `fetchAndStoreNews`: a provider failure writes nothing;
      a rejected count query comes after the writes and undoes none of them. */
  function StoreAfterResponse(rows: map<string, Article>, resp: NewsResponse, fails: set<nat>): map<string, Article> {
    match resp
    case RequestFailed(_) => rows
    case Responded(articles) => StoreArticles(rows, ArticlesOf(articles), fails)
  }

  /** Whether the write of article `i` went through. */
  predicate Written(arts: seq<RawArticle>, fails: set<nat>, i: int) {
    0 <= i < |arts| && i !in fails
  }

  /** Rows that were already stored keep every field. */
  lemma {:induction false} StoreKeepsExisting(rows: map<string, Article>, arts: seq<RawArticle>, fails: set<nat>)
    ensures forall u :: u in rows ==> u in StoreArticles(rows, arts, fails) && StoreArticles(rows, arts, fails)[u] == rows[u]
  {
    if arts != [] {
      StoreKeepsExisting(rows, arts[..|arts| - 1], fails);
    }
  }

  /** After the writes the table holds a row for every article whose write went
      through, and no row for any url that was neither stored before nor written. */
  lemma {:induction false} StoreHoldsExactlyWritten(rows: map<string, Article>, arts: seq<RawArticle>, fails: set<nat>)
    ensures forall i :: Written(arts, fails, i) ==> arts[i].url in StoreArticles(rows, arts, fails)
    ensures forall u :: u in StoreArticles(rows, arts, fails) ==>
      u in rows || exists i :: Written(arts, fails, i) && arts[i].url == u
  {
    if arts != [] {
      var n := |arts| - 1;
      var prefix := arts[..n];
      StoreHoldsExactlyWritten(rows, prefix, fails);
      var before := StoreArticles(rows, prefix, fails);
      var after := StoreArticles(rows, arts, fails);
      assert before.Keys <= after.Keys;
      forall i | Written(arts, fails, i) ensures arts[i].url in after {
        if i < n {
          assert Written(prefix, fails, i) && prefix[i] == arts[i];
        }
      }
      forall u | u in after ensures u in rows || exists i :: Written(arts, fails, i) && arts[i].url == u {
        if u in before {
          if u !in rows {
            var i :| Written(prefix, fails, i) && prefix[i].url == u;
            assert Written(arts, fails, i) && arts[i].url == u;
          }
        } else {
          assert Written(arts, fails, n) && arts[n].url == u;
        }
      }
    }
  }

  /** Dedup: a url that was not stored gets the fields of the FIRST article
      with that url whose write went through; later duplicates change nothing. */
  lemma {:induction false} FirstWriteWins(rows: map<string, Article>, arts: seq<RawArticle>, fails: set<nat>, i: nat)
    requires Written(arts, fails, i) && arts[i].url !in rows
    requires forall j :: 0 <= j < i && Written(arts, fails, j) ==> arts[j].url != arts[i].url
    ensures arts[i].url in StoreArticles(rows, arts, fails)
    ensures StoreArticles(rows, arts, fails)[arts[i].url] == ToArticle(arts[i])
  {
    var n := |arts| - 1;
    var prefix := arts[..n];
    if i == n {
      StoreHoldsExactlyWritten(rows, prefix, fails);
      forall j | Written(prefix, fails, j) ensures prefix[j].url != arts[i].url {
        assert prefix[j] == arts[j];
      }
      assert arts[i].url !in StoreArticles(rows, prefix, fails);
    } else {
      assert Written(prefix, fails, i) && prefix[i] == arts[i];
      FirstWriteWins(rows, prefix, fails, i);
    }
  }

  /** The same url fetched twice leaves one row holding the first copy. */
  lemma DuplicateUrlKeepsFirst(rows: map<string, Article>, a: RawArticle, b: RawArticle)
    requires a.url == b.url && a.url !in rows
    ensures var r := StoreArticles(rows, [a, b], {});
      r.Keys == rows.Keys + {a.url} && r[a.url] == ToArticle(a)
  {
    assert [a, b][..1] == [a];
    assert [a][..0] == [];
    assert StoreArticles(rows, [a], {}) == rows[a.url := ToArticle(a)];
  }

  // ---------------------------------------------------------------------------
  // getStoredNews

  /** The store's `sort({publishedAt: -1})` order. */
  ghost predicate NewestFirst(s: seq<Article>) {
    forall i, j :: 0 <= i < j < |s| ==> s[i].publishedAt >= s[j].publishedAt
  }

  /** What `getStoredNews` returns; a failing query carries the store's message,
      which the model does not know. */
  datatype StoredNewsResult =
    | NewsPage(data: seq<Article>, page: int, totalPages: nat, totalResults: nat)
    | QueryFailed

  /** `getStoredNews(page, limit)` over `ordered`, the stored articles in the
      store's newest-first order: skip `(page - 1) * limit` rows, take at most
      `limit`, and report `ceil(total / limit)` pages. A negative skip is
      rejected by the store, so the call reports failure. */
  function GetStoredNews(ordered: seq<Article>, page: int, limit: int): (r: StoredNewsResult)
    requires limit > 0
    ensures r.QueryFailed? <==> page < 1
    ensures r.NewsPage? ==>
      var skip := (page - 1) * limit;
      && r.page == page
      && r.totalResults == |ordered|
      && |r.data| <= limit
      && (skip < |ordered| ==> |r.data| == if |ordered| - skip < limit then |ordered| - skip else limit)
      && (skip >= |ordered| ==> r.data == [])
      && (forall j :: 0 <= j < |r.data| ==> r.data[j] == ordered[skip + j])
      && (r.totalPages - 1) * limit < |ordered| <= r.totalPages * limit
      && (NewestFirst(ordered) ==> NewestFirst(r.data))
  {
    if page < 1 then QueryFailed
    else
      var skip := (page - 1) * limit;
      assert skip >= 0 by { MulNonNeg(page - 1, limit); }
      var hi := if skip + limit < |ordered| then skip + limit else |ordered|;
      var data := if skip < |ordered| then ordered[skip..hi] else [];
      NewsPage(data, page, CeilDiv(|ordered|, limit), |ordered|)
  }

  lemma MulNonNeg(a: nat, b: nat)
    ensures a * b >= 0
  {
  }

  /** Pages 1 to `p`, read one after the other. */
  function PagesUpTo(ordered: seq<Article>, limit: int, p: nat): seq<Article>
    requires limit > 0
  {
    if p == 0 then [] else PagesUpTo(ordered, limit, p - 1) + GetStoredNews(ordered, p, limit).data
  }

  function Min(a: int, b: int): int {
    if a < b then a else b
  }

  /** Page `p` is the slice of the listing between `(p - 1) * limit` and `p * limit`. */
  lemma PageIsSlice(ordered: seq<Article>, p: nat, limit: int)
    requires limit > 0 && p >= 1
    ensures 0 <= Min((p - 1) * limit, |ordered|) <= Min(p * limit, |ordered|) <= |ordered|
    ensures GetStoredNews(ordered, p, limit).data
      == ordered[Min((p - 1) * limit, |ordered|)..Min(p * limit, |ordered|)]
  {
    var skip := (p - 1) * limit;
    assert skip + limit == p * limit;
    MulNonNeg(p - 1, limit);
  }

  /** Reading pages 1..p gives the first `p * limit` articles (or all of them). */
  lemma {:induction false} PagesUpToIsPrefix(ordered: seq<Article>, limit: int, p: nat)
    requires limit > 0
    ensures 0 <= Min(p * limit, |ordered|)
    ensures PagesUpTo(ordered, limit, p) == ordered[..Min(p * limit, |ordered|)]
  {
    MulNonNeg(p, limit);
    if p > 0 {
      PagesUpToIsPrefix(ordered, limit, p - 1);
      PageIsSlice(ordered, p, limit);
      var lo := Min((p - 1) * limit, |ordered|);
      var hi := Min(p * limit, |ordered|);
      assert ordered[..lo] + ordered[lo..hi] == ordered[..hi];
    }
  }

  /** The pages partition the stored news: pages 1..totalPages, read in order,
      are exactly the newest-first listing, each article on exactly one page. */
  lemma PagesPartitionListing(ordered: seq<Article>, limit: int)
    requires limit > 0
    ensures PagesUpTo(ordered, limit, CeilDiv(|ordered|, limit)) == ordered
  {
    var t := CeilDiv(|ordered|, limit);
    PagesUpToIsPrefix(ordered, limit, t);
    assert Min(t * limit, |ordered|) == |ordered|;
  }

  /** The news table, changed only by `fetchAndStoreNews`. */
  class NewsStore {
    var rows: map<string, Article>

    constructor()
      ensures rows == map[]
    {
      rows := map[];
    }

    /** `fetchAndStoreNews()` for one provider response; the write of article
        `i` throws when `i` is in `fails`, and the count query rejects with
        `countError` when that is present. */
    method FetchAndStoreNews(resp: NewsResponse, fails: set<nat>, countError: Option<string>) returns (r: FetchNewsResult)
      modifies this
      ensures r == FetchResult(resp, fails, countError)
      ensures rows == StoreAfterResponse(old(rows), resp, fails)
      ensures resp.RequestFailed? ==> rows == old(rows)
    {
      if resp.RequestFailed? {
        return FetchFailed(resp.message);
      }
      var articles := ArticlesOf(resp.articles);
      var storedCount := 0;
      var i := 0;
      while i < |articles|
        invariant 0 <= i <= |articles|
        invariant storedCount == StoredCount(i, fails)
        invariant rows == StoreArticles(old(rows), articles[..i], fails)
      {
        assert articles[..i + 1][..i] == articles[..i];
        if i !in fails {
          if articles[i].url !in rows {
            rows := rows[articles[i].url := ToArticle(articles[i])];
          }
          storedCount := storedCount + 1;
        }
        i := i + 1;
      }
      assert articles[..i] == articles;
      if countError.Some? {
        return FetchFailed(countError.value);
      }
      r := FetchSucceeded(storedCount, 1);
    }
  }
}
