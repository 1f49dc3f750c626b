/**
 * The news controller of the API: creation with its required-field check, the paged
 * listings (all news with optional category and text search, one category, the latest
 * items), lookup, update and deletion by id. The collection is a sequence of records
 * held by `NewsCollection`; MongoDB's text search is the parameter `textMatch`, and
 * `parseInt` of a query parameter arrives already parsed (`None` stands for NaN).
 */
module NewsController {
  import opened Wrappers
  import opened Text

  type NewsId = nat

  /** A stored news record (the schema's fields; `publishedAt` in milliseconds). */
  datatype News = News(
    id: NewsId,
    title: string,
    content: string,
    author: string,
    publishedAt: int,
    source: Option<string>,
    image: Option<string>,
    url: Option<string>,
    category: Option<string>)

  /** The fields a create or update request may carry; `None` is an absent key. */
  datatype NewsInput = NewsInput(
    title: Option<string>,
    content: Option<string>,
    author: Option<string>,
    source: Option<string>,
    image: Option<string>,
    url: Option<string>,
    category: Option<string>)

  datatype Pagination = Pagination(
    currentPage: int,
    totalPages: int,
    totalNews: nat,
    hasNext: Option<bool>,
    hasPrev: Option<bool>)

  /** The JSON bodies the controller answers with. */
  datatype Body =
    | Message(message: string)
    | Article(message: string, news: News)
    | Listing(message: string, items: seq<News>, category: Option<string>, pagination: Option<Pagination>)
    | DeletedSummary(message: string, id: NewsId, title: string)

  datatype Reply = Reply(status: int, body: Body)

  /** The MongoDB filter of a listing: an optional category and an optional text search. */
  datatype Query = Query(category: Option<string>, search: Option<string>)

  /* ---------- creation ---------- */

  /** `!title || !content || !author`. */
  predicate MissingRequired(input: NewsInput) {
    !Truthy(input.title) || !Truthy(input.content) || !Truthy(input.author)
  }

  /** The record `new News(...)` builds from a validated request. */
  function NewRecord(input: NewsInput, id: NewsId, now: int): (n: News)
    requires !MissingRequired(input)
    ensures n.id == id && n.publishedAt == now
    ensures Some(n.title) == input.title && Some(n.content) == input.content
      && Some(n.author) == input.author
    ensures n.title != "" && n.content != "" && n.author != ""
  {
    News(id, input.title.value, input.content.value, input.author.value, now,
         input.source, input.image, input.url, input.category)
  }

  /* ---------- listing: query, order, window, pages ---------- */

  /** `parseInt(x) || default`: NaN and 0 fall back to the default, anything else passes. */
  function ParamOr(parsed: Option<int>, default: int): (v: int)
    requires default != 0
    ensures v != 0
    ensures parsed.Some? && parsed.value != 0 ==> v == parsed.value
    ensures parsed.None? || parsed.value == 0 ==> v == default
  {
    if parsed.Some? && parsed.value != 0 then parsed.value else default
  }

  /** The query of `getAllNews`: a constraint only for a parameter that is given (truthy). */
  function QueryFor(category: Option<string>, search: Option<string>): (q: Query)
    ensures q.category.Some? <==> Truthy(category)
    ensures q.search.Some? <==> Truthy(search)
    ensures q.category.Some? ==> q.category == category
    ensures q.search.Some? ==> q.search == search
  {
    Query(if Truthy(category) then category else None, if Truthy(search) then search else None)
  }

  predicate Matches(n: News, q: Query, textMatch: (News, string) -> bool) {
    (q.category.None? || n.category == q.category)
    && (q.search.None? || textMatch(n, q.search.value))
  }

  /** The records a query finds, in collection order. */
  function Select(docs: seq<News>, q: Query, textMatch: (News, string) -> bool): (r: seq<News>)
    ensures |r| <= |docs|
    ensures forall n :: n in r ==> n in docs && Matches(n, q, textMatch)
    ensures forall n :: n in docs && Matches(n, q, textMatch) ==> n in r
    ensures forall n :: multiset(r)[n] == if Matches(n, q, textMatch) then multiset(docs)[n] else 0
    decreases |docs|
  {
    if |docs| == 0 then []
    else
      var rest := Select(docs[1..], q, textMatch);
      assert forall n :: n in docs ==> n == docs[0] || n in docs[1..];
      SelectCountStep(docs, q, textMatch, rest);
      if Matches(docs[0], q, textMatch) then [docs[0]] + rest else rest
  }

  /** Counting the matches of `docs` from those of its tail. */
  lemma SelectCountStep(docs: seq<News>, q: Query, textMatch: (News, string) -> bool, rest: seq<News>)
    requires |docs| > 0
    requires forall n :: multiset(rest)[n] == if Matches(n, q, textMatch) then multiset(docs[1..])[n] else 0
    ensures var r := if Matches(docs[0], q, textMatch) then [docs[0]] + rest else rest;
      forall n :: multiset(r)[n] == if Matches(n, q, textMatch) then multiset(docs)[n] else 0
  {
    assert docs == [docs[0]] + docs[1..];
    assert multiset(docs) == multiset{docs[0]} + multiset(docs[1..]);
    assert multiset([docs[0]] + rest) == multiset{docs[0]} + multiset(rest);
  }

  /** Newest first: `sort({ publishedAt: -1 })`. */
  predicate NewestFirst(s: seq<News>) {
    forall i, j :: 0 <= i < j < |s| ==> s[i].publishedAt >= s[j].publishedAt
  }

  function InsertByDate(n: News, sorted: seq<News>): (r: seq<News>)
    requires NewestFirst(sorted)
    ensures NewestFirst(r)
    ensures multiset(r) == multiset(sorted) + multiset{n}
    ensures |r| == |sorted| + 1 && (r[0] == n || (|sorted| > 0 && r[0] == sorted[0]))
    decreases |sorted|
  {
    if |sorted| == 0 || n.publishedAt >= sorted[0].publishedAt then [n] + sorted
    else
      var tail := InsertByDate(n, sorted[1..]);
      assert sorted == [sorted[0]] + sorted[1..];
      [sorted[0]] + tail
  }

  /**
   * The records in the order the database returns them: newest first, the same records.
   * Records with equal dates keep their collection order here; the database promises no
   * particular order among them.
   */
  function SortByDate(docs: seq<News>): (r: seq<News>)
    ensures NewestFirst(r)
    ensures multiset(r) == multiset(docs) && |r| == |docs|
    decreases |docs|
  {
    if |docs| == 0 then []
    else
      assert docs == [docs[0]] + docs[1..];
      InsertByDate(docs[0], SortByDate(docs[1..]))
  }

  function Abs(x: int): nat { if x < 0 then -x else x }

  function Min(a: int, b: int): int { if a < b then a else b }

  /**
   * `.skip(skip).limit(limit)`: at most |limit| records from position `skip` on (a
   * negative limit is taken by its absolute value).
   */
  function Window(s: seq<News>, skip: nat, limit: int): (r: seq<News>)
    requires limit != 0
    ensures |r| == if skip >= |s| then 0 else Min(Abs(limit), |s| - skip)
    ensures forall k :: 0 <= k < |r| ==> r[k] == s[skip + k]
  {
    var from := Min(skip, |s|);
    s[from..Min(from + Abs(limit), |s|)]
  }

  /** `r` is `Math.ceil(total / limit)`. */
  predicate IsCeilQuotient(r: int, total: nat, limit: int) {
    (limit > 0 ==> (r - 1) * limit < total <= r * limit)
    && (limit < 0 ==> r * limit <= total < (r - 1) * limit)
  }

  /** `Math.ceil(total / limit)`, for the non-zero limits the controller uses. */
  function TotalPages(total: nat, limit: int): (r: int)
    requires limit != 0
    ensures IsCeilQuotient(r, total, limit)
  {
    if limit > 0 then
      var q := (total + limit - 1) / limit;
      assert q * limit <= total + limit - 1 < q * limit + limit;
      q
    else
      var m := -limit;
      var q := total / m;
      assert q * m <= total < q * m + m;
      -q
  }

  lemma MulLeftMono(a: int, b: int, c: int)
    requires a <= b && c >= 0
    ensures a * c <= b * c
  {
  }

  /**
   * With a positive limit, there is a next page exactly when the records shown through
   * this page do not exhaust the total.
   */
  lemma HasNextIffMoreRecords(page: int, limit: int, total: nat)
    requires limit > 0
    ensures page < TotalPages(total, limit) <==> page * limit < total
  {
    var r := TotalPages(total, limit);
    if page < r {
      MulLeftMono(page, r - 1, limit);
    } else {
      MulLeftMono(r, page, limit);
    }
  }

  /** With a positive limit, the page count is the least number of pages that hold every record. */
  lemma TotalPagesIsLeast(total: nat, limit: int, pages: int)
    requires limit > 0 && pages * limit >= total
    ensures TotalPages(total, limit) <= pages
  {
    var r := TotalPages(total, limit);
    if pages < r {
      MulLeftMono(pages, r - 1, limit);
    }
  }

  /** Page `page` of the sorted matches (its offset is `(page - 1) * limit`). */
  function Page(found: seq<News>, page: int, limit: int): seq<News>
    requires limit != 0 && (page - 1) * limit >= 0
  {
    Window(SortByDate(found), (page - 1) * limit, limit)
  }

  datatype ListRequest = ListRequest(
    page: Option<int>,
    limit: Option<int>,
    category: Option<string>,
    search: Option<string>)

  /**
   * `getAllNews`. A negative offset is refused by the database and answered with 500.
   * Otherwise the answer lists at most |limit| matching records, newest first, and the
   * pagination reports the total of matches, the page count and the next/previous flags.
   */
  function GetAllNews(docs: seq<News>, req: ListRequest, textMatch: (News, string) -> bool): (reply: Reply)
    ensures var page := ParamOr(req.page, 1); var limit := ParamOr(req.limit, 10);
      && (reply.status == 500 <==> (page - 1) * limit < 0)
      && (reply.status == 500 ==> reply.body == Message("Error fetching news articles"))
      && (reply.status != 500 ==>
            && reply.status == 200 && reply.body.Listing?
            && reply.body.message == "News articles retrieved successfully"
            && reply.body.items
                 == Window(SortByDate(Select(docs, QueryFor(req.category, req.search), textMatch)),
                           (page - 1) * limit, limit)
            && |reply.body.items| <= Abs(limit)
            && NewestFirst(reply.body.items)
            && (forall n :: n in reply.body.items ==>
                  n in docs && Matches(n, QueryFor(req.category, req.search), textMatch))
            && reply.body.pagination.Some?
            && var p := reply.body.pagination.value;
               && p.currentPage == page
               && p.totalNews == |Select(docs, QueryFor(req.category, req.search), textMatch)|
               && IsCeilQuotient(p.totalPages, p.totalNews, limit)
               && p.hasNext == Some(page < p.totalPages)
               && p.hasPrev == Some(page > 1))
  {
    var page := ParamOr(req.page, 1);
    var limit := ParamOr(req.limit, 10);
    var q := QueryFor(req.category, req.search);
    var skip := (page - 1) * limit;
    if skip < 0 then Reply(500, Message("Error fetching news articles"))
    else
      var found := Select(docs, q, textMatch);
      var items := Page(found, page, limit);
      WindowOfSortedIsSorted(SortByDate(found), skip, limit);
      WindowDrawsFrom(SortByDate(found), found, skip, limit);
      var total := |found|;
      var pages := TotalPages(total, limit);
      Reply(200, Listing("News articles retrieved successfully", items, None,
                         Some(Pagination(page, pages, total, Some(page < pages), Some(page > 1)))))
  }

  /**
   * With a positive limit, item `i` of page `d + 1` is the match at position
   * `d * limit + i` in date order: the pages list the sorted matches one after another.
   */
  lemma PagesFollowEachOther(docs: seq<News>, category: Option<string>, search: Option<string>,
                             limit: int, d: nat, i: nat, textMatch: (News, string) -> bool)
    requires limit > 0 && i < limit
    requires d * limit + i < |Select(docs, QueryFor(category, search), textMatch)|
    ensures var reply := GetAllNews(docs, ListRequest(Some(d + 1), Some(limit), category, search), textMatch);
      && reply.status == 200
      && i < |reply.body.items|
      && reply.body.items[i] == SortByDate(Select(docs, QueryFor(category, search), textMatch))[d * limit + i]
  {
    ListingOfPage(docs, category, search, limit, d, textMatch);
  }

  /** With a positive limit, page `d + 1` is answered with the window that skips `d * limit` matches. */
  lemma ListingOfPage(docs: seq<News>, category: Option<string>, search: Option<string>,
                      limit: int, d: nat, textMatch: (News, string) -> bool)
    requires limit > 0
    ensures d * limit >= 0
    ensures var reply := GetAllNews(docs, ListRequest(Some(d + 1), Some(limit), category, search), textMatch);
      && reply.status == 200
      && reply.body.items == Window(SortByDate(Select(docs, QueryFor(category, search), textMatch)), d * limit, limit)
  {
    var req := ListRequest(Some(d + 1), Some(limit), category, search);
    assert ParamOr(req.page, 1) == d + 1 && ParamOr(req.limit, 10) == limit;
    assert (d + 1 - 1) * limit == d * limit;
  }

  lemma WindowOfSortedIsSorted(s: seq<News>, skip: nat, limit: int)
    requires limit != 0 && NewestFirst(s)
    ensures NewestFirst(Window(s, skip, limit))
  {
    var r := Window(s, skip, limit);
    forall i, j | 0 <= i < j < |r|
      ensures r[i].publishedAt >= r[j].publishedAt
    {
      assert r[i] == s[skip + i] && r[j] == s[skip + j];
    }
  }

  lemma WindowDrawsFrom(s: seq<News>, found: seq<News>, skip: nat, limit: int)
    requires limit != 0 && multiset(s) == multiset(found)
    ensures forall n :: n in Window(s, skip, limit) ==> n in found
  {
    var r := Window(s, skip, limit);
    forall n | n in r
      ensures n in found
    {
      var k :| 0 <= k < |r| && r[k] == n;
      assert s[skip + k] == n;
      assert n in multiset(s);
    }
  }

  /** The text search of a query that has none: every record passes. */
  predicate AnyText(n: News, search: string) { true }

  /** `find({ category })` and `countDocuments({ category })`: the records of one category, in collection order. */
  function InCategory(docs: seq<News>, category: string): (r: seq<News>)
    ensures forall n :: n in r <==> n in docs && n.category == Some(category)
    ensures forall n :: multiset(r)[n] == if n.category == Some(category) then multiset(docs)[n] else 0
  {
    Select(docs, Query(Some(category), None), AnyText)
  }

  /**
   * `getNewsByCategory`: the same offset and page arithmetic on the records of one
   * category, without the next/previous flags.
   */
  function GetNewsByCategory(docs: seq<News>, category: string, page: Option<int>, limit: Option<int>): (reply: Reply)
    ensures var p := ParamOr(page, 1); var l := ParamOr(limit, 10);
      && (reply.status == 500 <==> (p - 1) * l < 0)
      && (reply.status == 500 ==> reply.body == Message("Error fetching news by category"))
      && (reply.status != 500 ==>
            && reply.status == 200 && reply.body.Listing?
            && reply.body.message == "News articles in " + category + " category retrieved successfully"
            && reply.body.category == Some(category)
            && reply.body.items == Window(SortByDate(InCategory(docs, category)), (p - 1) * l, l)
            && |reply.body.items| <= Abs(l)
            && NewestFirst(reply.body.items)
            && (forall n :: n in reply.body.items ==> n in docs && n.category == Some(category))
            && reply.body.pagination.Some?
            && reply.body.pagination.value.currentPage == p
            && reply.body.pagination.value.totalNews == |InCategory(docs, category)|
            && reply.body.pagination.value.hasNext.None?
            && reply.body.pagination.value.hasPrev.None?
            && IsCeilQuotient(reply.body.pagination.value.totalPages,
                              reply.body.pagination.value.totalNews, l))
  {
    var p := ParamOr(page, 1);
    var l := ParamOr(limit, 10);
    var skip := (p - 1) * l;
    if skip < 0 then Reply(500, Message("Error fetching news by category"))
    else
      var found := InCategory(docs, category);
      WindowOfSortedIsSorted(SortByDate(found), skip, l);
      WindowDrawsFrom(SortByDate(found), found, skip, l);
      Reply(200, Listing("News articles in " + category + " category retrieved successfully",
                         Page(found, p, l), Some(category),
                         Some(Pagination(p, TotalPages(|found|, l), |found|, None, None))))
  }

  /** `getLatestNews`: the newest |limit| records (5 by default), newest first. */
  function GetLatestNews(docs: seq<News>, limit: Option<int>): (reply: Reply)
    ensures reply.status == 200 && reply.body.Listing?
    ensures reply.body.message == "Latest news articles retrieved successfully"
    ensures |reply.body.items| == Min(Abs(ParamOr(limit, 5)), |docs|)
    ensures NewestFirst(reply.body.items)
    ensures forall k :: 0 <= k < |reply.body.items| ==> reply.body.items[k] == SortByDate(docs)[k]
  {
    var l := ParamOr(limit, 5);
    WindowOfSortedIsSorted(SortByDate(docs), 0, l);
    Reply(200, Listing("Latest news articles retrieved successfully",
                       Window(SortByDate(docs), 0, l), None, None))
  }

  /** The latest news are the newest records: nothing left out is newer than what is shown. */
  lemma LatestAreNewest(docs: seq<News>, limit: Option<int>, shown: News, other: News)
    requires shown in GetLatestNews(docs, limit).body.items
    requires other in docs && other !in GetLatestNews(docs, limit).body.items
    ensures other.publishedAt <= shown.publishedAt
  {
    var items := GetLatestNews(docs, limit).body.items;
    var s := SortByDate(docs);
    var i :| 0 <= i < |items| && items[i] == shown;
    assert other in multiset(s);
    var j :| 0 <= j < |s| && s[j] == other;
    OutsidePrefixComesLater(s, items, j);
    assert s[i] == shown;
  }

  /** An element missing from a prefix of a sequence sits after that prefix. */
  lemma OutsidePrefixComesLater<T>(s: seq<T>, prefix: seq<T>, j: nat)
    requires |prefix| <= |s| && forall k :: 0 <= k < |prefix| ==> prefix[k] == s[k]
    requires j < |s| && s[j] !in prefix
    ensures j >= |prefix|
  {
  }

  /* ---------- lookup by id ---------- */

  /** The first record with the id. */
  function Find(docs: seq<News>, id: NewsId): (r: Option<News>)
    ensures r.Some? ==> r.value in docs && r.value.id == id
    ensures r.None? ==> forall n :: n in docs ==> n.id != id
    decreases |docs|
  {
    if |docs| == 0 then None
    else if docs[0].id == id then Some(docs[0])
    else Find(docs[1..], id)
  }

  /**
   * `getNewsById`; `None` is an id that is not a well-formed ObjectId, which the database
   * refuses (answered with 500).
   */
  function GetNewsById(docs: seq<News>, id: Option<NewsId>): (reply: Reply)
    ensures id.None? ==> reply == Reply(500, Message("Error fetching news article"))
    ensures id.Some? && Find(docs, id.value).None? ==> reply == Reply(404, Message("News article not found"))
    ensures reply.status == 200 <==> id.Some? && exists n :: n in docs && n.id == id.value
    ensures reply.status == 200 ==>
      reply.body.Article? && reply.body.news in docs && reply.body.news.id == id.value
  {
    if id.None? then Reply(500, Message("Error fetching news article"))
    else match Find(docs, id.value)
      case None => Reply(404, Message("News article not found"))
      case Some(n) => Reply(200, Article("News article retrieved successfully", n))
  }

  /* ---------- update and delete ---------- */

  /** `runValidators`: a required field may be left out of an update but not set empty. */
  predicate ClearsRequired(input: NewsInput) {
    input.title == Some("") || input.content == Some("") || input.author == Some("")
  }

  /** The record after an update: given fields replace, absent ones keep their value. */
  function Apply(n: News, input: NewsInput): (r: News)
    ensures r.id == n.id && r.publishedAt == n.publishedAt
    ensures input.title.Some? ==> r.title == input.title.value
    ensures input.title.None? ==> r.title == n.title
    ensures input.content.Some? ==> r.content == input.content.value
    ensures input.content.None? ==> r.content == n.content
    ensures input.author.Some? ==> r.author == input.author.value
    ensures input.author.None? ==> r.author == n.author
    ensures input.source.Some? ==> r.source == input.source
    ensures input.source.None? ==> r.source == n.source
    ensures input.image.Some? ==> r.image == input.image
    ensures input.image.None? ==> r.image == n.image
    ensures input.url.Some? ==> r.url == input.url
    ensures input.url.None? ==> r.url == n.url
    ensures input.category.Some? ==> r.category == input.category
    ensures input.category.None? ==> r.category == n.category
  {
    News(n.id, input.title.GetOr(n.title), input.content.GetOr(n.content),
         input.author.GetOr(n.author), n.publishedAt,
         if input.source.Some? then input.source else n.source,
         if input.image.Some? then input.image else n.image,
         if input.url.Some? then input.url else n.url,
         if input.category.Some? then input.category else n.category)
  }

  /** Position `k` holds the first record with the id. */
  predicate FirstWithId(docs: seq<News>, id: NewsId, k: nat)
    requires k < |docs|
  {
    docs[k].id == id && forall j :: 0 <= j < k ==> docs[j].id != id
  }

  /** Past a first record with another id, the first position with the id moves down by one. */
  lemma FirstWithIdInTail(docs: seq<News>, id: NewsId, k: nat)
    requires 0 < k < |docs| && docs[0].id != id
    ensures FirstWithId(docs, id, k) == FirstWithId(docs[1..], id, k - 1)
  {
    if FirstWithId(docs[1..], id, k - 1) {
      forall j | 0 <= j < k
        ensures docs[j].id != id
      {
        if j > 0 {
          assert docs[j] == docs[1..][j - 1];
        }
      }
    }
  }

  /** The first record with the id, updated; every other record is kept as it is. */
  function UpdateFirst(docs: seq<News>, id: NewsId, input: NewsInput): (r: seq<News>)
    ensures |r| == |docs|
    ensures forall k :: 0 <= k < |docs| ==> r[k].id == docs[k].id
    ensures Find(docs, id).None? ==> r == docs
    ensures Find(docs, id).Some? ==> Find(r, id) == Some(Apply(Find(docs, id).value, input))
    ensures forall k :: 0 <= k < |docs| ==>
      r[k] == if FirstWithId(docs, id, k) then Apply(docs[k], input) else docs[k]
    decreases |docs|
  {
    if |docs| == 0 then []
    else if docs[0].id == id then [Apply(docs[0], input)] + docs[1..]
    else
      var rest := UpdateFirst(docs[1..], id, input);
      var r := [docs[0]] + rest;
      assert r[1..] == rest;
      forall k | 0 < k < |docs|
        ensures FirstWithId(docs, id, k) == FirstWithId(docs[1..], id, k - 1)
      {
        FirstWithIdInTail(docs, id, k);
      }
      r
  }

  /** The collection without the first record with the id. */
  function RemoveFirst(docs: seq<News>, id: NewsId): (r: seq<News>)
    ensures forall n :: n in r ==> n in docs
    ensures Find(docs, id).None? ==> r == docs
    ensures Find(docs, id).Some? ==> multiset(r) + multiset{Find(docs, id).value} == multiset(docs)
    decreases |docs|
  {
    if |docs| == 0 then []
    else
      assert docs == [docs[0]] + docs[1..];
      if docs[0].id == id then docs[1..]
      else
        var rest := RemoveFirst(docs[1..], id);
        assert forall n :: n in rest ==> n in docs[1..];
        assert multiset([docs[0]] + rest) == multiset{docs[0]} + multiset(rest);
        [docs[0]] + rest
  }

  /** Every id names at most one record. */
  predicate IdsUnique(docs: seq<News>) {
    forall i, j :: 0 <= i < j < |docs| ==> docs[i].id != docs[j].id
  }

  lemma TailIdsUnique(docs: seq<News>)
    requires |docs| > 0 && IdsUnique(docs)
    ensures IdsUnique(docs[1..])
    ensures forall n :: n in docs[1..] ==> n.id != docs[0].id
  {
    forall n | n in docs[1..]
      ensures n.id != docs[0].id
    {
      var k :| 0 <= k < |docs[1..]| && docs[1..][k] == n;
      assert docs[k + 1] == n;
    }
  }

  lemma ConsIdsUnique(x: News, rest: seq<News>)
    requires IdsUnique(rest) && forall n :: n in rest ==> n.id != x.id
    ensures IdsUnique([x] + rest)
  {
    var r := [x] + rest;
    forall i, j | 0 <= i < j < |r|
      ensures r[i].id != r[j].id
    {
      if i == 0 {
        assert r[j] == rest[j - 1];
      } else {
        assert r[i] == rest[i - 1] && r[j] == rest[j - 1];
      }
    }
  }

  /** With unique ids, deleting a record leaves no record with that id and keeps every other. */
  lemma {:induction false} RemoveFirstDeletes(docs: seq<News>, id: NewsId)
    requires IdsUnique(docs)
    ensures forall n :: n in RemoveFirst(docs, id) ==> n.id != id
    ensures forall n :: n in docs && n.id != id ==> n in RemoveFirst(docs, id)
    ensures IdsUnique(RemoveFirst(docs, id))
    decreases |docs|
  {
    if |docs| > 0 {
      TailIdsUnique(docs);
      assert forall n :: n in docs ==> n == docs[0] || n in docs[1..];
      if docs[0].id != id {
        RemoveFirstDeletes(docs[1..], id);
        ConsIdsUnique(docs[0], RemoveFirst(docs[1..], id));
      }
    }
  }

  /**
   * The collection, its records in stored order, and the next id to hand out (standing
   * in for a fresh ObjectId).
   */
  class NewsCollection {
    var docs: seq<News>
    var nextId: NewsId

    predicate Valid()
      reads this
    {
      IdsUnique(docs) && forall n :: n in docs ==> n.id < nextId
    }

    constructor ()
      ensures Valid() && docs == [] && nextId == 0
    {
      docs := [];
      nextId := 0;
    }

    /**
     * `addNews`: refuses with 400 and stores nothing when a required field is falsy;
     * otherwise stores the new record, dated `now`, and answers 201 with it.
     */
    method AddNews(input: NewsInput, now: int) returns (reply: Reply)
      requires Valid()
      modifies this
      ensures Valid()
      ensures MissingRequired(input) ==>
        reply == Reply(400, Message("Title, content, and author are required")) && docs == old(docs)
      ensures !MissingRequired(input) ==>
        && reply.status == 201 && reply.body.Article?
        && reply.body.message == "News article created successfully"
        && reply.body.news == NewRecord(input, old(nextId), now)
        && docs == old(docs) + [reply.body.news]
    {
      if MissingRequired(input) {
        reply := Reply(400, Message("Title, content, and author are required"));
        return;
      }
      var record := NewRecord(input, nextId, now);
      assert forall i :: 0 <= i < |docs| ==> docs[i].id < nextId by {
        forall i | 0 <= i < |docs| ensures docs[i].id < nextId {
          assert docs[i] in docs;
        }
      }
      docs := docs + [record];
      nextId := nextId + 1;
      reply := Reply(201, Article("News article created successfully", record));
    }

    /**
     * `updateNews` with `{ new: true, runValidators: true }`: an empty required field is
     * refused (500) before the lookup; a malformed id also gives 500; an unknown id 404;
     * otherwise the record is updated in place and returned.
     */
    method UpdateNews(id: Option<NewsId>, input: NewsInput) returns (reply: Reply)
      requires Valid()
      modifies this
      ensures Valid() && nextId == old(nextId)
      ensures id.None? || ClearsRequired(input) ==>
        reply == Reply(500, Message("Error updating news article")) && docs == old(docs)
      ensures id.Some? && !ClearsRequired(input) && Find(old(docs), id.value).None? ==>
        reply == Reply(404, Message("News article not found")) && docs == old(docs)
      ensures id.Some? && !ClearsRequired(input) && Find(old(docs), id.value).Some? ==>
        && docs == UpdateFirst(old(docs), id.value, input)
        && reply == Reply(200, Article("News article updated successfully",
                                       Apply(Find(old(docs), id.value).value, input)))
    {
      if id.None? || ClearsRequired(input) {
        reply := Reply(500, Message("Error updating news article"));
        return;
      }
      var found := Find(docs, id.value);
      if found.None? {
        reply := Reply(404, Message("News article not found"));
        return;
      }
      var updated := UpdateFirst(docs, id.value, input);
      assert forall n :: n in updated ==> n.id < nextId by {
        forall n | n in updated ensures n.id < nextId {
          var k :| 0 <= k < |updated| && updated[k] == n;
          assert docs[k] in docs;
        }
      }
      docs := updated;
      reply := Reply(200, Article("News article updated successfully", Apply(found.value, input)));
    }

    /**
     * `deleteNews`: a malformed id gives 500, an unknown id 404; otherwise the record is
     * removed and only its id and title are reported.
     */
    method DeleteNews(id: Option<NewsId>) returns (reply: Reply)
      requires Valid()
      modifies this
      ensures Valid() && nextId == old(nextId)
      ensures id.None? ==> reply == Reply(500, Message("Error deleting news article")) && docs == old(docs)
      ensures id.Some? && Find(old(docs), id.value).None? ==>
        reply == Reply(404, Message("News article not found")) && docs == old(docs)
      ensures id.Some? && Find(old(docs), id.value).Some? ==>
        && docs == RemoveFirst(old(docs), id.value)
        && (forall n :: n in docs ==> n.id != id.value)
        && reply == Reply(200, DeletedSummary("News article deleted successfully", id.value,
                                              Find(old(docs), id.value).value.title))
    {
      if id.None? {
        reply := Reply(500, Message("Error deleting news article"));
        return;
      }
      var found := Find(docs, id.value);
      if found.None? {
        reply := Reply(404, Message("News article not found"));
        return;
      }
      var remaining := RemoveFirst(docs, id.value);
      RemoveFirstDeletes(docs, id.value);
      assert forall n :: n in remaining ==> n.id < nextId by {
        forall n | n in remaining ensures n.id < nextId {
          assert n in multiset(remaining);
          assert n in multiset(docs);
        }
      }
      docs := remaining;
      reply := Reply(200, DeletedSummary("News article deleted successfully", id.value, found.value.title));
    }
  }
}
