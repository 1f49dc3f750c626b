/**
 * The news grid page: the fetched list, the category and search filters that derive the
 * shown list from it, bookmark and like toggles, and the line that counts the results.
 */
module NewsGrid {
  import opened Wrappers
  import opened Text

  /** A fetched news item, as far as the grid looks at it (every field may be missing). */
  datatype ClientNews = ClientNews(
    id: string,
    title: Option<string>,
    content: Option<string>,
    author: Option<string>,
    category: Option<string>)

  const AllCategories: string := "all"

  /** `item.category?.toLowerCase() === selected.toLowerCase()`. */
  predicate CategoryMatches(item: ClientNews, selected: string) {
    item.category.Some? && ToLower(item.category.value) == ToLower(selected)
  }

  /** `field?.toLowerCase().includes(term.toLowerCase())`. */
  predicate FieldHas(field: Option<string>, term: string) {
    field.Some? && Contains(ToLower(field.value), ToLower(term))
  }

  /** The search test: the (untrimmed) term occurs in the title, the content or the author. */
  predicate SearchMatches(item: ClientNews, term: string) {
    FieldHas(item.title, term) || FieldHas(item.content, term) || FieldHas(item.author, term)
  }

  /**
   * An item is shown when the category filter is off ("all") or matches, and the search
   * filter is off (the trimmed term is empty) or matches.
   */
  predicate Visible(item: ClientNews, term: string, category: string) {
    (category == AllCategories || CategoryMatches(item, category))
    && (IsBlank(term) || SearchMatches(item, term))
  }

  /** `a` can be obtained from `b` by deleting elements. */
  predicate IsSubsequence(a: seq<ClientNews>, b: seq<ClientNews>)
    decreases |b|
  {
    |a| == 0
    || (|b| > 0 && ((a[0] == b[0] && IsSubsequence(a[1..], b[1..])) || IsSubsequence(a, b[1..])))
  }

  /** The shown list, in one pass: the visible items of `s`, in order. */
  function ShownItems(s: seq<ClientNews>, term: string, category: string): (r: seq<ClientNews>)
    ensures IsSubsequence(r, s)
    ensures forall x :: x in r ==> x in s && Visible(x, term, category)
    ensures forall x :: x in s && Visible(x, term, category) ==> x in r
    ensures forall x :: multiset(r)[x] == if Visible(x, term, category) then multiset(s)[x] else 0
    decreases |s|
  {
    if |s| == 0 then []
    else
      var rest := ShownItems(s[1..], term, category);
      assert forall x :: x in s ==> x == s[0] || x in s[1..];
      ShownCountStep(s, term, category, rest);
      if Visible(s[0], term, category) then
        var r := [s[0]] + rest;
        assert r[1..] == rest;
        r
      else rest
  }

  /** Counting the visible items of `s` from those of its tail. */
  lemma ShownCountStep(s: seq<ClientNews>, term: string, category: string, rest: seq<ClientNews>)
    requires |s| > 0
    requires forall x :: multiset(rest)[x] == if Visible(x, term, category) then multiset(s[1..])[x] else 0
    ensures var r := if Visible(s[0], term, category) then [s[0]] + rest else rest;
      forall x :: multiset(r)[x] == if Visible(x, term, category) then multiset(s)[x] else 0
  {
    assert s == [s[0]] + s[1..];
    assert multiset(s) == multiset{s[0]} + multiset(s[1..]);
    assert multiset([s[0]] + rest) == multiset{s[0]} + multiset(rest);
  }

  /** `filter` by category. */
  function KeepCategory(s: seq<ClientNews>, category: string): seq<ClientNews>
    decreases |s|
  {
    if |s| == 0 then []
    else (if CategoryMatches(s[0], category) then [s[0]] else []) + KeepCategory(s[1..], category)
  }

  /** `filter` by search term. */
  function KeepSearch(s: seq<ClientNews>, term: string): seq<ClientNews>
    decreases |s|
  {
    if |s| == 0 then []
    else (if SearchMatches(s[0], term) then [s[0]] else []) + KeepSearch(s[1..], term)
  }

  lemma {:induction false} KeepSearchAppend(a: seq<ClientNews>, b: seq<ClientNews>, term: string)
    ensures KeepSearch(a + b, term) == KeepSearch(a, term) + KeepSearch(b, term)
    decreases |a|
  {
    if |a| > 0 {
      assert (a + b)[1..] == a[1..] + b;
      KeepSearchAppend(a[1..], b, term);
    } else {
      assert a + b == b;
    }
  }

  /** The list the filter effect computes, stage by stage. */
  function Staged(s: seq<ClientNews>, term: string, category: string): seq<ClientNews> {
    var byCategory := if category != AllCategories then KeepCategory(s, category) else s;
    if !IsBlank(term) then KeepSearch(byCategory, term) else byCategory
  }

  /** Filtering by category and then by search gives exactly the visible items, in order. */
  lemma {:induction false} StagedIsShown(s: seq<ClientNews>, term: string, category: string)
    ensures Staged(s, term, category) == ShownItems(s, term, category)
    decreases |s|
  {
    if |s| > 0 {
      StagedIsShown(s[1..], term, category);
      var head := [s[0]];
      var byCategory := if category != AllCategories then KeepCategory(s, category) else s;
      var restByCategory := if category != AllCategories then KeepCategory(s[1..], category) else s[1..];
      var first := if category == AllCategories || CategoryMatches(s[0], category) then head else [];
      assert byCategory == first + restByCategory by {
        if category == AllCategories {
          assert s == head + s[1..];
        }
      }
      if !IsBlank(term) {
        KeepSearchAppend(first, restByCategory, term);
        if first == head {
          assert KeepSearch(head, term) == if SearchMatches(s[0], term) then head else [] by {
            assert head[1..] == [];
          }
        }
      }
    }
  }

  /** With no category and a blank search, everything fetched is shown. */
  lemma {:induction false} NoFilterShowsAll(s: seq<ClientNews>, term: string)
    requires IsBlank(term)
    ensures ShownItems(s, term, AllCategories) == s
    decreases |s|
  {
    if |s| > 0 {
      NoFilterShowsAll(s[1..], term);
      assert s == [s[0]] + s[1..];
    }
  }

  /** The set after `handleBookmark` / `handleLike`: the id is removed if present, else added. */
  function Toggle(ids: set<string>, id: string): (r: set<string>)
    ensures id in r <==> id !in ids
    ensures forall other :: other != id ==> (other in r <==> other in ids)
  {
    if id in ids then ids - {id} else ids + {id}
  }

  /** Toggling the same id twice gives back the set. */
  lemma ToggleTwice(ids: set<string>, id: string)
    ensures Toggle(Toggle(ids, id), id) == ids
  {
  }

  /** Toggles of two different ids commute. */
  lemma TogglesCommute(ids: set<string>, a: string, b: string)
    ensures Toggle(Toggle(ids, a), b) == Toggle(Toggle(ids, b), a)
  {
  }

  /** "s" unless the count is exactly 1. */
  function Plural(n: nat): string { if n != 1 then "s" else "" }

  /** The results line while a filter is active. */
  function FilteredText(term: string, category: string, shown: nat): (text: string)
    ensures StartsWith(text, NatToString(shown) + " result" + Plural(shown) + " found")
    ensures LeadingNumber(text) == shown
    ensures term != "" ==> Contains(text, " for \"" + term + "\"")
    ensures category != AllCategories ==> Contains(text, " in " + category)
  {
    var n := NatToString(shown);
    var head := n + " result" + Plural(shown) + " found";
    var forPart := if term != "" then " for \"" + term + "\"" else "";
    var inPart := if category != AllCategories then " in " + category else "";
    var text := head + forPart + inPart;
    PartsOccur(head, forPart, inPart);
    assert text[..|n|] == n && text[|n|] == ' ' by {
      assert text[..|head|] == head && head[..|n|] == n && head[|n|] == ' ';
    }
    NumberAtHead(shown, text);
    text
  }

  /** The results line without an active filter. */
  function AvailableText(total: nat): (text: string)
    ensures StartsWith(text, NatToString(total) + " article" + Plural(total))
    ensures LeadingNumber(text) == total
  {
    var n := NatToString(total);
    var head := n + " article" + Plural(total);
    var text := head + " available";
    assert text[..|head|] == head;
    assert text[..|n|] == n && text[|n|] == ' ' by {
      assert head[..|n|] == n && head[|n|] == ' ';
    }
    NumberAtHead(total, text);
    text
  }

  /**
   * `getResultsText`: while loading and on error a fixed text; with an active filter the
   * number of shown items, the search term and the category; otherwise the number of
   * fetched items.
   */
  function ResultsText(loading: bool, error: Option<string>, term: string, category: string,
                       shown: nat, total: nat): (text: string)
    ensures loading ==> text == "Loading..."
    ensures !loading && Truthy(error) ==> text == "Error loading news"
    ensures !loading && !Truthy(error) && (term != "" || category != AllCategories) ==>
      text == FilteredText(term, category, shown)
    ensures !loading && !Truthy(error) && term == "" && category == AllCategories ==>
      text == AvailableText(total)
  {
    if loading then "Loading..."
    else if Truthy(error) then "Error loading news"
    else if term != "" || category != AllCategories then FilteredText(term, category, shown)
    else AvailableText(total)
  }

  /** The grid's component state. */
  class NewsGridView {
    var news: seq<ClientNews>
    var filteredNews: seq<ClientNews>
    var loading: bool
    var error: Option<string>
    var searchTerm: string
    var selectedCategory: string
    var bookmarked: set<string>
    var liked: set<string>

    /** The initial state: loading, nothing fetched, no filter, nothing bookmarked or liked. */
    constructor ()
      ensures news == [] && filteredNews == [] && loading && error.None?
      ensures searchTerm == "" && selectedCategory == AllCategories
      ensures bookmarked == {} && liked == {}
    {
      news, filteredNews, loading, error := [], [], true, None;
      searchTerm, selectedCategory := "", AllCategories;
      bookmarked, liked := {}, {};
    }

    /** The filter effect: start from `news`, narrow by category, then by search. */
    method RefreshFilter()
      modifies this`filteredNews
      ensures filteredNews == ShownItems(news, searchTerm, selectedCategory)
      ensures IsSubsequence(filteredNews, news)
    {
      var filtered := news;
      if selectedCategory != AllCategories {
        filtered := KeepCategory(filtered, selectedCategory);
      }
      if !IsBlank(searchTerm) {
        filtered := KeepSearch(filtered, searchTerm);
      }
      StagedIsShown(news, searchTerm, selectedCategory);
      filteredNews := filtered;
    }

    /** A new search term; the filter effect runs again. */
    method HandleSearchChange(term: string)
      modifies this`searchTerm, this`filteredNews
      ensures searchTerm == term
      ensures filteredNews == ShownItems(news, term, selectedCategory)
    {
      searchTerm := term;
      RefreshFilter();
    }

    /** A new category; the filter effect runs again. */
    method HandleCategoryFilter(category: string)
      modifies this`selectedCategory, this`filteredNews
      ensures selectedCategory == category
      ensures filteredNews == ShownItems(news, searchTerm, category)
    {
      selectedCategory := category;
      RefreshFilter();
    }

    /** "Clear Filters": empty search, all categories; every fetched item is shown again. */
    method ClearFilters()
      modifies this`searchTerm, this`selectedCategory, this`filteredNews
      ensures searchTerm == "" && selectedCategory == AllCategories
      ensures filteredNews == news
    {
      searchTerm := "";
      selectedCategory := AllCategories;
      RefreshFilter();
      NoFilterShowsAll(news, searchTerm);
    }

    method HandleBookmark(id: string)
      modifies this`bookmarked
      ensures bookmarked == Toggle(old(bookmarked), id)
    {
      var next := bookmarked;
      if id in next {
        next := next - {id};
      } else {
        next := next + {id};
      }
      bookmarked := next;
    }

    method HandleLike(id: string)
      modifies this`liked
      ensures liked == Toggle(old(liked), id)
    {
      var next := liked;
      if id in next {
        next := next - {id};
      } else {
        next := next + {id};
      }
      liked := next;
    }

    /** The results line for the current state. */
    function Results(): string
      reads this
    {
      ResultsText(loading, error, searchTerm, selectedCategory, |filteredNews|, |news|)
    }
  }
}
