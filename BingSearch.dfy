/** The Bing search engine: fetch result pages one after another, number
    the hits across pages from 1, truncate their descriptions, and stop at
    `num_results` hits or at the first page without a next link.

    Fetching and parsing a page is a parameter `fetch` from a URL to what the
    page holds; the HTML parser itself is not modelled. */
module BingSearch {
  import opened Py
  import opened Records

  const DescMaxLength: int := 300
  const BingHostUrl: string := "https://www.bing.com"
  const BingSearchUrl: string := "https://www.bing.com/search?q="

  /** An `h2` in a result item: its text and the `href` of its link; None
      when the link or its `href` is missing, where reading it raises. */
  datatype Heading = Heading(text: string, href: Option<string>)

  /** One `li.b_algo` item: its `h2` and its `p`, when present. */
  datatype Item = Item(h2: Option<Heading>, p: Option<string>)

  /** The "Next page" link: absent, or present with its `href`, None when
      that attribute is missing. */
  datatype NextButton = NoNext | Next(href: Option<string>)

  /** What fetching a URL yields: a request or parse that raised, a page
      without the `ol#b_results` list, or the list's items and the next
      link. */
  datatype Page = FetchFailed | NoResultList | Results(items: seq<Item>, next: NextButton)

  /** `description[:DESC_MAX_LENGTH]` when it is longer. */
  function Truncate(description: string): (d: string)
    ensures |d| <= DescMaxLength
    ensures |description| <= DescMaxLength ==> d == description
    ensures d == description[..|d|]
  {
    if |description| > DescMaxLength then description[..DescMaxLength] else description
  }

  /** Reading the item's link raises, so the item is skipped. */
  predicate Skipped(item: Item) {
    item.h2.Some? && item.h2.value.href.None?
  }

  /** The result one item gives at `position`, or None when reading its link
      raises and the item is skipped. Missing parts read as "". */
  function ShapeItem(item: Item, position: int): (r: Option<SearchResult>)
    ensures r.None? <==> Skipped(item)
    ensures r.Some? ==> r.value.position == Some(position) && r.value.title.Some? && r.value.description.Some?
    ensures r.Some? ==> |r.value.description.value| <= DescMaxLength
    ensures r.Some? ==> r.value.url == (if item.h2.Some? then Strip(item.h2.value.href.value) else "")
    ensures r.Some? ==> r.value.title == Some(if item.h2.Some? then Strip(item.h2.value.text) else "")
    ensures r.Some? ==> r.value.description == Some(Truncate(if item.p.Some? then Strip(item.p.value) else ""))
  {
    if Skipped(item) then None
    else
      var title := if item.h2.Some? then Strip(item.h2.value.text) else "";
      var url := if item.h2.Some? then Strip(item.h2.value.href.value) else "";
      var description := if item.p.Some? then Strip(item.p.value) else "";
      Some(SearchResult(url, Some(title), Some(position), Some(Truncate(description))))
  }

  /** The hits numbered from `from`: each result's position is one past
      `from` plus its index. */
  predicate NumberedFrom(results: seq<SearchResult>, from: int) {
    forall i :: 0 <= i < |results| ==> results[i].position == Some(from + i + 1)
  }

  /** Every result has a description of at most `DESC_MAX_LENGTH`
      characters. */
  predicate DescriptionsFit(results: seq<SearchResult>) {
    forall i :: 0 <= i < |results| ==>
      results[i].description.Some? && |results[i].description.value| <= DescMaxLength
  }

  /** `list_data` after the loop over `items` with `rank_start` starting at
      `rankStart`: the items that parse, numbered consecutively. */
  function ShapeItems(items: seq<Item>, rankStart: int): (r: seq<SearchResult>)
    ensures |r| <= |items|
  {
    if items == [] then []
    else
      var prev := ShapeItems(items[..|items| - 1], rankStart);
      var last := ShapeItem(items[|items| - 1], rankStart + |prev| + 1);
      if last.Some? then prev + [last.value] else prev
  }

  /** One more item: appended, numbered after the ones before it, unless it
      is skipped. */
  lemma ShapeItemsSnoc(items: seq<Item>, i: int, rankStart: int)
    requires 0 <= i < |items|
    ensures var prev := ShapeItems(items[..i], rankStart);
      var last := ShapeItem(items[i], rankStart + |prev| + 1);
      ShapeItems(items[..i + 1], rankStart) == if last.Some? then prev + [last.value] else prev
  {
    var s := items[..i + 1];
    assert s[..|s| - 1] == items[..i];
    assert s[|s| - 1] == items[i];
    var prev := ShapeItems(items[..i], rankStart);
    var last := ShapeItem(items[i], rankStart + |prev| + 1);
    assert ShapeItems(s, rankStart) == if last.Some? then prev + [last.value] else prev;
  }

  /** The shaped items are numbered `rank_start+1`, `rank_start+2`, … and
      their descriptions fit. */
  lemma {:induction false} ShapeItemsNumbered(items: seq<Item>, rankStart: int)
    ensures NumberedFrom(ShapeItems(items, rankStart), rankStart)
    ensures DescriptionsFit(ShapeItems(items, rankStart))
  {
    if items != [] {
      ShapeItemsNumbered(items[..|items| - 1], rankStart);
    }
  }

  /** `_parse_html` on a fetched page: its shaped items and the next URL.
      A failure, a missing result list, and a next link without `href` (a
      `KeyError` the outer guard catches) all give no items and no next
      URL. */
  function PageResults(page: Page, rankStart: int): (r: (seq<SearchResult>, Option<string>))
    ensures r.0 == [] || (page.Results? && r.0 == ShapeItems(page.items, rankStart))
    ensures r.1.Some? ==> page.Results? && page.next.Next? && page.next.href.Some?
    ensures !page.Results? || page.next == Next(None) ==> r == ([], None)
    ensures page.Results? && page.next != Next(None) ==> r.0 == ShapeItems(page.items, rankStart)
    ensures page.Results? && page.next.NoNext? ==> r.1.None?
    ensures page.Results? && page.next.Next? && page.next.href.Some? ==> r.1 == Some(BingHostUrl + page.next.href.value)
  {
    match page
    case FetchFailed => ([], None)
    case NoResultList => ([], None)
    case Results(items, next) =>
      match next
      case NoNext => (ShapeItems(items, rankStart), None)
      case Next(href) =>
        if href.None? then ([], None)
        else
          var url := BingHostUrl + href.value;
          assert url[|BingHostUrl|..] == href.value;
          (ShapeItems(items, rankStart), Some(url))
  }

  /** The next URL is the host URL followed by the next link's `href`. */
  lemma NextUrlOnHost(page: Page, rankStart: int)
    requires PageResults(page, rankStart).1.Some?
    ensures PageResults(page, rankStart).1.value == BingHostUrl + page.next.href.value
  {
  }

  /** `_parse_html(url, rank_start)` on what the fetch of `url` gave. */
  method ParseHtml(page: Page, rankStart: int) returns (data: seq<SearchResult>, nextUrl: Option<string>)
    ensures (data, nextUrl) == PageResults(page, rankStart)
  {
    if page.FetchFailed? || page.NoResultList? {
      return [], None;
    }
    var listData := ShapeLoop(page.items, rankStart);
    if page.next.NoNext? {
      return listData, None;
    }
    if page.next.href.None? {
      return [], None;
    }
    nextUrl := Some(BingHostUrl + page.next.href.value);
    data := listData;
  }

  /** The loop over the page's items, bumping `rank_start` before each
      append and skipping items whose link cannot be read. */
  method ShapeLoop(items: seq<Item>, rankStart: int) returns (listData: seq<SearchResult>)
    ensures listData == ShapeItems(items, rankStart)
  {
    listData := [];
    var rank := rankStart;
    for i := 0 to |items|
      invariant listData == ShapeItems(items[..i], rankStart)
      invariant rank == rankStart + |listData|
    {
      ShapeItemsSnoc(items, i, rankStart);
      var shaped := ShapeItem(items[i], rank + 1);
      if shaped.None? {
        continue;
      }
      rank := rank + 1;
      listData := listData + [shaped.value];
    }
    assert items[..|items|] == items;
  }

  /** The pages fetched from `url` on, with `acc` already collected, until
      `numResults` hits are in, a page has no next URL, or the page budget
      `fuel` is spent. */
  function Crawl(fetch: string -> Page, url: string, acc: seq<SearchResult>, numResults: int, fuel: nat): seq<SearchResult>
    decreases fuel
  {
    if |acc| >= numResults || fuel == 0 then acc
    else
      var page := PageResults(fetch(url), |acc|);
      if page.1.None? then acc + page.0
      else Crawl(fetch, page.1.value, acc + page.0, numResults, fuel - 1)
  }

  /** Crawling one page further. */
  lemma CrawlStep(fetch: string -> Page, url: string, acc: seq<SearchResult>, numResults: int, fuel: nat)
    requires |acc| < numResults && fuel > 0
    ensures var page := PageResults(fetch(url), |acc|);
      Crawl(fetch, url, acc, numResults, fuel) ==
        if page.1.None? then acc + page.0 else Crawl(fetch, page.1.value, acc + page.0, numResults, fuel - 1)
  {
  }

  /** `_search_sync(query, num_results)` with at most `maxPages` fetches. */
  function SearchResults(query: string, numResults: int, fetch: string -> Page, maxPages: nat): seq<SearchResult> {
    if query == "" then []
    else Take(Crawl(fetch, BingSearchUrl + query, [], numResults, maxPages), numResults)
  }

  /** Crawling keeps the numbering: positions stay index plus one and every
      description fits. */
  lemma {:induction false} CrawlNumbered(fetch: string -> Page, url: string, acc: seq<SearchResult>, numResults: int, fuel: nat)
    requires NumberedFrom(acc, 0) && DescriptionsFit(acc)
    ensures var r := Crawl(fetch, url, acc, numResults, fuel);
      NumberedFrom(r, 0) && DescriptionsFit(r) && acc <= r
    decreases fuel
  {
    if |acc| < numResults && fuel > 0 {
      var page := PageResults(fetch(url), |acc|);
      if fetch(url).Results? {
        ShapeItemsNumbered(fetch(url).items, |acc|);
      }
      var next := acc + page.0;
      assert NumberedFrom(next, 0) by {
        forall i | |acc| <= i < |next|
          ensures next[i].position == Some(i + 1)
        {
          assert next[i] == page.0[i - |acc|];
        }
      }
      assert DescriptionsFit(next) by {
        forall i | |acc| <= i < |next|
          ensures next[i].description.Some? && |next[i].description.value| <= DescMaxLength
        {
          assert next[i] == page.0[i - |acc|];
        }
      }
      if page.1.Some? {
        CrawlNumbered(fetch, page.1.value, next, numResults, fuel - 1);
      }
    }
  }

  /** The result of a search: empty for an empty query, never more than
      `num_results` hits, positions 1, 2, … in order, and descriptions of at
      most `DESC_MAX_LENGTH` characters. */
  lemma SearchResultsShape(query: string, numResults: int, fetch: string -> Page, maxPages: nat)
    ensures var r := SearchResults(query, numResults, fetch, maxPages);
      (query == "" || numResults <= 0 ==> r == []) &&
      |r| <= Max(numResults, 0) && NumberedFrom(r, 0) && DescriptionsFit(r)
  {
    if query != "" {
      var all := Crawl(fetch, BingSearchUrl + query, [], numResults, maxPages);
      CrawlNumbered(fetch, BingSearchUrl + query, [], numResults, maxPages);
      var r := Take(all, numResults);
      if numResults < 0 {
        assert all == [];
      }
      assert r == all[..|r|];
    }
  }

  /** The first page's hits come first: for a non-empty query, the hits the
      first fetched page gives, up to `num_results`, begin the result. (A
      negative `num_results` gives no result at all.) */
  lemma SearchKeepsFirstPage(query: string, numResults: int, fetch: string -> Page, maxPages: nat)
    requires query != "" && maxPages >= 1
    ensures var first := PageResults(fetch(BingSearchUrl + query), 0).0;
      numResults >= 0 ==> Take(first, numResults) <= SearchResults(query, numResults, fetch, maxPages)
  {
    var url := BingSearchUrl + query;
    var page := PageResults(fetch(url), 0);
    var all := Crawl(fetch, url, [], numResults, maxPages);
    if numResults > 0 {
      assert [] + page.0 == page.0;
      if page.1.Some? {
        if fetch(url).Results? {
          ShapeItemsNumbered(fetch(url).items, 0);
        }
        CrawlNumbered(fetch, page.1.value, page.0, numResults, maxPages - 1);
      }
      assert page.0 <= all;
      var n := Min(numResults, |page.0|);
      assert Take(page.0, numResults) == page.0[..n];
      assert Take(all, numResults) == all[..Min(numResults, |all|)];
      assert all[..n] == page.0[..n];
    }
  }

  /** `_search_sync(query, num_results)`, with at most `maxPages`
      fetches. */
  method SearchSync(query: string, numResults: int, fetch: string -> Page, maxPages: nat) returns (r: seq<SearchResult>)
    ensures r == SearchResults(query, numResults, fetch, maxPages)
  {
    if query == "" {
      return [];
    }
    var listResults := Paginate(fetch, BingSearchUrl + query, numResults, maxPages);
    r := Take(listResults, numResults);
  }

  /** The `while` loop of `_search_sync`, starting at `url`: extend the hits
      page by page, numbering from the count so far, until there are
      `numResults` of them, a page has no next URL or `maxPages` pages were
      fetched. */
  method Paginate(fetch: string -> Page, url: string, numResults: int, maxPages: nat) returns (listResults: seq<SearchResult>)
    ensures listResults == Crawl(fetch, url, [], numResults, maxPages)
  {
    listResults := [];
    var first := 1;
    var nextUrl := url;
    var pages: nat := 0;
    while |listResults| < numResults && pages < maxPages
      invariant pages <= maxPages
      invariant Crawl(fetch, nextUrl, listResults, numResults, maxPages - pages) ==
        Crawl(fetch, url, [], numResults, maxPages)
      decreases maxPages - pages
    {
      CrawlStep(fetch, nextUrl, listResults, numResults, maxPages - pages);
      var data, next := ParseHtml(fetch(nextUrl), |listResults|);
      assert listResults + [] == listResults;
      if data != [] {
        listResults := listResults + data;
      }
      pages := pages + 1;
      if next.None? {
        break;
      }
      first := first + 10;
      nextUrl := next.value;
    }
  }
}
