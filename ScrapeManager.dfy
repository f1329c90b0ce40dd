/** `SearchAndScrapeManager`: search with the engine, then scrape every hit
    and key the successful scrapes by URL. */
module ScrapeManager {
  import opened Py
  import opened Records

  /** The manager's two collaborators: the engine's `search(query,
      num_results)` and the scraper's `scrape(url)`, each None when the call
      raises. A scrape is a live fetch, so two scrapes of one URL may differ:
      `scraper(url, k)` is the outcome of the `k`-th scrape task of a batch,
      the one made for `url`. */
  datatype Manager = Manager(
    engine: (string, int) -> Option<seq<SearchResult>>,
    scraper: (string, nat) -> Option<ScrapedContent>)

  /** The dictionary `search_and_scrape` returns. */
  datatype Scraped = Scraped(searchResults: seq<SearchResult>, scrapedContents: map<string, ScrapedContent>)

  /** `search` delegates to the engine. */
  function Search(m: Manager, query: string, numResults: int): Option<seq<SearchResult>> {
    m.engine(query, numResults)
  }

  /** `scrape` delegates to the scraper; `k` says which task of the batch
      makes the call. */
  function Scrape(m: Manager, url: string, k: nat): Option<ScrapedContent> {
    m.scraper(url, k)
  }

  /** What `asyncio.gather(..., return_exceptions=True)` hands back: one
      outcome per hit, in the order of the hits. */
  function Scrapes(m: Manager, results: seq<SearchResult>): (outcomes: seq<Option<ScrapedContent>>)
    ensures |outcomes| == |results|
    ensures forall i :: 0 <= i < |results| ==> outcomes[i] == Scrape(m, results[i].url, i)
  {
    seq(|results|, i requires 0 <= i < |results| => Scrape(m, results[i].url, i))
  }

  /** `scraped_contents` once the loop has seen the first `n` outcomes: each
      success is stored under its hit's URL, failures are skipped. */
  function Collected(results: seq<SearchResult>, outcomes: seq<Option<ScrapedContent>>, n: nat)
    : map<string, ScrapedContent>
    requires n <= |results| && n <= |outcomes|
  {
    if n == 0 then map[]
    else
      var c := Collected(results, outcomes, n - 1);
      if outcomes[n - 1].Some? then c[results[n - 1].url := outcomes[n - 1].value] else c
  }

  /** Hit `i` is the last of the first `n` with URL `url` whose scrape
      succeeded, and it gave `v`. */
  predicate LastScrapeOf(results: seq<SearchResult>, outcomes: seq<Option<ScrapedContent>>, n: nat,
                         url: string, i: int, v: ScrapedContent)
    requires n <= |results| && n <= |outcomes|
  {
    0 <= i < n && results[i].url == url && outcomes[i] == Some(v) &&
    forall j :: i < j < n && results[j].url == url ==> outcomes[j].None?
  }

  /** A URL is a key exactly when some hit with that URL was scraped
      successfully. */
  lemma {:induction false} CollectedKeys(results: seq<SearchResult>, outcomes: seq<Option<ScrapedContent>>, n: nat)
    requires n <= |results| && n <= |outcomes|
    ensures forall url :: url in Collected(results, outcomes, n) <==>
      exists i :: 0 <= i < n && results[i].url == url && outcomes[i].Some?
  {
    if n > 0 {
      CollectedKeys(results, outcomes, n - 1);
    }
  }

  /** The value under a URL is the outcome of the last successfully scraped
      hit with that URL: a later hit overwrites an earlier one. */
  lemma {:induction false} CollectedValues(results: seq<SearchResult>, outcomes: seq<Option<ScrapedContent>>, n: nat)
    requires n <= |results| && n <= |outcomes|
    ensures forall url :: url in Collected(results, outcomes, n) ==>
      exists i :: LastScrapeOf(results, outcomes, n, url, i, Collected(results, outcomes, n)[url])
  {
    if n > 0 {
      CollectedValues(results, outcomes, n - 1);
      var c := Collected(results, outcomes, n - 1);
      var d := Collected(results, outcomes, n);
      forall url | url in d
        ensures exists i :: LastScrapeOf(results, outcomes, n, url, i, d[url])
      {
        if outcomes[n - 1].Some? && results[n - 1].url == url {
          assert LastScrapeOf(results, outcomes, n, url, n - 1, d[url]);
        } else {
          assert url in c && d[url] == c[url];
          var i :| LastScrapeOf(results, outcomes, n - 1, url, i, c[url]);
          assert LastScrapeOf(results, outcomes, n, url, i, d[url]);
        }
      }
    }
  }

  /** `search_and_scrape(query, num_results, scrape_all)`. The second result
      lists the URLs handed to the scraper, in order: one scrape per hit,
      and none at all when `scrape_all` is false or there are no hits. None
      means the engine raised, which the code does not catch. */
  method SearchAndScrape(m: Manager, query: string, numResults: int, scrapeAll: bool)
    returns (r: Option<Scraped>, attempted: seq<string>)
    ensures r.Some? <==> Search(m, query, numResults).Some?
    ensures r.None? ==> attempted == []
    ensures r.Some? ==> r.value.searchResults == Search(m, query, numResults).value
    ensures r.Some? && scrapeAll && r.value.searchResults != [] ==>
      attempted == Urls(r.value.searchResults) &&
      r.value.scrapedContents ==
        Collected(r.value.searchResults, Scrapes(m, r.value.searchResults), |r.value.searchResults|)
    ensures r.Some? && !(scrapeAll && r.value.searchResults != []) ==>
      attempted == [] && r.value.scrapedContents == map[]
  {
    var searchResults := Search(m, query, numResults);
    if searchResults.None? {
      return None, [];
    }
    var results := searchResults.value;
    var contents: map<string, ScrapedContent> := map[];
    attempted := [];
    if scrapeAll && results != [] {
      attempted := Urls(results);
      var outcomes := Scrapes(m, results);
      for i := 0 to |outcomes|
        invariant contents == Collected(results, outcomes, i)
      {
        if outcomes[i].None? {
          continue;
        }
        contents := contents[results[i].url := outcomes[i].value];
      }
    }
    r := Some(Scraped(results, contents));
  }
}
