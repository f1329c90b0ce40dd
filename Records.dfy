/** The records the search layer passes around: a search engine's
    `SearchResult` and a scraper's `ScrapedContent`. */
module Records {
  import opened Py

  /** One search hit. The free-form `metadata` field is not modelled. */
  datatype SearchResult = SearchResult(
    url: string,
    title: Option<string>,
    position: Option<int>,
    description: Option<string>)

  /** One scraped page. The free-form `metadata` field is not modelled. */
  datatype ScrapedContent = ScrapedContent(url: string, html: string, text: string, statusCode: int)

  /** The URLs of the hits, in order. */
  function Urls(results: seq<SearchResult>): (us: seq<string>)
    ensures |us| == |results|
    ensures forall i :: 0 <= i < |results| ==> us[i] == results[i].url
  {
    seq(|results|, i requires 0 <= i < |results| => results[i].url)
  }
}
