/** `SearchServices`: picks a backend from the service type, sets up the
    search-and-scrape manager once before the first search and tears it down
    on cleanup, and shapes the manager's results into a list of items, one
    per hit. It also holds the filename sanitiser used when results are
    saved. */
module SearchServices {
  import opened Py
  import opened Records
  import opened ScrapeManager

  /** Two values of `SearchServiceType`: `"firecrawl"`, and the fallback
      when `DEFAULT_SCRAPER` is unset. Every other type gets the manager,
      `"playwright_bing"` and `"playwright_google"` included, so those need
      no name here. */
  const Firecrawl: string := "firecrawl"
  const PlaywrightDdgs: string := "playwright_ddgs"

  /** One element of a search response's `data` list. */
  datatype DataItem = DataItem(url: string, title: Option<string>, content: string)

  /** A call the service makes on its manager; `Setup(false)` is a setup
      that raised and `Teardown(false)` a teardown that raised. */
  datatype ManagerCall = Setup(succeeded: bool) | Teardown(succeeded: bool)

  /** Whether the service counts its manager as set up after the calls: the
      last call was a setup that succeeded, or a teardown that raised and so
      left the flag set. */
  function IsUp(calls: seq<ManagerCall>): bool {
    calls != [] && (calls[|calls| - 1] == Setup(true) || calls[|calls| - 1] == Teardown(false))
  }

  /** Every setup happens while the manager is down and every teardown while
      it is up. */
  predicate Proper(calls: seq<ManagerCall>) {
    forall k :: 0 <= k < |calls| ==> (calls[k].Setup? <==> !IsUp(calls[..k]))
  }

  lemma ProperSnoc(calls: seq<ManagerCall>, c: ManagerCall)
    requires Proper(calls) && (c.Setup? <==> !IsUp(calls))
    ensures Proper(calls + [c])
  {
    var s := calls + [c];
    forall k | 0 <= k < |s|
      ensures s[k].Setup? <==> !IsUp(s[..k])
    {
      if k < |calls| {
        assert s[..k] == calls[..k];
      } else {
        assert s[..k] == calls;
      }
    }
  }

  /** A call is a setup exactly when the call before it was neither a
      successful setup nor a teardown that raised. */
  lemma CallsAlternate(calls: seq<ManagerCall>, k: int)
    requires Proper(calls) && 0 <= k && k + 1 < |calls|
    ensures calls[k + 1].Setup? <==> calls[k] != Setup(true) && calls[k] != Teardown(false)
  {
    assert calls[..k + 1][k] == calls[k];
  }

  /** After a successful setup at `i`, the manager stays up through the
      first `t` calls unless a teardown after `i` succeeded. */
  lemma {:induction false} UpUntilTornDown(calls: seq<ManagerCall>, i: int, t: int)
    requires Proper(calls) && 0 <= i < t <= |calls| && calls[i] == Setup(true)
    ensures IsUp(calls[..t]) || exists u :: i < u < t && calls[u] == Teardown(true)
    decreases t - i
  {
    assert calls[..t][t - 1] == calls[t - 1];
    if t > i + 1 {
      UpUntilTornDown(calls, i, t - 1);
      assert calls[t - 1].Setup? <==> !IsUp(calls[..t - 1]);
    }
  }

  /** Between two successful setups there is a teardown that succeeded, and
      a teardown comes right after the first: the manager is set up at most
      once until it is cleaned up. */
  lemma SetupOnceUntilCleanup(calls: seq<ManagerCall>, i: int, j: int)
    requires Proper(calls) && 0 <= i < j < |calls|
    requires calls[i] == Setup(true) && calls[j].Setup?
    ensures i + 1 < j && calls[i + 1].Teardown?
    ensures exists u :: i < u < j && calls[u] == Teardown(true)
  {
    CallsAlternate(calls, i);
    UpUntilTornDown(calls, i, j);
    assert calls[j].Setup? <==> !IsUp(calls[..j]);
  }

  /** `item` for one hit: its URL and title, and the scraped text when its
      URL was scraped, else "". */
  function ItemOf(result: SearchResult, contents: map<string, ScrapedContent>): DataItem {
    DataItem(result.url, result.title, if result.url in contents then contents[result.url].text else "")
  }

  /** `formatted_data` after the loop over the hits. */
  function FormatResults(results: seq<SearchResult>, contents: map<string, ScrapedContent>): (items: seq<DataItem>)
    ensures |items| == |results|
    ensures forall i :: 0 <= i < |results| ==> items[i] == ItemOf(results[i], contents)
  {
    if results == [] then []
    else FormatResults(results[..|results| - 1], contents) + [ItemOf(results[|results| - 1], contents)]
  }

  /** The item for hit `i` carries the text of the last successful scrape of
      its URL whenever one succeeded, and "" when none did. That scrape need
      not be the hit's own: a hit whose scrape failed still gets the text of
      another hit with the same URL. */
  lemma ItemContent(m: Manager, results: seq<SearchResult>, i: int)
    requires 0 <= i < |results|
    ensures var outcomes := Scrapes(m, results);
      var item := FormatResults(results, Collected(results, outcomes, |results|))[i];
      item.url == results[i].url &&
      (item.content == "" || exists j, v :: LastScrapeOf(results, outcomes, |results|, item.url, j, v) && item.content == v.text) &&
      ((exists j :: 0 <= j < |results| && results[j].url == item.url && outcomes[j].Some?) ==>
         exists j, v :: LastScrapeOf(results, outcomes, |results|, item.url, j, v) && item.content == v.text) &&
      ((forall j :: 0 <= j < |results| && results[j].url == item.url ==> outcomes[j].None?) ==> item.content == "")
  {
    var outcomes := Scrapes(m, results);
    var c := Collected(results, outcomes, |results|);
    var url := results[i].url;
    CollectedKeys(results, outcomes, |results|);
    CollectedValues(results, outcomes, |results|);
    if url in c {
      var j :| LastScrapeOf(results, outcomes, |results|, url, j, c[url]);
    }
  }

  /** Two hits with one URL whose first scrape succeeds and second raises:
      both items carry the first scrape's text. */
  lemma {:induction false} SharedUrlSharesContent(m: Manager, results: seq<SearchResult>)
    requires |results| == 2 && results[0].url == results[1].url
    requires Scrape(m, results[0].url, 0).Some? && Scrape(m, results[1].url, 1).None?
    ensures var items := FormatResults(results, Collected(results, Scrapes(m, results), 2));
      items[0].content == Scrape(m, results[0].url, 0).value.text &&
      items[1].content == Scrape(m, results[0].url, 0).value.text
  {
    var outcomes := Scrapes(m, results);
    assert outcomes[0] == Scrape(m, results[0].url, 0);
    assert outcomes[1] == Scrape(m, results[1].url, 1);
    assert Collected(results, outcomes, 0) == map[];
    var c := Collected(results, outcomes, 1);
    assert c == map[results[0].url := outcomes[0].value];
    assert Collected(results, outcomes, 2) == c;
  }

  /** What the search body produces on the manager path: the formatted hits,
      or no items when the manager raised. */
  function ManagerData(m: Manager, query: string, limit: int): seq<DataItem> {
    var hits := Search(m, query, limit);
    if hits.None? then []
    else FormatResults(hits.value, if hits.value != [] then Collected(hits.value, Scrapes(m, hits.value), |hits.value|) else map[])
  }

  class SearchService {
    const serviceType: string
    /** Set for every service type but `"firecrawl"`. */
    const manager: Option<Manager>
    /** The Firecrawl client's `search(query, limit)`, set only for
        `"firecrawl"`; None when the call raises. */
    const firecrawl: Option<(string, int) -> Option<seq<DataItem>>>
    var initialized: bool
    /** The calls made on the manager so far. */
    ghost var calls: seq<ManagerCall>

    ghost predicate Valid()
      reads this
    {
      (serviceType == Firecrawl ==> manager.None? && firecrawl.Some?) &&
      (serviceType != Firecrawl ==> manager.Some? && firecrawl.None?) &&
      Proper(calls) && initialized == IsUp(calls) && (manager.None? ==> calls == [])
    }

    /** `SearchServices(service_type)`; `defaultScraper` is the
        `DEFAULT_SCRAPER` environment variable, None when unset, read when
        no type is given; `m` the manager `SearchAndScrapeManager()` builds
        and `fc` the Firecrawl client's search. */
    constructor(serviceType: Option<string>, defaultScraper: Option<string>, m: Manager,
                fc: (string, int) -> Option<seq<DataItem>>)
      ensures this.serviceType ==
        if serviceType.Some? then serviceType.value
        else if defaultScraper.Some? then defaultScraper.value
        else PlaywrightDdgs
      ensures this.serviceType == Firecrawl ==> manager.None? && firecrawl == Some(fc)
      ensures this.serviceType != Firecrawl ==> manager == Some(m) && firecrawl.None?
      ensures !initialized && calls == []
      ensures Valid()
    {
      var t := if serviceType.Some? then serviceType.value
        else if defaultScraper.Some? then defaultScraper.value
        else PlaywrightDdgs;
      this.serviceType := t;
      if t == Firecrawl {
        manager := None;
        firecrawl := Some(fc);
      } else {
        manager := Some(m);
        firecrawl := None;
      }
      initialized := false;
      calls := [];
    }

    /** `ensure_initialized`: set the manager up when there is one and it is
        not set up yet. `setupRaises` says whether that setup raises; `ok` is
        false exactly when it did. */
    method EnsureInitialized(setupRaises: bool) returns (ok: bool)
      requires Valid()
      modifies this
      ensures Valid()
      ensures manager.Some? && !old(initialized) ==>
        calls == old(calls) + [Setup(!setupRaises)] && initialized == !setupRaises && ok == !setupRaises
      ensures !(manager.Some? && !old(initialized)) ==>
        calls == old(calls) && initialized == old(initialized) && ok
    {
      ok := true;
      if manager.Some? && !initialized {
        ProperSnoc(calls, Setup(!setupRaises));
        calls := calls + [Setup(!setupRaises)];
        if setupRaises {
          ok := false;
          return;
        }
        initialized := true;
      }
    }

    /** `cleanup`: tear the manager down only when it is set up, then clear
        the flag. `teardownRaises` says whether that teardown raises; the
        exception then leaves `cleanup` before the flag is cleared, and `ok`
        is false exactly when it did. */
    method Cleanup(teardownRaises: bool) returns (ok: bool)
      requires Valid()
      modifies this
      ensures Valid()
      ensures manager.Some? && old(initialized) ==>
        calls == old(calls) + [Teardown(!teardownRaises)] && initialized == teardownRaises && ok == !teardownRaises
      ensures !(manager.Some? && old(initialized)) ==>
        calls == old(calls) && initialized == old(initialized) && ok
    {
      ok := true;
      if manager.Some? && initialized {
        ProperSnoc(calls, Teardown(!teardownRaises));
        calls := calls + [Teardown(!teardownRaises)];
        if teardownRaises {
          ok := false;
          return;
        }
        initialized := false;
      }
    }

    /** The `data` the body of `search` builds before saving: the Firecrawl
        results (none when that call raises), or the formatted hits of the
        manager. */
    function ResponseData(query: string, limit: int): seq<DataItem>
      requires serviceType == Firecrawl ==> firecrawl.Some?
      requires serviceType != Firecrawl ==> manager.Some?
    {
      if serviceType == Firecrawl then
        var d := firecrawl.value(query, limit);
        if d.Some? then d.value else []
      else ManagerData(manager.value, query, limit)
    }

    /** `search(query, limit, save_content)`. Initialization runs outside
        the guard, so a setup that raises makes the whole call raise (None);
        anything raised inside the body, including an untitled item when
        saving, gives `{"data": []}`. `files` lists the paths written when
        saving; `isAlnum` is Python's `str.isalnum` on one character. */
    method Search(query: string, limit: int, saveContent: bool, setupRaises: bool, isAlnum: char -> bool)
      returns (r: Option<seq<DataItem>>, files: seq<string>)
      requires Valid()
      modifies this
      ensures Valid()
      ensures manager.Some? && !old(initialized) ==>
        calls == old(calls) + [Setup(!setupRaises)] && initialized == !setupRaises
      ensures !(manager.Some? && !old(initialized)) ==> calls == old(calls) && initialized == old(initialized)
      ensures r.None? <==> manager.Some? && !old(initialized) && setupRaises
      ensures r.Some? && (!saveContent || AllTitled(ResponseData(query, limit))) ==>
        r.value == ResponseData(query, limit)
      ensures r.Some? && saveContent && !AllTitled(ResponseData(query, limit)) ==>
        r.value == [] && StoppedAtUntitled(ResponseData(query, limit), t => SafeFilename(t, isAlnum), files)
      ensures r.Some? && saveContent && AllTitled(ResponseData(query, limit)) ==>
        files == SavedFiles(ResponseData(query, limit), t => SafeFilename(t, isAlnum))
      ensures r.None? || !saveContent ==> files == []
    {
      files := [];
      var ok := EnsureInitialized(setupRaises);
      if !ok {
        return None, [];
      }
      var data: seq<DataItem>;
      if serviceType == Firecrawl {
        var d := firecrawl.value(query, limit);
        data := if d.Some? then d.value else [];
      } else {
        var scraped, _ := SearchAndScrape(manager.value, query, limit, true);
        if scraped.None? {
          data := [];
        } else {
          data := Format(scraped.value.searchResults, scraped.value.scrapedContents);
        }
      }
      if saveContent {
        var saved, names := SaveContent(data, t => SafeFilename(t, isAlnum));
        if !saved {
          return Some([]), names;
        }
        files := names;
      }
      r := Some(data);
    }
  }

  /** The formatting loop of `search`: one item per hit, in order. */
  method Format(results: seq<SearchResult>, contents: map<string, ScrapedContent>) returns (formatted: seq<DataItem>)
    ensures formatted == FormatResults(results, contents)
  {
    formatted := [];
    for i := 0 to |results|
      invariant formatted == FormatResults(results[..i], contents)
    {
      var result := results[i];
      var item := DataItem(result.url, result.title, "");
      if result.url in contents {
        var scraped := contents[result.url];
        item := item.(content := scraped.text);
      }
      assert results[..i + 1][..i] == results[..i];
      formatted := formatted + [item];
    }
    assert results[..|results|] == results;
  }

  /** Every item has a title, so the sanitiser can slice it. */
  predicate AllTitled(items: seq<DataItem>) {
    forall i :: 0 <= i < |items| ==> items[i].title.Some?
  }

  /** The path an item is saved under: the name `fileName` gives its title,
      in `scraped_content/`, with `.json` appended. */
  function SavedFile(item: DataItem, fileName: string -> string): string
    requires item.title.Some?
  {
    "scraped_content/" + fileName(item.title.value) + ".json"
  }

  /** The paths of all items, in order. */
  function SavedFiles(items: seq<DataItem>, fileName: string -> string): (files: seq<string>)
    requires AllTitled(items)
    ensures |files| == |items|
    ensures forall i :: 0 <= i < |items| ==> files[i] == SavedFile(items[i], fileName)
  {
    if items == [] then []
    else
      assert AllTitled(items[..|items| - 1]);
      SavedFiles(items[..|items| - 1], fileName) + [SavedFile(items[|items| - 1], fileName)]
  }

  /** The saving loop stopped at an untitled item `k`: the files of the
      items before it were written, and no more. */
  predicate StoppedAtUntitled(items: seq<DataItem>, fileName: string -> string, files: seq<string>) {
    exists k :: 0 <= k < |items| && items[k].title.None? && AllTitled(items[..k]) &&
      files == SavedFiles(items[..k], fileName)
  }

  /** The saving loop of `search`: one file per item, in order, named by
      `fileName`; it stops with `ok` false at the first untitled item, where
      slicing the title raises, having written the files before it. */
  method SaveContent(items: seq<DataItem>, fileName: string -> string) returns (ok: bool, files: seq<string>)
    ensures ok <==> AllTitled(items)
    ensures ok ==> files == SavedFiles(items, fileName)
    ensures !ok ==> StoppedAtUntitled(items, fileName, files)
  {
    files := [];
    for i := 0 to |items|
      invariant AllTitled(items[..i])
      invariant files == SavedFiles(items[..i], fileName)
    {
      var title := items[i].title;
      if title.None? {
        assert !AllTitled(items);
        assert StoppedAtUntitled(items, fileName, files);
        return false, files;
      }
      assert items[..i + 1][..i] == items[..i];
      files := files + [SavedFile(items[i], fileName)];
    }
    assert items[..|items|] == items;
    ok := true;
  }

  // ---------------------------------------------------------------------------
  // The safe filename
  // ---------------------------------------------------------------------------

  /** The characters kept besides alphanumerics. */
  const FilenamePunctuation: string := " ._-"

  /** A character the filter keeps: an alphanumeric or one of `" ._-"`. */
  predicate Allowed(c: char, isAlnum: char -> bool) {
    isAlnum(c) || c in FilenamePunctuation
  }

  /** `"".join(c for c in s if c.isalnum() or c in " ._-")`; `isAlnum` is
      Python's `str.isalnum` on one character. Exactly the allowed
      characters survive, and a string of allowed characters is kept
      whole. */
  function KeepFilenameChars(s: string, isAlnum: char -> bool): (r: string)
    ensures |r| <= |s|
    ensures forall k :: 0 <= k < |r| ==> Allowed(r[k], isAlnum)
    ensures forall c :: c in r <==> c in s && Allowed(c, isAlnum)
    ensures (forall k :: 0 <= k < |s| ==> Allowed(s[k], isAlnum)) ==> r == s
    decreases |s|
  {
    if s == [] then []
    else
      var rest := KeepFilenameChars(s[1..], isAlnum);
      if isAlnum(s[0]) || s[0] in FilenamePunctuation then [s[0]] + rest else rest
  }

  /** The filter keeps the input's order: filtering a concatenation
      concatenates the filtered parts. */
  lemma {:induction false} KeepFilenameCharsAppend(a: string, b: string, isAlnum: char -> bool)
    ensures KeepFilenameChars(a + b, isAlnum) == KeepFilenameChars(a, isAlnum) + KeepFilenameChars(b, isAlnum)
    decreases |a|
  {
    if a != [] {
      assert (a + b)[0] == a[0] && (a + b)[1..] == a[1..] + b;
      KeepFilenameCharsAppend(a[1..], b, isAlnum);
    } else {
      assert a + b == b;
    }
  }

  /** `s.replace(" ", "_")`. */
  function ReplaceSpaces(s: string): (r: string)
    ensures |r| == |s|
    ensures forall k :: 0 <= k < |s| ==> r[k] == (if s[k] == ' ' then '_' else s[k])
  {
    seq(|s|, k requires 0 <= k < |s| => if s[k] == ' ' then '_' else s[k])
  }

  /** A character a safe filename may hold: `_`, an alphanumeric, `.` or
      `-`, and never a space. */
  predicate SafeChar(c: char, isAlnum: char -> bool) {
    c != ' ' && (c == '_' || isAlnum(c) || c == '.' || c == '-')
  }

  /** The safe filename built from a title: its first 50 characters, only
      alphanumerics and `" ._-"`, stripped, spaces turned into `_`. It is at
      most 50 characters long, has no space, and every character is `_`, an
      alphanumeric or one of `._-`. */
  function SafeFilename(title: string, isAlnum: char -> bool): (r: string)
    ensures |r| <= 50
    ensures forall k :: 0 <= k < |r| ==> SafeChar(r[k], isAlnum)
  {
    var kept := KeepFilenameChars(Take(title, 50), isAlnum);
    var stripped := Strip(kept);
    StripKeepsChars(kept);
    var r := ReplaceSpaces(stripped);
    assert forall k :: 0 <= k < |r| ==> stripped[k] in stripped;
    r
  }

  /** A title that is already safe and holds no whitespace names its own
      file. */
  lemma SafeTitleIsKept(title: string, isAlnum: char -> bool)
    requires |title| <= 50
    requires forall k :: 0 <= k < |title| ==> SafeChar(title[k], isAlnum) && !IsSpace(title[k])
    ensures SafeFilename(title, isAlnum) == title
  {
    assert Take(title, 50) == title;
    assert forall k :: 0 <= k < |title| ==> Allowed(title[k], isAlnum);
    assert KeepFilenameChars(title, isAlnum) == title;
    StripUnpadded(title);
    assert ReplaceSpaces(title) == title;
  }

  /** Since `/` is not alphanumeric, a safe filename never holds a path
      separator. */
  lemma SafeFilenameHasNoSlash(title: string, isAlnum: char -> bool)
    requires !isAlnum('/')
    ensures '/' !in SafeFilename(title, isAlnum)
  {
    var r := SafeFilename(title, isAlnum);
    forall k | 0 <= k < |r|
      ensures r[k] != '/'
    {
    }
  }

  /** Every saved path lies directly in `scraped_content/`: past that
      prefix it holds no path separator. */
  lemma SavedFilesStayInDirectory(items: seq<DataItem>, isAlnum: char -> bool, i: int)
    requires AllTitled(items) && !isAlnum('/') && 0 <= i < |items|
    ensures var path := SavedFiles(items, t => SafeFilename(t, isAlnum))[i];
      |path| > 16 && path[..16] == "scraped_content/" && '/' !in path[16..]
  {
    var fileName := t => SafeFilename(t, isAlnum);
    var name := SafeFilename(items[i].title.value, isAlnum);
    assert SavedFiles(items, fileName)[i] == "scraped_content/" + name + ".json";
    SafeFilenameHasNoSlash(items[i].title.value, isAlnum);
    PathInDirectory(name);
  }

  /** A name without `/` stays directly in `scraped_content/`. */
  lemma PathInDirectory(name: string)
    requires '/' !in name
    ensures var path := "scraped_content/" + name + ".json";
      |path| > 16 && path[..16] == "scraped_content/" && '/' !in path[16..]
  {
    var path := "scraped_content/" + name + ".json";
    assert path[16..] == name + ".json";
  }
}
