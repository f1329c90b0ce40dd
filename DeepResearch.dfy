/** The research orchestrator: plan search queries for a topic, run each
    as a branch (search, extract learnings and follow-up questions, and go
    one level deeper with half the breadth while depth remains), then merge
    the branches' learnings and URLs without duplicates. Also the final
    report with its "Sources" section.

    The language model, its JSON answers, the search service and the
    tokenizer are parameters, gathered in an `Env`. */
module DeepResearch {
  import opened Py
  import opened Trim
  import SearchServices

  datatype SerpQuery = SerpQuery(query: string, researchGoal: string)

  datatype ResearchResult = ResearchResult(learnings: seq<string>, visitedUrls: seq<string>)

  /** What `json.loads` of a model answer gives: a value, a
      `JSONDecodeError`, or any other exception, which propagates. */
  datatype Parsed<T> = Parsed(value: T) | NotJson | Raised

  /** The learnings and follow-up questions extracted from one search. */
  datatype Extracted = Extracted(learnings: seq<string>, followUps: seq<string>)

  /** The collaborators.
      - `plan(query, numQueries, learnings)`: the planner's parsed
        `queries`;
      - `search(query, limit)`: the search service's `data`, None when the
        call raises;
      - `extract(query, contents, numLearnings, numFollowUps)`: the parsed
        `learnings` and `followUpQuestions`, before slicing;
      - `report(prompt, learningsString)`: the parsed `reportMarkdown`. */
  datatype Env = Env(
    tokens: string -> nat,
    plan: (string, int, seq<string>) -> Parsed<seq<SerpQuery>>,
    search: (string, int) -> Option<seq<SearchServices.DataItem>>,
    extract: (string, seq<string>, int, int) -> Parsed<(seq<string>, seq<string>)>,
    report: (string, string) -> Parsed<string>)

  const SearchLimit: int := 5
  const NumLearnings: int := 3
  const ContentTokens: int := 25000
  const LearningsTokens: int := 150000

  /** The 20-space indentation inside the next query's triple-quoted
      f-string. */
  const Indent: string := "                    "

  const Empty: ResearchResult := ResearchResult([], [])

  // ---------------------------------------------------------------------------
  // Planning and extraction
  // ---------------------------------------------------------------------------

  /** `generate_serp_queries(query, num_queries, learnings)`: the planned
      queries cut to `num_queries`, none when the answer is not JSON, and
      None when anything else raises. */
  function GenerateSerpQueries(env: Env, query: string, numQueries: int, learnings: seq<string>): (r: Option<seq<SerpQuery>>)
    ensures r.None? <==> env.plan(query, numQueries, learnings).Raised?
    ensures env.plan(query, numQueries, learnings).NotJson? ==> r == Some([])
    ensures r.Some? && numQueries >= 0 ==> |r.value| <= numQueries
    ensures r.Some? ==> r.value <= (var p := env.plan(query, numQueries, learnings); if p.Parsed? then p.value else [])
    ensures var p := env.plan(query, numQueries, learnings);
      p.Parsed? ==> |r.value| == SliceLength(|p.value|, numQueries)
  {
    match env.plan(query, numQueries, learnings)
    case Parsed(queries) => Some(Take(queries, numQueries))
    case NotJson => Some([])
    case Raised => None
  }

  /** `trim_prompt(c, 25_000)`. */
  function TrimContent(tokens: string -> nat): string -> string {
    c => TrimPrompt(tokens, c, ContentTokens)
  }

  /** The contents handed to the extractor: the non-empty `content` of each
      item, in order, each passed through `trim`. */
  function SerpContents(trim: string -> string, data: seq<SearchServices.DataItem>): (contents: seq<string>)
    ensures |contents| <= |data|
  {
    if data == [] then []
    else
      var rest := SerpContents(trim, data[1..]);
      if data[0].content != "" then [trim(data[0].content)] + rest else rest
  }

  /** `c` is the trimmed content of some item with non-empty content. */
  ghost predicate FromSomeItem(c: string, trim: string -> string, data: seq<SearchServices.DataItem>) {
    exists i :: 0 <= i < |data| && data[i].content != "" && c == trim(data[i].content)
  }

  lemma FromSomeItemCons(c: string, trim: string -> string, data: seq<SearchServices.DataItem>)
    requires data != [] && FromSomeItem(c, trim, data[1..])
    ensures FromSomeItem(c, trim, data)
  {
    var i :| 0 <= i < |data[1..]| && data[1..][i].content != "" && c == trim(data[1..][i].content);
    assert data[i + 1] == data[1..][i];
  }

  /** Every content handed to the extractor is the trimmed content of an
      item whose content is not empty. */
  lemma {:induction false} SerpContentsFromItems(trim: string -> string, data: seq<SearchServices.DataItem>)
    ensures forall k :: 0 <= k < |SerpContents(trim, data)| ==> FromSomeItem(SerpContents(trim, data)[k], trim, data)
    decreases |data|
  {
    if data != [] {
      var rest := SerpContents(trim, data[1..]);
      SerpContentsFromItems(trim, data[1..]);
      var contents := SerpContents(trim, data);
      var skip := if data[0].content != "" then 1 else 0;
      assert contents == (if skip == 1 then [trim(data[0].content)] else []) + rest;
      if skip == 1 {
        assert FromSomeItem(contents[0], trim, data);
      }
      forall k | skip <= k < |contents|
        ensures FromSomeItem(contents[k], trim, data)
      {
        assert contents[k] == rest[k - skip];
        assert FromSomeItem(rest[k - skip], trim, data[1..]);
        FromSomeItemCons(contents[k], trim, data);
      }
    }
  }

  /** With `trim_prompt`, each content is a piece of an item's content and
      never longer than it. */
  lemma ContentsArePieces(tokens: string -> nat, data: seq<SearchServices.DataItem>, k: int)
    requires 0 <= k < |SerpContents(TrimContent(tokens), data)|
    ensures exists i :: (0 <= i < |data| && data[i].content != "" &&
                         IsSubstring(SerpContents(TrimContent(tokens), data)[k], data[i].content))
  {
    SerpContentsFromItems(TrimContent(tokens), data);
    var c := SerpContents(TrimContent(tokens), data)[k];
    var i :| 0 <= i < |data| && data[i].content != "" && c == TrimContent(tokens)(data[i].content);
    TrimIsSubstring(tokens, data[i].content, ContentTokens);
  }

  /** `process_serp_result(query, {"data": data}, num_learnings,
      num_follow_up_questions)`: the extracted lists cut to their counts,
      both empty when the answer is not JSON, None when anything else
      raises. */
  function ProcessSerpResult(env: Env, query: string, data: seq<SearchServices.DataItem>,
                             numLearnings: int, numFollowUps: int): (r: Option<Extracted>)
    ensures var p := env.extract(query, SerpContents(TrimContent(env.tokens), data), numLearnings, numFollowUps);
      (r.None? <==> p.Raised?) &&
      (p.NotJson? ==> r == Some(Extracted([], []))) &&
      (p.Parsed? ==> r.value.learnings <= p.value.0 && r.value.followUps <= p.value.1)
    ensures r.Some? && numLearnings >= 0 ==> |r.value.learnings| <= numLearnings
    ensures r.Some? && numFollowUps >= 0 ==> |r.value.followUps| <= numFollowUps
    ensures var p := env.extract(query, SerpContents(TrimContent(env.tokens), data), numLearnings, numFollowUps);
      p.Parsed? ==>
        |r.value.learnings| == SliceLength(|p.value.0|, numLearnings) &&
        |r.value.followUps| == SliceLength(|p.value.1|, numFollowUps)
  {
    match env.extract(query, SerpContents(TrimContent(env.tokens), data), numLearnings, numFollowUps)
    case Parsed(lists) => Some(Extracted(Take(lists.0, numLearnings), Take(lists.1, numFollowUps)))
    case NotJson => Some(Extracted([], []))
    case Raised => None
  }

  /** Some item has URL `u`. */
  ghost predicate HasUrl(data: seq<SearchServices.DataItem>, u: string) {
    exists i :: 0 <= i < |data| && data[i].url == u
  }

  lemma HasUrlCons(data: seq<SearchServices.DataItem>, u: string)
    requires data != []
    ensures HasUrl(data, u) <==> data[0].url == u || HasUrl(data[1..], u)
  {
    if HasUrl(data, u) && data[0].url != u {
      var i :| 0 <= i < |data| && data[i].url == u;
      assert data[1..][i - 1] == data[i];
    }
    if HasUrl(data[1..], u) {
      var i :| 0 <= i < |data[1..]| && data[1..][i].url == u;
      assert data[i + 1] == data[1..][i];
    }
  }

  /** `new_urls`: the items' URLs that are not empty, in order. */
  function NewUrls(data: seq<SearchServices.DataItem>): (urls: seq<string>)
    ensures |urls| <= |data|
    ensures forall k :: 0 <= k < |urls| ==> urls[k] != ""
  {
    if data == [] then []
    else
      var rest := NewUrls(data[1..]);
      if data[0].url != "" then [data[0].url] + rest else rest
  }

  /** A URL is new exactly when it is not empty and some item has it. */
  lemma {:induction false} NewUrlsSpec(data: seq<SearchServices.DataItem>)
    ensures forall u :: u in NewUrls(data) <==> u != "" && HasUrl(data, u)
    decreases |data|
  {
    if data != [] {
      NewUrlsSpec(data[1..]);
      forall u
        ensures u in NewUrls(data) <==> u != "" && HasUrl(data, u)
      {
        HasUrlCons(data, u);
      }
    }
  }

  /** `max(1, breadth // 2)`; with a divisor of 2, Dafny's division is
      Python's floor division. */
  function NextBreadth(breadth: int): (b: int)
    ensures b >= 1
    ensures breadth >= 2 ==> b <= breadth / 2 + 1 && b < breadth
  {
    Max(1, breadth / 2)
  }

  /** The query of the next level: the branch's research goal and its
      follow-up questions joined by spaces, on two labelled lines of the
      triple-quoted f-string, stripped. */
  function NextQuery(researchGoal: string, followUps: seq<string>): string {
    Strip("\n" + Indent + "上层搜索目标: " + researchGoal + "\n" + Indent + "发现的新方向: " + Join(" ", followUps) + "\n" + Indent)
  }

  // ---------------------------------------------------------------------------
  // The recursion
  // ---------------------------------------------------------------------------

  /** `deep_research(query, breadth, depth, learnings, visited_urls)`: None
      when planning raises; otherwise the duplicate-free union of the
      branches' results. */
  function Research(env: Env, query: string, breadth: int, depth: int,
                    learnings: seq<string>, visitedUrls: seq<string>): Option<ResearchResult>
    decreases Max(depth, 0), 2, 0
  {
    var planned := GenerateSerpQueries(env, query, breadth, learnings);
    if planned.None? then None
    else Some(Aggregate(ProcessAll(env, planned.value, breadth, depth, learnings, visitedUrls)))
  }

  /** The `gather` over the planned queries, as an order-preserving map. */
  function ProcessAll(env: Env, queries: seq<SerpQuery>, breadth: int, depth: int,
                      learnings: seq<string>, visitedUrls: seq<string>): seq<ResearchResult>
    decreases Max(depth, 0), 1, |queries|
  {
    if queries == [] then []
    else
      [ProcessQuery(env, queries[0], breadth, depth, learnings, visitedUrls)] +
      ProcessAll(env, queries[1..], breadth, depth, learnings, visitedUrls)
  }

  /** `process_query(serp_query)`: one branch. Anything that raises in it
      gives empty lists. */
  function ProcessQuery(env: Env, serpQuery: SerpQuery, breadth: int, depth: int,
                        learnings: seq<string>, visitedUrls: seq<string>): ResearchResult
    decreases Max(depth, 0), 0, 0
  {
    var hits := env.search(serpQuery.query, SearchLimit);
    if hits.None? then Empty
    else
      var newUrls := NewUrls(hits.value);
      var newBreadth := NextBreadth(breadth);
      var newDepth := depth - 1;
      var extracted := ProcessSerpResult(env, serpQuery.query, hits.value, NumLearnings, newBreadth);
      if extracted.None? then Empty
      else
        var allLearnings := learnings + extracted.value.learnings;
        var allUrls := visitedUrls + newUrls;
        if newDepth > 0 then
          var deeper := Research(env, NextQuery(serpQuery.researchGoal, extracted.value.followUps),
                                 newBreadth, newDepth, allLearnings, allUrls);
          if deeper.Some? then deeper.value else Empty
        else ResearchResult(allLearnings, allUrls)
  }

  /** The learnings of every branch, in branch order. */
  function LearningsOf(results: seq<ResearchResult>): seq<seq<string>> {
    seq(|results|, k requires 0 <= k < |results| => results[k].learnings)
  }

  /** The visited URLs of every branch, in branch order. */
  function UrlsOf(results: seq<ResearchResult>): seq<seq<string>> {
    seq(|results|, k requires 0 <= k < |results| => results[k].visitedUrls)
  }

  /** `list(set(...))` over the branches' learnings and URLs. */
  function Aggregate(results: seq<ResearchResult>): (r: ResearchResult)
    ensures NoDuplicates(r.learnings) && NoDuplicates(r.visitedUrls)
  {
    ResearchResult(Dedup(Flatten(LearningsOf(results))), Dedup(Flatten(UrlsOf(results))))
  }

  // ---------------------------------------------------------------------------
  // Properties
  // ---------------------------------------------------------------------------

  /** The fan-out is a map: one result per planned query, in order, each
      depending on its own query only. */
  lemma {:induction false} ProcessAllIsMap(env: Env, queries: seq<SerpQuery>, breadth: int, depth: int,
                                           learnings: seq<string>, visitedUrls: seq<string>)
    ensures var results := ProcessAll(env, queries, breadth, depth, learnings, visitedUrls);
      |results| == |queries| &&
      forall k :: 0 <= k < |queries| ==> results[k] == ProcessQuery(env, queries[k], breadth, depth, learnings, visitedUrls)
    decreases |queries|
  {
    if queries != [] {
      ProcessAllIsMap(env, queries[1..], breadth, depth, learnings, visitedUrls);
      var results := ProcessAll(env, queries, breadth, depth, learnings, visitedUrls);
      forall k | 1 <= k < |queries|
        ensures results[k] == ProcessQuery(env, queries[k], breadth, depth, learnings, visitedUrls)
      {
        assert queries[1..][k - 1] == queries[k];
      }
    }
  }

  /** The level result holds exactly the learnings and URLs of the branches,
      each once. */
  lemma LevelIsUnion(results: seq<ResearchResult>)
    ensures var r := Aggregate(results);
      (forall l :: l in r.learnings <==> exists k :: 0 <= k < |results| && l in results[k].learnings) &&
      (forall u :: u in r.visitedUrls <==> exists k :: 0 <= k < |results| && u in results[k].visitedUrls)
  {
    var r := Aggregate(results);
    FlattenElems(LearningsOf(results));
    FlattenElems(UrlsOf(results));
    assert Elems(r.learnings) == Elems(Flatten(LearningsOf(results)));
    assert Elems(r.visitedUrls) == Elems(Flatten(UrlsOf(results)));
    forall l
      ensures l in r.learnings <==> exists k :: 0 <= k < |results| && l in results[k].learnings
    {
      assert l in r.learnings <==> l in Elems(r.learnings);
      if exists k :: 0 <= k < |results| && l in results[k].learnings {
        var k :| 0 <= k < |results| && l in results[k].learnings;
        assert l in LearningsOf(results)[k];
      }
    }
    forall u
      ensures u in r.visitedUrls <==> exists k :: 0 <= k < |results| && u in results[k].visitedUrls
    {
      assert u in r.visitedUrls <==> u in Elems(r.visitedUrls);
      if exists k :: 0 <= k < |results| && u in results[k].visitedUrls {
        var k :| 0 <= k < |results| && u in results[k].visitedUrls;
        assert u in UrlsOf(results)[k];
      }
    }
  }

  /** With no planned queries the level result is empty: the prior
      learnings and URLs are dropped. */
  lemma ZeroQueriesDropPriors(env: Env, query: string, breadth: int, depth: int,
                              learnings: seq<string>, visitedUrls: seq<string>)
    requires GenerateSerpQueries(env, query, breadth, learnings) == Some([])
    ensures Research(env, query, breadth, depth, learnings, visitedUrls) == Some(Empty)
  {
    assert Flatten(LearningsOf([])) == [];
    assert Flatten(UrlsOf([])) == [];
  }

  /** A branch whose search or extraction raises gives empty lists. */
  lemma FailingBranchIsEmpty(env: Env, serpQuery: SerpQuery, breadth: int, depth: int,
                             learnings: seq<string>, visitedUrls: seq<string>)
    requires var hits := env.search(serpQuery.query, SearchLimit);
      hits.None? ||
      env.extract(serpQuery.query, SerpContents(TrimContent(env.tokens), hits.value), NumLearnings, NextBreadth(breadth)).Raised?
    ensures ProcessQuery(env, serpQuery, breadth, depth, learnings, visitedUrls) == Empty
  {
  }

  /** At the last level a branch that does not raise returns the prior
      learnings followed by the new ones (at most three), and the prior URLs
      followed by the non-empty URLs of its search data. */
  lemma TerminalBranch(env: Env, serpQuery: SerpQuery, breadth: int, depth: int,
                       learnings: seq<string>, visitedUrls: seq<string>)
    requires depth <= 1
    requires var hits := env.search(serpQuery.query, SearchLimit);
      hits.Some? && ProcessSerpResult(env, serpQuery.query, hits.value, NumLearnings, NextBreadth(breadth)).Some?
    ensures var hits := env.search(serpQuery.query, SearchLimit);
      var r := ProcessQuery(env, serpQuery, breadth, depth, learnings, visitedUrls);
      |r.learnings| <= |learnings| + NumLearnings && learnings <= r.learnings &&
      r.learnings[|learnings|..] == ProcessSerpResult(env, serpQuery.query, hits.value, NumLearnings, NextBreadth(breadth)).value.learnings &&
      r.visitedUrls == visitedUrls + NewUrls(hits.value)
  {
    var hits := env.search(serpQuery.query, SearchLimit);
    var ex := ProcessSerpResult(env, serpQuery.query, hits.value, NumLearnings, NextBreadth(breadth));
    var r := ProcessQuery(env, serpQuery, breadth, depth, learnings, visitedUrls);
    assert r.learnings == learnings + ex.value.learnings;
    assert r.learnings[|learnings|..] == ex.value.learnings;
  }

  /** A branch that does not raise and has depth left goes one level deeper,
      with half the breadth (at least one), one less depth, and the prior and
      new lists concatenated; if that level raises, the branch is empty. */
  lemma RecursiveBranch(env: Env, serpQuery: SerpQuery, breadth: int, depth: int,
                        learnings: seq<string>, visitedUrls: seq<string>)
    requires depth > 1
    requires var hits := env.search(serpQuery.query, SearchLimit);
      hits.Some? && ProcessSerpResult(env, serpQuery.query, hits.value, NumLearnings, NextBreadth(breadth)).Some?
    ensures var hits := env.search(serpQuery.query, SearchLimit);
      var ex := ProcessSerpResult(env, serpQuery.query, hits.value, NumLearnings, NextBreadth(breadth)).value;
      var deeper := Research(env, NextQuery(serpQuery.researchGoal, ex.followUps), NextBreadth(breadth), depth - 1,
                             learnings + ex.learnings, visitedUrls + NewUrls(hits.value));
      ProcessQuery(env, serpQuery, breadth, depth, learnings, visitedUrls) == (if deeper.Some? then deeper.value else Empty) &&
      1 <= NextBreadth(breadth) && 0 < depth - 1 < depth
  {
  }

  /** At the last level, the prior learnings and URLs survive into the
      level result as soon as one branch does not raise. */
  lemma TerminalKeepsPriors(env: Env, query: string, breadth: int, depth: int,
                            learnings: seq<string>, visitedUrls: seq<string>, k: int)
    requires depth <= 1
    requires var planned := GenerateSerpQueries(env, query, breadth, learnings);
      planned.Some? && 0 <= k < |planned.value| &&
      var hits := env.search(planned.value[k].query, SearchLimit);
      hits.Some? && ProcessSerpResult(env, planned.value[k].query, hits.value, NumLearnings, NextBreadth(breadth)).Some?
    ensures var r := Research(env, query, breadth, depth, learnings, visitedUrls);
      r.Some? && (forall l :: l in learnings ==> l in r.value.learnings) &&
      (forall u :: u in visitedUrls ==> u in r.value.visitedUrls)
  {
    var planned := GenerateSerpQueries(env, query, breadth, learnings).value;
    var results := ProcessAll(env, planned, breadth, depth, learnings, visitedUrls);
    ProcessAllIsMap(env, planned, breadth, depth, learnings, visitedUrls);
    TerminalBranch(env, planned[k], breadth, depth, learnings, visitedUrls);
    LevelIsUnion(results);
  }

  /** `breadth` after `k` levels. */
  function BreadthAt(breadth: int, k: nat): int {
    if k == 0 then breadth else NextBreadth(BreadthAt(breadth, k - 1))
  }

  /** Python's `b >> k`: `k` floor halvings. */
  function Shr(b: int, k: nat): int {
    if k == 0 then b else Shr(b, k - 1) / 2
  }

  /** The breadth at level `k` of the recursion is `max(1, breadth >> k)` for
      a positive starting breadth. */
  lemma {:induction false} BreadthAtLevel(breadth: int, k: nat)
    requires breadth >= 1
    ensures BreadthAt(breadth, k) == Max(1, Shr(breadth, k))
    ensures Shr(breadth, k) >= 0
  {
    if k > 0 {
      BreadthAtLevel(breadth, k - 1);
    }
  }

  // ---------------------------------------------------------------------------
  // The final report
  // ---------------------------------------------------------------------------

  /** One learning wrapped in its tags. */
  function LearningTag(learning: string): string {
    "<learning>\n" + learning + "\n</learning>"
  }

  /** The learnings handed to the report writer: the tagged learnings on
      their own lines, trimmed to `LearningsTokens` tokens; never longer
      than the untrimmed text and a piece of it. */
  function LearningsString(tokens: string -> nat, learnings: seq<string>): (s: string)
    ensures var full := Join("\n", seq(|learnings|, k requires 0 <= k < |learnings| => LearningTag(learnings[k])));
      |s| <= |full| && IsSubstring(s, full)
  {
    var full := Join("\n", seq(|learnings|, k requires 0 <= k < |learnings| => LearningTag(learnings[k])));
    TrimIsSubstring(tokens, full, LearningsTokens);
    TrimPrompt(tokens, full, LearningsTokens)
  }

  const SourcesHeader: string := "\n\n## Sources\n\n"

  /** One source line. */
  function SourceLine(url: string): string {
    "- " + url
  }

  /** The literal sources section: the header, then one line per URL. */
  function SourcesSection(visitedUrls: seq<string>): string {
    SourcesHeader + Join("\n", seq(|visitedUrls|, k requires 0 <= k < |visitedUrls| => SourceLine(visitedUrls[k])))
  }

  /** `write_final_report(prompt, learnings, visited_urls)`: the report
      followed by its sources section, the fixed error text when the answer
      is not JSON, None when anything else raises. */
  function WriteFinalReport(env: Env, prompt: string, learnings: seq<string>, visitedUrls: seq<string>): (r: Option<string>)
    ensures var p := env.report(prompt, LearningsString(env.tokens, learnings));
      (r.None? <==> p.Raised?) &&
      (p.NotJson? ==> r == Some("Error generating report")) &&
      (p.Parsed? ==>
        |r.value| == |p.value| + |SourcesSection(visitedUrls)| && r.value[..|p.value|] == p.value && r.value[|p.value|..] == SourcesSection(visitedUrls))
  {
    match env.report(prompt, LearningsString(env.tokens, learnings))
    case Parsed(report) => Some(report + SourcesSection(visitedUrls))
    case NotJson => Some("Error generating report")
    case Raised => None
  }

  /** The sources section reads back: past its header, splitting on newlines
      gives one `- url` line per visited URL, in order, when no URL holds a
      newline. */
  lemma SourcesRoundTrip(visitedUrls: seq<string>)
    requires |visitedUrls| >= 1
    requires forall k :: 0 <= k < |visitedUrls| ==> '\n' !in visitedUrls[k]
    ensures SplitOn(SourcesSection(visitedUrls)[|SourcesHeader|..], "\n") ==
      seq(|visitedUrls|, k requires 0 <= k < |visitedUrls| => SourceLine(visitedUrls[k]))
  {
    var lines := seq(|visitedUrls|, k requires 0 <= k < |visitedUrls| => SourceLine(visitedUrls[k]));
    forall k | 0 <= k < |lines|
      ensures '\n' !in lines[k]
    {
      assert lines[k] == "- " + visitedUrls[k];
    }
    assert SourcesSection(visitedUrls)[|SourcesHeader|..] == Join("\n", lines);
    SplitJoinRoundTrip('\n', lines);
  }
}
