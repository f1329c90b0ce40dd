# tiny-deep-research: a verified model of its text, search and research core

This project models, in Dafny, the sequential logic of tiny-deep-research, an LLM-driven "deep research" agent. It proves properties of that model. The agent plans search queries, searches and scrapes the web, extracts learnings, recurses on follow-up questions, and finally writes a report. The model covers the string and list logic beneath that pipeline:

- **Recursive character text splitter** (`TextSplitter.dfy`):
  - construction checks;
  - `_join_docs`;
  - the greedy `merge_splits` with front eviction for the overlap;
  - `split_text`, which picks a separator by priority, splits, buffers and recurses;
  - `create_documents` and `split_documents`.
- **Prompt trimmer** (`Trim.dfy`). `trim_prompt` shrinks a prompt until its token count fits a context size. The token counter is a parameter.
- **Research orchestrator** (`DeepResearch.dfy`):
  - `generate_serp_queries`;
  - `process_serp_result`;
  - the recursive `deep_research`/`process_query`, with breadth halving, depth countdown, failing branches and set-union aggregation;
  - `write_final_report` and its `## Sources` section.

  The planner, the extractor, the reporter, the search service and `json.loads` are fields of an `Env` datatype.
- **Search and scrape assembly**:
  - `ScrapeManager.dfy`: the URL-to-content map of `search_and_scrape`.
  - `SearchServices.dfy`:
    - the `SearchServices` class, whose `_initialized` flag makes a set-up/tear-down state machine;
    - the type dispatch;
    - the formatting loop;
    - the content-saving loop and its filename sanitiser.
  - `BingSearch.dfy`: the Bing pagination loop and the per-item shaping of `_parse_html`. Page fetching and HTML parsing are a `fetch` parameter.
- **Legacy span splitter** (`LegacySplitter.dfy`): `_split_text`, `_merge_splits` with its start-index step back, `_get_context_window`, `process_single` and `TextChunk.full_text`.

`Py.dfy` defines the Python string primitives the source relies on:

- `str.split(sep)`, which keeps empty pieces;
- `list(s)`;
- `sep.join`;
- `strip()` on whitespace;
- `rstrip(chars)`, which strips a set of characters;
- slicing with negative and oversized indices;
- `list(set(...))`, in first-occurrence order (see "## Left out").

`Records.dfy` holds `SearchResult` and `ScrapedContent`.

Imperative source code is modelled as methods with loops. Examples are `merge_splits`, `split_text`, `create_documents`, the scrape loop, the Bing loops, the legacy `_merge_splits` and `process_single`. Each method is proved equal to a specification function, and the properties are lemmas about that function. `SearchServices` is a class with `modifies` clauses. Expression-only code (`trim_prompt`, `deep_research`, `_join_docs`, the sanitiser) is modelled as functions.

Dafny's strings are sequences of code points. Python's `str.isalnum` is a parameter `isAlnum`. `str.isspace` is written out as the Unicode whitespace set, in `Py.IsSpace`.

## Model

| member | source | states |
|---|---|---|
| TextSplitter.DefaultSplitter | tiny_deep_research/text_splitter/base_text_splitter.py:8-17 | The default sizes 1000 and 200 pass the construction check, as written and corrected, and the default splitter's recursive split terminates. |
| TextSplitter.SeparatorsOrDefault | tiny_deep_research/text_splitter/recursive_text_splitter.py:5-12 | A missing or empty separator list falls back to the eleven default separators, which end with `""`; a non-empty list is kept as given. |
| TextSplitter.NewSplitterAsWritten | tiny_deep_research/text_splitter/base_text_splitter.py:8-17 | Construction succeeds exactly when `chunk_overlap < chunk_size` and then stores both values and the separators. |
| TextSplitter.NewSplitter | tiny_deep_research/text_splitter/base_text_splitter.py:8-17 | The corrected check: construction succeeds exactly when `0 <= chunk_overlap < chunk_size`; the splitter is then valid. |
| TextSplitter.JoinDocsSpec | tiny_deep_research/text_splitter/base_text_splitter.py:36-39 | `_join_docs` is None exactly when the joined text is all whitespace. Otherwise it is the join with exactly its leading and trailing whitespace removed: the join is whitespace, the result, then whitespace, and the result is non-empty with no whitespace at either end. |
| TextSplitter.JoinLength | tiny_deep_research/text_splitter/base_text_splitter.py:71-74 | A join's length is the pieces' length sum plus one separator between each pair of neighbours. |
| TextSplitter.EvictStops | tiny_deep_research/text_splitter/base_text_splitter.py:77-81 | The eviction loop pops exactly while `total > chunk_overlap`, or while the next piece does not fit and `total > 0`; it stops at the first index where neither holds. |
| TextSplitter.EvictLeaves | tiny_deep_research/text_splitter/base_text_splitter.py:77-81 | After eviction the buffered total is at most `chunk_overlap`, and the new piece fits beside it or the total is 0. |
| TextSplitter.EvictNeverFails | tiny_deep_research/text_splitter/base_text_splitter.py:77-81 | With a non-negative overlap, the loop as written never pops from an empty buffer. Its result is the eviction point. |
| TextSplitter.NegativeOverlapPopsEmptyBuffer | tiny_deep_research/text_splitter/base_text_splitter.py:16-17 | An overlap of -1 passes the constructor check as written, and the eviction loop then pops from an empty list; the corrected check rejects it. |
| TextSplitter.WindowsCover | tiny_deep_research/text_splitter/base_text_splitter.py:58-90 | The first window starts at the first piece and the last one ends after the last piece. With `WindowsChain`, each window starts inside the previous one, so every piece is buffered, in input order. |
| TextSplitter.WindowsChain | tiny_deep_research/text_splitter/base_text_splitter.py:77-85 | Each window after the first starts inside the previous one and ends past it; the shared pieces are a suffix of the previous window, and their lengths sum to at most `chunk_overlap`. |
| TextSplitter.WindowsFit | tiny_deep_research/text_splitter/base_text_splitter.py:64-85 | When every piece is shorter than `chunk_size`, every window's piece-length sum is at most `chunk_size`. |
| TextSplitter.MergedIsWindows | tiny_deep_research/text_splitter/base_text_splitter.py:41-92 | The merged chunks are the joins of the successive windows, with the empty joins dropped. |
| TextSplitter.MergedChunks | tiny_deep_research/text_splitter/base_text_splitter.py:71-74 | Every merged chunk is non-empty and stripped. It is `_join_docs` of a non-empty run of consecutive pieces, and a substring of the pieces' join. |
| TextSplitter.MergedChunksFit | tiny_deep_research/text_splitter/base_text_splitter.py:64-90 | When every piece is shorter than `chunk_size`, every chunk joins a run of pieces whose length sum is at most `chunk_size`, so the oversize warning never fires. |
| TextSplitter.CharChunksFit | tiny_deep_research/text_splitter/base_text_splitter.py:64-90 | With the empty separator and pieces shorter than `chunk_size`, no chunk is longer than `chunk_size`. |
| TextSplitter.SeparatorsCanOverflow | tiny_deep_research/text_splitter/base_text_splitter.py:64-74 | Separators are not counted: pieces "a" and "b" with chunk size 3 give the single 4-character chunk "a\n\nb". |
| TextSplitter.EvictFront | tiny_deep_research/text_splitter/base_text_splitter.py:77-81 | The `pop(0)` loop leaves the buffer's suffix from the eviction point, and `total` stays equal to the remaining length sum. |
| TextSplitter.MergeSplits | tiny_deep_research/text_splitter/base_text_splitter.py:41-92 | The loop, with `total` kept equal to the buffer's length sum, returns exactly the merged chunks of the window specification. |
| TextSplitter.FirstQualifying | tiny_deep_research/text_splitter/recursive_text_splitter.py:27-34 | The index of the first separator that is `""` or occurs in the text; every earlier separator fails both tests. |
| TextSplitter.ChooseSeparator | tiny_deep_research/text_splitter/recursive_text_splitter.py:27-34 | The chosen separator is in the list. It qualifies whenever some separator does, which is always when `""` is listed. It is the last element when none qualifies. |
| TextSplitter.SelectSeparator | tiny_deep_research/text_splitter/recursive_text_splitter.py:27-34 | The loop with its `break` returns the chosen separator. |
| TextSplitter.Pieces | tiny_deep_research/text_splitter/recursive_text_splitter.py:37 | Joining the pieces with the separator rebuilds the text. The empty separator gives single characters. A separator that occurs gives pieces strictly shorter than the text. |
| TextSplitter.PiecesShrink | tiny_deep_research/text_splitter/recursive_text_splitter.py:37-50 | For a splitter whose chunk size is at least 2 and whose separators include `""`, every piece of at least `chunk_size` characters is strictly shorter than the text, so the recursion terminates. |
| TextSplitter.UnitChunkSizeRecurses | tiny_deep_research/text_splitter/recursive_text_splitter.py:37-50 | With `chunk_size == 1`, a one-character text splits into itself, which is not under the chunk size, so `split_text` recurses on the same text. |
| TextSplitter.SplitEmptyText | tiny_deep_research/text_splitter/recursive_text_splitter.py:27-58 | The empty text yields no chunks. |
| TextSplitter.SplitChunksAreSubstrings | tiny_deep_research/text_splitter/recursive_text_splitter.py:37-56 | Every chunk of `split_text` is a contiguous substring of the text. |
| TextSplitter.SplitText | tiny_deep_research/text_splitter/recursive_text_splitter.py:14-37 | The method picks the separator, splits the text, and returns exactly the specified chunks. |
| TextSplitter.SplitPieces | tiny_deep_research/text_splitter/recursive_text_splitter.py:40-58 | The buffer/flush/recursion loop returns exactly the specified chunks, in input order. |
| TextSplitter.FlushGood | tiny_deep_research/text_splitter/recursive_text_splitter.py:48-49 | Flushing appends the merged buffer to the chunks found so far. |
| TextSplitter.SplitAllAppend | tiny_deep_research/text_splitter/base_text_splitter.py:24-30 | Splitting a concatenation of text lists gives the concatenation of their splits. |
| TextSplitter.SplitAllChunks | tiny_deep_research/text_splitter/base_text_splitter.py:24-30 | Every document chunk is non-empty and a substring of one of the input texts. |
| TextSplitter.AppendEach | tiny_deep_research/text_splitter/base_text_splitter.py:28-29 | The inner loop appends the chunks in order. |
| TextSplitter.CreateDocuments | tiny_deep_research/text_splitter/base_text_splitter.py:24-30 | The nested loops return the in-order concatenation of `split_text` over the texts. |
| TextSplitter.SplitDocuments | tiny_deep_research/text_splitter/base_text_splitter.py:32-34 | `split_documents` returns the same as `create_documents` on its input. |
| Trim.TrimSplitter | tiny_deep_research/utils/trim_prompt.py:33-39 | The splitter `trim_prompt` builds, with chunk size at least 140 and overlap 0, is always accepted by the constructor (as written and corrected), and the recursive split terminates on it. |
| Trim.FirstChunkIsSubstring | tiny_deep_research/utils/trim_prompt.py:42-44 | The candidate is the first chunk, or `""` when there are none; either way it is a substring of the prompt and no longer than it. |
| Trim.NextPrompt | tiny_deep_research/utils/trim_prompt.py:30-51 | What `trim_prompt` recurses on is a strictly shorter substring of the prompt, whether it is the first chunk or the `prompt[:chunk_size]` cut. |
| Trim.TrimPrompt | tiny_deep_research/utils/trim_prompt.py:11-51 | The result is never longer than the prompt; an empty prompt, or one within the context size, is returned unchanged. |
| Trim.TrimIsSubstring | tiny_deep_research/utils/trim_prompt.py:11-51 | The result is a contiguous piece of the prompt. |
| Trim.TrimOutcome | tiny_deep_research/utils/trim_prompt.py:22-51 | The result is empty, fits the context size, or is a hard cut of at most 140 characters. |
| Trim.TrimIdempotent | tiny_deep_research/utils/trim_prompt.py:11-51 | Trimming a trimmed prompt returns it unchanged. |
| Trim.HardTruncationCanOverflow | tiny_deep_research/utils/trim_prompt.py:30-34 | With one token per character and a context size of 10, a 200-character prompt is cut to 140 characters that still do not fit. |
| ScrapeManager.Scrapes | tiny_deep_research/data_search/search_scraper_mgr.py:82-88 | One scrape per search result, where scrape `i` is a call of its own on `search_results[i].url`, so hits with one URL may get different outcomes. |
| ScrapeManager.CollectedKeys | tiny_deep_research/data_search/search_scraper_mgr.py:91-96 | A URL is a key of `scraped_contents` exactly when some result has that URL and its scrape succeeded. |
| ScrapeManager.CollectedValues | tiny_deep_research/data_search/search_scraper_mgr.py:91-96 | The value stored for a URL is the last successful scrape among the results with that URL. |
| ScrapeManager.SearchAndScrape | tiny_deep_research/data_search/search_scraper_mgr.py:35-101 | The results are exactly the engine's. Without `scrape_all` or results, nothing is scraped and the map is empty. Otherwise every result URL is scraped once, in order, and the map is the collected successes. |
| SearchServices.ProperSnoc | tiny_deep_research/data_search/search_services.py:54-66 | Appending a set-up while down, or a tear-down while up, keeps the manager's call history well formed. |
| SearchServices.CallsAlternate | tiny_deep_research/data_search/search_services.py:54-66 | In a well-formed history, a set-up follows exactly a successful tear-down or a failed set-up. |
| SearchServices.UpUntilTornDown | tiny_deep_research/data_search/search_services.py:54-66 | After a successful set-up, the service counts the manager as set up until a tear-down succeeds; a raising tear-down leaves it set up. |
| SearchServices.SetupOnceUntilCleanup | tiny_deep_research/data_search/search_services.py:54-66 | After a successful set-up, a tear-down comes next, and the next set-up comes only after a tear-down that succeeded. |
| SearchServices.SearchService.constructor | tiny_deep_research/data_search/search_services.py:28-52 | A missing type takes `DEFAULT_SCRAPER`, or `"playwright_ddgs"` when that is unset. `"firecrawl"` gets only the Firecrawl client; every other type gets the manager and no client. The service starts uninitialised. |
| SearchServices.SearchService.EnsureInitialized | tiny_deep_research/data_search/search_services.py:54-59 | Set-up is called only with a manager that is not yet initialised; the flag is set when set-up does not raise; otherwise nothing changes. |
| SearchServices.SearchService.Cleanup | tiny_deep_research/data_search/search_services.py:61-66 | Tear-down is called only with a manager that is initialised. The flag is cleared when tear-down does not raise; a raising tear-down propagates and leaves the flag set. Otherwise nothing changes. |
| SearchServices.SearchService.Search | tiny_deep_research/data_search/search_services.py:68-128 | Initialisation happens first and outside the guard, and a raising set-up propagates. The response is Firecrawl's data or the formatted manager results. `{"data": []}` is returned when saving meets an untitled item, and the files written before that point are kept. |
| SearchServices.FormatResults | tiny_deep_research/data_search/search_services.py:90-105 | One item per search result, in order, carrying its URL, its title, and the scraped text or `""`. |
| SearchServices.Format | tiny_deep_research/data_search/search_services.py:90-105 | The formatting loop returns exactly those items. |
| SearchServices.ItemContent | tiny_deep_research/data_search/search_services.py:90-105 | An item's content is the text of the last successful scrape among the hits with its URL when there is one, and `""` when none of them succeeded. |
| SearchServices.SharedUrlSharesContent | tiny_deep_research/data_search/search_services.py:97-100 | Two hits with one URL whose first scrape succeeds and second raises both carry the first scrape's text. |
| SearchServices.SavedFiles | tiny_deep_research/data_search/search_services.py:106-123 | One file path per item, in order. |
| SearchServices.SaveContent | tiny_deep_research/data_search/search_services.py:106-123 | Saving succeeds exactly when every item has a title and then writes every file. Otherwise it stops at the first untitled item, having written the files of the items before it. |
| SearchServices.KeepFilenameChars | tiny_deep_research/data_search/search_services.py:114-115 | A character is kept exactly when it is alphanumeric or one of `" ._-"`, and every kept character is allowed. An input made only of allowed characters is kept whole. |
| SearchServices.KeepFilenameCharsAppend | tiny_deep_research/data_search/search_services.py:114-115 | The filter keeps order: filtering a concatenation is the concatenation of the filtered parts. |
| SearchServices.ReplaceSpaces | tiny_deep_research/data_search/search_services.py:116 | Each space becomes `_`, and every other character is kept in place. |
| SearchServices.SafeFilename | tiny_deep_research/data_search/search_services.py:113-117 | The safe name is at most 50 characters, and each is alphanumeric or one of `._-`. |
| SearchServices.SafeTitleIsKept | tiny_deep_research/data_search/search_services.py:113-117 | A title of at most 50 characters, each alphanumeric or one of `._-`, is its own safe name. |
| SearchServices.SafeFilenameHasNoSlash | tiny_deep_research/data_search/search_services.py:113-117 | A safe name never contains `/`. |
| SearchServices.SavedFilesStayInDirectory | tiny_deep_research/data_search/search_services.py:118-121 | Every saved path is `scraped_content/` followed by a name without `/`. |
| BingSearch.Truncate | tiny_deep_research/data_search/websearch/bing_search.py:124-125 | A description is cut to a prefix of at most 300 characters, and left unchanged when it already fits. |
| BingSearch.ShapeItem | tiny_deep_research/data_search/websearch/bing_search.py:113-139 | An item whose heading link has no `href` is skipped, because reading it raises. Any other item gets the given position, the stripped `href` as URL (`""` without a heading), the stripped heading text as title (`""` without one) and the stripped paragraph, cut to 300 characters, as description. |
| BingSearch.ShapeItems | tiny_deep_research/data_search/websearch/bing_search.py:109-139 | At most one result per page item. |
| BingSearch.ShapeItemsNumbered | tiny_deep_research/data_search/websearch/bing_search.py:127-135 | A page's results are numbered `rank_start+1, rank_start+2, …`, with every description at most 300 characters. |
| BingSearch.ShapeLoop | tiny_deep_research/data_search/websearch/bing_search.py:109-139 | The item loop, with its rank counter, returns exactly the shaped items. |
| BingSearch.PageResults | tiny_deep_research/data_search/websearch/bing_search.py:91-151 | A fetch or parse failure, a page without the results list, or a "next" link without `href` gives `([], None)`. Otherwise the results are the page's shaped items; there is no next URL without a "next" link, and with one it is the Bing host followed by its `href`. |
| BingSearch.NextUrlOnHost | tiny_deep_research/data_search/websearch/bing_search.py:141-146 | The next-page URL is the Bing host followed by the link's `href`. |
| BingSearch.ParseHtml | tiny_deep_research/data_search/websearch/bing_search.py:91-151 | `_parse_html` returns exactly the page's shaped results and next URL. |
| BingSearch.SearchKeepsFirstPage | tiny_deep_research/data_search/websearch/bing_search.py:69-89 | For a non-empty query, the first `num_results` shaped results of the first page start the search's results. |
| BingSearch.CrawlNumbered | tiny_deep_research/data_search/websearch/bing_search.py:77-87 | Accumulated positions stay equal to index+1, descriptions stay within 300 characters, and earlier results are kept as a prefix. |
| BingSearch.SearchResultsShape | tiny_deep_research/data_search/websearch/bing_search.py:69-89 | An empty query gives `[]`; the result never exceeds `num_results` entries and is numbered 1, 2, … |
| BingSearch.Paginate | tiny_deep_research/data_search/websearch/bing_search.py:77-87 | The `while` loop returns exactly the crawl within the page budget. |
| BingSearch.SearchSync | tiny_deep_research/data_search/websearch/bing_search.py:69-89 | `_search_sync` returns exactly the specified results, without fetching for an empty query. |
| DeepResearch.GenerateSerpQueries | tiny_deep_research/deep_research.py:27-71 | The first `num_queries` planned queries: a prefix of them whose length is the slice length `len(queries[:num_queries])`. `[]` when the answer is not JSON; any other error propagates. |
| DeepResearch.SerpContentsFromItems | tiny_deep_research/deep_research.py:83-87 | Every content passed to the extractor is the trimmed content of an item whose content is non-empty. |
| DeepResearch.ContentsArePieces | tiny_deep_research/deep_research.py:83-87 | Every such content is a substring of a non-empty item content. |
| DeepResearch.ProcessSerpResult | tiny_deep_research/deep_research.py:73-122 | The first `num_learnings` learnings and `num_follow_up_questions` follow-ups: prefixes of the extracted lists with exactly the slice lengths. Both are empty when the answer is not JSON; any other error propagates. |
| DeepResearch.NewUrlsSpec | tiny_deep_research/deep_research.py:225-229 | The new URLs are exactly the non-empty URLs of the search data. |
| DeepResearch.NextBreadth | tiny_deep_research/deep_research.py:232 | The next breadth is at least 1, and strictly smaller than any breadth of 2 or more. |
| DeepResearch.BreadthAtLevel | tiny_deep_research/deep_research.py:232-266 | For a breadth of at least 1, the breadth at level k is `max(1, breadth >> k)`. |
| DeepResearch.ProcessAllIsMap | tiny_deep_research/deep_research.py:282-284 | The fan-out is an order-preserving map of `process_query` over the planned queries, so each branch is independent of its siblings. |
| DeepResearch.FailingBranchIsEmpty | tiny_deep_research/deep_research.py:274-279 | A branch whose search or extraction raises contributes empty learnings and URLs. |
| DeepResearch.TerminalBranch | tiny_deep_research/deep_research.py:225-272 | At the last level, a branch returns the prior learnings followed by at most 3 new ones, and the prior URLs followed by the new non-empty URLs. |
| DeepResearch.RecursiveBranch | tiny_deep_research/deep_research.py:232-266 | Above the last level, a branch recurses with the next query, breadth `max(1, breadth // 2)`, depth one less, and the concatenated priors. |
| DeepResearch.TerminalKeepsPriors | tiny_deep_research/deep_research.py:244-295 | When a terminal branch succeeds, every prior learning and URL is in the level result. |
| DeepResearch.Aggregate | tiny_deep_research/deep_research.py:287-295 | The aggregated learnings and URLs have no duplicates. |
| DeepResearch.LevelIsUnion | tiny_deep_research/deep_research.py:287-295 | The level result holds exactly the learnings and URLs of some branch. |
| DeepResearch.ZeroQueriesDropPriors | tiny_deep_research/deep_research.py:282-295 | With no planned queries, the result is empty even when there are prior learnings and URLs. |
| DeepResearch.LearningsString | tiny_deep_research/deep_research.py:134-137 | The learnings string is a trimmed substring of the tagged learnings joined by newlines. |
| DeepResearch.WriteFinalReport | tiny_deep_research/deep_research.py:125-169 | The report is the model's markdown followed by the sources section. It is `"Error generating report"` when the answer is not JSON; any other error propagates. |
| DeepResearch.SourcesRoundTrip | tiny_deep_research/deep_research.py:158-165 | For one or more URLs without newlines, splitting the sources section after its header gives back one `- url` line per URL, in order. |
| LegacySplitter.NewConfig | tinydeepresearch/loader/text_process/recursive_text.py:35-43 | The sizes are stored. A missing or empty separator list becomes exactly the four defaults, and a non-empty one is kept. |
| LegacySplitter.NonEmpty | tinydeepresearch/loader/text_process/recursive_text.py:47-48 | Dropping empty pieces keeps only non-empty members of the input. |
| LegacySplitter.NonEmptyKeepsText | tinydeepresearch/loader/text_process/recursive_text.py:47-48 | Dropping empty pieces loses no characters. |
| LegacySplitter.SplitText | tinydeepresearch/loader/text_process/recursive_text.py:45-49 | The empty separator gives `[text]`; any other gives non-empty pieces free of the separator. |
| LegacySplitter.SplitTextKeepsText | tinydeepresearch/loader/text_process/recursive_text.py:45-49 | The pieces hold all the text's characters outside the separators. Without empty pieces, joining them rebuilds the text. |
| LegacySplitter.SpansOrdered | tinydeepresearch/loader/text_process/recursive_text.py:51-73 | There are no more spans than pieces, and every span ends at or after its start. |
| LegacySplitter.MergeSpansNonNegative | tinydeepresearch/loader/text_process/recursive_text.py:51-73 | With the step back clamped at 0, every span starts inside the text. |
| LegacySplitter.NegativeStartAsWritten | tinydeepresearch/loader/text_process/recursive_text.py:60-65 | As written, chunk size 10, overlap 5 and pieces "ab" and ten `x` give the spans (0, 2) and (-3, 7). |
| LegacySplitter.OnePieceStartsAtZero | tinydeepresearch/loader/text_process/recursive_text.py:51-73 | On at most one piece, `_merge_splits` as written gives at most one span, and it starts at 0. |
| LegacySplitter.MergeLoop | tinydeepresearch/loader/text_process/recursive_text.py:52-68 | The `for` loop ends in exactly the state the step function folds to. |
| LegacySplitter.MergeSplits | tinydeepresearch/loader/text_process/recursive_text.py:51-73 | `_merge_splits` returns exactly the specified spans, including a last span for a non-empty final buffer. |
| LegacySplitter.ContextWindow | tinydeepresearch/loader/text_process/recursive_text.py:160-164 | The window is never longer than the text. |
| LegacySplitter.WindowHoldsSpan | tinydeepresearch/loader/text_process/recursive_text.py:160-164 | For a span inside the text, the window spans from `max(0, start-w)` to `min(len, end+w)` and holds the span's text at the matching offset. |
| LegacySplitter.FullTextFrames | tinydeepresearch/loader/text_process/recursive_text.py:27-29 | `full_text` is the window, a newline, the content, a newline and the window again. |
| LegacySplitter.ChunkAtSpec | tinydeepresearch/loader/text_process/recursive_text.py:213-224 | For a span inside the text: the content is `text[start:end]`; the window is the clamped context window; `context_window_size` is its length; and the content lies inside the window. |
| LegacySplitter.DefaultWindowBound | tinydeepresearch/loader/text_process/recursive_text.py:205-221 | With the default `window_size` of 300, a chunk's window holds at least its content and at most 600 more characters, and `context_window_size` is the window's length. |
| LegacySplitter.ProcessSingle | tinydeepresearch/loader/text_process/recursive_text.py:201-226 | One chunk per span, in order, each built from its span. |

## Left out

- I/O and external collaborators become parameters:
  - the LLM calls (planner, extractor, reporter) and `json.loads` are `Env` fields. Their parsed result is a value, a JSON error, or another exception;
  - the tiktoken tokenizer, and the environment-driven default context size;
  - the search engine, the scraper, the Firecrawl client, and Bing's page fetch and HTML parsing. The scraper takes the URL and the index of the scrape task in its batch, so repeated scrapes of one URL can differ;
  - `str.isalnum`.
- Prompt wording is left out. The prompts enter the model only as the arguments of the abstract collaborators.
- Concurrency, the semaphores and `asyncio.gather`: the fan-outs are sequential, order-preserving maps.
- Logging and `print` calls are left out, including the oversize warning in `merge_splits`. The warning's condition is stated by `TextSplitter.MergedChunksFit`.
- `BingSearch.Crawl`: the `while` loop may never end when pages keep returning a next link with no results. The model bounds it with a page budget (`maxPages`). The `first` counter is kept, but it is not passed on, because `_parse_html` never reads it.
- The async Bing `search` wrapper: it runs `_search_sync` on an executor, and its catch-all turns an error into `[]`. The model covers `_search_sync` only.
- The file writes and `os.makedirs` in `search_services.py:106-123` are left out. The model returns the paths it would write.
- SearchServices: Firecrawl's response reshaping is left out. Firecrawl's data is taken as already-shaped items.
- `SearchResult`: the `metadata` field is left out. `ScrapedContent`: the `metadata` field is left out. `TextChunk`: the `vector` field and the untyped metadata dictionary are left out. Only the two metadata keys `process_single` sets are kept.
- `list(set(...))` in `deep_research`'s aggregation: Python's set order is unspecified. The model fixes first-occurrence order, so only the members and the absence of duplicates are stated about Python's result.
- SearchServices.SaveContent: an item dict with no `"title"` key gets `"untitled"` (`search_services.py:113`). Every item the manager path builds has that key, and Firecrawl data is taken as items with an optional title, so a missing title is modelled as `None`, which stops the save.
- ScrapeManager.Scrapes: `scrape` may return `None` (`base_scraper.py:32`). Python would store that `None`, and formatting would then raise on `.text` (`search_services.py:100`). The model treats a `None` return like a raised scrape.
- `split_with_positions` in `recursive_text.py:75-98` is left out. Its loop returns only when at most one piece remains, and may never return otherwise. `ProcessSingle` therefore takes the spans as a parameter; `LegacySplitter.OnePieceStartsAtZero` states what `_merge_splits` gives on the one piece it can receive.
- The semantic splitter's `split_document` and `_align_chunks`, the processor's `_init_splitter` and `parallel_process` are left out. They rely on embeddings, floating-point similarity and a thread pool.
- TextSplitter.MergedIsWindows: the merge specification is parameterised by the join function, and `Merged` instantiates it with `_join_docs` for the separator.
- TextSplitter.SplitText: `split_text` is one Python method. It is modelled by two mutually recursive methods: the separator choice and split, then the loop over the pieces.
- TextSplitter.Split: the model covers only splitters with a chunk size of at least 2 and `""` among the separators. Without these, the source recursion need not terminate, as `TextSplitter.UnitChunkSizeRecurses` shows.
- DeepResearch.SerpContentsFromItems: states where each content comes from, but not that there is exactly one content per non-empty item.
- DeepResearch.BreadthAtLevel: `breadth >> k` is written as repeated floor halving, `Shr`.
- DeepResearch: `deep_research` within one call constructs its own `SearchServices`. The model treats its `search` as the abstract `Env.search`, which is None when the call raises.

## Findings

| source | as written | input that shows it | evidently intended | confidence | as-written member | corrected member |
|---|---|---|---|---|---|---|
| tiny_deep_research/text_splitter/base_text_splitter.py:16-17 | Only `chunk_overlap >= chunk_size` is rejected; a negative overlap is accepted, and the eviction `while total > chunk_overlap` loop then calls `pop(0)` on an empty buffer (lines 77-81). | `chunk_size=2, chunk_overlap=-1`, pieces `["a", "a"]`, as from `split_text("aa")`: the second `"a"` starts the eviction loop, which pops the first one and then pops the empty buffer | reject a negative overlap as well, so eviction never pops from an empty buffer | not executed | TextSplitter.NegativeOverlapPopsEmptyBuffer | TextSplitter.EvictNeverFails |
| tinydeepresearch/loader/text_process/recursive_text.py:64 | `start_idx = end_idx - chunk_overlap` can go below 0, and `process_single` then slices `text[start:end]` with a negative start, which counts from the end of the text. | chunk size 10, overlap 5, pieces `"ab"` and ten `x` with separator `" "` | clamp the step back at the start of the text. The negative start is latent in the program: `split_with_positions` (`recursive_text.py:75-98`), the only producer of spans, returns only when at most one piece remains, so `_merge_splits` gets at most one piece, whose span starts at 0 (`LegacySplitter.OnePieceStartsAtZero`), and `process_single` never receives a negative start | not executed | LegacySplitter.NegativeStartAsWritten | LegacySplitter.MergeSpansNonNegative |

Two promises in the docstrings do not hold for the code:

- `trim_prompt`'s hard truncation to 140 characters is returned without a token check (`Trim.HardTruncationCanOverflow`).
- Chunks of `merge_splits` can exceed `chunk_size` by the separators they contain (`TextSplitter.SeparatorsCanOverflow`).

Both are modelled as written.
