/** The span-based splitter of the older loader: split a text on one
    separator, merge the pieces into `(start, end)` spans with an overlap
    step back, cut each span out of the text with a context window around
    it, and render a chunk with its window. */
module LegacySplitter {
  import opened Py

  /** The default separators of `RecursiveTextSplitter`. */
  const DefaultSeparators: seq<string> := ["\n\n", "\n", " ", ""]
  /** The default `window_size` of `_get_context_window` and
      `process_single`. */
  const DefaultWindowSize: int := 300

  datatype Config = Config(chunkSize: int, chunkOverlap: int, separators: seq<string>)

  /** `RecursiveTextSplitter(chunk_size, chunk_overlap, separators)`: no
      separators, or an empty list, means the defaults. */
  function NewConfig(chunkSize: int, chunkOverlap: int, separators: Option<seq<string>>): (c: Config)
    ensures c.chunkSize == chunkSize && c.chunkOverlap == chunkOverlap
    ensures c.separators != []
    ensures separators.Some? && separators.value != [] ==> c.separators == separators.value
    ensures separators.None? || separators.value == [] ==> c.separators == DefaultSeparators
  {
    Config(chunkSize, chunkOverlap, if separators.Some? && separators.value != [] then separators.value else DefaultSeparators)
  }

  // ---------------------------------------------------------------------------
  // _split_text
  // ---------------------------------------------------------------------------

  /** The pieces that are not empty, in order. */
  function NonEmpty(pieces: seq<string>): (r: seq<string>)
    ensures |r| <= |pieces|
    ensures forall k :: 0 <= k < |r| ==> r[k] != ""
    ensures forall x :: x in r ==> x in pieces
  {
    if pieces == [] then []
    else
      var rest := NonEmpty(pieces[1..]);
      if pieces[0] != "" then [pieces[0]] + rest else rest
  }

  /** Dropping empty pieces keeps their concatenation. */
  lemma {:induction false} NonEmptyKeepsText(pieces: seq<string>)
    ensures Flatten(NonEmpty(pieces)) == Flatten(pieces)
    decreases |pieces|
  {
    if pieces != [] {
      NonEmptyKeepsText(pieces[1..]);
      var rest := NonEmpty(pieces[1..]);
      if pieces[0] != "" {
        assert ([pieces[0]] + rest)[1..] == rest;
      }
    }
  }

  /** `_split_text(text, separator)`: the non-empty pieces of
      `text.split(separator)`, or `[text]` for the empty separator. */
  function SplitText(text: string, separator: string): (r: seq<string>)
    ensures separator == "" ==> r == [text]
    ensures separator != "" ==> forall k :: 0 <= k < |r| ==> r[k] != "" && !Contains(r[k], separator)
  {
    if separator != "" then
      var pieces := SplitOn(text, separator);
      var r := NonEmpty(pieces);
      assert forall k :: 0 <= k < |r| ==> r[k] in pieces;
      r
    else [text]
  }

  /** The pieces hold the whole text but its separators: joined back with
      the separator they give the text when none was empty, and their
      concatenation always equals that of the full split. */
  lemma SplitTextKeepsText(text: string, separator: string)
    requires separator != ""
    ensures Flatten(SplitText(text, separator)) == Flatten(SplitOn(text, separator))
    ensures (forall k :: 0 <= k < |SplitOn(text, separator)| ==> SplitOn(text, separator)[k] != "") ==>
      Join(separator, SplitText(text, separator)) == text
  {
    NonEmptyKeepsText(SplitOn(text, separator));
    if forall k :: 0 <= k < |SplitOn(text, separator)| ==> SplitOn(text, separator)[k] != "" {
      NonEmptyAll(SplitOn(text, separator));
    }
  }

  lemma {:induction false} NonEmptyAll(pieces: seq<string>)
    requires forall k :: 0 <= k < |pieces| ==> pieces[k] != ""
    ensures NonEmpty(pieces) == pieces
    decreases |pieces|
  {
    if pieces != [] {
      assert pieces[0] != "";
      NonEmptyAll(pieces[1..]);
    }
  }

  // ---------------------------------------------------------------------------
  // _merge_splits
  // ---------------------------------------------------------------------------

  type Span = (int, int)

  /** The loop state of `_merge_splits`. */
  datatype MergeState = MergeState(merged: seq<Span>, buffer: string, start: int)

  /** The start of the next span after a span closes at `end`: `end -
      chunk_overlap` as written, clamped at 0 when `clamp` holds. */
  function NextStart(end: int, overlap: int, clamp: bool): int {
    if clamp then Max(0, end - overlap) else end - overlap
  }

  /** One iteration on piece `s`:
      - a piece that fits is appended to the buffer with the separator;
      - otherwise a non-empty buffer closes a span at its length less the
        trailing separator characters, the start steps back by the overlap,
        and the buffer restarts with the piece;
      - otherwise the piece gets a span of its own and the start moves past
        it, the buffer staying empty. */
  function MergeStep(st: MergeState, s: string, separator: string, cfg: Config, clamp: bool): MergeState {
    if |st.buffer| + |s| < cfg.chunkSize then st.(buffer := st.buffer + s + separator)
    else if st.buffer != "" then
      var end := st.start + |RStripChars(st.buffer, separator)|;
      MergeState(st.merged + [(st.start, end)], s + separator, NextStart(end, cfg.chunkOverlap, clamp))
    else MergeState(st.merged + [(st.start, st.start + |s|)], "", st.start + |s|)
  }

  /** The state after the loop over `splits`. */
  function MergeFold(splits: seq<string>, separator: string, cfg: Config, clamp: bool): MergeState {
    if splits == [] then MergeState([], "", 0)
    else MergeStep(MergeFold(splits[..|splits| - 1], separator, cfg, clamp), splits[|splits| - 1], separator, cfg, clamp)
  }

  /** The spans: those of the loop and, for a non-empty final buffer, one
      last span. */
  function Spans(splits: seq<string>, separator: string, cfg: Config, clamp: bool): seq<Span> {
    var st := MergeFold(splits, separator, cfg, clamp);
    if st.buffer != "" then st.merged + [(st.start, st.start + |RStripChars(st.buffer, separator)|)] else st.merged
  }

  /** `_merge_splits(splits, separator)` as written. */
  function MergeSpansAsWritten(splits: seq<string>, separator: string, cfg: Config): seq<Span> {
    Spans(splits, separator, cfg, false)
  }

  /** `_merge_splits` with the step back clamped at the start of the text. */
  function MergeSpans(splits: seq<string>, separator: string, cfg: Config): seq<Span> {
    Spans(splits, separator, cfg, true)
  }

  /** The loop keeps its spans well ordered, and with the clamp its start is
      never negative; it emits at most one span per piece, counting the
      buffer as one pending span. */
  predicate GoodState(st: MergeState, n: int, clamp: bool) {
    (forall k :: 0 <= k < |st.merged| ==> st.merged[k].0 <= st.merged[k].1) &&
    (clamp ==> st.start >= 0 && forall k :: 0 <= k < |st.merged| ==> st.merged[k].0 >= 0) &&
    |st.merged| + (if st.buffer != "" then 1 else 0) <= n
  }

  lemma StepGood(st: MergeState, s: string, separator: string, cfg: Config, clamp: bool, n: int)
    requires GoodState(st, n, clamp)
    ensures GoodState(MergeStep(st, s, separator, cfg, clamp), n + 1, clamp)
  {
    var next := MergeStep(st, s, separator, cfg, clamp);
    if |st.buffer| + |s| >= cfg.chunkSize {
      assert next.merged[..|st.merged|] == st.merged;
      forall k | 0 <= k < |st.merged|
        ensures next.merged[k] == st.merged[k]
      {
      }
    }
  }

  lemma {:induction false} FoldGood(splits: seq<string>, separator: string, cfg: Config, clamp: bool)
    ensures GoodState(MergeFold(splits, separator, cfg, clamp), |splits|, clamp)
    decreases |splits|
  {
    if splits != [] {
      FoldGood(splits[..|splits| - 1], separator, cfg, clamp);
      StepGood(MergeFold(splits[..|splits| - 1], separator, cfg, clamp), splits[|splits| - 1], separator, cfg, clamp, |splits| - 1);
    }
  }

  /** Every span ends at or after its start, and there are never more spans
      than pieces, whether or not the start is clamped. */
  lemma SpansOrdered(splits: seq<string>, separator: string, cfg: Config, clamp: bool)
    ensures var spans := Spans(splits, separator, cfg, clamp);
      |spans| <= |splits| && forall k :: 0 <= k < |spans| ==> spans[k].0 <= spans[k].1
  {
    FoldGood(splits, separator, cfg, clamp);
  }

  /** With the clamp, every span starts inside the text: `0 <= start <=
      end`. */
  lemma MergeSpansNonNegative(splits: seq<string>, separator: string, cfg: Config)
    ensures var spans := MergeSpans(splits, separator, cfg);
      forall k :: 0 <= k < |spans| ==> 0 <= spans[k].0 <= spans[k].1
  {
    FoldGood(splits, separator, cfg, true);
  }

  /** With at most one piece, which is all `split_with_positions` can hand
      over when its loop ends, every span starts at 0 even without the
      clamp. */
  lemma OnePieceStartsAtZero(splits: seq<string>, separator: string, cfg: Config)
    requires |splits| <= 1
    ensures var spans := MergeSpansAsWritten(splits, separator, cfg);
      |spans| <= 1 && forall k :: 0 <= k < |spans| ==> spans[k].0 == 0
  {
    if splits != [] {
      assert splits[..0] == [];
      assert MergeFold(splits[..0], separator, cfg, false) == MergeState([], "", 0);
    }
  }

  /** As written, an overlap longer than the first span steps the start
      before the text: chunk size 10, overlap 5, pieces "ab" and ten `x`
      give the spans (0, 2) and (-3, 7). */
  lemma NegativeStartAsWritten()
    ensures MergeSpansAsWritten(["ab", "xxxxxxxxxx"], " ", Config(10, 5, DefaultSeparators)) == [(0, 2), (-3, 7)]
  {
    var cfg := Config(10, 5, DefaultSeparators);
    var splits := ["ab", "xxxxxxxxxx"];
    assert splits[..1] == ["ab"];
    assert [splits[0]][..0] == [];
    var s0 := MergeFold(splits[..0], " ", cfg, false);
    assert s0 == MergeState([], "", 0);
    FoldSnoc(splits, " ", cfg, false, 0);
    var s1 := MergeFold(splits[..1], " ", cfg, false);
    assert "" + "ab" + " " == "ab ";
    assert s1 == MergeState([], "ab ", 0);
    FoldSnoc(splits, " ", cfg, false, 1);
    assert splits[..2] == splits;
    assert RStripChars("ab ", " ") == "ab";
    var s2 := MergeFold(splits, " ", cfg, false);
    assert s2 == MergeState([(0, 2)], "xxxxxxxxxx ", -3);
    assert RStripChars("xxxxxxxxxx ", " ") == "xxxxxxxxxx";
  }

  /** One more piece is one more step. */
  lemma FoldSnoc(splits: seq<string>, separator: string, cfg: Config, clamp: bool, i: int)
    requires 0 <= i < |splits|
    ensures MergeFold(splits[..i + 1], separator, cfg, clamp) ==
      MergeStep(MergeFold(splits[..i], separator, cfg, clamp), splits[i], separator, cfg, clamp)
  {
    assert splits[..i + 1][..i] == splits[..i];
  }

  /** `_merge_splits(splits, separator)` as written. */
  method MergeSplits(cfg: Config, splits: seq<string>, separator: string) returns (merged: seq<Span>)
    ensures merged == MergeSpansAsWritten(splits, separator, cfg)
  {
    var buffer, startIdx;
    merged, buffer, startIdx := MergeLoop(cfg, splits, separator);
    if buffer != "" {
      merged := merged + [(startIdx, startIdx + |RStripChars(buffer, separator)|)];
    }
  }

  /** The `for` loop of `_merge_splits`. */
  method MergeLoop(cfg: Config, splits: seq<string>, separator: string) returns (merged: seq<Span>, buffer: string, startIdx: int)
    ensures MergeState(merged, buffer, startIdx) == MergeFold(splits, separator, cfg, false)
  {
    merged := [];
    buffer := "";
    startIdx := 0;
    for i := 0 to |splits|
      invariant MergeState(merged, buffer, startIdx) == MergeFold(splits[..i], separator, cfg, false)
    {
      FoldSnoc(splits, separator, cfg, false, i);
      var s := splits[i];
      if |buffer| + |s| < cfg.chunkSize {
        buffer := buffer + s + separator;
      } else {
        if buffer != "" {
          var endIdx := startIdx + |RStripChars(buffer, separator)|;
          merged := merged + [(startIdx, endIdx)];
          startIdx := endIdx - cfg.chunkOverlap;
          buffer := s + separator;
        } else {
          merged := merged + [(startIdx, startIdx + |s|)];
          startIdx := startIdx + |s|;
        }
      }
    }
    assert splits[..|splits|] == splits;
  }

  // ---------------------------------------------------------------------------
  // Chunks and context windows
  // ---------------------------------------------------------------------------

  /** `_get_context_window(text, position, window_size)`: the text from
      `window_size` before the span to `window_size` after it, clamped to the
      text, with Python's slicing. */
  function ContextWindow(text: string, position: Span, windowSize: int): (w: string)
    ensures |w| <= |text|
  {
    Slice(text, Max(0, position.0 - windowSize), Min(|text|, position.1 + windowSize))
  }

  /** A window around a span inside the text holds the span's text, at
      offset `start - ctx_start`, and is `ctx_end - ctx_start` long. */
  lemma WindowHoldsSpan(text: string, position: Span, windowSize: int)
    requires 0 <= position.0 <= position.1 <= |text| && windowSize >= 0
    ensures var w := ContextWindow(text, position, windowSize);
      var ctxStart := Max(0, position.0 - windowSize);
      var ctxEnd := Min(|text|, position.1 + windowSize);
      |w| == ctxEnd - ctxStart &&
      w[position.0 - ctxStart..position.1 - ctxStart] == text[position.0..position.1]
  {
    var ctxStart := Max(0, position.0 - windowSize);
    var ctxEnd := Min(|text|, position.1 + windowSize);
    assert 0 <= ctxStart <= position.0 <= position.1 <= ctxEnd <= |text|;
    var w := ContextWindow(text, position, windowSize);
    assert w == text[ctxStart..ctxEnd];
    SliceOfSlice(text, ctxStart, ctxEnd, position.0 - ctxStart, position.1 - ctxStart);
  }

  datatype ChunkMetadata = ChunkMetadata(originalPosition: Span, contextWindowSize: int)

  datatype TextChunk = TextChunk(content: string, source: string, windowContext: string, metadata: ChunkMetadata)

  /** `full_text()`: the window, the content and the window again, on three
      lines. */
  function FullText(chunk: TextChunk): string {
    chunk.windowContext + "\n" + chunk.content + "\n" + chunk.windowContext
  }

  /** The content sits in the middle of the full text, framed by the window
      and a newline on each side. */
  lemma FullTextFrames(chunk: TextChunk)
    ensures var f := FullText(chunk);
      var w := |chunk.windowContext|;
      |f| == 2 * w + |chunk.content| + 2 &&
      f[..w] == chunk.windowContext && f[w] == '\n' &&
      f[w + 1..w + 1 + |chunk.content|] == chunk.content &&
      f[w + 1 + |chunk.content|] == '\n' && f[w + 2 + |chunk.content|..] == chunk.windowContext
  {
  }

  /** The chunk `process_single` makes for one span. */
  function ChunkAt(text: string, source: string, windowSize: int, position: Span): TextChunk {
    var ctxStart := Max(0, position.0 - windowSize);
    var ctxEnd := Min(|text|, position.1 + windowSize);
    TextChunk(Slice(text, position.0, position.1), source, Slice(text, ctxStart, ctxEnd),
              ChunkMetadata(position, ctxEnd - ctxStart))
  }

  /** The chunk's window is `_get_context_window` of its span; for a span
      inside the text its content is the span's text, found inside the
      window, and the recorded window size is the window's length. */
  lemma ChunkAtSpec(text: string, source: string, windowSize: int, position: Span)
    ensures ChunkAt(text, source, windowSize, position).windowContext == ContextWindow(text, position, windowSize)
    ensures 0 <= position.0 <= position.1 <= |text| && windowSize >= 0 ==>
      var c := ChunkAt(text, source, windowSize, position);
      c.content == text[position.0..position.1] &&
      c.metadata.contextWindowSize == |c.windowContext| &&
      IsSubstring(c.content, c.windowContext)
  {
    if 0 <= position.0 <= position.1 <= |text| && windowSize >= 0 {
      WindowHoldsSpan(text, position, windowSize);
      var c := ChunkAt(text, source, windowSize, position);
      var off := position.0 - Max(0, position.0 - windowSize);
      assert c.windowContext[off..off + |c.content|] == c.content;
    }
  }

  /** With the default window size, a chunk's window reaches at most 300
      characters past either end of its content, and its recorded size is
      its length. */
  lemma DefaultWindowBound(text: string, source: string, position: Span)
    requires 0 <= position.0 <= position.1 <= |text|
    ensures var c := ChunkAt(text, source, DefaultWindowSize, position);
      |c.content| <= |c.windowContext| <= |c.content| + 2 * DefaultWindowSize &&
      c.metadata.contextWindowSize == |c.windowContext|
  {
    WindowHoldsSpan(text, position, DefaultWindowSize);
  }

  /** `process_single(text, source, window_size)` on the spans the splitter
      produced: one chunk per span, in order. */
  method ProcessSingle(text: string, source: string, windowSize: int, positions: seq<Span>) returns (chunks: seq<TextChunk>)
    ensures |chunks| == |positions|
    ensures forall k :: 0 <= k < |positions| ==> chunks[k] == ChunkAt(text, source, windowSize, positions[k])
  {
    chunks := [];
    for i := 0 to |positions|
      invariant |chunks| == i
      invariant forall k :: 0 <= k < i ==> chunks[k] == ChunkAt(text, source, windowSize, positions[k])
    {
      var (start, end) := positions[i];
      var ctxStart := Max(0, start - windowSize);
      var ctxEnd := Min(|text|, end + windowSize);
      var chunk := TextChunk(Slice(text, start, end), source, Slice(text, ctxStart, ctxEnd),
                             ChunkMetadata((start, end), ctxEnd - ctxStart));
      assert chunk == ChunkAt(text, source, windowSize, positions[i]);
      chunks := chunks + [chunk];
    }
  }
}
