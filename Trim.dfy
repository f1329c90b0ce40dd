/** `trim_prompt`: shrink a prompt until its token count fits the context
    size, first by taking the first chunk of a recursive split with a
    character budget estimated at three characters per overflowing token,
    and by hard truncation to `MIN_CHUNK_SIZE` characters when that budget
    is too small.

    The tokenizer is a parameter `tokens`: any function from strings to
    token counts. */
module Trim {
  import opened Py
  import opened TextSplitter

  const MinChunkSize: int := 140

  /** The splitter `trim_prompt` builds: chunk size `chunkSize`, no overlap,
      default separators. Its construction never fails, and it is one the
      recursive split terminates on. */
  function TrimSplitter(chunkSize: int): (sp: Splitter)
    requires chunkSize >= MinChunkSize
    ensures NewSplitter(chunkSize, 0, None).Ok? && NewSplitterAsWritten(chunkSize, 0, None).Ok?
    ensures sp == NewSplitter(chunkSize, 0, None).value
    ensures SplitTerminates(sp)
    ensures sp.chunkSize == chunkSize && sp.chunkOverlap == 0 && sp.separators == DefaultSeparators
  {
    assert DefaultSeparators[10] == "";
    NewSplitter(chunkSize, 0, None).value
  }

  /** `chunks[0] if chunks else ""`. */
  function FirstChunk(chunks: seq<string>): string {
    if chunks != [] then chunks[0] else ""
  }

  /** The candidate `trim_prompt` recurses on is a substring of the prompt. */
  lemma FirstChunkIsSubstring(sp: Splitter, prompt: string)
    requires SplitTerminates(sp)
    ensures IsSubstring(FirstChunk(Split(sp, prompt)), prompt)
    ensures |FirstChunk(Split(sp, prompt))| <= |prompt|
  {
    var chunks := Split(sp, prompt);
    if chunks != [] {
      SplitChunksAreSubstrings(sp, prompt);
      assert chunks[0] in chunks;
      SubstringLength(chunks[0], prompt);
    } else {
      assert prompt[0..0] == "";
    }
  }

  /** The character budget: the prompt's length less three characters per
      overflowing token. */
  function Budget(tokens: string -> nat, prompt: string, contextSize: int): int {
    |prompt| - (tokens(prompt) - contextSize) * 3
  }

  /** What `trim_prompt` recurses on once the budget is at least
      `MIN_CHUNK_SIZE`: the first chunk of the split, or `prompt[:chunk_size]`
      when that chunk is as long as the prompt. It is a strictly shorter
      piece of the prompt: the budget is below the prompt's length because at
      least one token overflows, and the first chunk is a substring of the
      prompt. */
  function NextPrompt(tokens: string -> nat, prompt: string, contextSize: int): (q: string)
    requires tokens(prompt) > contextSize && Budget(tokens, prompt, contextSize) >= MinChunkSize
    ensures |q| < |prompt| && IsSubstring(q, prompt)
  {
    var chunkSize := Budget(tokens, prompt, contextSize);
    var sp := TrimSplitter(chunkSize);
    var trimmed := FirstChunk(Split(sp, prompt));
    FirstChunkIsSubstring(sp, prompt);
    if |trimmed| == |prompt| then
      assert prompt[0..chunkSize] == prompt[..chunkSize];
      prompt[..chunkSize]
    else trimmed
  }

  /** `trim_prompt(prompt, context_size)`. */
  function TrimPrompt(tokens: string -> nat, prompt: string, contextSize: int): (r: string)
    ensures |r| <= |prompt|
    ensures prompt == "" ==> r == ""
    ensures prompt != "" && tokens(prompt) <= contextSize ==> r == prompt
    decreases |prompt|
  {
    if prompt == "" then prompt
    else if tokens(prompt) <= contextSize then prompt
    else if Budget(tokens, prompt, contextSize) < MinChunkSize then Take(prompt, MinChunkSize)
    else TrimPrompt(tokens, NextPrompt(tokens, prompt, contextSize), contextSize)
  }

  /** The trimmed prompt is a contiguous piece of the original. */
  lemma {:induction false} TrimIsSubstring(tokens: string -> nat, prompt: string, contextSize: int)
    ensures IsSubstring(TrimPrompt(tokens, prompt, contextSize), prompt)
    decreases |prompt|
  {
    var r := TrimPrompt(tokens, prompt, contextSize);
    if prompt == "" || tokens(prompt) <= contextSize || Budget(tokens, prompt, contextSize) < MinChunkSize {
      assert prompt[0..|r|] == r;
    } else {
      var q := NextPrompt(tokens, prompt, contextSize);
      TrimIsSubstring(tokens, q, contextSize);
      SubstringTransitive(r, q, prompt);
    }
  }

  /** The recursion ends in one of three ways: the empty string, a string
      that fits the context size, or a hard truncation to at most
      `MIN_CHUNK_SIZE` characters whose token count is never checked. */
  lemma {:induction false} TrimOutcome(tokens: string -> nat, prompt: string, contextSize: int)
    ensures var r := TrimPrompt(tokens, prompt, contextSize);
      r == "" || tokens(r) <= contextSize || |r| <= MinChunkSize
    decreases |prompt|
  {
    if prompt != "" && tokens(prompt) > contextSize && Budget(tokens, prompt, contextSize) >= MinChunkSize {
      TrimOutcome(tokens, NextPrompt(tokens, prompt, contextSize), contextSize);
    }
  }

  /** Trimming a trimmed prompt changes nothing. */
  lemma TrimIdempotent(tokens: string -> nat, prompt: string, contextSize: int)
    ensures var r := TrimPrompt(tokens, prompt, contextSize);
      TrimPrompt(tokens, r, contextSize) == r
  {
    TrimOutcome(tokens, prompt, contextSize);
  }

  /** One token per character. */
  function CharTokens(s: string): nat {
    |s|
  }

  /** The hard truncation does not always fit: with one token per character
      and a context size of 10, a 200-character prompt is cut to its first
      140 characters, 140 tokens. */
  lemma HardTruncationCanOverflow()
    ensures var r := TrimPrompt(CharTokens, seq(200, _ => 'a'), 10);
      |r| == MinChunkSize && CharTokens(r) > 10
  {
    var p := seq(200, _ => 'a');
    assert CharTokens(p) == 200;
    assert TrimPrompt(CharTokens, p, 10) == Take(p, MinChunkSize);
  }
}
