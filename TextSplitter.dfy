/** The recursive character text splitter: `BaseTextSplitter` (construction
    check, `_join_docs`, `merge_splits`, `create_documents`,
    `split_documents`) and `RecursiveCharacterTextSplitter` (default
    separators, `split_text`).

    `merge_splits` and `split_text` are methods proved against the functions
    `Merged` and `Split`; the properties are proved about those functions. */
module TextSplitter {
  import opened Py

  const DefaultChunkSize: int := 1000
  const DefaultChunkOverlap: int := 200

  /** Separators tried in order; the CJK full stop, semicolon and comma are
      U+3002, U+FF1B and U+FF0C. */
  const DefaultSeparators: seq<string> :=
    ["\n\n", "\n", ".", "\U{3002}", "\U{FF1B}", "\U{FF0C}", ",", ">", "<", " ", ""]

  /** A constructed splitter. Its fields are set once and never updated. */
  datatype Splitter = Splitter(chunkSize: int, chunkOverlap: int, separators: seq<string>)

  /** What a successfully constructed splitter satisfies. */
  predicate Valid(sp: Splitter) {
    0 <= sp.chunkOverlap < sp.chunkSize && |sp.separators| > 0
  }

  /** What `split_text` needs to terminate: a chunk size of at least two and
      the empty separator among the separators. */
  predicate SplitTerminates(sp: Splitter) {
    Valid(sp) && sp.chunkSize >= 2 && "" in sp.separators
  }

  /** The default arguments `chunk_size=1000, chunk_overlap=200` with no
      separators pass the construction check, as written and corrected, and
      give a splitter whose recursive split terminates. */
  lemma DefaultSplitter()
    ensures NewSplitterAsWritten(DefaultChunkSize, DefaultChunkOverlap, None) == NewSplitter(DefaultChunkSize, DefaultChunkOverlap, None)
    ensures NewSplitter(DefaultChunkSize, DefaultChunkOverlap, None).Ok?
    ensures SplitTerminates(NewSplitter(DefaultChunkSize, DefaultChunkOverlap, None).value)
  {
    assert DefaultSeparators[|DefaultSeparators| - 1] == "";
  }

  /** `separators or [...]`: an absent or empty list falls back to the default. */
  function SeparatorsOrDefault(separators: Option<seq<string>>): (r: seq<string>)
    ensures |r| > 0
    ensures separators.Some? && separators.value != [] ==> r == separators.value
    ensures separators.None? || separators.value == [] ==> r == DefaultSeparators
  {
    if separators.Some? && separators.value != [] then separators.value else DefaultSeparators
  }

  /** The construction check as the code has it: only `chunk_overlap >=
      chunk_size` is refused, so a negative overlap is accepted. */
  function NewSplitterAsWritten(chunkSize: int, chunkOverlap: int, separators: Option<seq<string>>)
    : (r: Result<Splitter, string>)
    ensures r.Ok? <==> chunkOverlap < chunkSize
    ensures r.Ok? ==> r.value.chunkSize == chunkSize && r.value.chunkOverlap == chunkOverlap
    ensures r.Ok? ==> r.value.separators == SeparatorsOrDefault(separators)
  {
    if chunkOverlap >= chunkSize then Err("Cannot have chunk_overlap >= chunk_size")
    else Ok(Splitter(chunkSize, chunkOverlap, SeparatorsOrDefault(separators)))
  }

  /** The construction check with negative overlaps refused as well; this is
      the splitter the rest of the model uses. */
  function NewSplitter(chunkSize: int, chunkOverlap: int, separators: Option<seq<string>>)
    : (r: Result<Splitter, string>)
    ensures r.Ok? <==> 0 <= chunkOverlap < chunkSize
    ensures r.Ok? ==> Valid(r.value)
    ensures r.Ok? ==> r.value.chunkSize == chunkSize && r.value.chunkOverlap == chunkOverlap
    ensures r.Ok? ==> r.value.separators == SeparatorsOrDefault(separators)
  {
    if chunkOverlap >= chunkSize then Err("Cannot have chunk_overlap >= chunk_size")
    else if chunkOverlap < 0 then Err("Cannot have chunk_overlap < 0")
    else Ok(Splitter(chunkSize, chunkOverlap, SeparatorsOrDefault(separators)))
  }

  // ---------------------------------------------------------------------------
  // _join_docs
  // ---------------------------------------------------------------------------

  /** `separator.join(docs).strip()`, or None when that is empty. */
  function JoinDocs(docs: seq<string>, separator: string): Option<string> {
    var text := Strip(Join(separator, docs));
    if text != "" then Some(text) else None
  }

  /** A joined document is absent exactly when the joined text is all
      whitespace; otherwise it is the joined text with exactly the whitespace
      at its two ends removed: non-empty, only whitespace around it, and no
      whitespace at either of its own ends. */
  lemma JoinDocsSpec(docs: seq<string>, separator: string)
    ensures JoinDocs(docs, separator).None? <==> AllSpace(Join(separator, docs))
    ensures JoinDocs(docs, separator).Some? ==>
      var c := JoinDocs(docs, separator).value;
      c != "" && IsSubstring(c, Join(separator, docs)) && !IsSpace(c[0]) && !IsSpace(c[|c| - 1])
    ensures JoinDocs(docs, separator).Some? ==> SpaceAround(JoinDocs(docs, separator).value, Join(separator, docs))
  {
    StripSpec(Join(separator, docs));
  }

  // ---------------------------------------------------------------------------
  // merge_splits: the specification
  // ---------------------------------------------------------------------------

  /** Sum of the lengths of the pieces (the code's running `total`). */
  function SumLen(pieces: seq<string>): nat {
    if pieces == [] then 0 else |pieces[0]| + SumLen(pieces[1..])
  }

  lemma {:induction false} SumLenSnoc(pieces: seq<string>, x: string)
    ensures SumLen(pieces + [x]) == SumLen(pieces) + |x|
    decreases |pieces|
  {
    if pieces != [] {
      assert (pieces + [x])[1..] == pieces[1..] + [x];
      SumLenSnoc(pieces[1..], x);
    }
  }

  /** A joined string is as long as its pieces plus one separator between each
      neighbouring pair. */
  lemma {:induction false} JoinLength(sep: string, pieces: seq<string>)
    requires |pieces| >= 1
    ensures |Join(sep, pieces)| == SumLen(pieces) + |sep| * (|pieces| - 1)
    decreases |pieces|
  {
    if |pieces| > 1 {
      JoinLength(sep, pieces[1..]);
    }
  }

  /** The guard of the eviction loop. */
  predicate MustEvict(total: int, len: int, size: int, overlap: int) {
    total > overlap || (total + len > size && total > 0)
  }

  /** The eviction loop still runs once the first `j` pieces are popped. */
  predicate EvictsAt(pieces: seq<string>, j: nat, len: int, size: int, overlap: int)
    requires j <= |pieces|
  {
    MustEvict(SumLen(pieces[j..]), len, size, overlap)
  }

  /** How many pieces the eviction loop pops from the front of `pieces`
      before a piece of length `len` is appended: the first count at which
      the loop guard fails, or the whole buffer (the code would then index
      an empty buffer; `EvictNeverFails` shows it does not get there). */
  function Evict(pieces: seq<string>, len: int, size: int, overlap: int): (k: nat)
    ensures k <= |pieces|
    decreases |pieces|
  {
    if pieces == [] || !MustEvict(SumLen(pieces), len, size, overlap) then 0
    else 1 + Evict(pieces[1..], len, size, overlap)
  }

  /** `Evict` is where the loop guard first fails. */
  lemma {:induction false} EvictStops(pieces: seq<string>, len: nat, size: int, overlap: int)
    requires overlap >= 0
    ensures !EvictsAt(pieces, Evict(pieces, len, size, overlap), len, size, overlap)
    ensures forall j: nat :: j < Evict(pieces, len, size, overlap) ==> EvictsAt(pieces, j, len, size, overlap)
    decreases |pieces|
  {
    assert pieces[0..] == pieces;
    if MustEvict(SumLen(pieces), len, size, overlap) {
      EvictStops(pieces[1..], len, size, overlap);
      forall j: nat | 1 <= j <= |pieces|
        ensures EvictsAt(pieces, j, len, size, overlap) == EvictsAt(pieces[1..], j - 1, len, size, overlap)
      {
        assert pieces[j..] == pieces[1..][j - 1..];
      }
    }
  }

  /** After eviction the buffer holds at most `overlap` characters, and either
      is empty of characters or leaves room for the next piece. */
  lemma EvictLeaves(pieces: seq<string>, len: nat, size: int, overlap: int)
    requires overlap >= 0
    ensures var rest := pieces[Evict(pieces, len, size, overlap)..];
      SumLen(rest) <= overlap && (SumLen(rest) + len <= size || SumLen(rest) == 0)
  {
    EvictStops(pieces, len, size, overlap);
  }

  /** The eviction loop as the code has it, for any overlap: None is the
      `IndexError` of `current_doc[0]` on an empty buffer. */
  function EvictAsWritten(pieces: seq<string>, len: nat, size: int, overlap: int): (r: Option<nat>)
    ensures r.Some? ==> r.value <= |pieces|
    decreases |pieces|
  {
    if !MustEvict(SumLen(pieces), len, size, overlap) then Some(0)
    else if pieces == [] then None
    else
      var r := EvictAsWritten(pieces[1..], len, size, overlap);
      if r.Some? then Some(1 + r.value) else None
  }

  /** With a non-negative overlap the loop never pops from an empty buffer and
      stops where `Evict` says. */
  lemma {:induction false} EvictNeverFails(pieces: seq<string>, len: nat, size: int, overlap: int)
    requires overlap >= 0
    ensures EvictAsWritten(pieces, len, size, overlap) == Some(Evict(pieces, len, size, overlap))
    decreases |pieces|
  {
    if MustEvict(SumLen(pieces), len, size, overlap) {
      EvictNeverFails(pieces[1..], len, size, overlap);
    }
  }

  /** A negative overlap passes the construction check and then makes the
      eviction loop index an empty buffer: size 2, overlap -1, pieces "a", "a". */
  lemma NegativeOverlapPopsEmptyBuffer()
    ensures NewSplitterAsWritten(2, -1, None).Ok?
    ensures EvictAsWritten(["a"], 1, 2, -1).None?
    ensures NewSplitter(2, -1, None).Err?
  {
    assert ["a"][1..] == [];
  }

  /** Where the buffer `splits[lo..i]` starts once the eviction loop has run
      before a piece of length `len`: `Evict` counted along `splits`. */
  function EvictTo(splits: seq<string>, lo: nat, i: nat, len: int, size: int, overlap: int): (j: nat)
    requires lo <= i <= |splits|
    ensures lo <= j <= i
    decreases i - lo
  {
    if lo == i || !MustEvict(SumLen(splits[lo..i]), len, size, overlap) then lo
    else EvictTo(splits, lo + 1, i, len, size, overlap)
  }

  lemma {:induction false} EvictToIsEvict(splits: seq<string>, lo: nat, i: nat, len: int, size: int, overlap: int)
    requires lo <= i <= |splits|
    ensures EvictTo(splits, lo, i, len, size, overlap) == lo + Evict(splits[lo..i], len, size, overlap)
    decreases i - lo
  {
    if lo < i && MustEvict(SumLen(splits[lo..i]), len, size, overlap) {
      EvictToIsEvict(splits, lo + 1, i, len, size, overlap);
      SliceDrop(splits, lo, i, 1);
    }
  }

  /** `EvictLeaves` along `splits`. */
  lemma EvictToLeaves(splits: seq<string>, lo: nat, i: nat, len: nat, size: int, overlap: int)
    requires lo <= i <= |splits| && overlap >= 0
    ensures var j := EvictTo(splits, lo, i, len, size, overlap);
      SumLen(splits[j..i]) <= overlap && (SumLen(splits[j..i]) + len <= size || SumLen(splits[j..i]) == 0)
  {
    var j := EvictTo(splits, lo, i, len, size, overlap);
    EvictToIsEvict(splits, lo, i, len, size, overlap);
    EvictLeaves(splits[lo..i], len, size, overlap);
    SliceDrop(splits, lo, i, j - lo);
  }

  predicate WindowsIn(ws: seq<(nat, nat)>, n: nat) {
    forall k :: 0 <= k < |ws| ==> ws[k].0 <= ws[k].1 <= n
  }

  predicate AllShorter(splits: seq<string>, size: int) {
    forall k :: 0 <= k < |splits| ==> |splits[k]| < size
  }

  /** `merge_splits` closes the buffer `splits[lo..i]` before piece `i`:
      it is non-empty and its total with piece `i` reaches the chunk size. */
  predicate ClosesAt(splits: seq<string>, size: int, lo: nat, i: nat)
    requires lo <= i < |splits|
  {
    lo < i && SumLen(splits[lo..i]) + |splits[i]| >= size
  }

  /** The buffers `merge_splits` joins, as index windows into `splits`, from
      the state where `splits[lo..i]` is buffered and `splits[i..]` is still
      to come. A buffer is closed before piece `i` when it is non-empty and
      its total with piece `i` reaches the chunk size; the final buffer is
      always joined. */
  function WindowsFrom(splits: seq<string>, size: int, overlap: int, i: nat, lo: nat): (ws: seq<(nat, nat)>)
    requires lo <= i <= |splits|
    ensures |ws| >= 1 && WindowsIn(ws, |splits|) && ws[0].0 == lo
    decreases |splits| - i
  {
    if i == |splits| then [(lo, |splits|)]
    else if ClosesAt(splits, size, lo, i) then
      [(lo, i)] + WindowsFrom(splits, size, overlap, i + 1, EvictTo(splits, lo, i, |splits[i]|, size, overlap))
    else
      WindowsFrom(splits, size, overlap, i + 1, lo)
  }

  /** One step of `WindowsFrom` when the buffer is closed before piece `i`. */
  lemma WindowsFromCloses(splits: seq<string>, size: int, overlap: int, i: nat, lo: nat)
    requires lo <= i < |splits| && ClosesAt(splits, size, lo, i)
    ensures WindowsFrom(splits, size, overlap, i, lo)
      == [(lo, i)] + WindowsFrom(splits, size, overlap, i + 1, EvictTo(splits, lo, i, |splits[i]|, size, overlap))
  {
  }

  /** One step of `WindowsFrom` when piece `i` joins the buffer. */
  lemma WindowsFromGrows(splits: seq<string>, size: int, overlap: int, i: nat, lo: nat)
    requires lo <= i < |splits|
    requires !(ClosesAt(splits, size, lo, i))
    ensures WindowsFrom(splits, size, overlap, i, lo) == WindowsFrom(splits, size, overlap, i + 1, lo)
  {
  }

  /** Each next buffer starts with a suffix of the previous one (eviction only
      pops from the front), that carried suffix is at most `overlap` long,
      and every buffer ends further on than the previous one. */
  predicate Chained(splits: seq<string>, overlap: int, ws: seq<(nat, nat)>) {
    WindowsIn(ws, |splits|) &&
    forall k: nat :: k < |ws| - 1 ==> LinkedAt(splits, overlap, ws, k)
  }

  predicate LinkedAt(splits: seq<string>, overlap: int, ws: seq<(nat, nat)>, k: nat)
    requires WindowsIn(ws, |splits|) && k < |ws| - 1
  {
    ws[k].0 <= ws[k + 1].0 <= ws[k].1 < ws[k + 1].1 && SumLen(splits[ws[k + 1].0..ws[k].1]) <= overlap
  }

  /** Every window ends at or after index `i`. */
  predicate EndsFrom(ws: seq<(nat, nat)>, i: int) {
    forall k :: 0 <= k < |ws| ==> i <= ws[k].1
  }

  /** The last window ends at index `n`. */
  predicate LastEndsAt(ws: seq<(nat, nat)>, n: int) {
    |ws| > 0 && ws[|ws| - 1].1 == n
  }

  /** The pieces of every window add up to at most `size`. */
  predicate AllFit(splits: seq<string>, size: int, ws: seq<(nat, nat)>)
    requires WindowsIn(ws, |splits|)
  {
    forall k :: 0 <= k < |ws| ==> SumLen(splits[ws[k].0..ws[k].1]) <= size
  }

  lemma EndsFromCons(w: (nat, nat), ws: seq<(nat, nat)>, i: int)
    requires i <= w.1 && EndsFrom(ws, i)
    ensures EndsFrom([w] + ws, i)
  {
    forall k | 0 < k < |[w] + ws|
      ensures i <= ([w] + ws)[k].1
    {
      assert ([w] + ws)[k] == ws[k - 1];
    }
  }

  lemma LastEndsAtCons(w: (nat, nat), ws: seq<(nat, nat)>, n: int)
    requires LastEndsAt(ws, n)
    ensures LastEndsAt([w] + ws, n)
  {
    assert ([w] + ws)[|ws|] == ws[|ws| - 1];
  }

  lemma ChainedCons(splits: seq<string>, overlap: int, w: (nat, nat), ws: seq<(nat, nat)>)
    requires w.0 <= w.1 <= |splits| && |ws| > 0 && Chained(splits, overlap, ws)
    requires w.0 <= ws[0].0 <= w.1 < ws[0].1 && SumLen(splits[ws[0].0..w.1]) <= overlap
    ensures Chained(splits, overlap, [w] + ws)
  {
    var vs := [w] + ws;
    assert vs[1..] == ws;
    forall k: nat | k < |vs| - 1
      ensures LinkedAt(splits, overlap, vs, k)
    {
      if k > 0 {
        assert LinkedAt(splits, overlap, ws, k - 1);
        assert vs[k] == ws[k - 1] && vs[k + 1] == ws[k];
      }
    }
  }

  lemma AllFitCons(splits: seq<string>, size: int, w: (nat, nat), ws: seq<(nat, nat)>)
    requires w.0 <= w.1 <= |splits| && WindowsIn(ws, |splits|) && AllFit(splits, size, ws)
    requires SumLen(splits[w.0..w.1]) <= size
    ensures WindowsIn([w] + ws, |splits|) && AllFit(splits, size, [w] + ws)
  {
    var vs := [w] + ws;
    forall k | 0 < k < |vs|
      ensures vs[k].0 <= vs[k].1 <= |splits| && SumLen(splits[vs[k].0..vs[k].1]) <= size
    {
      assert vs[k] == ws[k - 1];
    }
  }

  /** The buffers cover the pieces in order: every buffer ends at or after
      piece `i` and the last one ends at the last piece. */
  lemma {:induction false} WindowsCover(splits: seq<string>, size: int, overlap: int, i: nat, lo: nat)
    requires lo <= i <= |splits|
    ensures LastEndsAt(WindowsFrom(splits, size, overlap, i, lo), |splits|)
    ensures EndsFrom(WindowsFrom(splits, size, overlap, i, lo), i)
    decreases |splits| - i, 1
  {
    if i < |splits| {
      if ClosesAt(splits, size, lo, i) {
        WindowsCoverCloses(splits, size, overlap, i, lo);
      } else {
        WindowsFromGrows(splits, size, overlap, i, lo);
        WindowsCover(splits, size, overlap, i + 1, lo);
      }
    }
  }

  lemma {:induction false} WindowsCoverCloses(splits: seq<string>, size: int, overlap: int, i: nat, lo: nat)
    requires lo <= i < |splits| && ClosesAt(splits, size, lo, i)
    ensures LastEndsAt(WindowsFrom(splits, size, overlap, i, lo), |splits|)
    ensures EndsFrom(WindowsFrom(splits, size, overlap, i, lo), i)
    decreases |splits| - i, 0
  {
    var e := EvictTo(splits, lo, i, |splits[i]|, size, overlap);
    var rest := WindowsFrom(splits, size, overlap, i + 1, e);
    WindowsFromCloses(splits, size, overlap, i, lo);
    WindowsCover(splits, size, overlap, i + 1, e);
    EndsFromCons((lo, i), rest, i);
    LastEndsAtCons((lo, i), rest, |splits|);
  }

  /** Consecutive buffers are chained: eviction only pops from the front, so
      each next buffer starts inside the previous one, the carried suffix is
      at most `overlap` long, and each buffer ends further on. */
  lemma {:induction false} WindowsChain(splits: seq<string>, size: int, overlap: int, i: nat, lo: nat)
    requires lo <= i <= |splits| && overlap >= 0
    ensures Chained(splits, overlap, WindowsFrom(splits, size, overlap, i, lo))
    decreases |splits| - i, 1
  {
    if i < |splits| {
      if ClosesAt(splits, size, lo, i) {
        WindowsChainCloses(splits, size, overlap, i, lo);
      } else {
        WindowsFromGrows(splits, size, overlap, i, lo);
        WindowsChain(splits, size, overlap, i + 1, lo);
      }
    }
  }

  lemma {:induction false} WindowsChainCloses(splits: seq<string>, size: int, overlap: int, i: nat, lo: nat)
    requires lo <= i < |splits| && overlap >= 0 && ClosesAt(splits, size, lo, i)
    ensures Chained(splits, overlap, WindowsFrom(splits, size, overlap, i, lo))
    decreases |splits| - i, 0
  {
    var e := EvictTo(splits, lo, i, |splits[i]|, size, overlap);
    var rest := WindowsFrom(splits, size, overlap, i + 1, e);
    WindowsFromCloses(splits, size, overlap, i, lo);
    EvictToLeaves(splits, lo, i, |splits[i]|, size, overlap);
    WindowsChain(splits, size, overlap, i + 1, e);
    WindowsCover(splits, size, overlap, i + 1, e);
    ChainedCons(splits, overlap, (lo, i), rest);
  }

  /** When every piece is shorter than the chunk size, the pieces of every
      buffer add up to at most the chunk size (separators not counted), so
      the code's oversize message is never printed. */
  lemma {:induction false} WindowsFit(splits: seq<string>, size: int, overlap: int, i: nat, lo: nat)
    requires lo <= i <= |splits| && overlap >= 0
    requires AllShorter(splits, size) && SumLen(splits[lo..i]) <= size
    ensures AllFit(splits, size, WindowsFrom(splits, size, overlap, i, lo))
    decreases |splits| - i, 1
  {
    if i == |splits| {
      assert WindowsFrom(splits, size, overlap, i, lo) == [(lo, i)];
    } else if ClosesAt(splits, size, lo, i) {
      WindowsFitCloses(splits, size, overlap, i, lo);
    } else {
      WindowsFromGrows(splits, size, overlap, i, lo);
      GrowFits(splits, size, lo, i);
      WindowsFit(splits, size, overlap, i + 1, lo);
    }
  }

  lemma {:induction false} WindowsFitCloses(splits: seq<string>, size: int, overlap: int, i: nat, lo: nat)
    requires lo <= i < |splits| && overlap >= 0 && ClosesAt(splits, size, lo, i)
    requires AllShorter(splits, size) && SumLen(splits[lo..i]) <= size
    ensures AllFit(splits, size, WindowsFrom(splits, size, overlap, i, lo))
    decreases |splits| - i, 0
  {
    var e := EvictTo(splits, lo, i, |splits[i]|, size, overlap);
    WindowsFromCloses(splits, size, overlap, i, lo);
    CloseFits(splits, size, overlap, lo, i);
    WindowsFit(splits, size, overlap, i + 1, e);
    AllFitCons(splits, size, (lo, i), WindowsFrom(splits, size, overlap, i + 1, e));
  }

  /** After eviction the buffer with the next piece fits. */
  lemma CloseFits(splits: seq<string>, size: int, overlap: int, lo: nat, i: nat)
    requires lo <= i < |splits| && overlap >= 0 && AllShorter(splits, size)
    ensures SumLen(splits[EvictTo(splits, lo, i, |splits[i]|, size, overlap)..i + 1]) <= size
  {
    var e := EvictTo(splits, lo, i, |splits[i]|, size, overlap);
    EvictToLeaves(splits, lo, i, |splits[i]|, size, overlap);
    SliceSnoc(splits, e, i);
    SumLenSnoc(splits[e..i], splits[i]);
  }

  /** A buffer that is not closed still fits once the next piece joins it. */
  lemma GrowFits(splits: seq<string>, size: int, lo: nat, i: nat)
    requires lo <= i < |splits| && AllShorter(splits, size) && SumLen(splits[lo..i]) <= size
    requires !(ClosesAt(splits, size, lo, i))
    ensures SumLen(splits[lo..i + 1]) <= size
  {
    SliceSnoc(splits, lo, i);
    SumLenSnoc(splits[lo..i], splits[i]);
    if lo == i {
      assert splits[lo..i] == [];
    }
  }

  /** The chunk a buffer contributes: none when its join strips to "". */
  function OptChunk(doc: Option<string>): seq<string> {
    if doc.Some? then [doc.value] else []
  }

  /** The chunks of the given windows: each one's pieces joined by `join`,
      the absent ones dropped. `join` stands for `_join_docs` with the
      separator fixed (`JoinWith`); keeping it a parameter keeps the merge
      reasoning independent of how a join is stripped. */
  function ChunksOf(splits: seq<string>, join: seq<string> -> Option<string>, ws: seq<(nat, nat)>): seq<string>
    requires WindowsIn(ws, |splits|)
  {
    if ws == [] then []
    else OptChunk(join(splits[ws[0].0..ws[0].1])) + ChunksOf(splits, join, ws[1..])
  }

  lemma ChunksOfCons(splits: seq<string>, join: seq<string> -> Option<string>, w: (nat, nat), ws: seq<(nat, nat)>)
    requires w.0 <= w.1 <= |splits| && WindowsIn(ws, |splits|)
    ensures WindowsIn([w] + ws, |splits|)
    ensures ChunksOf(splits, join, [w] + ws)
      == OptChunk(join(splits[w.0..w.1])) + ChunksOf(splits, join, ws)
  {
    assert ([w] + ws)[1..] == ws;
  }

  /** Every chunk is the `_join_docs` of one of the windows, in window order. */
  lemma {:induction false} ChunksFromWindows(splits: seq<string>, join: seq<string> -> Option<string>, ws: seq<(nat, nat)>)
    requires WindowsIn(ws, |splits|)
    ensures forall c :: c in ChunksOf(splits, join, ws) ==>
      exists k :: 0 <= k < |ws| && join(splits[ws[k].0..ws[k].1]) == Some(c)
    decreases |ws|
  {
    if ws != [] {
      ChunksFromWindows(splits, join, ws[1..]);
      forall c | c in ChunksOf(splits, join, ws)
        ensures exists k :: 0 <= k < |ws| && join(splits[ws[k].0..ws[k].1]) == Some(c)
      {
        if c !in ChunksOf(splits, join, ws[1..]) {
          assert join(splits[ws[0].0..ws[0].1]) == Some(c);
        } else {
          var k :| 0 <= k < |ws[1..]| && join(splits[ws[1..][k].0..ws[1..][k].1]) == Some(c);
          assert ws[1..][k] == ws[k + 1];
        }
      }
    }
  }

  /** Once every piece is buffered, the last buffer is the only chunk left. */
  lemma WindowsFromEnds(splits: seq<string>, join: seq<string> -> Option<string>, size: int, overlap: int, lo: nat)
    requires lo <= |splits|
    ensures ChunksOf(splits, join, WindowsFrom(splits, size, overlap, |splits|, lo))
      == OptChunk(join(splits[lo..]))
  {
    assert WindowsFrom(splits, size, overlap, |splits|, lo) == [(lo, |splits|)] + [];
    ChunksOfCons(splits, join, (lo, |splits|), []);
    var c := OptChunk(join(splits[lo..]));
    assert ChunksOf(splits, join, []) == [];
    assert c + [] == c;
    assert splits[lo..|splits|] == splits[lo..];
  }

  /** What the loop of `merge_splits` still emits from the state where
      `current` is buffered and `splits[i..]` is still to come: the code's
      own step, with `Evict` for the eviction loop. */
  function MergeFrom(splits: seq<string>, join: seq<string> -> Option<string>, size: int, overlap: int, i: nat, current: seq<string>)
    : seq<string>
    decreases |splits| - i
  {
    if i >= |splits| then OptChunk(join(current))
    else
      var d := splits[i];
      if SumLen(current) + |d| >= size && current != [] then
        OptChunk(join(current)) +
        MergeFrom(splits, join, size, overlap, i + 1, current[Evict(current, |d|, size, overlap)..] + [d])
      else MergeFrom(splits, join, size, overlap, i + 1, current + [d])
  }

  /** From the state where `splits[lo..i]` is buffered, the loop emits the
      chunks of the windows. */
  predicate MergeAgrees(splits: seq<string>, join: seq<string> -> Option<string>, size: int, overlap: int, i: nat, lo: nat)
    requires lo <= i <= |splits|
  {
    MergeFrom(splits, join, size, overlap, i, splits[lo..i])
      == ChunksOf(splits, join, WindowsFrom(splits, size, overlap, i, lo))
  }

  /** The loop's buffer is always a run `splits[lo..i]` of consecutive
      pieces, so what it still emits is the chunks of the windows. */
  lemma {:induction false} MergeFromWindows(splits: seq<string>, join: seq<string> -> Option<string>, size: int, overlap: int,
                                            i: nat, lo: nat)
    requires lo <= i <= |splits|
    ensures MergeAgrees(splits, join, size, overlap, i, lo)
    decreases |splits| - i, 1
  {
    if i == |splits| {
      MergeFromEnds(splits, join, size, overlap, lo);
    } else if ClosesAt(splits, size, lo, i) {
      MergeFromCloses(splits, join, size, overlap, i, lo);
    } else {
      MergeFromGrows(splits, join, size, overlap, i, lo);
    }
  }

  lemma MergeFromEnds(splits: seq<string>, join: seq<string> -> Option<string>, size: int, overlap: int, lo: nat)
    requires lo <= |splits|
    ensures MergeAgrees(splits, join, size, overlap, |splits|, lo)
  {
    WindowsFromEnds(splits, join, size, overlap, lo);
    assert splits[lo..|splits|] == splits[lo..];
  }

  /** One closing step of `MergeFrom`: the buffer is joined, then evicted
      from the front and extended by the next piece. */
  lemma MergeFromStep(splits: seq<string>, join: seq<string> -> Option<string>, size: int, overlap: int, i: nat, current: seq<string>)
    requires i < |splits| && current != [] && SumLen(current) + |splits[i]| >= size
    ensures MergeFrom(splits, join, size, overlap, i, current)
      == OptChunk(join(current)) +
         MergeFrom(splits, join, size, overlap, i + 1,
                   current[Evict(current, |splits[i]|, size, overlap)..] + [splits[i]])
  {
  }

  /** Past the last piece `MergeFrom` joins what is buffered. */
  lemma MergeFromDone(splits: seq<string>, join: seq<string> -> Option<string>, size: int, overlap: int, i: nat, current: seq<string>)
    requires i >= |splits|
    ensures MergeFrom(splits, join, size, overlap, i, current) == OptChunk(join(current))
  {
  }

  /** One step of `MergeFrom` that only extends the buffer. */
  lemma MergeFromGrowStep(splits: seq<string>, join: seq<string> -> Option<string>, size: int, overlap: int, i: nat, current: seq<string>)
    requires i < |splits| && !(current != [] && SumLen(current) + |splits[i]| >= size)
    ensures MergeFrom(splits, join, size, overlap, i, current)
      == MergeFrom(splits, join, size, overlap, i + 1, current + [splits[i]])
  {
  }

  lemma {:induction false} MergeFromCloses(splits: seq<string>, join: seq<string> -> Option<string>, size: int, overlap: int,
                                           i: nat, lo: nat)
    requires lo <= i < |splits| && ClosesAt(splits, size, lo, i)
    ensures MergeAgrees(splits, join, size, overlap, i, lo)
    decreases |splits| - i, 0
  {
    var e := MergeFromCloseLink(splits, join, size, overlap, i, lo);
    MergeFromWindows(splits, join, size, overlap, i + 1, e);
  }

  /** A closing step carries the agreement of `MergeFrom` and the windows
      back to this state from the state after it, where the buffer starts
      at `e`. */
  lemma MergeFromCloseLink(splits: seq<string>, join: seq<string> -> Option<string>, size: int, overlap: int, i: nat, lo: nat)
    returns (e: nat)
    requires lo <= i < |splits| && ClosesAt(splits, size, lo, i)
    ensures e <= i + 1
    ensures MergeAgrees(splits, join, size, overlap, i + 1, e) ==> MergeAgrees(splits, join, size, overlap, i, lo)
  {
    e := EvictTo(splits, lo, i, |splits[i]|, size, overlap);
    MergeFromCloseStep(splits, join, size, overlap, i, lo, e);
    ChunksOfClose(splits, join, size, overlap, i, lo, e);
  }

  /** A closing step of `MergeFrom` on the run `splits[lo..i]`: its join,
      then the run from where eviction stops through piece `i`. */
  lemma MergeFromCloseStep(splits: seq<string>, join: seq<string> -> Option<string>, size: int, overlap: int, i: nat, lo: nat, e: nat)
    requires lo <= i < |splits| && ClosesAt(splits, size, lo, i)
    requires e == EvictTo(splits, lo, i, |splits[i]|, size, overlap)
    ensures MergeFrom(splits, join, size, overlap, i, splits[lo..i])
      == OptChunk(join(splits[lo..i])) + MergeFrom(splits, join, size, overlap, i + 1, splits[e..i + 1])
  {
    var cur := splits[lo..i];
    EvictToIsEvict(splits, lo, i, |splits[i]|, size, overlap);
    SliceDrop(splits, lo, i, e - lo);
    SliceSnoc(splits, e, i);
    assert cur[e - lo..] + [splits[i]] == splits[e..i + 1];
    assert cur != [];
    MergeFromStep(splits, join, size, overlap, i, cur);
  }

  /** The chunks of the windows from a closing position: the closed run's
      join, then the chunks of the windows after it. */
  lemma ChunksOfClose(splits: seq<string>, join: seq<string> -> Option<string>, size: int, overlap: int, i: nat, lo: nat, e: nat)
    requires lo <= i < |splits| && ClosesAt(splits, size, lo, i)
    requires e == EvictTo(splits, lo, i, |splits[i]|, size, overlap)
    ensures ChunksOf(splits, join, WindowsFrom(splits, size, overlap, i, lo))
      == OptChunk(join(splits[lo..i])) + ChunksOf(splits, join, WindowsFrom(splits, size, overlap, i + 1, e))
  {
    var rest := WindowsFrom(splits, size, overlap, i + 1, e);
    WindowsFromCloses(splits, size, overlap, i, lo);
    ChunksOfCons(splits, join, (lo, i), rest);
  }

  lemma {:induction false} MergeFromGrows(splits: seq<string>, join: seq<string> -> Option<string>, size: int, overlap: int,
                                          i: nat, lo: nat)
    requires lo <= i < |splits|
    requires !(ClosesAt(splits, size, lo, i))
    ensures MergeAgrees(splits, join, size, overlap, i, lo)
    decreases |splits| - i, 0
  {
    MergeFromWindows(splits, join, size, overlap, i + 1, lo);
    var cur := splits[lo..i];
    assert lo == i ==> cur == [];
    SliceSnoc(splits, lo, i);
    MergeFromGrowStep(splits, join, size, overlap, i, cur);
    WindowsFromGrows(splits, size, overlap, i, lo);
  }

  /** `_join_docs` with the separator fixed. */
  function JoinWith(separator: string): seq<string> -> Option<string> {
    docs => JoinDocs(docs, separator)
  }

  /** What `merge_splits(splits, separator)` returns. */
  function Merged(splits: seq<string>, separator: string, size: int, overlap: int): seq<string>
  {
    MergeFrom(splits, JoinWith(separator), size, overlap, 0, [])
  }

  /** The result is the chunks of the windows, in order. */
  lemma MergedIsWindows(splits: seq<string>, separator: string, size: int, overlap: int)
    ensures Merged(splits, separator, size, overlap)
      == ChunksOf(splits, JoinWith(separator), WindowsFrom(splits, size, overlap, 0, 0))
  {
    assert splits[0..0] == [];
    MergeFromWindows(splits, JoinWith(separator), size, overlap, 0, 0);
  }

  /** Every chunk is a non-empty stripped join of a non-empty run of
      consecutive pieces, with no surrounding whitespace, and so occurs in
      the join of all the pieces. */
  lemma MergedChunks(splits: seq<string>, separator: string, size: int, overlap: int)
    ensures forall c :: c in Merged(splits, separator, size, overlap) ==>
      c != "" && !IsSpace(c[0]) && !IsSpace(c[|c| - 1]) && IsSubstring(c, Join(separator, splits))
    ensures forall c :: c in Merged(splits, separator, size, overlap) ==>
      exists a, b :: 0 <= a < b <= |splits| && JoinDocs(splits[a..b], separator) == Some(c)
  {
    var ws := WindowsFrom(splits, size, overlap, 0, 0);
    MergedIsWindows(splits, separator, size, overlap);
    ChunksFromWindows(splits, JoinWith(separator), ws);
    forall c | c in Merged(splits, separator, size, overlap)
      ensures c != "" && !IsSpace(c[0]) && !IsSpace(c[|c| - 1]) && IsSubstring(c, Join(separator, splits))
      ensures exists a, b :: 0 <= a < b <= |splits| && JoinDocs(splits[a..b], separator) == Some(c)
    {
      var k :| 0 <= k < |ws| && JoinWith(separator)(splits[ws[k].0..ws[k].1]) == Some(c);
      WindowChunk(splits, separator, ws[k].0, ws[k].1, c);
    }
  }

  /** The chunk of a window is a stripped non-empty substring of the whole
      join, and the window holds at least one piece. */
  lemma WindowChunk(splits: seq<string>, separator: string, a: int, b: int, c: string)
    requires 0 <= a <= b <= |splits| && JoinDocs(splits[a..b], separator) == Some(c)
    ensures a < b && c != "" && !IsSpace(c[0]) && !IsSpace(c[|c| - 1])
    ensures IsSubstring(c, Join(separator, splits))
  {
    JoinDocsSpec(splits[a..b], separator);
    JoinWindowIsSubstring(separator, splits, a, b);
    SubstringTransitive(c, Join(separator, splits[a..b]), Join(separator, splits));
  }

  /** When every piece is shorter than the chunk size, every chunk comes from
      a run of pieces that add up to at most the chunk size (separators not
      counted). */
  lemma MergedChunksFit(splits: seq<string>, separator: string, size: int, overlap: int)
    requires overlap >= 0 && AllShorter(splits, size)
    ensures forall c :: c in Merged(splits, separator, size, overlap) ==>
      exists a, b :: FitsRun(splits, separator, size, c, a, b)
  {
    var ws := WindowsFrom(splits, size, overlap, 0, 0);
    MergedIsWindows(splits, separator, size, overlap);
    ChunksFromWindows(splits, JoinWith(separator), ws);
    if |splits| > 0 {
      assert |splits[0]| < size;
      assert splits[0..0] == [];
      WindowsFit(splits, size, overlap, 0, 0);
      forall c | c in Merged(splits, separator, size, overlap)
        ensures exists a, b :: FitsRun(splits, separator, size, c, a, b)
      {
        var k :| 0 <= k < |ws| && JoinWith(separator)(splits[ws[k].0..ws[k].1]) == Some(c);
        assert FitsRun(splits, separator, size, c, ws[k].0, ws[k].1);
      }
    } else {
      assert Merged(splits, separator, size, overlap) == [];
    }
  }

  /** `c` is the chunk of the run `splits[a..b]`, whose pieces add up to at
      most `size`. */
  predicate FitsRun(splits: seq<string>, separator: string, size: int, c: string, a: int, b: int) {
    0 <= a <= b <= |splits| && JoinDocs(splits[a..b], separator) == Some(c) && SumLen(splits[a..b]) <= size
  }

  /** Split into single characters (the empty separator), pieces shorter than
      the chunk size give chunks no longer than the chunk size. */
  lemma CharChunksFit(splits: seq<string>, size: int, overlap: int)
    requires overlap >= 0 && AllShorter(splits, size)
    ensures forall c :: c in Merged(splits, "", size, overlap) ==> |c| <= size
  {
    MergedChunksFit(splits, "", size, overlap);
    forall c | c in Merged(splits, "", size, overlap)
      ensures |c| <= size
    {
      var a, b :| FitsRun(splits, "", size, c, a, b);
      JoinDocsSpec(splits[a..b], "");
      JoinLength("", splits[a..b]);
      SubstringLength(c, Join("", splits[a..b]));
    }
  }

  /** With a non-empty separator a chunk can be longer than the chunk size:
      "a" and "b" joined by a blank line give a chunk of 4 for a size of 3. */
  lemma SeparatorsCanOverflow()
    ensures Merged(["a", "b"], "\n\n", 3, 0) == ["a\n\nb"]
    ensures |"a\n\nb"| > 3
  {
    var splits := ["a", "b"];
    assert splits[0..1] == ["a"];
    assert SumLen(splits[0..1]) == 1;
    assert WindowsFrom(splits, 3, 0, 1, 0) == [(0, 2)];
    assert splits[0..2] == splits;
    assert Join("\n\n", splits) == "a\n\nb";
    assert !IsSpace('a') && !IsSpace('b');
    assert LeadingSpaces("a\n\nb") == 0 && TrailingSpaces("a\n\nb") == 0;
    assert Strip("a\n\nb") == "a\n\nb";
    assert JoinDocs(splits, "\n\n") == Some("a\n\nb");
    assert WindowsFrom(splits, 3, 0, 0, 0) == [(0, 2)];
  }

  // ---------------------------------------------------------------------------
  // merge_splits: the method
  // ---------------------------------------------------------------------------

  /** The eviction loop of `merge_splits`: pop pieces from the front of the
      buffer while the buffer is longer than the overlap, or is non-empty and
      would overflow the chunk size together with the next piece. */
  method EvictFront(current: seq<string>, total: int, len: nat, size: int, overlap: int)
    returns (rest: seq<string>, remaining: int)
    requires overlap >= 0 && total == SumLen(current)
    ensures rest == current[Evict(current, len, size, overlap)..]
    ensures remaining == SumLen(rest)
  {
    ghost var e := Evict(current, len, size, overlap);
    EvictStops(current, len, size, overlap);
    rest, remaining := current, total;
    ghost var k := 0;
    while remaining > overlap || (remaining + len > size && remaining > 0)
      invariant 0 <= k <= e
      invariant rest == current[k..]
      invariant remaining == SumLen(rest)
      decreases |rest|
    {
      assert EvictsAt(current, k, len, size, overlap);
      remaining := remaining - |rest[0]|;
      rest := rest[1..];
      k := k + 1;
    }
    assert !EvictsAt(current, k, len, size, overlap);
  }

  /** `merge_splits`: a running buffer `current` with its length `total`,
      closed and trimmed from the front when the next piece would reach the
      chunk size. Chunks longer than the size are reported on the console by
      the code; that message is not modelled. */
  method MergeSplits(sp: Splitter, splits: seq<string>, separator: string) returns (docs: seq<string>)
    requires sp.chunkOverlap >= 0
    ensures docs == Merged(splits, separator, sp.chunkSize, sp.chunkOverlap)
  {
    var size, overlap := sp.chunkSize, sp.chunkOverlap;
    ghost var join := JoinWith(separator);
    docs := [];
    var current: seq<string> := [];
    var total := 0;
    for i := 0 to |splits|
      invariant total == SumLen(current)
      invariant docs + MergeFrom(splits, join, size, overlap, i, current)
        == Merged(splits, separator, size, overlap)
    {
      var d := splits[i];
      var len := |d|;
      if total + len >= size {
        if |current| > 0 {
          var doc := JoinDocs(current, separator);
          MergeFromStep(splits, join, size, overlap, i, current);
          AppendAssoc(docs, OptChunk(doc),
            MergeFrom(splits, join, size, overlap, i + 1, current[Evict(current, len, size, overlap)..] + [d]));
          if doc.Some? {
            docs := docs + [doc.value];
          } else {
            assert docs + [] == docs;
          }
          current, total := EvictFront(current, total, len, size, overlap);
        } else {
          MergeFromGrowStep(splits, join, size, overlap, i, current);
        }
      } else {
        MergeFromGrowStep(splits, join, size, overlap, i, current);
      }
      SumLenSnoc(current, d);
      current := current + [d];
      total := total + len;
    }
    var last := JoinDocs(current, separator);
    MergeFromDone(splits, join, size, overlap, |splits|, current);
    if last.Some? {
      docs := docs + [last.value];
    } else {
      assert docs + [] == docs;
    }
  }

  // ---------------------------------------------------------------------------
  // split_text: the specification
  // ---------------------------------------------------------------------------

  /** A separator qualifies when it is empty or occurs in the text. */
  predicate Qualifies(s: string, text: string) {
    s == "" || Contains(text, s)
  }

  /** Index of the first qualifying separator, or `|seps|` when none does. */
  function FirstQualifying(seps: seq<string>, text: string): (k: nat)
    ensures k <= |seps|
    ensures k < |seps| ==> Qualifies(seps[k], text)
    ensures forall j :: 0 <= j < k ==> !Qualifies(seps[j], text)
    decreases |seps|
  {
    if seps == [] then 0
    else if Qualifies(seps[0], text) then 0
    else
      var k := FirstQualifying(seps[1..], text);
      assert forall j :: 1 <= j < |seps| ==> seps[j] == seps[1..][j - 1];
      1 + k
  }

  /** The separator `split_text` uses: the first qualifying one, else the last. */
  function ChooseSeparator(seps: seq<string>, text: string): (r: string)
    requires |seps| > 0
    ensures r in seps
    ensures ("" in seps || exists j :: 0 <= j < |seps| && Qualifies(seps[j], text)) ==> Qualifies(r, text)
    ensures (forall j :: 0 <= j < |seps| ==> !Qualifies(seps[j], text)) ==> r == seps[|seps| - 1]
  {
    var k := FirstQualifying(seps, text);
    if k < |seps| then seps[k] else seps[|seps| - 1]
  }

  /** `text.split(separator) if separator else list(text)`. */
  function Pieces(text: string, separator: string): (r: seq<string>)
    ensures Join(separator, r) == text
    ensures separator == "" ==> forall k :: 0 <= k < |r| ==> |r[k]| == 1
    ensures separator != "" && Contains(text, separator) ==> forall k :: 0 <= k < |r| ==> |r[k]| < |text|
  {
    if separator == "" then
      JoinChars(text);
      Chars(text)
    else SplitOn(text, separator)
  }

  /** Every piece `split_text` would recurse into (one not shorter than the
      chunk size) is shorter than the text. */
  predicate Shrinks(sp: Splitter, text: string, pieces: seq<string>) {
    forall k :: 0 <= k < |pieces| ==> |pieces[k]| < sp.chunkSize || |pieces[k]| < |text|
  }

  lemma PiecesShrink(sp: Splitter, text: string)
    requires SplitTerminates(sp)
    ensures Shrinks(sp, text, Pieces(text, ChooseSeparator(sp.separators, text)))
  {
  }

  /** `merged = merge_splits(good_splits, separator)` when the buffer is
      non-empty. */
  function Flush(sp: Splitter, good: seq<string>, separator: string): seq<string>
    requires Valid(sp)
  {
    if good != [] then Merged(good, separator, sp.chunkSize, sp.chunkOverlap) else []
  }

  /** What `split_text(text)` returns. */
  function Split(sp: Splitter, text: string): seq<string>
    requires SplitTerminates(sp)
    decreases |text|, 1
  {
    var separator := ChooseSeparator(sp.separators, text);
    PiecesShrink(sp, text);
    Assemble(sp, text, separator, Pieces(text, separator), 0, 0)
  }

  /** The loop over the pieces from piece `i` on, with `pieces[g..i]` buffered
      in `good_splits`. */
  function Assemble(sp: Splitter, text: string, separator: string, pieces: seq<string>, i: nat, g: nat)
    : seq<string>
    requires SplitTerminates(sp)
    requires g <= i <= |pieces|
    requires Shrinks(sp, text, pieces)
    decreases |text|, 0, |pieces| - i
  {
    if i == |pieces| then Flush(sp, pieces[g..i], separator)
    else if |pieces[i]| < sp.chunkSize then Assemble(sp, text, separator, pieces, i + 1, g)
    else
      Flush(sp, pieces[g..i], separator) + Split(sp, pieces[i]) + Assemble(sp, text, separator, pieces, i + 1, i + 1)
  }

  /** The three steps of `Assemble`: a short piece joins the buffer; an
      oversized piece flushes it and is split on its own; the end flushes
      what is left. */
  lemma AssembleKeeps(sp: Splitter, text: string, separator: string, pieces: seq<string>, i: nat, g: nat)
    requires SplitTerminates(sp)
    requires g <= i < |pieces| && |pieces[i]| < sp.chunkSize
    requires Shrinks(sp, text, pieces)
    ensures Assemble(sp, text, separator, pieces, i, g) == Assemble(sp, text, separator, pieces, i + 1, g)
  {
  }

  lemma AssembleRecurses(sp: Splitter, text: string, separator: string, pieces: seq<string>, i: nat, g: nat)
    requires SplitTerminates(sp)
    requires g <= i < |pieces| && !(|pieces[i]| < sp.chunkSize)
    requires Shrinks(sp, text, pieces)
    ensures Assemble(sp, text, separator, pieces, i, g)
      == (Flush(sp, pieces[g..i], separator) + Split(sp, pieces[i])) + Assemble(sp, text, separator, pieces, i + 1, i + 1)
  {
  }

  lemma AssembleDone(sp: Splitter, text: string, separator: string, pieces: seq<string>, g: nat)
    requires SplitTerminates(sp)
    requires g <= |pieces|
    requires Shrinks(sp, text, pieces)
    ensures Assemble(sp, text, separator, pieces, |pieces|, g) == Flush(sp, pieces[g..|pieces|], separator)
  {
  }

  /** The empty string gives no chunks. */
  lemma SplitEmptyText(sp: Splitter)
    requires SplitTerminates(sp)
    ensures Split(sp, "") == []
  {
    assert ChooseSeparator(sp.separators, "") == "";
  }

  /** Every chunk `split_text` returns is non-empty and a contiguous
      substring of the text. */
  lemma {:induction false} SplitChunksAreSubstrings(sp: Splitter, text: string)
    requires SplitTerminates(sp)
    ensures AllSubstrings(Split(sp, text), text)
    decreases |text|, 1
  {
    var separator := ChooseSeparator(sp.separators, text);
    PiecesShrink(sp, text);
    AssembleChunksAreSubstrings(sp, text, separator, Pieces(text, separator), 0, 0);
  }

  lemma {:induction false} AssembleChunksAreSubstrings(sp: Splitter, text: string, separator: string,
                                                      pieces: seq<string>, i: nat, g: nat)
    requires SplitTerminates(sp)
    requires g <= i <= |pieces|
    requires Shrinks(sp, text, pieces)
    requires Join(separator, pieces) == text
    ensures AllSubstrings(Assemble(sp, text, separator, pieces, i, g), text)
    decreases |text|, 0, |pieces| - i
  {
    if i == |pieces| {
      AssembleDone(sp, text, separator, pieces, g);
      FlushChunksAreSubstrings(sp, separator, pieces, g, i);
    } else if |pieces[i]| < sp.chunkSize {
      AssembleKeeps(sp, text, separator, pieces, i, g);
      AssembleChunksAreSubstrings(sp, text, separator, pieces, i + 1, g);
    } else {
      AssembleRecurses(sp, text, separator, pieces, i, g);
      FlushChunksAreSubstrings(sp, separator, pieces, g, i);
      SplitChunksAreSubstrings(sp, pieces[i]);
      PieceIsSubstring(separator, pieces, i);
      AllSubstringsWiden(Split(sp, pieces[i]), pieces[i], text);
      AssembleChunksAreSubstrings(sp, text, separator, pieces, i + 1, i + 1);
      AllSubstringsAppend(Flush(sp, pieces[g..i], separator), Split(sp, pieces[i]), text);
      AllSubstringsAppend(Flush(sp, pieces[g..i], separator) + Split(sp, pieces[i]),
                          Assemble(sp, text, separator, pieces, i + 1, i + 1), text);
    }
  }

  lemma PieceIsSubstring(separator: string, pieces: seq<string>, i: nat)
    requires i < |pieces|
    ensures IsSubstring(pieces[i], Join(separator, pieces))
  {
    JoinWindowIsSubstring(separator, pieces, i, i + 1);
    assert pieces[i..i + 1] == [pieces[i]];
  }

  lemma FlushChunksAreSubstrings(sp: Splitter, separator: string, pieces: seq<string>, g: nat, i: nat)
    requires Valid(sp) && g <= i <= |pieces|
    ensures AllSubstrings(Flush(sp, pieces[g..i], separator), Join(separator, pieces))
  {
    if pieces[g..i] != [] {
      MergedChunks(pieces[g..i], separator, sp.chunkSize, sp.chunkOverlap);
      assert AllSubstrings(Flush(sp, pieces[g..i], separator), Join(separator, pieces[g..i]));
      JoinWindowIsSubstring(separator, pieces, g, i);
      AllSubstringsWiden(Flush(sp, pieces[g..i], separator), Join(separator, pieces[g..i]), Join(separator, pieces));
    }
  }

  /** With a chunk size of 1 the recursion makes no progress: a
      one-character text in which no non-empty separator occurs (such as "a"
      with the default separators) is split by the empty separator into
      itself, and that single piece is not shorter than the chunk size, so
      `split_text` is called again on the same text. The construction check
      accepts such a splitter. */
  lemma UnitChunkSizeRecurses(sp: Splitter, t: string)
    requires Valid(sp) && sp.chunkSize == 1 && "" in sp.separators && |t| == 1
    requires forall j :: 0 <= j < |sp.separators| && sp.separators[j] != "" ==> !Contains(t, sp.separators[j])
    ensures NewSplitter(1, 0, Some(sp.separators)).Ok?
    ensures ChooseSeparator(sp.separators, t) == ""
    ensures Pieces(t, ChooseSeparator(sp.separators, t)) == [t]
    ensures !(|t| < sp.chunkSize)
  {
    var r := ChooseSeparator(sp.separators, t);
    assert Pieces(t, "") == [[t[0]]];
  }

  // ---------------------------------------------------------------------------
  // split_text: the method
  // ---------------------------------------------------------------------------

  /** The separator loop of `split_text`: the first separator that is empty
      or occurs in the text, else the last one. */
  method SelectSeparator(seps: seq<string>, text: string) returns (separator: string)
    requires |seps| > 0
    ensures separator == ChooseSeparator(seps, text)
  {
    separator := seps[|seps| - 1];
    var n := 0;
    while n < |seps|
      invariant n <= |seps|
      invariant forall j :: 0 <= j < n ==> !Qualifies(seps[j], text)
      invariant separator == seps[|seps| - 1]
      decreases |seps| - n
    {
      var s := seps[n];
      if s == "" {
        separator := s;
        break;
      }
      if Contains(text, s) {
        separator := s;
        break;
      }
      n := n + 1;
    }
  }

  /** `if good_splits: final_chunks.extend(merge_splits(good_splits, separator))`. */
  method FlushGood(sp: Splitter, finalChunks: seq<string>, goodSplits: seq<string>, separator: string)
    returns (r: seq<string>)
    requires Valid(sp)
    ensures r == finalChunks + Flush(sp, goodSplits, separator)
  {
    if goodSplits != [] {
      var merged := MergeSplits(sp, goodSplits, separator);
      r := finalChunks + merged;
    } else {
      r := finalChunks;
      assert finalChunks + [] == finalChunks;
    }
  }

  /** `split_text`: choose the separator, split, then buffer and recurse. */
  method SplitText(sp: Splitter, text: string) returns (finalChunks: seq<string>)
    requires SplitTerminates(sp)
    ensures finalChunks == Split(sp, text)
    decreases |text|, 1
  {
    var separator := SelectSeparator(sp.separators, text);
    var splits := if separator != "" then SplitOn(text, separator) else Chars(text);
    assert splits == Pieces(text, separator);
    PiecesShrink(sp, text);
    finalChunks := SplitPieces(sp, text, separator, splits);
  }

  /** The loop of `split_text` over the pieces: a short piece joins
      `good_splits`; before an oversized piece the buffer is merged and the
      piece is split on its own; the end merges what is left. */
  method SplitPieces(sp: Splitter, text: string, separator: string, splits: seq<string>)
    returns (finalChunks: seq<string>)
    requires SplitTerminates(sp) && Shrinks(sp, text, splits)
    ensures finalChunks == Assemble(sp, text, separator, splits, 0, 0)
    decreases |text|, 0
  {
    finalChunks := [];
    var goodSplits: seq<string> := [];
    ghost var g := 0;
    for i := 0 to |splits|
      invariant g <= i
      invariant goodSplits == splits[g..i]
      invariant finalChunks + Assemble(sp, text, separator, splits, i, g)
        == Assemble(sp, text, separator, splits, 0, 0)
    {
      var s := splits[i];
      if |s| < sp.chunkSize {
        AssembleKeeps(sp, text, separator, splits, i, g);
        SliceSnoc(splits, g, i);
        goodSplits := goodSplits + [s];
      } else {
        AssembleRecurses(sp, text, separator, splits, i, g);
        Regroup(finalChunks, Flush(sp, goodSplits, separator), Split(sp, s),
          Assemble(sp, text, separator, splits, i + 1, i + 1));
        finalChunks := FlushGood(sp, finalChunks, goodSplits, separator);
        goodSplits := [];
        var otherInfo := SplitText(sp, s);
        finalChunks := finalChunks + otherInfo;
        g := i + 1;
      }
    }
    AssembleDone(sp, text, separator, splits, g);
    finalChunks := FlushGood(sp, finalChunks, goodSplits, separator);
  }

  // ---------------------------------------------------------------------------
  // create_documents and split_documents
  // ---------------------------------------------------------------------------

  /** The in-order concatenation of the chunks of every text. */
  function SplitAll(sp: Splitter, texts: seq<string>): seq<string>
    requires SplitTerminates(sp)
  {
    if texts == [] then [] else SplitAll(sp, texts[..|texts| - 1]) + Split(sp, texts[|texts| - 1])
  }

  lemma {:induction false} SplitAllAppend(sp: Splitter, a: seq<string>, b: seq<string>)
    requires SplitTerminates(sp)
    ensures SplitAll(sp, a + b) == SplitAll(sp, a) + SplitAll(sp, b)
    decreases |b|
  {
    if b == [] {
      assert a + b == a;
      assert SplitAll(sp, a) + [] == SplitAll(sp, a);
    } else {
      var front, last := b[..|b| - 1], b[|b| - 1];
      assert (a + b)[..|a + b| - 1] == a + front;
      assert (a + b)[|a + b| - 1] == last;
      SplitAllAppend(sp, a, front);
      AppendAssoc(SplitAll(sp, a), SplitAll(sp, front), Split(sp, last));
    }
  }

  /** Every document is a non-empty substring of one of the texts. */
  lemma {:induction false} SplitAllChunks(sp: Splitter, texts: seq<string>)
    requires SplitTerminates(sp)
    ensures forall c :: c in SplitAll(sp, texts) ==>
      c != "" && exists t :: t in texts && IsSubstring(c, t)
    decreases |texts|
  {
    if texts != [] {
      var init, last := texts[..|texts| - 1], texts[|texts| - 1];
      SplitAllChunks(sp, init);
      SplitChunksAreSubstrings(sp, last);
      forall c | c in SplitAll(sp, texts)
        ensures c != "" && exists t :: t in texts && IsSubstring(c, t)
      {
        if c in SplitAll(sp, init) {
          var t :| t in init && IsSubstring(c, t);
          assert t in texts;
        } else {
          assert last in texts;
        }
      }
    }
  }

  /** One more text. */
  lemma SplitAllSnoc(sp: Splitter, texts: seq<string>, i: nat)
    requires SplitTerminates(sp) && i < |texts|
    ensures SplitAll(sp, texts[..i + 1]) == SplitAll(sp, texts[..i]) + Split(sp, texts[i])
  {
    assert texts[..i + 1][..i] == texts[..i];
  }

  /** `for chunk in chunks: documents.append(chunk)`. */
  method AppendEach(documents: seq<string>, chunks: seq<string>) returns (r: seq<string>)
    ensures r == documents + chunks
  {
    r := documents;
    for j := 0 to |chunks|
      invariant r == documents + chunks[..j]
    {
      r := r + [chunks[j]];
    }
    assert chunks[..|chunks|] == chunks;
  }

  /** `create_documents`: split each text and append its chunks one by one. */
  method CreateDocuments(sp: Splitter, texts: seq<string>) returns (documents: seq<string>)
    requires SplitTerminates(sp)
    ensures documents == SplitAll(sp, texts)
  {
    documents := [];
    for i := 0 to |texts|
      invariant documents == SplitAll(sp, texts[..i])
    {
      var chunks := SplitText(sp, texts[i]);
      SplitAllSnoc(sp, texts, i);
      documents := AppendEach(documents, chunks);
    }
    assert texts[..|texts|] == texts;
  }

  /** `split_documents` is `create_documents`. */
  method SplitDocuments(sp: Splitter, documents: seq<string>) returns (r: seq<string>)
    requires SplitTerminates(sp)
    ensures r == SplitAll(sp, documents)
  {
    r := CreateDocuments(sp, documents);
  }
}
