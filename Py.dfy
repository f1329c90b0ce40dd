/** Python string and list primitives the rest of the model is built on:
    `str.split(sep)` keeping empty pieces, `list(text)`, `sep.join`,
    `strip()`, `rstrip(chars)` (a set of characters, not a suffix),
    slicing with negative and out-of-range indices, `in` on strings, and the
    duplicate removal done by `set(...)`. */
module Py {

  datatype Option<+T> = None | Some(value: T)

  datatype Result<+T, +E> = Ok(value: T) | Err(error: E)

  function Min(a: int, b: int): int { if a <= b then a else b }

  function Max(a: int, b: int): int { if a >= b then a else b }

  // ---------------------------------------------------------------------------
  // Characters and substrings
  // ---------------------------------------------------------------------------

  /** Python's `str.isspace()` for one character (Unicode whitespace). */
  predicate IsSpace(c: char) {
    || c == ' '
    || ('\t' <= c <= '\r')
    || ('\U{1C}' <= c <= '\U{1F}')
    || c == '\U{85}' || c == '\U{A0}' || c == '\U{1680}'
    || ('\U{2000}' <= c <= '\U{200A}')
    || c == '\U{2028}' || c == '\U{2029}' || c == '\U{202F}' || c == '\U{205F}' || c == '\U{3000}'
  }

  predicate AllSpace(s: string) {
    forall k :: 0 <= k < |s| ==> IsSpace(s[k])
  }

  /** `a` occurs in `b` as a contiguous run of characters. */
  ghost predicate IsSubstring(a: string, b: string) {
    exists i, j :: 0 <= i <= j <= |b| && b[i..j] == a
  }

  /** Extending a slice by the element just after it. */
  lemma SliceSnoc<T>(s: seq<T>, a: int, b: int)
    requires 0 <= a <= b < |s|
    ensures s[a..b] + [s[b]] == s[a..b + 1]
  {
  }

  /** Dropping from a slice is a later slice. */
  lemma SliceDrop<T>(s: seq<T>, a: int, b: int, e: int)
    requires 0 <= a <= b <= |s| && 0 <= e <= b - a
    ensures s[a..b][e..] == s[a + e..b]
  {
  }

  /** Concatenation is associative. */
  lemma AppendAssoc<T>(a: seq<T>, b: seq<T>, c: seq<T>)
    ensures (a + b) + c == a + (b + c)
  {
  }

  lemma Regroup<T>(a: seq<T>, b: seq<T>, c: seq<T>, d: seq<T>)
    ensures a + ((b + c) + d) == ((a + b) + c) + d
  {
  }

  lemma SubstringLength(a: string, b: string)
    requires IsSubstring(a, b)
    ensures |a| <= |b|
  {
  }

  lemma SubstringTransitive(a: string, b: string, c: string)
    requires IsSubstring(a, b) && IsSubstring(b, c)
    ensures IsSubstring(a, c)
  {
    var i, j :| 0 <= i <= j <= |b| && b[i..j] == a;
    var k, l :| 0 <= k <= l <= |c| && c[k..l] == b;
    SliceOfSlice(c, k, l, i, j);
  }

  lemma SliceOfSlice<T>(s: seq<T>, k: int, l: int, i: int, j: int)
    requires 0 <= k <= l <= |s| && 0 <= i <= j <= l - k
    ensures s[k..l][i..j] == s[k + i..k + j]
  {
    assert |s[k..l][i..j]| == j - i;
    forall t | 0 <= t < j - i
      ensures s[k..l][i..j][t] == s[k + i..k + j][t]
    {
    }
  }

  /** The middle of a concatenation is a substring of it. */
  lemma MiddleIsSubstring(p: string, w: string, s: string)
    ensures IsSubstring(w, p + w + s)
  {
    assert (p + w + s)[|p|..|p| + |w|] == w;
  }

  /** Every element of `cs` is a non-empty substring of `text`. */
  ghost predicate AllSubstrings(cs: seq<string>, text: string) {
    forall c :: c in cs ==> c != "" && IsSubstring(c, text)
  }

  lemma AllSubstringsAppend(a: seq<string>, b: seq<string>, text: string)
    requires AllSubstrings(a, text) && AllSubstrings(b, text)
    ensures AllSubstrings(a + b, text)
  {
  }

  lemma AllSubstringsWiden(cs: seq<string>, t: string, text: string)
    requires AllSubstrings(cs, t) && IsSubstring(t, text)
    ensures AllSubstrings(cs, text)
  {
    forall c | c in cs
      ensures IsSubstring(c, text)
    {
      SubstringTransitive(c, t, text);
    }
  }


  /** `pat` occurs in `text` starting at index `j`. */
  predicate OccursAt(text: string, pat: string, j: int) {
    0 <= j && j + |pat| <= |text| && text[j..j + |pat|] == pat
  }

  lemma OccursAtShift(text: string, pat: string, j: int)
    requires |text| > 0 && j >= 1
    ensures OccursAt(text, pat, j) <==> OccursAt(text[1..], pat, j - 1)
  {
    if j + |pat| <= |text| {
      assert text[j..j + |pat|] == text[1..][j - 1..j - 1 + |pat|];
    }
  }

  /** Index of the first occurrence of `pat` in `text`, or -1 (`str.find`). */
  function Find(text: string, pat: string): (r: int)
    requires pat != ""
    ensures r == -1 || 0 <= r <= |text| - |pat|
    ensures r >= 0 ==> OccursAt(text, pat, r)
    ensures forall j :: (r < 0 || j < r) ==> !OccursAt(text, pat, j)
    decreases |text|
  {
    if |text| < |pat| then -1
    else if text[..|pat|] == pat then 0
    else
      var r := Find(text[1..], pat);
      assert forall j :: j >= 1 ==> (OccursAt(text, pat, j) <==> OccursAt(text[1..], pat, j - 1)) by {
        forall j | j >= 1 { OccursAtShift(text, pat, j); }
      }
      if r < 0 then -1 else r + 1
  }

  /** Python's `pat in text`. */
  predicate Contains(text: string, pat: string) {
    pat == "" || Find(text, pat) >= 0
  }

  // ---------------------------------------------------------------------------
  // Join, split, list(text)
  // ---------------------------------------------------------------------------

  /** Python's `sep.join(pieces)`. */
  function Join(sep: string, pieces: seq<string>): string {
    if |pieces| == 0 then ""
    else if |pieces| == 1 then pieces[0]
    else pieces[0] + sep + Join(sep, pieces[1..])
  }

  lemma {:induction false} JoinAppend(sep: string, a: seq<string>, b: seq<string>)
    requires |a| > 0 && |b| > 0
    ensures Join(sep, a + b) == Join(sep, a) + sep + Join(sep, b)
    decreases |a|
  {
    if |a| == 1 {
      assert (a + b)[1..] == b;
    } else {
      assert (a + b)[1..] == a[1..] + b;
      JoinAppend(sep, a[1..], b);
    }
  }

  /** The join of a contiguous run of pieces occurs in the join of all of them. */
  lemma JoinWindowIsSubstring(sep: string, pieces: seq<string>, lo: int, hi: int)
    requires 0 <= lo <= hi <= |pieces|
    ensures IsSubstring(Join(sep, pieces[lo..hi]), Join(sep, pieces))
  {
    var whole := Join(sep, pieces);
    var w := Join(sep, pieces[lo..hi]);
    if lo == hi {
      assert w == whole[0..0];
    } else {
      var prefix := if lo == 0 then "" else Join(sep, pieces[..lo]) + sep;
      var suffix := if hi == |pieces| then "" else sep + Join(sep, pieces[hi..]);
      JoinPrefix(sep, pieces, lo, hi);
      JoinSuffix(sep, pieces, hi);
      assert whole == prefix + w + suffix;
      MiddleIsSubstring(prefix, w, suffix);
    }
  }

  lemma JoinPrefix(sep: string, pieces: seq<string>, lo: int, hi: int)
    requires 0 <= lo < hi <= |pieces|
    ensures Join(sep, pieces[..hi])
      == (if lo == 0 then "" else Join(sep, pieces[..lo]) + sep) + Join(sep, pieces[lo..hi])
  {
    if lo > 0 {
      assert pieces[..hi] == pieces[..lo] + pieces[lo..hi];
      JoinAppend(sep, pieces[..lo], pieces[lo..hi]);
    } else {
      assert pieces[..hi] == pieces[lo..hi];
    }
  }

  lemma JoinSuffix(sep: string, pieces: seq<string>, hi: int)
    requires 0 < hi <= |pieces|
    ensures Join(sep, pieces)
      == Join(sep, pieces[..hi]) + (if hi == |pieces| then "" else sep + Join(sep, pieces[hi..]))
  {
    if hi < |pieces| {
      assert pieces == pieces[..hi] + pieces[hi..];
      JoinAppend(sep, pieces[..hi], pieces[hi..]);
    } else {
      assert pieces == pieces[..hi];
    }
  }

  /** Python's `text.split(sep)` for a non-empty separator: empty pieces are kept. */
  function SplitOn(text: string, sep: string): (pieces: seq<string>)
    requires sep != ""
    ensures |pieces| >= 1
    ensures Join(sep, pieces) == text
    ensures forall k :: 0 <= k < |pieces| ==> !Contains(pieces[k], sep)
    ensures forall k :: 0 <= k < |pieces| ==> |pieces[k]| <= |text|
    ensures Contains(text, sep) ==> forall k :: 0 <= k < |pieces| ==> |pieces[k]| < |text|
    decreases |text|
  {
    var i := Find(text, sep);
    if i < 0 then [text]
    else
      var rest := SplitOn(text[i + |sep|..], sep);
      SplitOnStep(text, sep, i, rest);
      [text[..i]] + rest
  }

  /** The first piece of `text.split(sep)`, before the first occurrence of
      `sep`, followed by the pieces of the text after it. */
  lemma SplitOnStep(text: string, sep: string, i: int, rest: seq<string>)
    requires sep != "" && i >= 0 && i == Find(text, sep)
    requires |rest| >= 1 && Join(sep, rest) == text[i + |sep|..]
    requires forall k :: 0 <= k < |rest| ==> !Contains(rest[k], sep)
    requires forall k :: 0 <= k < |rest| ==> |rest[k]| <= |text[i + |sep|..]|
    ensures Join(sep, [text[..i]] + rest) == text
    ensures forall k :: 0 <= k < |[text[..i]] + rest| ==> !Contains(([text[..i]] + rest)[k], sep)
    ensures forall k :: 0 <= k < |[text[..i]] + rest| ==> |([text[..i]] + rest)[k]| < |text|
  {
    var head := text[..i];
    assert text == head + sep + text[i + |sep|..];
    JoinAppend(sep, [head], rest);
    HeadLacksSep(text, sep, i);
    PiecesCons(head, rest, sep, |text|);
  }

  lemma PiecesCons(head: string, rest: seq<string>, sep: string, n: int)
    requires !Contains(head, sep) && |head| < n
    requires forall k :: 0 <= k < |rest| ==> !Contains(rest[k], sep) && |rest[k]| < n
    ensures forall k :: 0 <= k < |[head] + rest| ==> !Contains(([head] + rest)[k], sep)
    ensures forall k :: 0 <= k < |[head] + rest| ==> |([head] + rest)[k]| < n
  {
    var p := [head] + rest;
    forall k | 0 < k < |p|
      ensures p[k] == rest[k - 1]
    {
    }
  }

  /** The text before the first occurrence of `sep` does not contain it. */
  lemma HeadLacksSep(text: string, sep: string, i: int)
    requires sep != "" && i >= 0 && i == Find(text, sep)
    ensures !Contains(text[..i], sep)
  {
    var head := text[..i];
    var r := Find(head, sep);
    if r >= 0 {
      assert head[r..r + |sep|] == text[r..r + |sep|];
      assert OccursAt(text, sep, r);
    }
  }

  /** Python's `list(text)`: one piece per character. */
  function Chars(text: string): (pieces: seq<string>)
    ensures |pieces| == |text|
    ensures forall k :: 0 <= k < |pieces| ==> pieces[k] == [text[k]]
  {
    seq(|text|, k requires 0 <= k < |text| => [text[k]])
  }

  lemma {:induction false} JoinChars(text: string)
    ensures Join("", Chars(text)) == text
    decreases |text|
  {
    if |text| > 1 {
      assert Chars(text)[1..] == Chars(text[1..]);
      JoinChars(text[1..]);
      assert text == [text[0]] + text[1..];
    }
  }

  /** Splitting the join of pieces by a one-character separator that none of
      them contains gives the pieces back. */
  lemma {:induction false} SplitJoinRoundTrip(sep: char, pieces: seq<string>)
    requires |pieces| >= 1
    requires forall k :: 0 <= k < |pieces| ==> sep !in pieces[k]
    ensures SplitOn(Join([sep], pieces), [sep]) == pieces
    decreases |pieces|
  {
    var text := Join([sep], pieces);
    if |pieces| == 1 {
      FindAbsentChar(pieces[0], sep);
    } else {
      var rest := Join([sep], pieces[1..]);
      assert text == pieces[0] + [sep] + rest;
      FindFirstChar(pieces[0], sep, rest);
      assert text[..|pieces[0]|] == pieces[0];
      assert text[|pieces[0]| + 1..] == rest;
      SplitJoinRoundTrip(sep, pieces[1..]);
    }
  }

  lemma FindAbsentChar(s: string, c: char)
    requires c !in s
    ensures Find(s, [c]) == -1
  {
    forall r | 0 <= r < |s|
      ensures !OccursAt(s, [c], r)
    {
      assert s[r..r + 1][0] == s[r];
      assert s[r] in s;
    }
  }

  lemma FindFirstChar(a: string, c: char, b: string)
    requires c !in a
    ensures Find(a + [c] + b, [c]) == |a|
  {
    var t := a + [c] + b;
    assert t[|a|..|a| + 1] == [c];
    assert OccursAt(t, [c], |a|);
    forall j | 0 <= j < |a|
      ensures !OccursAt(t, [c], j)
    {
      assert t[j..j + 1][0] == a[j];
      assert a[j] in a;
    }
  }

  // ---------------------------------------------------------------------------
  // strip() and rstrip(chars)
  // ---------------------------------------------------------------------------

  /** Number of whitespace characters at the start of `s`. */
  function LeadingSpaces(s: string): (n: nat)
    ensures n <= |s|
    decreases |s|
  {
    if s != "" && IsSpace(s[0]) then 1 + LeadingSpaces(s[1..]) else 0
  }

  /** `LeadingSpaces` counts exactly the maximal whitespace prefix. */
  lemma {:induction false} LeadingSpacesSpec(s: string)
    ensures forall k :: 0 <= k < LeadingSpaces(s) ==> IsSpace(s[k])
    ensures LeadingSpaces(s) < |s| ==> !IsSpace(s[LeadingSpaces(s)])
    decreases |s|
  {
    if s != "" && IsSpace(s[0]) {
      LeadingSpacesSpec(s[1..]);
      assert forall k :: 1 <= k < |s| ==> s[k] == s[1..][k - 1];
    }
  }

  /** Number of whitespace characters at the end of `s`. */
  function TrailingSpaces(s: string): (m: nat)
    ensures m <= |s|
    decreases |s|
  {
    if s != "" && IsSpace(s[|s| - 1]) then 1 + TrailingSpaces(s[..|s| - 1]) else 0
  }

  /** `TrailingSpaces` counts exactly the maximal whitespace suffix. */
  lemma {:induction false} TrailingSpacesSpec(s: string)
    ensures forall k :: |s| - TrailingSpaces(s) <= k < |s| ==> IsSpace(s[k])
    ensures TrailingSpaces(s) < |s| ==> !IsSpace(s[|s| - 1 - TrailingSpaces(s)])
    decreases |s|
  {
    if s != "" && IsSpace(s[|s| - 1]) {
      TrailingSpacesSpec(s[..|s| - 1]);
      assert forall k :: 0 <= k < |s| - 1 ==> s[k] == s[..|s| - 1][k];
    }
  }

  /** Python's `s.strip()`: whitespace removed from both ends. */
  function Strip(s: string): (r: string)
    ensures |r| <= |s|
  {
    var a := LeadingSpaces(s);
    if a == |s| then ""
    else
      var m := TrailingSpaces(s);
      if a <= |s| - m then s[a..|s| - m] else ""
  }

  /** `s` is `r` with only whitespace around it. */
  predicate SpaceAround(r: string, s: string) {
    exists a :: 0 <= a && a + |r| <= |s| && r == s[a..a + |r|] && AllSpace(s[..a]) && AllSpace(s[a + |r|..])
  }

  /** What `strip()` promises: the result is `s` with only whitespace removed
      around it, it neither starts nor ends with whitespace, and it is empty
      exactly when `s` is all whitespace. */
  lemma StripSpec(s: string)
    ensures IsSubstring(Strip(s), s)
    ensures SpaceAround(Strip(s), s)
    ensures Strip(s) == "" || (!IsSpace(Strip(s)[0]) && !IsSpace(Strip(s)[|Strip(s)| - 1]))
    ensures Strip(s) == "" <==> AllSpace(s)
  {
    StripEnds(s);
    StripIsSpaceAround(s);
  }

  lemma StripEnds(s: string)
    ensures IsSubstring(Strip(s), s)
    ensures Strip(s) == "" || (!IsSpace(Strip(s)[0]) && !IsSpace(Strip(s)[|Strip(s)| - 1]))
    ensures Strip(s) == "" <==> AllSpace(s)
  {
    LeadingSpacesSpec(s);
    TrailingSpacesSpec(s);
    var a := LeadingSpaces(s);
    if a == |s| {
      assert s[0..0] == "";
    } else {
      var m := TrailingSpaces(s);
      assert m < |s| - a;
      var r := s[a..|s| - m];
      assert r[0] == s[a] && r[|r| - 1] == s[|s| - 1 - m];
    }
  }

  lemma StripIsSpaceAround(s: string)
    ensures SpaceAround(Strip(s), s)
  {
    LeadingSpacesSpec(s);
    TrailingSpacesSpec(s);
    var a := LeadingSpaces(s);
    if a == |s| {
      SpaceAroundIntro(s, a, a);
      assert Strip(s) == s[a..a];
    } else {
      var m := TrailingSpaces(s);
      SpaceAroundIntro(s, a, |s| - m);
    }
  }

  /** Whitespace before `a` and from `b` on puts `s[a..b]` inside `s` with
      only whitespace around it. */
  lemma SpaceAroundIntro(s: string, a: int, b: int)
    requires 0 <= a <= b <= |s|
    requires forall k :: 0 <= k < a ==> IsSpace(s[k])
    requires forall k :: b <= k < |s| ==> IsSpace(s[k])
    ensures SpaceAround(s[a..b], s)
  {
    var r := s[a..b];
    assert r == s[a..a + |r|];
    forall k | 0 <= k < |s[..a]|
      ensures IsSpace(s[..a][k])
    {
      assert s[..a][k] == s[k];
    }
    forall k | 0 <= k < |s[b..]|
      ensures IsSpace(s[b..][k])
    {
      assert s[b..][k] == s[b + k];
    }
    assert a + |r| == b;
    assert 0 <= a && a + |r| <= |s| && r == s[a..a + |r|] && AllSpace(s[..a]) && AllSpace(s[a + |r|..]);
  }

  /** A string with no whitespace at either end is its own `strip()`. */
  lemma StripUnpadded(s: string)
    requires s == "" || (!IsSpace(s[0]) && !IsSpace(s[|s| - 1]))
    ensures Strip(s) == s
  {
    if s != "" {
      assert LeadingSpaces(s) == 0;
      assert TrailingSpaces(s) == 0;
      assert s[0..|s|] == s;
    }
  }

  /** `strip()` keeps only characters of its argument. */
  lemma StripKeepsChars(s: string)
    ensures forall c :: c in Strip(s) ==> c in s
  {
    var r := Strip(s);
    forall c | c in r
      ensures c in s
    {
      var a := LeadingSpaces(s);
      var m := TrailingSpaces(s);
      var k :| 0 <= k < |r| && r[k] == c;
      assert s[a + k] == c;
    }
  }

  /** Python's `s.rstrip(chars)`: trailing characters that belong to the SET
      `chars` are removed. */
  function RStripChars(s: string, chars: string): (r: string)
    ensures |r| <= |s| && r == s[..|r|]
    ensures r == "" || r[|r| - 1] !in chars
    ensures forall k :: |r| <= k < |s| ==> s[k] in chars
  {
    s[..|s| - TrailingIn(s, chars)]
  }

  /** Number of characters at the end of `s` that belong to `chars`. */
  function TrailingIn(s: string, chars: string): (m: nat)
    ensures m <= |s|
    ensures forall k :: |s| - m <= k < |s| ==> s[k] in chars
    ensures m < |s| ==> s[|s| - 1 - m] !in chars
    decreases |s|
  {
    if s != "" && s[|s| - 1] in chars then
      var m := TrailingIn(s[..|s| - 1], chars);
      assert forall k :: 0 <= k < |s| - 1 ==> s[k] == s[..|s| - 1][k];
      1 + m
    else 0
  }

  // ---------------------------------------------------------------------------
  // Slicing
  // ---------------------------------------------------------------------------

  /** Where a Python slice bound `i` lands in a sequence of length `n`. */
  function SliceBound(i: int, n: nat): (k: nat)
    ensures k <= n
    ensures 0 <= i <= n ==> k == i
  {
    if i < 0 then (if i + n < 0 then 0 else i + n) else if i > n then n else i
  }

  /** Python's `s[i:j]`. */
  function Slice<T>(s: seq<T>, i: int, j: int): (r: seq<T>)
    ensures |r| <= |s|
    ensures 0 <= i <= j <= |s| ==> r == s[i..j]
  {
    var a := SliceBound(i, |s|);
    var b := SliceBound(j, |s|);
    if a < b then s[a..b] else []
  }

  /** How many elements `xs[:n]` keeps of a list of length `len`: the first
      `n`, or all but the last `-n` when `n` is negative. */
  function SliceLength(len: nat, n: int): nat {
    if n >= 0 then Min(n, len) else Max(0, len + n)
  }

  /** Python's `s[:n]`. */
  function Take<T>(s: seq<T>, n: int): (r: seq<T>)
    ensures 0 <= n ==> r == s[..Min(n, |s|)]
    ensures n < 0 ==> r == s[..SliceBound(n, |s|)]
    ensures |r| == SliceLength(|s|, n)
  {
    Slice(s, 0, n)
  }

  // ---------------------------------------------------------------------------
  // Collections
  // ---------------------------------------------------------------------------

  function Elems<T>(s: seq<T>): set<T> {
    set x | x in s
  }

  predicate NoDuplicates<T(==)>(s: seq<T>) {
    forall i, j :: 0 <= i < j < |s| ==> s[i] != s[j]
  }

  /** The elements of `s` once each, in order of first occurrence: the model's
      choice of order for Python's `list(set(s))`. */
  function Dedup<T(==)>(s: seq<T>): (r: seq<T>)
    ensures NoDuplicates(r)
    ensures Elems(r) == Elems(s)
    decreases |s|
  {
    if s == [] then []
    else
      var init := s[..|s| - 1];
      var x := s[|s| - 1];
      var r := Dedup(init);
      assert s == init + [x];
      assert Elems(s) == Elems(init) + {x};
      if x in r then r
      else
        assert Elems(r + [x]) == Elems(r) + {x};
        r + [x]
  }

  /** Concatenation of a sequence of sequences, in order. */
  function Flatten<T>(ss: seq<seq<T>>): seq<T> {
    if ss == [] then [] else ss[0] + Flatten(ss[1..])
  }

  lemma {:induction false} FlattenElems<T>(ss: seq<seq<T>>)
    ensures Elems(Flatten(ss)) == set k, x | 0 <= k < |ss| && x in ss[k] :: x
  {
    if ss != [] {
      FlattenElems(ss[1..]);
      forall x | x in Elems(Flatten(ss))
        ensures exists k :: 0 <= k < |ss| && x in ss[k]
      {
        if x !in ss[0] {
          assert x in Flatten(ss[1..]);
          assert x in Elems(Flatten(ss[1..]));
          var k :| 0 <= k < |ss[1..]| && x in ss[1..][k];
          assert x in ss[k + 1];
        }
      }
      forall k, x | 0 <= k < |ss| && x in ss[k]
        ensures x in Flatten(ss)
      {
        if k > 0 {
          assert x in ss[1..][k - 1];
          assert x in Elems(Flatten(ss[1..]));
        }
      }
    }
  }
}
