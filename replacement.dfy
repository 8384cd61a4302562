/** The two global replacements `translateToVietnamese` performs, as JavaScript's
    `String.prototype.replace` runs them with a global regular expression: scanning left to
    right, replacing each match and resuming after it, copying every other character.

    - `ReplaceWholeWord(s, t, ph)` is `s.replace(new RegExp(`\\b${t}\\b`, 'gi'), ph)`;
    - `ReplaceAll(s, p, x)` is `s.replace(new RegExp(p, 'g'), x)` for a pattern `p` without
      special characters.

    The lemmas state what survives each replacement. */
module Replacement {
  import opened JsStrings

  /** `t` matches `s` from index `i`, ignoring ASCII case (the `i` flag). */
  predicate MatchesIgnoringCase(s: string, i: int, t: string)
  {
    0 <= i && i + |t| <= |s| && forall k :: 0 <= k < |t| ==> LowerChar(s[i + k]) == LowerChar(t[k])
  }

  predicate WordBefore(s: string, k: int)
  {
    0 < k <= |s| && IsWordChar(s[k - 1])
  }

  predicate WordAfter(s: string, k: int)
  {
    0 <= k < |s| && IsWordChar(s[k])
  }

  /** The assertion `\b` holds at position `k` of `s`. */
  predicate IsBoundary(s: string, k: int)
  {
    WordBefore(s, k) != WordAfter(s, k)
  }

  /** The pattern `\bt\b` with flag `i` matches `s` at index `i`. */
  predicate WholeWordAt(s: string, i: int, t: string)
  {
    MatchesIgnoringCase(s, i, t) && IsBoundary(s, i) && IsBoundary(s, i + |t|)
  }

  /** A medical term as written or as found: non-empty, a letter at each end, no `_`. */
  predicate TermShaped(t: string)
  {
    |t| > 0 && IsAsciiLetter(t[0]) && IsAsciiLetter(t[|t| - 1]) && forall k :: 0 <= k < |t| ==> t[k] != '_'
  }

  /** What replaces a term: non-empty, word characters only, opening with `_`. */
  predicate PlaceholderShaped(p: string)
  {
    |p| > 0 && p[0] == '_' && forall k :: 0 <= k < |p| ==> IsWordChar(p[k])
  }

  /** Shaped like a placeholder for the plain replacement: opening and closing with `_`, no space. */
  predicate PlaceholderLike(p: string)
  {
    |p| > 0 && p[0] == '_' && p[|p| - 1] == '_' && forall k :: 0 <= k < |p| ==> p[k] != ' '
  }

  /** Every pattern of `pairs` is placeholder-like. */
  predicate PlaceholderPatterns(pairs: seq<(string, string)>)
  {
    forall k :: 0 <= k < |pairs| ==> PlaceholderLike(pairs[k].0)
  }

  /** Every replacement text of `pairs` is restoration-like. */
  predicate RestorationTexts(pairs: seq<(string, string)>)
  {
    forall k :: 0 <= k < |pairs| ==> RestorationLike(pairs[k].1)
  }

  /** Shaped like what replaces a placeholder: no `_`, and a space somewhere. */
  predicate RestorationLike(x: string)
  {
    (forall k :: 0 <= k < |x| ==> x[k] != '_') && (exists k :: 0 <= k < |x| && x[k] == ' ')
  }

  /** The output of the whole-word replacement for the part of `s` from index `i` on. */
  function ReplaceWholeWordFrom(s: string, t: string, ph: string, i: int): string
    requires |t| > 0 && 0 <= i <= |s|
    decreases |s| - i
  {
    if i == |s| then []
    else if WholeWordAt(s, i, t) then ph + ReplaceWholeWordFrom(s, t, ph, i + |t|)
    else [s[i]] + ReplaceWholeWordFrom(s, t, ph, i + 1)
  }

  /** `s.replace(new RegExp(`\\b${t}\\b`, 'gi'), ph)`. */
  function ReplaceWholeWord(s: string, t: string, ph: string): string
    requires |t| > 0
  {
    ReplaceWholeWordFrom(s, t, ph, 0)
  }

  /** `t` stands at index `j` of `r` as a whole word, `r` being preceded by a word character
      exactly when `wordBefore` holds. For a term-shaped `t` this is `\bt\b` at `j`. */
  predicate WholeWordIn(r: string, j: int, t: string, wordBefore: bool)
  {
    MatchesIgnoringCase(r, j, t)
    && (if j == 0 then !wordBefore else !IsWordChar(r[j - 1]))
    && (j + |t| == |r| || !IsWordChar(r[j + |t|]))
  }

  /** Letters at the ends of a term turn `\b` into "no word character outside". */
  lemma WholeWordAtIsWholeWordIn(r: string, j: int, t: string)
    requires TermShaped(t) && WholeWordAt(r, j, t)
    ensures WholeWordIn(r, j, t, false)
  {
    LowerCharKeeps(r[j]);
    LowerCharKeeps(t[0]);
    LowerCharKeeps(r[j + |t| - 1]);
    LowerCharKeeps(t[|t| - 1]);
  }

  /** Up to the first `_`, the output is a verbatim copy of the input: every placeholder opens with `_`. */
  lemma {:induction false} CopiedPrefix(s: string, t: string, ph: string, i: int, k: int)
    requires |t| > 0 && PlaceholderShaped(ph) && 0 <= i <= |s|
    requires 0 <= k <= |ReplaceWholeWordFrom(s, t, ph, i)|
    requires forall m :: 0 <= m < k ==> ReplaceWholeWordFrom(s, t, ph, i)[m] != '_'
    ensures i + k <= |s| && ReplaceWholeWordFrom(s, t, ph, i)[..k] == s[i..i + k]
    ensures k == |ReplaceWholeWordFrom(s, t, ph, i)| ==> i + k == |s|
    decreases |s| - i
  {
    var r := ReplaceWholeWordFrom(s, t, ph, i);
    if i == |s| {
    } else if WholeWordAt(s, i, t) {
      assert r[0] == ph[0];
    } else if k > 0 {
      var rest := ReplaceWholeWordFrom(s, t, ph, i + 1);
      assert r == [s[i]] + rest;
      forall m | 0 <= m < k - 1
        ensures rest[m] != '_'
      {
        assert rest[m] == r[m + 1];
      }
      CopiedPrefix(s, t, ph, i + 1, k - 1);
      assert r[..k] == [s[i]] + rest[..k - 1];
    }
  }

  /** A whole-word occurrence of a term at the head of the output of a scan step that copied
      `s[i]` is a whole-word occurrence in the input at `i`. */
  lemma WindowAtCopy(s: string, b: string, ph: string, a: string, i: int)
    requires TermShaped(a) && |b| > 0 && PlaceholderShaped(ph) && 0 <= i < |s|
    requires WholeWordIn(ReplaceWholeWordFrom(s, b, ph, i), 0, a, WordBefore(s, i))
    ensures WholeWordAt(s, i, a)
  {
    var r := ReplaceWholeWordFrom(s, b, ph, i);
    var n := |a|;
    forall m | 0 <= m < n
      ensures r[m] != '_'
    {
      LowerCharKeeps(r[m]);
      LowerCharKeeps(a[m]);
    }
    var k := if n == |r| then n else n + 1;
    CopiedPrefix(s, b, ph, i, k);
    forall m | 0 <= m < k
      ensures s[i + m] == r[m]
    {
      assert r[..k][m] == s[i..i + k][m];
    }
    LowerCharKeeps(r[0]);
    LowerCharKeeps(a[0]);
    LowerCharKeeps(r[n - 1]);
    LowerCharKeeps(a[n - 1]);
  }

  /** A whole-word occurrence past index `d` of `r` is one in the suffix `r[d..]`, whose
      preceding character is `r[d - 1]`. */
  lemma WholeWordInSuffix(r: string, d: int, j: int, t: string, wordBefore: bool)
    requires 1 <= d < j && WholeWordIn(r, j, t, wordBefore)
    ensures WholeWordIn(r[d..], j - d, t, IsWordChar(r[d - 1]))
  {
    var u := r[d..];
    forall k | 0 <= k < |t|
      ensures LowerChar(u[j - d + k]) == LowerChar(t[k])
    {
      assert u[j - d + k] == r[j + k];
    }
    assert j - d > 0 ==> u[j - d - 1] == r[j - 1];
    assert j + |t| < |r| ==> u[j - d + |t|] == r[j + |t|];
  }

  /** The heart of the term-protection argument. Replacing whole-word occurrences of `b` by a
      placeholder leaves no whole-word occurrence of `a` behind, provided every whole-word
      occurrence of `a` in the input was one of `b` (so `a` is `b` up to case, or absent). The
      placeholder cannot host a term (it is word characters bordered by `_`) and it keeps the
      word character the term had at each end, so no new boundary appears. */
  lemma {:induction false} NoWholeWordAfterFrom(s: string, b: string, ph: string, a: string, i: int)
    requires TermShaped(a) && TermShaped(b) && PlaceholderShaped(ph) && 0 <= i <= |s|
    requires forall j :: i <= j <= |s| && WholeWordAt(s, j, a) ==> WholeWordAt(s, j, b)
    ensures forall j :: !WholeWordIn(ReplaceWholeWordFrom(s, b, ph, i), j, a, WordBefore(s, i))
    decreases |s| - i
  {
    var r := ReplaceWholeWordFrom(s, b, ph, i);
    if i == |s| {
    } else if WholeWordAt(s, i, b) {
      var n := i + |b|;
      var rest := ReplaceWholeWordFrom(s, b, ph, n);
      assert r == ph + rest;
      assert r[|ph|..] == rest;
      LowerCharKeeps(s[n - 1]);
      LowerCharKeeps(b[|b| - 1]);
      LowerCharKeeps(a[0]);
      forall j | 0 <= j <= |ph|
        ensures !WholeWordIn(r, j, a, WordBefore(s, i))
      {
        if j == 0 {
          assert r[0] == ph[0];
        } else {
          assert r[j - 1] == ph[j - 1];
        }
      }
      forall j | |ph| < j && WholeWordIn(r, j, a, WordBefore(s, i))
        ensures WholeWordIn(rest, j - |ph|, a, WordBefore(s, n))
      {
        WholeWordInSuffix(r, |ph|, j, a, WordBefore(s, i));
      }
      NoWholeWordAfterFrom(s, b, ph, a, n);
    } else {
      var rest := ReplaceWholeWordFrom(s, b, ph, i + 1);
      assert r == [s[i]] + rest;
      assert r[1..] == rest;
      if WholeWordIn(r, 0, a, WordBefore(s, i)) {
        WindowAtCopy(s, b, ph, a, i);
      }
      forall j | 1 < j && WholeWordIn(r, j, a, WordBefore(s, i))
        ensures WholeWordIn(rest, j - 1, a, WordBefore(s, i + 1))
      {
        WholeWordInSuffix(r, 1, j, a, WordBefore(s, i));
      }
      if WholeWordIn(r, 1, a, WordBefore(s, i)) {
        assert WholeWordIn(rest, 0, a, WordBefore(s, i + 1)) by {
          forall k | 0 <= k < |a|
            ensures LowerChar(rest[k]) == LowerChar(a[k])
          {
            assert rest[k] == r[1 + k];
          }
          assert |a| < |rest| ==> rest[|a|] == r[1 + |a|];
        }
      }
      NoWholeWordAfterFrom(s, b, ph, a, i + 1);
    }
  }

  /** After the replacement no whole-word occurrence of `a` remains, when every whole-word
      occurrence of `a` was one of `b`; in particular (`a == b`) none of the replaced term. */
  lemma NoWholeWordAfterReplace(s: string, b: string, ph: string, a: string)
    requires TermShaped(a) && TermShaped(b) && PlaceholderShaped(ph)
    requires forall j :: WholeWordAt(s, j, a) ==> WholeWordAt(s, j, b)
    ensures forall j :: !WholeWordAt(ReplaceWholeWord(s, b, ph), j, a)
  {
    var r := ReplaceWholeWord(s, b, ph);
    NoWholeWordAfterFrom(s, b, ph, a, 0);
    assert !WordBefore(s, 0);
    forall j
      ensures !WholeWordAt(r, j, a)
    {
      assert !WholeWordIn(r, j, a, WordBefore(s, 0));
      if WholeWordAt(r, j, a) {
        WholeWordAtIsWholeWordIn(r, j, a);
      }
    }
  }

  /** The output of the plain replacement for the part of `s` from index `i` on. */
  function ReplaceAllFrom(s: string, p: string, x: string, i: int): string
    requires |p| > 0 && 0 <= i <= |s|
    decreases |s| - i
  {
    if i == |s| then []
    else if OccursAt(s, i, p) then x + ReplaceAllFrom(s, p, x, i + |p|)
    else [s[i]] + ReplaceAllFrom(s, p, x, i + 1)
  }

  /** `s.replace(new RegExp(p, 'g'), x)` for a pattern `p` without special characters. */
  function ReplaceAll(s: string, p: string, x: string): string
    requires |p| > 0
  {
    ReplaceAllFrom(s, p, x, 0)
  }

  /** A placeholder-like window (ending in `_`, holding no space) never opens an inserted text,
      which has no `_` and does have a space. */
  lemma NoWindowAtInserted(x: string, rest: string, w: string)
    requires (forall k :: 0 <= k < |x| ==> x[k] != '_') && (exists k :: 0 <= k < |x| && x[k] == ' ')
    requires |w| > 0 && w[|w| - 1] == '_' && forall k :: 0 <= k < |w| ==> w[k] != ' '
    ensures !OccursAt(x + rest, 0, w)
  {
    var r := x + rest;
    if |w| <= |r| {
      if |w| <= |x| {
        assert r[..|w|][|w| - 1] == x[|w| - 1];
      } else {
        var k :| 0 <= k < |x| && x[k] == ' ';
        assert r[..|w|][k] == x[k];
      }
    }
  }

  /** A placeholder-like window at the head of the output is a verbatim copy of the input. */
  lemma {:induction false} WindowCopied(s: string, p: string, x: string, i: int, w: string)
    requires |p| > 0 && 0 <= i <= |s|
    requires (forall k :: 0 <= k < |x| ==> x[k] != '_') && (exists k :: 0 <= k < |x| && x[k] == ' ')
    requires |w| > 0 && w[|w| - 1] == '_' && forall k :: 0 <= k < |w| ==> w[k] != ' '
    requires OccursAt(ReplaceAllFrom(s, p, x, i), 0, w)
    ensures OccursAt(s, i, w)
    decreases |s| - i
  {
    var r := ReplaceAllFrom(s, p, x, i);
    var inserted := i < |s| && OccursAt(s, i, p);
    NoWindowAtInserted(x, if inserted then ReplaceAllFrom(s, p, x, i + |p|) else [], w);
    if i < |s| && !inserted {
      var rest := ReplaceAllFrom(s, p, x, i + 1);
      assert r == [s[i]] + rest;
      assert r[..|w|] == w;
      assert s[i] == w[0] by {
        assert r[..|w|][0] == r[0];
      }
      if |w| > 1 {
        assert rest[..|w| - 1] == w[1..];
        WindowCopied(s, p, x, i + 1, w[1..]);
        assert s[i..i + |w|] == [s[i]] + s[i + 1..i + |w|];
      }
    }
  }

  /** An occurrence past index `d` of `r` is one in the suffix `r[d..]`. */
  lemma OccursAtSuffix(r: string, d: int, j: int, q: string)
    requires 0 <= d <= j && OccursAt(r, j, q)
    ensures OccursAt(r[d..], j - d, q)
  {
    assert r[d..][j - d..j - d + |q|] == r[j..j + |q|];
  }

  /** After replacing `p`, no occurrence of a placeholder-like `q` remains, provided every
      occurrence of `q` in the input was one of `p` (so `q` is `p`, or absent). */
  lemma {:induction false} NoOccurrenceAfterFrom(s: string, p: string, x: string, q: string, i: int)
    requires |p| > 0 && 0 <= i <= |s|
    requires (forall k :: 0 <= k < |x| ==> x[k] != '_') && (exists k :: 0 <= k < |x| && x[k] == ' ')
    requires |q| > 0 && q[0] == '_' && q[|q| - 1] == '_' && forall k :: 0 <= k < |q| ==> q[k] != ' '
    requires forall j :: i <= j <= |s| && OccursAt(s, j, q) ==> OccursAt(s, j, p)
    ensures forall j :: !OccursAt(ReplaceAllFrom(s, p, x, i), j, q)
    decreases |s| - i
  {
    var r := ReplaceAllFrom(s, p, x, i);
    if i == |s| {
    } else if OccursAt(s, i, p) {
      var rest := ReplaceAllFrom(s, p, x, i + |p|);
      assert r == x + rest;
      assert r[|x|..] == rest;
      forall j | 0 <= j < |x|
        ensures !OccursAt(r, j, q)
      {
        if j + |q| <= |r| {
          assert r[j..j + |q|][0] == r[j] == x[j];
        }
      }
      forall j | |x| <= j && OccursAt(r, j, q)
        ensures OccursAt(rest, j - |x|, q)
      {
        OccursAtSuffix(r, |x|, j, q);
      }
      NoOccurrenceAfterFrom(s, p, x, q, i + |p|);
    } else {
      var rest := ReplaceAllFrom(s, p, x, i + 1);
      assert r == [s[i]] + rest;
      assert r[1..] == rest;
      if OccursAt(r, 0, q) {
        WindowCopied(s, p, x, i, q);
      }
      forall j | 1 <= j && OccursAt(r, j, q)
        ensures OccursAt(rest, j - 1, q)
      {
        OccursAtSuffix(r, 1, j, q);
      }
      NoOccurrenceAfterFrom(s, p, x, q, i + 1);
    }
  }

  lemma NoOccurrenceAfterReplace(s: string, p: string, x: string, q: string)
    requires |p| > 0
    requires (forall k :: 0 <= k < |x| ==> x[k] != '_') && (exists k :: 0 <= k < |x| && x[k] == ' ')
    requires |q| > 0 && q[0] == '_' && q[|q| - 1] == '_' && forall k :: 0 <= k < |q| ==> q[k] != ' '
    requires forall j :: OccursAt(s, j, q) ==> OccursAt(s, j, p)
    ensures !Contains(ReplaceAll(s, p, x), q)
  {
    NoOccurrenceAfterFrom(s, p, x, q, 0);
  }

  /** If `p` occurs in the input, the replacement text occurs in the output: the scan reaches
      that occurrence or replaces an earlier one. */
  lemma {:induction false} InsertedWhenPresentFrom(s: string, p: string, x: string, i: int, j: int)
    requires |p| > 0 && 0 <= i <= j && OccursAt(s, j, p)
    ensures Contains(ReplaceAllFrom(s, p, x, i), x)
    decreases |s| - i
  {
    var r := ReplaceAllFrom(s, p, x, i);
    if OccursAt(s, i, p) {
      assert OccursAt(r, 0, x);
    } else {
      var rest := ReplaceAllFrom(s, p, x, i + 1);
      assert r == [s[i]] + rest;
      InsertedWhenPresentFrom(s, p, x, i + 1, j);
      var k :| 0 <= k <= |rest| - |x| && OccursAt(rest, k, x);
      assert r[k + 1..k + 1 + |x|] == rest[k..k + |x|];
      assert OccursAt(r, k + 1, x);
    }
  }

  lemma InsertedWhenPresent(s: string, p: string, x: string)
    requires |p| > 0 && Contains(s, p)
    ensures Contains(ReplaceAll(s, p, x), x)
  {
    var j :| 0 <= j <= |s| - |p| && OccursAt(s, j, p);
    InsertedWhenPresentFrom(s, p, x, 0, j);
  }

  /** Where no occurrence of `p` starts in `[i, e)`, the scan copies that stretch verbatim. */
  lemma {:induction false} CopiedWhenNoOccurrence(s: string, p: string, x: string, i: int, e: int)
    requires |p| > 0 && 0 <= i <= e <= |s|
    requires forall k :: i <= k < e ==> !OccursAt(s, k, p)
    ensures ReplaceAllFrom(s, p, x, i) == s[i..e] + ReplaceAllFrom(s, p, x, e)
    decreases e - i
  {
    if i < e {
      CopiedWhenNoOccurrence(s, p, x, i + 1, e);
      var rest := ReplaceAllFrom(s, p, x, i + 1);
      assert ReplaceAllFrom(s, p, x, i) == [s[i]] + rest;
      calc {
        [s[i]] + rest;
        [s[i]] + (s[i + 1..e] + ReplaceAllFrom(s, p, x, e));
        ([s[i]] + s[i + 1..e]) + ReplaceAllFrom(s, p, x, e);
        { assert [s[i]] + s[i + 1..e] == s[i..e]; }
        s[i..e] + ReplaceAllFrom(s, p, x, e);
      }
    }
  }

  /** What `b` contains, `a + b` contains. */
  lemma ContainsInSuffix(a: string, b: string, w: string)
    requires Contains(b, w)
    ensures Contains(a + b, w)
  {
    var k :| 0 <= k <= |b| - |w| && OccursAt(b, k, w);
    assert (a + b)[|a| + k..|a| + k + |w|] == b[k..k + |w|];
    assert OccursAt(a + b, |a| + k, w);
  }

  /** A placeholder-like `p` (opening and closing with `_`, no space) cannot overlap a window
      that holds a space and no `_`: an occurrence of `p` starting before the window ends
      before it. */
  lemma PlaceholderBeforeWindow(s: string, p: string, i: int, j: int, w: string)
    requires |p| > 0 && p[|p| - 1] == '_' && forall k :: 0 <= k < |p| ==> p[k] != ' '
    requires (forall k :: 0 <= k < |w| ==> w[k] != '_') && (exists k :: 0 <= k < |w| && w[k] == ' ')
    requires i < j && OccursAt(s, i, p) && OccursAt(s, j, w)
    ensures i + |p| <= j
  {
    assert s[i + |p| - 1] == '_' by {
      assert s[i..i + |p|][|p| - 1] == s[i + |p| - 1];
    }
    var k :| 0 <= k < |w| && w[k] == ' ';
    assert s[j + k] == ' ' by {
      assert s[j..j + |w|][k] == s[j + k];
    }
    forall m | j <= m < j + |w|
      ensures s[m] != '_'
    {
      assert s[j..j + |w|][m - j] == s[m];
    }
    forall m | i <= m < i + |p|
      ensures s[m] != ' '
    {
      assert s[i..i + |p|][m - i] == s[m];
    }
  }

  /** A window holding a space and no `_` survives the replacement of a placeholder-like `p`
      (opening and closing with `_`, no space): no occurrence of `p` can overlap it. */
  lemma {:induction false} WindowKeptFrom(s: string, p: string, x: string, i: int, j: int, w: string)
    requires |p| > 0 && p[0] == '_' && p[|p| - 1] == '_' && forall k :: 0 <= k < |p| ==> p[k] != ' '
    requires (forall k :: 0 <= k < |w| ==> w[k] != '_') && (exists k :: 0 <= k < |w| && w[k] == ' ')
    requires 0 <= i <= j && OccursAt(s, j, w)
    ensures Contains(ReplaceAllFrom(s, p, x, i), w)
    decreases j - i
  {
    if i == j {
      forall k | j <= k < j + |w|
        ensures !OccursAt(s, k, p)
      {
        assert s[j..j + |w|][k - j] == s[k];
      }
      CopiedWhenNoOccurrence(s, p, x, j, j + |w|);
      assert OccursAt(ReplaceAllFrom(s, p, x, j), 0, w);
    } else if OccursAt(s, i, p) {
      PlaceholderBeforeWindow(s, p, i, j, w);
      WindowKeptFrom(s, p, x, i + |p|, j, w);
      ContainsInSuffix(x, ReplaceAllFrom(s, p, x, i + |p|), w);
    } else {
      WindowKeptFrom(s, p, x, i + 1, j, w);
      ContainsInSuffix([s[i]], ReplaceAllFrom(s, p, x, i + 1), w);
    }
  }

  lemma WindowKept(s: string, p: string, x: string, w: string)
    requires |p| > 0 && p[0] == '_' && p[|p| - 1] == '_' && forall k :: 0 <= k < |p| ==> p[k] != ' '
    requires (forall k :: 0 <= k < |w| ==> w[k] != '_') && (exists k :: 0 <= k < |w| && w[k] == ' ')
    requires Contains(s, w)
    ensures Contains(ReplaceAll(s, p, x), w)
  {
    var j :| 0 <= j <= |s| - |w| && OccursAt(s, j, w);
    WindowKeptFrom(s, p, x, 0, j, w);
  }

  /** `s` after the global replacement of each `pairs[k].0` by `pairs[k].1`, one after the
      other, for `k < n`. */
  function ReplaceEach(s: string, pairs: seq<(string, string)>, n: nat): string
    requires n <= |pairs| && PlaceholderPatterns(pairs)
  {
    if n == 0 then s else ReplaceAll(ReplaceEach(s, pairs, n - 1), pairs[n - 1].0, pairs[n - 1].1)
  }

  /** A placeholder-like pattern present when its turn comes is replaced, and what replaces it
      survives every later step, whose patterns are placeholder-like too. */
  lemma {:induction false} KeptThroughReplaceEach(s: string, pairs: seq<(string, string)>, i: nat, n: nat)
    requires i < n <= |pairs| && PlaceholderPatterns(pairs) && RestorationLike(pairs[i].1)
    requires Contains(ReplaceEach(s, pairs, i), pairs[i].0)
    ensures Contains(ReplaceEach(s, pairs, n), pairs[i].1)
    decreases n
  {
    var prev := ReplaceEach(s, pairs, n - 1);
    assert PlaceholderLike(pairs[n - 1].0);
    if n == i + 1 {
      InsertedWhenPresent(prev, pairs[i].0, pairs[i].1);
    } else {
      KeptThroughReplaceEach(s, pairs, i, n - 1);
      WindowKept(prev, pairs[n - 1].0, pairs[n - 1].1, pairs[i].1);
    }
  }

  /** After the first `n` steps none of their placeholder-like patterns is left, since no
      replacement text holds a `_`. */
  lemma {:induction false} NoPatternLeftAfterReplaceEach(s: string, pairs: seq<(string, string)>, n: nat)
    requires n <= |pairs| && PlaceholderPatterns(pairs) && RestorationTexts(pairs)
    ensures forall i :: 0 <= i < n ==> !Contains(ReplaceEach(s, pairs, n), pairs[i].0)
    decreases n
  {
    if n > 0 {
      NoPatternLeftAfterReplaceEach(s, pairs, n - 1);
      var prev := ReplaceEach(s, pairs, n - 1);
      var p, x := pairs[n - 1].0, pairs[n - 1].1;
      assert PlaceholderLike(p) && RestorationLike(x);
      forall i | 0 <= i < n
        ensures !Contains(ReplaceEach(s, pairs, n), pairs[i].0)
      {
        var q := pairs[i].0;
        assert PlaceholderLike(q);
        if i < n - 1 {
          assert forall j :: !OccursAt(prev, j, q);
        }
        NoOccurrenceAfterReplace(prev, p, x, q);
      }
    }
  }

  /** With no whole-word occurrence of `t` left, the replacement copies its input. */
  lemma {:induction false} ReplaceWholeWordFromUnchanged(s: string, t: string, ph: string, i: int)
    requires |t| > 0 && 0 <= i <= |s|
    requires forall j :: i <= j <= |s| ==> !WholeWordAt(s, j, t)
    ensures ReplaceWholeWordFrom(s, t, ph, i) == s[i..]
    decreases |s| - i
  {
    if i < |s| {
      ReplaceWholeWordFromUnchanged(s, t, ph, i + 1);
      assert s[i..] == [s[i]] + s[i + 1..];
    }
  }

  lemma ReplaceWholeWordUnchanged(s: string, t: string, ph: string)
    requires |t| > 0 && forall j :: !WholeWordAt(s, j, t)
    ensures ReplaceWholeWord(s, t, ph) == s
  {
    ReplaceWholeWordFromUnchanged(s, t, ph, 0);
  }

  /** The `i` flag: spellings of a term that differ only in case match at the same places. */
  lemma WholeWordAtIgnoresCase(s: string, j: int, a: string, b: string)
    requires Lower(a) == Lower(b)
    ensures WholeWordAt(s, j, a) <==> WholeWordAt(s, j, b)
  {
    assert |a| == |b|;
    forall k | 0 <= k < |a|
      ensures LowerChar(a[k]) == LowerChar(b[k])
    {
      assert Lower(a)[k] == Lower(b)[k];
    }
  }
}
