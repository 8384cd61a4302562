/** How a global regular expression `\b(t0|t1|...)\b` with flags `gi` runs over a text, for any
    list of alternatives: which alternative it picks at a position, where it finds its matches,
    and that it finds them in order without skipping any. */
module TermScan {
  import opened Effects
  import opened JsStrings
  import opened Replacement

  /** Every alternative is non-empty, so the scan always moves on. */
  predicate NonEmptyTerms(vocabulary: seq<string>)
  {
    forall t :: t in vocabulary ==> |t| > 0
  }

  /** The first alternative of `terms` that matches `text` at `i` as a whole word, as the
      regular expression's alternation (with backtracking into the closing `\b`) picks it. */
  function FirstTermAt(text: string, i: int, terms: seq<string>): (r: Option<string>)
    requires NonEmptyTerms(terms)
    ensures r.Some? ==> r.value in terms && 0 <= i && i + |r.value| <= |text|
  {
    if terms == [] then None
    else if WholeWordAt(text, i, terms[0]) then Some(terms[0])
    else FirstTermAt(text, i, terms[1..])
  }

  /** The alternative picked fits at `i` as a whole word. */
  lemma {:induction false} FirstTermAtFits(text: string, i: int, terms: seq<string>)
    requires NonEmptyTerms(terms)
    ensures FirstTermAt(text, i, terms).Some? ==> WholeWordAt(text, i, FirstTermAt(text, i, terms).value)
  {
    if terms != [] && !WholeWordAt(text, i, terms[0]) {
      FirstTermAtFits(text, i, terms[1..]);
    }
  }

  /** The alternative picked is the first in source order that fits, and none is picked exactly
      when no alternative fits at `i`. */
  lemma {:induction false} FirstTermAtIsFirst(text: string, i: int, terms: seq<string>)
    requires NonEmptyTerms(terms)
    ensures FirstTermAt(text, i, terms).None? <==> forall t :: t in terms ==> !WholeWordAt(text, i, t)
    ensures FirstTermAt(text, i, terms).Some? ==>
              exists k :: 0 <= k < |terms| && terms[k] == FirstTermAt(text, i, terms).value
                && forall m :: 0 <= m < k ==> !WholeWordAt(text, i, terms[m])
  {
    if terms != [] && !WholeWordAt(text, i, terms[0]) {
      var r := FirstTermAt(text, i, terms[1..]);
      FirstTermAtIsFirst(text, i, terms[1..]);
      assert forall t :: t in terms ==> t == terms[0] || t in terms[1..];
      if r.Some? {
        var k :| 0 <= k < |terms[1..]| && terms[1..][k] == r.value
          && forall m :: 0 <= m < k ==> !WholeWordAt(text, i, terms[1..][m]);
        assert terms[k + 1] == r.value && forall m :: 0 <= m < k + 1 ==> !WholeWordAt(text, i, terms[m]);
      }
    }
  }

  /** The matches of the global regular expression `\b(t0|t1|...)\b` with flags `gi` from index
      `i` on: at each index the first alternative that fits is taken and the scan resumes after
      it; otherwise it moves on by one. */
  function MatchesFrom(text: string, i: nat, vocabulary: seq<string>): seq<string>
    requires i <= |text| && NonEmptyTerms(vocabulary)
    decreases |text| - i
  {
    if i == |text| then []
    else match FirstTermAt(text, i, vocabulary)
      case Some(t) => [text[i..i + |t|]] + MatchesFrom(text, i + |t|, vocabulary)
      case None => MatchesFrom(text, i + 1, vocabulary)
  }

  /** Where the scan of `MatchesFrom` finds its matches, in the same order. */
  function MatchPositionsFrom(text: string, i: nat, vocabulary: seq<string>): seq<nat>
    requires i <= |text| && NonEmptyTerms(vocabulary)
    decreases |text| - i
  {
    if i == |text| then []
    else match FirstTermAt(text, i, vocabulary)
      case Some(t) => [i] + MatchPositionsFrom(text, i + |t|, vocabulary)
      case None => MatchPositionsFrom(text, i + 1, vocabulary)
  }

  /** `m` is the text itself at `p`, as long as the first alternative that fits there as a
      whole word (not the vocabulary's spelling). */
  predicate MatchAt(text: string, p: nat, vocabulary: seq<string>, m: string)
    requires NonEmptyTerms(vocabulary)
  {
    p < |text| && FirstTermAt(text, p, vocabulary).Some?
    && |m| == |FirstTermAt(text, p, vocabulary).value| && p + |m| <= |text| && m == text[p..p + |m|]
  }

  /** Each match is a `MatchAt` its position, from `lo` on. */
  predicate MatchesAreSlices(text: string, lo: nat, vocabulary: seq<string>, r: seq<string>, ps: seq<nat>)
    requires NonEmptyTerms(vocabulary)
  {
    |ps| == |r| && forall k :: 0 <= k < |r| ==> lo <= ps[k] && MatchAt(text, ps[k], vocabulary, r[k])
  }

  /** The matches follow one another without overlapping. */
  predicate MatchesInOrder(r: seq<string>, ps: seq<nat>)
  {
    |ps| == |r| && forall k :: 0 < k < |r| ==> ps[k - 1] + |r[k - 1]| <= ps[k]
  }

  /** Every position from `lo` on where an alternative fits as a whole word lies inside a match:
      the scan skips none. */
  predicate NoMatchSkipped(text: string, lo: nat, vocabulary: seq<string>, r: seq<string>, ps: seq<nat>)
    requires NonEmptyTerms(vocabulary)
  {
    |ps| == |r|
    && forall j :: lo <= j < |text| && FirstTermAt(text, j, vocabulary).Some? ==>
         exists k :: 0 <= k < |r| && ps[k] <= j < ps[k] + |r[k]|
  }

  lemma {:induction false} MatchesFromSlices(text: string, i: nat, vocabulary: seq<string>)
    requires i <= |text| && NonEmptyTerms(vocabulary)
    ensures MatchesAreSlices(text, i, vocabulary, MatchesFrom(text, i, vocabulary), MatchPositionsFrom(text, i, vocabulary))
    decreases |text| - i
  {
    if i < |text| {
      var r, ps := MatchesFrom(text, i, vocabulary), MatchPositionsFrom(text, i, vocabulary);
      var f := FirstTermAt(text, i, vocabulary);
      if f.Some? {
        var n := i + |f.value|;
        MatchesFromSlices(text, n, vocabulary);
        var r', ps' := MatchesFrom(text, n, vocabulary), MatchPositionsFrom(text, n, vocabulary);
        assert r == [text[i..n]] + r' && ps == [i] + ps';
        assert MatchAt(text, i, vocabulary, text[i..n]);
        forall k | 0 < k < |r|
          ensures i <= ps[k] && MatchAt(text, ps[k], vocabulary, r[k])
        {
          assert ps[k] == ps'[k - 1] && r[k] == r'[k - 1];
        }
      } else {
        MatchesFromSlices(text, i + 1, vocabulary);
      }
    }
  }

  lemma {:induction false} PositionsFrom(text: string, i: nat, vocabulary: seq<string>)
    requires i <= |text| && NonEmptyTerms(vocabulary)
    ensures forall k :: 0 <= k < |MatchPositionsFrom(text, i, vocabulary)| ==> i <= MatchPositionsFrom(text, i, vocabulary)[k]
    decreases |text| - i
  {
    if i < |text| {
      var f := FirstTermAt(text, i, vocabulary);
      if f.Some? {
        PositionsFrom(text, i + |f.value|, vocabulary);
      } else {
        PositionsFrom(text, i + 1, vocabulary);
      }
    }
  }

  lemma {:induction false} MatchesFromInOrder(text: string, i: nat, vocabulary: seq<string>)
    requires i <= |text| && NonEmptyTerms(vocabulary)
    ensures MatchesInOrder(MatchesFrom(text, i, vocabulary), MatchPositionsFrom(text, i, vocabulary))
    decreases |text| - i
  {
    if i < |text| {
      var r, ps := MatchesFrom(text, i, vocabulary), MatchPositionsFrom(text, i, vocabulary);
      var f := FirstTermAt(text, i, vocabulary);
      if f.Some? {
        var n := i + |f.value|;
        MatchesFromInOrder(text, n, vocabulary);
        PositionsFrom(text, n, vocabulary);
        var r', ps' := MatchesFrom(text, n, vocabulary), MatchPositionsFrom(text, n, vocabulary);
        assert r == [text[i..n]] + r' && ps == [i] + ps';
        forall k | 0 < k < |r|
          ensures ps[k - 1] + |r[k - 1]| <= ps[k]
        {
          if k > 1 {
            assert ps[k - 1] == ps'[k - 2] && r[k - 1] == r'[k - 2] && ps[k] == ps'[k - 1];
          } else {
            assert ps[1] == ps'[0];
          }
        }
      } else {
        MatchesFromInOrder(text, i + 1, vocabulary);
      }
    }
  }

  lemma {:induction false} MatchesFromComplete(text: string, i: nat, vocabulary: seq<string>)
    requires i <= |text| && NonEmptyTerms(vocabulary)
    ensures NoMatchSkipped(text, i, vocabulary, MatchesFrom(text, i, vocabulary), MatchPositionsFrom(text, i, vocabulary))
    decreases |text| - i
  {
    if i < |text| {
      var r, ps := MatchesFrom(text, i, vocabulary), MatchPositionsFrom(text, i, vocabulary);
      var f := FirstTermAt(text, i, vocabulary);
      if f.Some? {
        var n := i + |f.value|;
        MatchesFromComplete(text, n, vocabulary);
        var r', ps' := MatchesFrom(text, n, vocabulary), MatchPositionsFrom(text, n, vocabulary);
        assert r == [text[i..n]] + r' && ps == [i] + ps';
        forall j | i <= j < |text| && FirstTermAt(text, j, vocabulary).Some?
          ensures exists k :: 0 <= k < |r| && ps[k] <= j < ps[k] + |r[k]|
        {
          if j < n {
            assert ps[0] <= j < ps[0] + |r[0]|;
          } else {
            var k :| 0 <= k < |r'| && ps'[k] <= j < ps'[k] + |r'[k]|;
            assert ps[k + 1] == ps'[k] && r[k + 1] == r'[k];
          }
        }
      } else {
        MatchesFromComplete(text, i + 1, vocabulary);
      }
    }
  }

  /** No alternative fits as a whole word anywhere from `lo` on. */
  predicate NoTermFrom(text: string, lo: nat, vocabulary: seq<string>)
    requires NonEmptyTerms(vocabulary)
  {
    forall j :: lo <= j < |text| ==> FirstTermAt(text, j, vocabulary).None?
  }

  /** The scan finds nothing from `lo` on exactly when no alternative fits anywhere from `lo` on. */
  lemma ScanEmptyIff(text: string, lo: nat, vocabulary: seq<string>)
    requires lo <= |text| && NonEmptyTerms(vocabulary)
    ensures MatchesFrom(text, lo, vocabulary) == [] <==> NoTermFrom(text, lo, vocabulary)
  {
    var r, ps := MatchesFrom(text, lo, vocabulary), MatchPositionsFrom(text, lo, vocabulary);
    if r == [] {
      MatchesFromComplete(text, lo, vocabulary);
      assert forall j :: lo <= j < |text| ==> FirstTermAt(text, j, vocabulary).None?;
    } else {
      MatchesFromSlices(text, lo, vocabulary);
      assert lo <= ps[0] && MatchAt(text, ps[0], vocabulary, r[0]);
      assert !FirstTermAt(text, ps[0], vocabulary).None?;
    }
  }

  /** A vocabulary entry is term-shaped and already in lower case. */
  predicate VocabularyTerm(t: string)
  {
    TermShaped(t) && Lower(t) == t
  }

  /** A matched substring: a term of `vocabulary` up to case, term-shaped. */
  predicate FoundTerm(m: string, vocabulary: seq<string>)
  {
    TermShaped(m) && Lower(m) in vocabulary
  }

  /** What a vocabulary term matches at `i` is a term in its own right. */
  lemma MatchedSliceIsFoundTerm(text: string, i: int, t: string, vocabulary: seq<string>)
    requires t in vocabulary && VocabularyTerm(t) && WholeWordAt(text, i, t)
    ensures FoundTerm(text[i..i + |t|], vocabulary) && Lower(text[i..i + |t|]) == t
  {
    var m := text[i..i + |t|];
    forall k | 0 <= k < |t|
      ensures Lower(m)[k] == t[k]
    {
      assert m[k] == text[i + k];
      assert Lower(t)[k] == t[k];
    }
    assert Lower(m) == t;
    LowerCharKeeps(m[0]);
    LowerCharKeeps(m[|t| - 1]);
    forall k | 0 <= k < |m|
      ensures m[k] != '_'
    {
      LowerCharKeeps(m[k]);
    }
  }

  lemma VocabularyNonEmpty(vocabulary: seq<string>)
    requires forall t :: t in vocabulary ==> VocabularyTerm(t)
    ensures NonEmptyTerms(vocabulary)
  {
    forall t | t in vocabulary
      ensures |t| > 0
    {
      assert VocabularyTerm(t);
    }
  }

  /** Every entry of `vocabulary` is a `VocabularyTerm`. */
  predicate LowerVocabulary(vocabulary: seq<string>)
  {
    forall t :: t in vocabulary ==> VocabularyTerm(t)
  }

  /** Every string of `ms` is a `FoundTerm`. */
  predicate AllFound(ms: seq<string>, vocabulary: seq<string>)
  {
    forall k :: 0 <= k < |ms| ==> FoundTerm(ms[k], vocabulary)
  }

  lemma AllFoundCons(m: string, ms: seq<string>, vocabulary: seq<string>)
    requires FoundTerm(m, vocabulary) && AllFound(ms, vocabulary)
    ensures AllFound([m] + ms, vocabulary)
  {
    forall k | 0 < k < |[m] + ms|
      ensures FoundTerm(([m] + ms)[k], vocabulary)
    {
      assert ([m] + ms)[k] == ms[k - 1];
    }
  }

  /** Every match of the scan is an alternative up to case, and term-shaped. */
  lemma {:induction false} MatchesAreFoundTerms(text: string, i: nat, vocabulary: seq<string>)
    requires i <= |text| && LowerVocabulary(vocabulary)
    ensures NonEmptyTerms(vocabulary)
    ensures AllFound(MatchesFrom(text, i, vocabulary), vocabulary)
    decreases |text| - i
  {
    VocabularyNonEmpty(vocabulary);
    if i < |text| {
      var f := FirstTermAt(text, i, vocabulary);
      if f.Some? {
        var n := i + |f.value|;
        MatchesAreFoundTerms(text, n, vocabulary);
        FirstTermAtFits(text, i, vocabulary);
        assert VocabularyTerm(f.value);
        MatchedSliceIsFoundTerm(text, i, f.value, vocabulary);
        AllFoundCons(text[i..n], MatchesFrom(text, n, vocabulary), vocabulary);
      } else {
        MatchesAreFoundTerms(text, i + 1, vocabulary);
      }
    }
  }
}
