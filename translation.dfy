/** The translation helpers of lib/translation.ts: the English-detection heuristic, the
    translation of a user message to English, and the translation of a reply to Vietnamese
    with its medical terms protected by placeholders and restored as `gloss (term)`.
    The language model (`generateText` with `openproviders("gemma3:4b")`) is a parameter;
    a `GenerationFailed` reply stands for any error thrown inside the `try` blocks. */
module Translation {
  import opened Effects
  import opened JsStrings
  import opened Placeholders
  import opened Replacement
  import opened MedicalTerms
  import opened TermScan

  /** `commonEnglishWords` of `isLikelyEnglish`. */
  const CommonEnglishWords: seq<string> :=
    ["the", "and", "is", "in", "to", "of", "a", "that", "it", "with", "for", "as", "was", "on",
     "are", "you", "this", "be", "at", "have"]

  /** The word test of the `filter`: `" w "` inside, `"w "` at the start or `" w"` at the end. */
  predicate HasWord(lowerText: string, w: string)
  {
    Contains(lowerText, " " + w + " ") || StartsWith(lowerText, w + " ") || EndsWith(lowerText, " " + w)
  }

  /** `englishWordCount`: how many of `words` the lower-cased text holds. */
  function EnglishWordCount(lowerText: string, words: seq<string>): (n: nat)
    ensures n <= |words|
    ensures n > 0 <==> exists k :: 0 <= k < |words| && HasWord(lowerText, words[k])
  {
    if words == [] then 0
    else
      var rest := EnglishWordCount(lowerText, words[1..]);
      assert forall k :: 1 <= k < |words| ==> words[k] == words[1..][k - 1];
      (if HasWord(lowerText, words[0]) then 1 else 0) + rest
  }

  /** More than 80% of the code units are ASCII. `asciiRatio > 0.8` on doubles agrees with this
      exact comparison for every string length JavaScript allows; the empty text gives `NaN`,
      which is not greater than 0.8, and `0 > 0` is false too. */
  predicate MostlyAscii(text: string)
  {
    5 * AsciiCount(text) > 4 * Utf16Length(text)
  }

  /** `isLikelyEnglish`. */
  predicate IsLikelyEnglish(text: string)
  {
    MostlyAscii(text) && EnglishWordCount(Lower(text), CommonEnglishWords) > 0
  }

  /** The heuristic holds exactly when the text is mostly ASCII and one of the common words
      stands in it as the `filter` tests. */
  lemma IsLikelyEnglishIff(text: string)
    ensures IsLikelyEnglish(text) <==>
              MostlyAscii(text) && exists k :: 0 <= k < |CommonEnglishWords| && HasWord(Lower(text), CommonEnglishWords[k])
  {
  }

  /** Each word test needs a space, so a text without one is never taken for English. */
  lemma HasWordNeedsSpace(lowerText: string, w: string)
    requires HasWord(lowerText, w)
    ensures exists k :: 0 <= k < |lowerText| && lowerText[k] == ' '
  {
    if Contains(lowerText, " " + w + " ") {
      var j :| 0 <= j <= |lowerText| - |w| - 2 && OccursAt(lowerText, j, " " + w + " ");
      assert lowerText[j..j + |w| + 2][0] == lowerText[j];
    } else if StartsWith(lowerText, w + " ") {
      assert lowerText[..|w| + 1][|w|] == lowerText[|w|];
    } else {
      var d := |lowerText| - |w| - 1;
      assert lowerText[d..][0] == lowerText[d];
    }
  }

  lemma NoSpaceNotEnglish(text: string)
    requires forall k :: 0 <= k < |text| ==> text[k] != ' '
    ensures !IsLikelyEnglish(text)
  {
    var lower := Lower(text);
    forall k | 0 <= k < |lower|
      ensures lower[k] != ' '
    {
      LowerCharKeeps(text[k]);
    }
    forall w | HasWord(lower, w)
      ensures false
    {
      HasWordNeedsSpace(lower, w);
    }
  }

  /** The empty text and the single word "the" are not English to the heuristic. */
  lemma ShortTextsNotEnglish()
    ensures !IsLikelyEnglish("") && !IsLikelyEnglish("the")
  {
    NoSpaceNotEnglish("");
    NoSpaceNotEnglish("the");
  }

  const EnglishPromptHeader: string :=
    "Translate the following text to English. If it's already in English, return it unchanged. Only return the translation without any explanation:\n\n"

  /** `maxTokens` of the English translation. */
  const EnglishMaxTokens: nat := 1000

  function EnglishPrompt(text: string): string
  {
    EnglishPromptHeader + text
  }

  /** `translateToEnglish`: text that already looks English is returned as it is, without asking
      the model; otherwise the model's output, trimmed; the input itself when the model fails. */
  function TranslateToEnglish(text: string, generate: LanguageModel): (r: string)
    ensures IsLikelyEnglish(text) ==> r == text
  {
    if IsLikelyEnglish(text) then text
    else match generate(EnglishPrompt(text), EnglishMaxTokens)
      case Generated(output) => Trim(output)
      case GenerationFailed(_) => text
  }

  /** English text never reaches the model: any two models give the same, unchanged result. */
  lemma EnglishNeedsNoModel(text: string, generate1: LanguageModel, generate2: LanguageModel)
    requires IsLikelyEnglish(text)
    ensures TranslateToEnglish(text, generate1) == text == TranslateToEnglish(text, generate2)
  {
  }

  /** Fail-open: when the model fails the input comes back unchanged. */
  lemma TranslateToEnglishFailOpen(text: string, generate: LanguageModel)
    requires generate(EnglishPrompt(text), EnglishMaxTokens).GenerationFailed?
    ensures TranslateToEnglish(text, generate) == text
  {
  }

  /** Otherwise the result is the model's output with surrounding whitespace trimmed. */
  lemma TranslateToEnglishTrims(text: string, generate: LanguageModel, output: string)
    requires !IsLikelyEnglish(text) && generate(EnglishPrompt(text), EnglishMaxTokens) == Generated(output)
    ensures TranslateToEnglish(text, generate) == Trim(output)
    ensures TranslateToEnglish(text, generate) == [] || !IsJsWhitespace(TranslateToEnglish(text, generate)[0])
  {
  }

  const VietnamesePromptHeader: string :=
    "Translate the following English text to Vietnamese. Keep any placeholder text (like __MEDICAL_TERM_X__) unchanged. Provide natural, fluent Vietnamese translation:\n\n"

  /** `maxTokens` of the Vietnamese translation. */
  const VietnameseMaxTokens: nat := 2000

  function VietnamesePrompt(processedText: string): string
  {
    VietnamesePromptHeader + processedText
  }

  /** The terms `text.match` returns, term-shaped. */
  predicate MatchList(matches: seq<string>)
  {
    forall k :: 0 <= k < |matches| ==> TermShaped(matches[k])
  }

  /** `processedText` after the first `n` steps of the `forEach`: step `i` replaces every
      whole-word occurrence of `matches[i]`, in any case, by `__MEDICAL_TERM_i__`. */
  function ProtectedText(text: string, matches: seq<string>, n: nat): string
    requires MatchList(matches) && n <= |matches|
  {
    if n == 0 then text
    else ReplaceWholeWord(ProtectedText(text, matches, n - 1), matches[n - 1], Placeholder(n - 1))
  }

  /** The entries of a JavaScript `Map` in insertion order. */
  type MapEntries = seq<(string, string)>

  predicate KeyAbsent(entries: MapEntries, key: string)
  {
    forall i :: 0 <= i < |entries| ==> entries[i].0 != key
  }

  /** `Map.prototype.set`: a new key is appended; an existing key keeps its place and gets the new value. */
  function MapSet(entries: MapEntries, key: string, value: string): (r: MapEntries)
    ensures KeyAbsent(entries, key) ==> r == entries + [(key, value)]
    ensures !KeyAbsent(entries, key) ==>
              |r| == |entries| && forall i :: 0 <= i < |r| ==> r[i] == (if entries[i].0 == key then (key, value) else entries[i])
  {
    if KeyAbsent(entries, key) then entries + [(key, value)]
    else seq(|entries|, i requires 0 <= i < |entries| => if entries[i].0 == key then (key, value) else entries[i])
  }

  /** `medicalTerms` after the first `n` steps: placeholder `i` mapped to `matches[i]`. */
  function MedicalTermEntries(matches: seq<string>, n: nat): (r: MapEntries)
    requires n <= |matches|
    ensures |r| == n && forall i :: 0 <= i < n ==> r[i] == (Placeholder(i), matches[i])
    ensures PlaceholderKeys(r)
  {
    if n == 0 then [] else MedicalTermEntries(matches, n - 1) + [(Placeholder(n - 1), matches[n - 1])]
  }

  /** What a placeholder is restored to, `${getVietnameseMedicalTerm(englishTerm)} (${englishTerm})`,
      for a glossary `glossary` (the proofs about restoring hold for every well-formed glossary,
      which keeps the contents of the record out of them). */
  function RestorationWith(glossary: map<string, string>, englishTerm: string): string
  {
    GlossTerm(glossary, englishTerm) + " (" + englishTerm + ")"
  }

  /** The restoration with the `medicalTranslations` record. */
  function Restoration(englishTerm: string): string
  {
    RestorationWith(Glossary, englishTerm)
  }

  /** The keys of `entries` open and close with `_` and hold no space, as every
      `__MEDICAL_TERM_i__` does. */
  predicate PlaceholderKeys(entries: MapEntries)
  {
    forall i :: 0 <= i < |entries| ==> PlaceholderLike(entries[i].0)
  }

  /** Each placeholder of `entries` paired with the restoration of its term. */
  function RestorationPairs(glossary: map<string, string>, entries: MapEntries): (r: seq<(string, string)>)
    ensures |r| == |entries| && forall i :: 0 <= i < |r| ==> r[i] == (entries[i].0, RestorationWith(glossary, entries[i].1))
    ensures PlaceholderKeys(entries) ==> PlaceholderPatterns(r)
  {
    seq(|entries|, i requires 0 <= i < |entries| => (entries[i].0, RestorationWith(glossary, entries[i].1)))
  }

  /** `translatedText` after the first `n` steps of `medicalTerms.forEach`: every occurrence of
      the `i`-th placeholder replaced by the restoration of its term. */
  function Restored(glossary: map<string, string>, translated: string, entries: MapEntries, n: nat): string
    requires PlaceholderKeys(entries) && n <= |entries|
  {
    ReplaceEach(translated, RestorationPairs(glossary, entries), n)
  }

  /** The prompt `translateToVietnamese` sends for `text`. */
  function VietnamesePromptFor(text: string): string
  {
    var matches := FindMatches(text);
    FoundTermsAreTermShaped(matches);
    VietnamesePrompt(ProtectedText(text, matches, |matches|))
  }

  /** `translateToVietnamese` as one function of the text and the model. */
  function VietnameseTranslation(text: string, generate: LanguageModel): string
  {
    var matches := FindMatches(text);
    match generate(VietnamesePromptFor(text), VietnameseMaxTokens)
      case GenerationFailed(_) => text
      case Generated(output) => Restored(Glossary, Trim(output), MedicalTermEntries(matches, |matches|), |matches|)
  }

  lemma FoundTermsAreTermShaped(matches: seq<string>)
    requires forall k :: 0 <= k < |matches| ==> FoundTerm(matches[k], MedicalTermsPattern)
    ensures MatchList(matches)
  {
  }

  /** The placeholder of step `n` is not yet a key of the map, so `set` appends it. */
  lemma PlaceholderFresh(matches: seq<string>, n: nat)
    requires n <= |matches|
    ensures KeyAbsent(MedicalTermEntries(matches, n), Placeholder(n))
  {
    var entries := MedicalTermEntries(matches, n);
    forall i | 0 <= i < n
      ensures entries[i].0 != Placeholder(n)
    {
      if Placeholder(i) == Placeholder(n) {
        PlaceholderInjective(i, n);
      }
    }
  }

  /** `translateToVietnamese`. The first loop fills `medicalTerms` and protects the terms, the
      second restores the placeholders in the model's trimmed output; a model failure returns
      the input unchanged. */
  method TranslateToVietnamese(text: string, generate: LanguageModel) returns (result: string)
    ensures result == VietnameseTranslation(text, generate)
  {
    var matches := FindMatches(text);
    FoundTermsAreTermShaped(matches);
    var medicalTerms: MapEntries := [];
    var processedText := text;
    var index := 0;
    while index < |matches|
      invariant 0 <= index <= |matches|
      invariant medicalTerms == MedicalTermEntries(matches, index)
      invariant processedText == ProtectedText(text, matches, index)
    {
      var placeholder := Placeholder(index);
      PlaceholderFresh(matches, index);
      medicalTerms := MapSet(medicalTerms, placeholder, matches[index]);
      processedText := ReplaceWholeWord(processedText, matches[index], placeholder);
      index := index + 1;
    }
    assert VietnamesePrompt(processedText) == VietnamesePromptFor(text);
    match generate(VietnamesePrompt(processedText), VietnameseMaxTokens) {
      case GenerationFailed(_) =>
        result := text;
      case Generated(output) =>
        result := RestorePlaceholders(Glossary, Trim(output), medicalTerms);
    }
  }

  /** The second loop of `translateToVietnamese`: `medicalTerms.forEach`, replacing every
      occurrence of each placeholder, in insertion order, by the restoration of its term
      (`getVietnameseMedicalTerm`'s record is passed in as `glossary`). */
  method RestorePlaceholders(glossary: map<string, string>, translated: string, medicalTerms: MapEntries)
    returns (translatedText: string)
    requires PlaceholderKeys(medicalTerms)
    ensures translatedText == Restored(glossary, translated, medicalTerms, |medicalTerms|)
  {
    translatedText := translated;
    var k := 0;
    while k < |medicalTerms|
      invariant 0 <= k <= |medicalTerms|
      invariant translatedText == Restored(glossary, translated, medicalTerms, k)
    {
      var (placeholder, englishTerm) := medicalTerms[k];
      RestoredStep(glossary, translated, medicalTerms, k);
      translatedText := ReplaceAll(translatedText, placeholder, RestorationWith(glossary, englishTerm));
      k := k + 1;
    }
  }

  /** One step of the restoring loop. */
  lemma RestoredStep(glossary: map<string, string>, translated: string, entries: MapEntries, k: nat)
    requires PlaceholderKeys(entries) && k < |entries|
    ensures |entries[k].0| > 0
    ensures Restored(glossary, translated, entries, k + 1)
            == ReplaceAll(Restored(glossary, translated, entries, k), entries[k].0, RestorationWith(glossary, entries[k].1))
  {
    var pairs := RestorationPairs(glossary, entries);
    assert pairs[k] == (entries[k].0, RestorationWith(glossary, entries[k].1));
  }

  /** Fail-open: when the model fails the input comes back unchanged. */
  lemma VietnameseFailOpen(text: string, generate: LanguageModel)
    requires generate(VietnamesePromptFor(text), VietnameseMaxTokens).GenerationFailed?
    ensures VietnameseTranslation(text, generate) == text
  {
  }

  /** After the first loop no matched term, in any case, stands as a whole word in the text sent
      to the model. In particular a repeat of an already replaced term finds nothing left. */
  lemma {:induction false} ProtectedTextHasNoMatchedTerm(text: string, matches: seq<string>, n: nat)
    requires MatchList(matches) && n <= |matches|
    ensures forall m, j :: 0 <= m < n ==> !WholeWordAt(ProtectedText(text, matches, n), j, matches[m])
  {
    if n > 0 {
      ProtectedTextHasNoMatchedTerm(text, matches, n - 1);
      var s := ProtectedText(text, matches, n - 1);
      var b, ph := matches[n - 1], Placeholder(n - 1);
      var r := ReplaceWholeWord(s, b, ph);
      assert r == ProtectedText(text, matches, n);
      forall m, j | 0 <= m < n
        ensures !WholeWordAt(r, j, matches[m])
      {
        NoWholeWordAfterReplace(s, b, ph, matches[m]);
      }
    }
  }

  /** A later repeat of a term, in any case, leaves the text as it was: its placeholder never
      reaches the model, and the first occurrence's spelling is the one restored everywhere. */
  lemma RepeatIsNoOp(text: string, matches: seq<string>, m: nat, n: nat)
    requires MatchList(matches) && m < n < |matches| && Lower(matches[m]) == Lower(matches[n])
    ensures ProtectedText(text, matches, n + 1) == ProtectedText(text, matches, n)
  {
    var s := ProtectedText(text, matches, n);
    ProtectedTextHasNoMatchedTerm(text, matches, n);
    forall j
      ensures !WholeWordAt(s, j, matches[n])
    {
      WholeWordAtIgnoresCase(s, j, matches[m], matches[n]);
    }
    ReplaceWholeWordUnchanged(s, matches[n], Placeholder(n));
  }

  /** A restoration holds a space and no `_`. */
  lemma RestorationShape(glossary: map<string, string>, term: string)
    requires WellFormedGlossary(glossary) && TermShaped(term)
    ensures RestorationLike(RestorationWith(glossary, term))
  {
    GlossHasNoUnderscore(glossary, term);
    var g := GlossTerm(glossary, term);
    assert RestorationWith(glossary, term)[|g|] == ' ';
  }

  /** The patterns restored are the placeholders, each placeholder-like. */
  lemma MedicalTermKeys(glossary: map<string, string>, matches: seq<string>)
    ensures PlaceholderPatterns(RestorationPairs(glossary, MedicalTermEntries(matches, |matches|)))
    ensures forall i :: 0 <= i < |matches| ==>
              RestorationPairs(glossary, MedicalTermEntries(matches, |matches|))[i].0 == Placeholder(i)
  {
  }

  /** Every restoration of a matched term is restoration-like. */
  lemma MedicalTermRestorations(glossary: map<string, string>, matches: seq<string>)
    requires WellFormedGlossary(glossary) && MatchList(matches)
    ensures RestorationTexts(RestorationPairs(glossary, MedicalTermEntries(matches, |matches|)))
  {
    var pairs := RestorationPairs(glossary, MedicalTermEntries(matches, |matches|));
    forall k | 0 <= k < |pairs|
      ensures RestorationLike(pairs[k].1)
    {
      assert pairs[k].1 == RestorationWith(glossary, matches[k]);
      RestorationShape(glossary, matches[k]);
    }
  }

  /** After the first `n` restoration steps none of the first `n` placeholders is left. */
  lemma RestoredHasNoPlaceholder(glossary: map<string, string>, translated: string, matches: seq<string>, n: nat)
    requires WellFormedGlossary(glossary) && MatchList(matches) && n <= |matches|
    ensures forall i :: 0 <= i < n ==>
              !Contains(Restored(glossary, translated, MedicalTermEntries(matches, |matches|), n), Placeholder(i))
  {
    var pairs := RestorationPairs(glossary, MedicalTermEntries(matches, |matches|));
    MedicalTermKeys(glossary, matches);
    MedicalTermRestorations(glossary, matches);
    NoPatternLeftAfterReplaceEach(translated, pairs, n);
  }

  /** When the model answers, no `__MEDICAL_TERM_i__` of this translation is left in the result. */
  lemma NoLeftoverPlaceholder(text: string, generate: LanguageModel, output: string, i: nat)
    requires generate(VietnamesePromptFor(text), VietnameseMaxTokens) == Generated(output)
    requires i < |FindMatches(text)|
    ensures !Contains(VietnameseTranslation(text, generate), Placeholder(i))
  {
    var matches := FindMatches(text);
    FoundTermsAreTermShaped(matches);
    GlossaryWellFormed();
    RestoredHasNoPlaceholder(Glossary, Trim(output), matches, |matches|);
  }

  /** A placeholder still present when its turn comes is restored, and the restoration survives
      every later step: those replace placeholders, which open and close with `_` and hold no
      space, so none can overlap a restoration, which holds a space and no `_`. */
  lemma KeptPlaceholderRestored(glossary: map<string, string>, translated: string, matches: seq<string>, i: nat, n: nat)
    requires WellFormedGlossary(glossary) && MatchList(matches) && i < n <= |matches|
    requires Contains(Restored(glossary, translated, MedicalTermEntries(matches, |matches|), i), Placeholder(i))
    ensures Contains(Restored(glossary, translated, MedicalTermEntries(matches, |matches|), n), RestorationWith(glossary, matches[i]))
  {
    var pairs := RestorationPairs(glossary, MedicalTermEntries(matches, |matches|));
    MedicalTermKeys(glossary, matches);
    assert pairs[i].1 == RestorationWith(glossary, matches[i]);
    RestorationShape(glossary, matches[i]);
    KeptThroughReplaceEach(translated, pairs, i, n);
  }

  /** When the model answers and the `i`-th placeholder is in its reply by the time the `i`-th
      restoration step runs, the result shows that term as `gloss (term)`. */
  lemma TermRestored(text: string, generate: LanguageModel, output: string, i: nat)
    requires generate(VietnamesePromptFor(text), VietnameseMaxTokens) == Generated(output)
    requires i < |FindMatches(text)|
    requires Contains(Restored(Glossary, Trim(output), MedicalTermEntries(FindMatches(text), |FindMatches(text)|), i), Placeholder(i))
    ensures Contains(VietnameseTranslation(text, generate), Restoration(FindMatches(text)[i]))
  {
    var matches := FindMatches(text);
    FoundTermsAreTermShaped(matches);
    GlossaryWellFormed();
    KeptPlaceholderRestored(Glossary, Trim(output), matches, i, |matches|);
  }

  /** In particular, a reply that keeps the first placeholder shows the first term as
      `gloss (term)`, however many terms follow. */
  lemma FirstTermRestored(text: string, generate: LanguageModel, output: string)
    requires generate(VietnamesePromptFor(text), VietnameseMaxTokens) == Generated(output)
    requires |FindMatches(text)| >= 1 && Contains(Trim(output), Placeholder(0))
    ensures Contains(VietnameseTranslation(text, generate), Restoration(FindMatches(text)[0]))
  {
    TermRestored(text, generate, output, 0);
  }

  /** "antibiotic" surfaces as "thuốc kháng sinh (antibiotic)". */
  lemma AntibioticRestoration()
    ensures Restoration("antibiotic") == "thuốc kháng sinh (antibiotic)"
  {
    AntibioticGloss("antibiotic");
    AntibioticRestorationText();
  }

  /** The restoration of "antibiotic", spelled out (a lemma of its own, away from the glossary). */
  lemma AntibioticRestorationText()
    ensures "thuốc kháng sinh" + " (" + "antibiotic" + ")" == "thuốc kháng sinh (antibiotic)"
  {
  }
}
