# bio-chat translation pipeline, modelled in Dafny

bio-chat is a medical chat assistant built with Next.js. This project models its core:

- **The bilingual pipeline** in `lib/translation.ts`:
  - A user message that does not look English is translated to English before it reaches the
    chat model.
  - The assistant's English reply is translated to Vietnamese.
  - Before that translation, medical terms are swapped for `__MEDICAL_TERM_<n>__` placeholders.
  - After it, each placeholder becomes "Vietnamese gloss (English term)".
- **The chat endpoint** `POST /api/chat`:
  - validation of the request;
  - the usage gate and the message counter;
  - the English rewrite of the last user message;
  - logging, the model lookup, and the choice of system prompt and API key;
  - the `onFinish` callback, which stores the reply with its Vietnamese translation appended.
- **The translation endpoint** `POST /api/translate`.
- **The e-mail sign-up handler** of the sign-up page.
- **The default-user seed table** and its environment check.

Modules, one per concern:

| module | file | what it holds |
|---|---|---|
| `Effects` | effects.dfy | `Option`, `Call` (returned or threw), `Reply` and `LanguageModel`. The model is a function from (prompt, maxTokens) to a reply. |
| `JsStrings` | js_strings.dfy | The JavaScript string operations the core relies on: UTF-16 `length`, `trim`, `toLowerCase`, `includes`/`startsWith`/`endsWith`, and number-to-string. |
| `Placeholders` | placeholders.dfy | The placeholder strings, shown to be distinct, made of word characters, and never contained in one another. |
| `Replacement` | replacement.dfy | `String.prototype.replace` with a global regular expression. Two forms: case-insensitive whole-word (`\bterm\b`, flags `gi`) and plain text (flag `g`). |
| `TermScan` | term_scan.dfy | How a global `\b(…)\b` over a list of alternatives, with flags `gi`, scans a text: the alternative picked at a position, the matches, and that they are in order and skip nothing. |
| `MedicalTerms` | medical_terms.dfy | `MEDICAL_TERMS_PATTERN`'s 151 alternatives, the 56-entry glossary, `getVietnameseMedicalTerm`, and `text.match` with that pattern. |
| `Translation` | translation.dfy | `isLikelyEnglish`, `translateToEnglish` and `translateToVietnamese`. The last is a method with the source's two loops, proved equal to a specification function. |
| `TranslateRoute` | translate_route.dfy | `POST /api/translate`. |
| `ChatRoute` | chat_route.dfy | `POST /api/chat` and `onFinish`. Both are methods; each returns a ghost trace of the calls it makes into the rest of the system. |
| `SignUp` | signup.dfy | The sign-up page's state as a class, with `handleSignUpWithEmail` as its method. |
| `DefaultUsers` | default_users.dfy | `DEFAULT_USERS`, `REQUIRED_ENV_VARS` and `validateEnvironment`. |

Modelling choices:

- **JavaScript semantics modelled explicitly:**
  - `length` counts UTF-16 code units. A character above U+FFFF counts twice.
  - `trim` removes the ECMAScript white-space and line-terminator set.
  - `\b` is a boundary between a character of `[A-Za-z0-9_]` and one outside it.
  - The `i` flag and `toLowerCase` are modelled as ASCII case folding:
    - For the `i` flag this is exact. Without the `u` flag, JavaScript never folds a non-ASCII character onto an ASCII one.
    - For `toLowerCase` it misses U+212A KELVIN SIGN (lowered to `k`) and U+0130 (lowered to `i` plus a combining dot). A glossary lookup of a term spelled with these is not modelled.
  - `asciiRatio > 0.8` is decided as `5 * ascii > 4 * length`. This is exact for every string length, and an empty text (`0/0`, NaN) is not English, as in JavaScript.
- **`text.match(MEDICAL_TERMS_PATTERN)`** scans left to right. At each position it takes the first alternative, in source order, that is a whole word there. After a match the scan resumes past it; otherwise it moves on one position. This is how a backtracking regular-expression engine treats `\b(a|b|…)\b`.
- **The `Map` of placeholders** is an insertion-ordered list of pairs. `Map.prototype.set` replaces a value in place or appends.
- **The glossary as a parameter:** the restoring step (`Translation.RestorePlaceholders`, `Translation.Restored`) takes the `medicalTranslations` record as an argument, and `translateToVietnamese` passes the record. The lemmas about restoring hold for every record whose entries are non-empty and free of `_`, which `MedicalTerms.GlossaryWellFormed` shows of the record itself.

Behaviour of the code worth noting:

- `!messages` lets an empty message array through: arrays are truthy. `ChatRoute.EmptyMessagesAccepted` states this.
- The `try`/`catch` around `translateToEnglish` in the chat route never catches anything. `translateToEnglish` itself returns the original text on any failure.
- The `catch` in `onFinish` can only be reached by a failing store of the bilingual list. `translateToVietnamese` never throws.
- A medical term that recurs with different case does not keep each spelling:
  - The first occurrence's case-insensitive replacement already swaps every later occurrence for the first placeholder.
  - All of them come back as the first occurrence's spelling, and the later placeholders are never used.
  - `Translation.RepeatIsNoOp` states this.
- There is no output sanitiser anywhere in these files. The only post-processing is the placeholder restoration.

## Model

| member | source | states |
|---|---|---|
| JsStrings.Utf16Length | lib/translation.ts:149 | `text.length` lies between the number of characters and twice that, and equals it when no character is above U+FFFF |
| JsStrings.AsciiCount | lib/translation.ts:149 | the count of characters below 128 is at most the length, and equals it exactly when every character is ASCII |
| JsStrings.Utf16LengthAppend | lib/translation.ts:149 | `length` is additive over concatenation; the empty string has length 0 and one character has length 1, or 2 above U+FFFF |
| JsStrings.AsciiCountAppend | lib/translation.ts:149 | the ASCII count is additive over concatenation; the empty string counts 0 and one character counts 1 exactly when it is below 128 |
| JsStrings.Lower | lib/translation.ts:151 | `toLowerCase` keeps the length and lowers each character on its own |
| JsStrings.Trim | lib/translation.ts:25 | `trim` returns a slice of the input. Everything cut off is white space, and the result neither starts nor ends with white space |
| JsStrings.TrimIdempotent | lib/translation.ts:25 | trimming twice is trimming once |
| JsStrings.NumberToString | lib/translation.ts:48 | the decimal rendering of an index is non-empty and made of digits, with at least two digits from 10 on |
| JsStrings.NumberToStringInjective | lib/translation.ts:48 | two indices with the same rendering are equal |
| Placeholders.Placeholder | lib/translation.ts:48 | `__MEDICAL_TERM_${index}__` starts and ends with `_`, is made of word characters, has no space, and has the length of its three parts |
| Placeholders.PlaceholderInjective | lib/translation.ts:47-49 | different indices give different placeholders, so each `Map.set` adds a new key |
| Placeholders.PlaceholderNotInfix | lib/translation.ts:66-71 | no placeholder occurs inside a different one, so restoring one never touches another |
| Replacement.NoWholeWordAfterReplace | lib/translation.ts:50 | after the case-insensitive whole-word replacement of a term, no whole-word occurrence of that term (or of one it subsumes) is left |
| Replacement.ReplaceWholeWordUnchanged | lib/translation.ts:50 | a text with no whole-word occurrence of the term is returned unchanged |
| Replacement.WholeWordAtIgnoresCase | lib/translation.ts:50 | whole-word matching with the `i` flag depends only on the lower-cased term |
| Replacement.NoOccurrenceAfterReplace | lib/translation.ts:68-71 | after the global replacement of a placeholder by text without `_`, no occurrence of the placeholder remains |
| Replacement.InsertedWhenPresent | lib/translation.ts:68-71 | when the placeholder occurs, its replacement text appears in the result |
| Replacement.CopiedWhenNoOccurrence | lib/translation.ts:68-71 | where no occurrence of the pattern starts, the global replacement copies the input verbatim |
| Replacement.PlaceholderBeforeWindow | lib/translation.ts:68-71 | an occurrence of a placeholder (opening and closing with `_`, no space) that starts before a text holding a space and no `_` ends before that text |
| Replacement.WindowKept | lib/translation.ts:68-71 | a text holding a space and no `_` that occurs in the input still occurs after replacing a placeholder |
| Replacement.KeptThroughReplaceEach | lib/translation.ts:66-72 | in a run of global replacements of placeholder patterns, a pattern present when its turn comes is replaced, and a replacement holding a space and no `_` survives every later step |
| Replacement.NoPatternLeftAfterReplaceEach | lib/translation.ts:66-72 | after a run of global replacements of placeholder patterns by texts with a space and no `_`, none of the patterns handled remains |
| MedicalTerms.VocabularyWellFormed | lib/translation.ts:5 | every alternative of the pattern is non-empty, lower case, starts and ends with a word character, and has no `_` |
| MedicalTerms.GlossaryWellFormed | lib/translation.ts:84-141 | every gloss is non-empty and has no `_` |
| MedicalTerms.GlossaryKeysInVocabulary | lib/translation.ts:5-141 | every glossary key is one of the pattern's alternatives |
| MedicalTerms.AntibioticEntry | lib/translation.ts:85 | the glossary maps `antibiotic` to `thuốc kháng sinh` |
| MedicalTerms.GlossTerm | lib/translation.ts:143 | for a record whose entries are non-empty, the entry of the lower-cased term when there is one, otherwise the term as given |
| MedicalTerms.GetVietnameseMedicalTerm | lib/translation.ts:83-144 | the gloss of the lower-cased term when the glossary has it, otherwise the term as given |
| MedicalTerms.GlossaryLookupIgnoresCase | lib/translation.ts:143 | two spellings of a glossed term that lower-case alike get the same gloss |
| MedicalTerms.GlossHasNoUnderscore | lib/translation.ts:143 | with a record whose entries are non-empty and free of `_`, a term without `_` gets a gloss without `_` |
| MedicalTerms.AntibioticGloss | lib/translation.ts:143 | any casing of `antibiotic` is glossed `thuốc kháng sinh` |
| TermScan.FirstTermAt | lib/translation.ts:5 | the alternation picks one of the alternatives, and it fits inside the text at that position |
| TermScan.FirstTermAtFits | lib/translation.ts:5 | the picked alternative stands at the position as a whole word (`\b…\b`, ignoring case) |
| TermScan.FirstTermAtIsFirst | lib/translation.ts:5 | the picked alternative is the first in source order that is a whole word there; nothing is picked exactly when no alternative is |
| TermScan.MatchesFromSlices | lib/translation.ts:46 | each match of the global scan is the text itself at its position (the text's spelling, not the pattern's), as long as the alternative picked there |
| TermScan.PositionsFrom | lib/translation.ts:46 | a scan started at a position finds matches only from that position on |
| TermScan.MatchesFromInOrder | lib/translation.ts:46 | the matches follow one another left to right without overlapping |
| TermScan.MatchesFromComplete | lib/translation.ts:46 | every position where an alternative stands as a whole word lies inside some match: the scan skips none |
| TermScan.ScanEmptyIff | lib/translation.ts:46 | the scan finds nothing exactly when no alternative stands as a whole word anywhere |
| TermScan.VocabularyNonEmpty | lib/translation.ts:5 | a vocabulary of term-shaped entries has no empty alternative |
| TermScan.MatchedSliceIsFoundTerm | lib/translation.ts:5 | what an alternative matches is that alternative up to case, and term-shaped |
| TermScan.MatchesAreFoundTerms | lib/translation.ts:46 | every match of the scan is an alternative up to case, starting and ending with a letter and without `_` |
| MedicalTerms.PatternTermsNonEmpty | lib/translation.ts:5 | no alternative of `MEDICAL_TERMS_PATTERN` is empty |
| MedicalTerms.FindMatches | lib/translation.ts:46 | every element of `text.match(MEDICAL_TERMS_PATTERN)`, or of the empty list when it finds nothing, is a vocabulary term up to case |
| MedicalTerms.FindMatchesAreSlices | lib/translation.ts:46 | the matches of the whole text are slices of it at increasing, non-overlapping positions, each as long as the alternative picked there |
| MedicalTerms.FindMatchesComplete | lib/translation.ts:46 | no position where a pattern alternative stands as a whole word is skipped |
| MedicalTerms.FindMatchesNoneIff | lib/translation.ts:46 | `match` finds nothing, so the list is empty, exactly when no alternative stands anywhere in the text as a whole word |
| Translation.EnglishWordCount | lib/translation.ts:150-152 | the filter keeps at most all the words, and some word is kept exactly when one occurs as a word (inside, leading or trailing) |
| Translation.IsLikelyEnglishIff | lib/translation.ts:147-156 | a text is English exactly when more than 80% of it is ASCII and one of the twenty common words occurs as a word |
| Translation.NoSpaceNotEnglish | lib/translation.ts:152-155 | a text without a space is never taken for English |
| Translation.ShortTextsNotEnglish | lib/translation.ts:149-155 | the empty text and the bare word `the` are not English |
| Translation.TranslateToEnglish | lib/translation.ts:8-13 | English-looking text is returned as it is |
| Translation.EnglishNeedsNoModel | lib/translation.ts:11-13 | for English-looking text the result is the same whatever the model |
| Translation.TranslateToEnglishFailOpen | lib/translation.ts:26-30 | when generation fails the original text is returned |
| Translation.TranslateToEnglishTrims | lib/translation.ts:25 | otherwise the result is the trimmed model output |
| Translation.MapSet | lib/translation.ts:49 | `Map.set` appends a new key and replaces the value of an existing key in place |
| Translation.MedicalTermEntries | lib/translation.ts:47-51 | after the first loop the map holds, in order, placeholder *i* for the *i*-th match |
| Translation.TranslateToVietnamese | lib/translation.ts:34-80 | the two loops compute the specification: protect the terms, translate, trim, and restore each placeholder as "gloss (term)" |
| Translation.RestorePlaceholders | lib/translation.ts:66-72 | the second loop leaves the text with every placeholder of the map, in insertion order, replaced by "gloss (term)" for its term, as the specification `Restored` states |
| Translation.VietnameseFailOpen | lib/translation.ts:76-79 | when generation fails the original text is returned |
| Translation.ProtectedTextHasNoMatchedTerm | lib/translation.ts:46-51 | the text sent to the model has no whole-word occurrence of any matched term |
| Translation.RepeatIsNoOp | lib/translation.ts:47-51 | a match that repeats an earlier one up to case changes nothing, so its placeholder never appears |
| Translation.RestorationShape | lib/translation.ts:70 | with a record whose entries are non-empty and free of `_`, "gloss (term)" has no `_` and contains a space |
| Translation.MedicalTermKeys | lib/translation.ts:47-51 | the patterns the second loop replaces are the placeholders, in order, each opening and closing with `_` and holding no space |
| Translation.MedicalTermRestorations | lib/translation.ts:66-72 | every text the second loop puts in for a matched term has a space and no `_` |
| Translation.RestoredHasNoPlaceholder | lib/translation.ts:66-72 | after the second loop none of the placeholders handled so far remains |
| Translation.NoLeftoverPlaceholder | lib/translation.ts:46-75 | the Vietnamese result contains none of the placeholders of its matches |
| Translation.KeptPlaceholderRestored | lib/translation.ts:66-72 | a placeholder present when its restoration step runs becomes "gloss (term)", and every later step keeps that text |
| Translation.TermRestored | lib/translation.ts:46-75 | for any match *i*, if its placeholder is in the text when step *i* of the second loop runs, the result contains "gloss (term)" for it |
| Translation.FirstTermRestored | lib/translation.ts:46-75 | a reply that keeps the first placeholder yields "gloss (term)" for the first match, however many matches follow |
| Translation.AntibioticRestoration | lib/translation.ts:70 | `antibiotic` is restored as `thuốc kháng sinh (antibiotic)` |
| TranslateRoute.Post | app/api/translate/route.ts:3-38 | 400 "Text is required" exactly when the body parsed but `text` is not a non-empty string. 500 with the error's message exactly when parsing threw. Otherwise 200 with the Vietnamese translation and the UTF-16 lengths of input and output |
| TranslateRoute.BadRequestNeedsNoModel | app/api/translate/route.ts:7-12 | a rejected body never reaches the model |
| TranslateRoute.ModelFailureGivesOriginal | app/api/translate/route.ts:16-30 | a failing model yields 200 with the text itself and two equal lengths |
| ChatRoute.FindModel | app/api/chat/route.ts:97-98 | `find` returns the first entry with the requested id, or nothing exactly when the model is absent or no entry has that id |
| ChatRoute.FirstEntryWins | app/api/chat/route.ts:98-100 | when two entries share an id, the first decides: one without an SDK hides a later one with an SDK |
| ChatRoute.NormalizedMessages | app/api/chat/route.ts:60-82 | for a last message from the user with string content, the list is the same with that message's content replaced by its English translation (`translateToEnglish`); for any other list it is unchanged |
| ChatRoute.EnglishMessagesUnchanged | app/api/chat/route.ts:64-78 | an English-looking last message leaves the list unchanged |
| ChatRoute.NormalizationFailOpen | app/api/chat/route.ts:64-82 | a failing model leaves the list unchanged |
| ChatRoute.EffectiveSystemPrompt | app/api/chat/route.ts:104 | the request's prompt when it is non-empty, otherwise the default |
| ChatRoute.ProviderKey | app/api/chat/route.ts:106-113 | a key is used only for a signed-in user with a non-empty stored key, and then it is that key |
| ChatRoute.Post | app/api/chat/route.ts:29-216 | the handler's response and its sequence of calls are those of the staged specification `Handle`, applied to the request and its English-normalised messages (`PostResponse`/`PostEvents`); the lemmas below state what that specification promises |
| ChatRoute.StartStream | app/api/chat/route.ts:97-123 | after the calls made so far, the model list is fetched; a missing or SDK-less model ends in `Model … not found`; a signed-in user's key is fetched; otherwise the stream starts, as the specification `Dispatch` states |
| ChatRoute.MissingInformationIff | app/api/chat/route.ts:42-47 | 400 exactly when the body parsed but lacks `messages`, `chatId` or `userId`. Nothing is called then |
| ChatRoute.EmptyMessagesAccepted | app/api/chat/route.ts:42-53 | an empty message array passes the check and reaches usage validation |
| ChatRoute.IncrementGate | app/api/chat/route.ts:49-58 | the message count is incremented exactly when validation gave a client. It is the second call, before any translation, logging or model lookup |
| ChatRoute.LoggedContentIsOriginal | app/api/chat/route.ts:84-95 | the logged content and attachments are the user's original ones, not the English rewrite |
| ChatRoute.LoggedExactlyWithClient | app/api/chat/route.ts:84-95 | with every call answering, the user message is logged exactly when validation gave a client and the last message is the user's |
| ChatRoute.ModelNotFoundIff | app/api/chat/route.ts:97-102 | with every call answering, the error is `Model … not found` exactly when no entry has the id, or the first entry with that id has no SDK; otherwise the stream starts |
| ChatRoute.AbsentModelNotFound | app/api/chat/route.ts:101 | an absent model gives `Model undefined not found` |
| ChatRoute.UndefinedModelMessage | app/api/chat/route.ts:101 | the template prints an absent model as `undefined` |
| ChatRoute.StreamRequestShape | app/api/chat/route.ts:104-123 | the stream gets the requested model, exactly the messages the handler prepared, the request's prompt when it is non-empty and the default otherwise, no tools, ten steps, the request's search flag, and as key the stored provider key (`ProviderKey`: the `getEffectiveApiKey` answer when non-empty) for a signed-in user and none otherwise |
| ChatRoute.PostStreamsEnglishMessages | app/api/chat/route.ts:60-123 | the messages `Post` streams are the request's, with the last one's content replaced by its English translation when it is a user message with string content, and unchanged otherwise |
| ChatRoute.KeyRequestedOnlyWhenAuthenticated | app/api/chat/route.ts:106-113 | the key store is asked only for a signed-in user, as the last call before the stream |
| ChatRoute.BilingualMessages | app/api/chat/route.ts:142-150 | the list keeps its length and every message but the last. The last gets the separator and the Vietnamese text appended |
| ChatRoute.BilingualReplyLayout | app/api/chat/route.ts:142-150 | the stored reply is the English text, then the separator, then the Vietnamese text, with id, role and attachments unchanged |
| ChatRoute.FailedTranslationRepeatsEnglish | app/api/chat/route.ts:137-150 | when the Vietnamese translation fails, the stored reply is the English text twice around the separator |
| ChatRoute.OnFinish | app/api/chat/route.ts:129-186 | the callback's outcome and calls are those of `FinishResult`/`FinishEvents`, taken at the reply's Vietnamese translation; the three lemmas below hold for any translation |
| ChatRoute.NoStoreWithoutClient | app/api/chat/route.ts:152-184 | without a client nothing is stored |
| ChatRoute.StoredListsAreEnhancedOrOriginal | app/api/chat/route.ts:152-184 | with a client a store is attempted. Every stored list is the bilingual list or the original, under the request's chat and message group |
| ChatRoute.FallbackOnlyAfterFailedStore | app/api/chat/route.ts:137-173 | with a client, the reply is first translated, then the bilingual list is stored. If that store answers, nothing else happens. If it throws, the original list is stored next and the callback ends as that second store does |
| SignUp.FormErrorNoneIff | app/auth/signup/page.tsx:58-71 | the form passes exactly when every field is filled, the passwords agree and the password has at least six UTF-16 code units |
| SignUp.EmptyFieldReportedFirst | app/auth/signup/page.tsx:58-61 | an empty field is reported before anything else |
| SignUp.MismatchReportedBeforeLength | app/auth/signup/page.tsx:63-71 | different passwords are reported before their length |
| SignUp.ShortPasswordReported | app/auth/signup/page.tsx:68-71 | filled, equal passwords shorter than six UTF-16 code units are reported as too short |
| SignUp.MinimumLengthIsSix | app/auth/signup/page.tsx:68-71 | six characters pass and five do not |
| SignUp.ThrownError | app/auth/signup/page.tsx:93-96 | the error shown is the thrown message when it is non-empty, and exactly the fixed fallback when it is empty |
| SignUp.SignUpPage.constructor | app/auth/signup/page.tsx:15-20 | the page starts with no error, no success message, not loading |
| SignUp.SignUpPage.HandleSignUpWithEmail | app/auth/signup/page.tsx:50-100 | an unconfigured client or a failing form check only sets its error. A valid form records exactly one sign-up call, made with loading on and error and success cleared. It ends not loading, with a redirect for a confirmed user, the confirmation message for an unconfirmed one, or the thrown error |
| DefaultUsers.ProfileEmailIsLoginEmail | scripts/default-users-config.ts:31-112 | each default user's profile row uses the login e-mail |
| DefaultUsers.DisplayNamesAgree | scripts/default-users-config.ts:31-112 | the auth metadata and the profile agree on each display name |
| DefaultUsers.EmailsDistinct | scripts/default-users-config.ts:31-112 | no two default users share an e-mail |
| DefaultUsers.MissingVars | scripts/default-users-config.ts:121 | the filter keeps exactly the unset or empty variables, in their order |
| DefaultUsers.ValidateEnvironment | scripts/default-users-config.ts:120-126 | valid exactly when nothing is missing. The missing list is the required variables that are unset or empty |
| DefaultUsers.ValidIffBothSet | scripts/default-users-config.ts:115-126 | the environment is valid exactly when both `NEXT_PUBLIC_SUPABASE_URL` and `SUPABASE_SERVICE_ROLE` are set and non-empty |

## Left out

- **Streaming:**
  - Token streaming itself is not modelled: `streamText`, `onError` and `toDataStreamResponse`. `Post` returns the arguments `streamText` is called with.
  - `extractErrorMessage` is not modelled.
  - `maxDuration` is not modelled.
- **Error responses:** the body `createErrorResponse` builds is not modelled. app/api/chat/utils.ts is not part of this model, so `ChatRoute.Post` returns the thrown message only.
- **Provider lookup:** `getProviderForModel` and the dynamic import of the key module are assumed not to throw.
- ChatRoute.StartStream: a throw from `modelConfig.apiSdk(apiKey, { enableSearch })` (app/api/chat/route.ts:119) is not modelled. Once a usable model is found, the stream always starts.
- **Outside calls:**
  - Supabase and the language-model provider are parameters: validation, counting, logging, storage, the key store, sign-up and `generateText`.
  - Their internals and all `console` output are not modelled.
- **Regular expressions:**
  - `MedicalTerms.FindMatches` covers only what `\b(…)\b` with flags `gi` does on this vocabulary.
  - Building a `RegExp` from a term is taken literally. No term has a metacharacter other than `-`, which is literal outside a class.
  - `$` patterns in replacement strings are not interpreted. The only replacement strings are placeholders and "gloss (term)" texts, and neither contains `$`. The model's output is only ever the string searched, never a replacement string.
- **Glossary lookup:** inherited `Object.prototype` keys (`constructor`, `toString`, …) are not looked up.
- **Loading flags:** the `isEmailLoading` value React renders in between is not modelled. `SignUp.SignUpPage.HandleSignUpWithEmail` records the state at the moment of the sign-up call instead.
- **Other code:**
  - `handleSignInWithGoogle` and the JSX of the sign-up page.
  - The script that creates the default users.
  - The login actions, the Vietnamese-translation hook and the Ollama settings section.
- **Translation round trip:** `Translation.TranslateToVietnamese` does not promise that every English term reappears. The model output may drop or alter placeholders, and case-variant repeats collapse onto the first spelling (see `Translation.RepeatIsNoOp`).
