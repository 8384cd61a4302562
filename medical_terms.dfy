/** The medical vocabulary of lib/translation.ts: the alternatives of `MEDICAL_TERMS_PATTERN`
    (in their order, the repeated "surgery" included), the glossary behind
    `getVietnameseMedicalTerm`, and how `text.match(MEDICAL_TERMS_PATTERN)` finds terms. */
module MedicalTerms {
  import opened Effects
  import opened JsStrings
  import opened Replacement
  import opened TermScan

  /** The alternatives of `/\b(...)\b/gi`, in the order the regular expression tries them
      (written in groups of eight, which keeps the proofs about them small). */
  const MedicalTermsPattern: seq<string> :=
    Alternatives0 + Alternatives1 + Alternatives2 + Alternatives3 + Alternatives4 +
    Alternatives5 + Alternatives6 + Alternatives7 + Alternatives8 + Alternatives9 +
    Alternatives10 + Alternatives11 + Alternatives12 + Alternatives13 + Alternatives14 +
    Alternatives15 + Alternatives16 + Alternatives17 + Alternatives18

  const Alternatives0: seq<string> := ["antibiotic", "antibiotics", "medication", "medicine", "drug", "drugs", "prescription", "dose"]
  const Alternatives1: seq<string> := ["dosage", "symptom", "symptoms", "diagnosis", "treatment", "therapy", "surgery", "hospital"]
  const Alternatives2: seq<string> := ["doctor", "physician", "nurse", "patient", "disease", "illness", "infection", "virus"]
  const Alternatives3: seq<string> := ["bacteria", "cancer", "diabetes", "hypertension", "blood pressure", "heart rate", "temperature", "fever"]
  const Alternatives4: seq<string> := ["pain", "headache", "migraine", "asthma", "pneumonia", "bronchitis", "flu", "covid"]
  const Alternatives5: seq<string> := ["coronavirus", "vaccine", "vaccination", "immune", "immunity", "allergy", "allergic", "chronic"]
  const Alternatives6: seq<string> := ["acute", "syndrome", "disorder", "condition", "medical", "clinical", "pharmaceutical", "pharmacology"]
  const Alternatives7: seq<string> := ["pathology", "radiology", "cardiology", "neurology", "oncology", "pediatric", "geriatric", "anesthesia"]
  const Alternatives8: seq<string> := ["surgery", "surgical", "operation", "procedure", "biopsy", "scan", "x-ray", "mri"]
  const Alternatives9: seq<string> := ["ct scan", "ultrasound", "ecg", "ekg", "blood test", "urine test", "cholesterol", "glucose"]
  const Alternatives10: seq<string> := ["insulin", "hormone", "vitamin", "mineral", "supplement", "tablet", "capsule", "injection"]
  const Alternatives11: seq<string> := ["intravenous", "oral", "topical", "inhaler", "nebulizer", "stethoscope", "thermometer", "syringe"]
  const Alternatives12: seq<string> := ["bandage", "wound", "cut", "bruise", "fracture", "sprain", "strain", "burn"]
  const Alternatives13: seq<string> := ["rash", "swelling", "inflammation", "bleeding", "nausea", "vomiting", "diarrhea", "constipation"]
  const Alternatives14: seq<string> := ["fatigue", "dizziness", "shortness of breath", "chest pain", "abdominal pain", "back pain", "joint pain", "muscle pain"]
  const Alternatives15: seq<string> := ["side effects", "adverse reaction", "contraindication", "indication", "prognosis", "recovery", "rehabilitation", "physical therapy"]
  const Alternatives16: seq<string> := ["occupational therapy", "mental health", "depression", "anxiety", "stress", "insomnia", "sleep disorder", "eating disorder"]
  const Alternatives17: seq<string> := ["substance abuse", "addiction", "withdrawal", "detox", "overdose", "emergency", "urgent care", "icu"]
  const Alternatives18: seq<string> := ["intensive care", "ambulance", "paramedic", "first aid", "cpr", "aed", "defibrillator"]

  /** The `medicalTranslations` record, keyed by lower-case English term (written in groups
      of eight, which keeps the proofs about it small; the keys of the groups are disjoint). */
  const Glossary: map<string, string> :=
    GlossaryPart0 + GlossaryPart1 + GlossaryPart2 + GlossaryPart3 +
    GlossaryPart4 + GlossaryPart5 + GlossaryPart6

  const GlossaryPart0: map<string, string> := map[
    "antibiotic" := "thuốc kháng sinh",
    "antibiotics" := "thuốc kháng sinh",
    "medication" := "thuốc",
    "medicine" := "thuốc",
    "drug" := "thuốc",
    "drugs" := "thuốc",
    "prescription" := "đơn thuốc",
    "dose" := "liều"
  ]
  const GlossaryPart1: map<string, string> := map[
    "dosage" := "liều lượng",
    "symptom" := "triệu chứng",
    "symptoms" := "triệu chứng",
    "diagnosis" := "chẩn đoán",
    "treatment" := "điều trị",
    "therapy" := "liệu pháp",
    "surgery" := "phẫu thuật",
    "hospital" := "bệnh viện"
  ]
  const GlossaryPart2: map<string, string> := map[
    "doctor" := "bác sĩ",
    "physician" := "bác sĩ",
    "nurse" := "y tá",
    "patient" := "bệnh nhân",
    "disease" := "bệnh",
    "illness" := "bệnh tật",
    "infection" := "nhiễm trùng",
    "virus" := "vi-rút"
  ]
  const GlossaryPart3: map<string, string> := map[
    "bacteria" := "vi khuẩn",
    "cancer" := "ung thư",
    "diabetes" := "tiểu đường",
    "hypertension" := "tăng huyết áp",
    "blood pressure" := "huyết áp",
    "heart rate" := "nhịp tim",
    "temperature" := "nhiệt độ",
    "fever" := "sốt"
  ]
  const GlossaryPart4: map<string, string> := map[
    "pain" := "đau",
    "headache" := "đau đầu",
    "migraine" := "đau nửa đầu",
    "asthma" := "hen suyễn",
    "pneumonia" := "viêm phổi",
    "bronchitis" := "viêm phế quản",
    "flu" := "cúm",
    "covid" := "COVID"
  ]
  const GlossaryPart5: map<string, string> := map[
    "coronavirus" := "vi-rút corona",
    "vaccine" := "vắc-xin",
    "vaccination" := "tiêm chủng",
    "immune" := "miễn dịch",
    "immunity" := "miễn dịch",
    "allergy" := "dị ứng",
    "allergic" := "dị ứng",
    "chronic" := "mãn tính"
  ]
  const GlossaryPart6: map<string, string> := map[
    "acute" := "cấp tính",
    "syndrome" := "hội chứng",
    "disorder" := "rối loạn",
    "condition" := "tình trạng",
    "medical" := "y tế",
    "clinical" := "lâm sàng",
    "emergency" := "cấp cứu",
    "first aid" := "sơ cứu"
  ]

  predicate IsLowerLetter(c: char)
  {
    'a' <= c <= 'z'
  }

  /** How every vocabulary entry is spelled: lower-case letters, with spaces or hyphens inside. */
  predicate LowerTermSpelling(t: string)
  {
    |t| > 0 && IsLowerLetter(t[0]) && IsLowerLetter(t[|t| - 1])
    && forall k :: 0 <= k < |t| ==> IsLowerLetter(t[k]) || t[k] == ' ' || t[k] == '-'
  }

  lemma Alternatives0Spelling()
    ensures forall t :: t in Alternatives0 ==> LowerTermSpelling(t)
  {
  }

  lemma Alternatives1Spelling()
    ensures forall t :: t in Alternatives1 ==> LowerTermSpelling(t)
  {
  }

  lemma Alternatives2Spelling()
    ensures forall t :: t in Alternatives2 ==> LowerTermSpelling(t)
  {
  }

  lemma Alternatives3Spelling()
    ensures forall t :: t in Alternatives3 ==> LowerTermSpelling(t)
  {
  }

  lemma Alternatives4Spelling()
    ensures forall t :: t in Alternatives4 ==> LowerTermSpelling(t)
  {
  }

  lemma Alternatives5Spelling()
    ensures forall t :: t in Alternatives5 ==> LowerTermSpelling(t)
  {
  }

  lemma Alternatives6Spelling()
    ensures forall t :: t in Alternatives6 ==> LowerTermSpelling(t)
  {
  }

  lemma Alternatives7Spelling()
    ensures forall t :: t in Alternatives7 ==> LowerTermSpelling(t)
  {
  }

  lemma Alternatives8Spelling()
    ensures forall t :: t in Alternatives8 ==> LowerTermSpelling(t)
  {
  }

  lemma Alternatives9Spelling()
    ensures forall t :: t in Alternatives9 ==> LowerTermSpelling(t)
  {
  }

  lemma Alternatives10Spelling()
    ensures forall t :: t in Alternatives10 ==> LowerTermSpelling(t)
  {
  }

  lemma Alternatives11Spelling()
    ensures forall t :: t in Alternatives11 ==> LowerTermSpelling(t)
  {
  }

  lemma Alternatives12Spelling()
    ensures forall t :: t in Alternatives12 ==> LowerTermSpelling(t)
  {
  }

  lemma Alternatives13Spelling()
    ensures forall t :: t in Alternatives13 ==> LowerTermSpelling(t)
  {
  }

  lemma Alternatives14Spelling()
    ensures forall t :: t in Alternatives14 ==> LowerTermSpelling(t)
  {
  }

  lemma Alternatives15Spelling()
    ensures forall t :: t in Alternatives15 ==> LowerTermSpelling(t)
  {
  }

  lemma Alternatives16Spelling()
    ensures forall t :: t in Alternatives16 ==> LowerTermSpelling(t)
  {
  }

  lemma Alternatives17Spelling()
    ensures forall t :: t in Alternatives17 ==> LowerTermSpelling(t)
  {
  }

  lemma Alternatives18Spelling()
    ensures forall t :: t in Alternatives18 ==> LowerTermSpelling(t)
  {
  }

  /** The spelling of the vocabulary makes its entries term-shaped and lower case. */
  lemma SpellingIsVocabularyTerm(t: string)
    requires LowerTermSpelling(t)
    ensures VocabularyTerm(t)
  {
    forall k | 0 <= k < |t|
      ensures Lower(t)[k] == t[k] && t[k] != '_'
    {
    }
  }

  lemma VocabularyWellFormed()
    ensures forall t :: t in MedicalTermsPattern ==> VocabularyTerm(t)
  {
    Alternatives0Spelling(); Alternatives1Spelling(); Alternatives2Spelling(); Alternatives3Spelling();
    Alternatives4Spelling(); Alternatives5Spelling(); Alternatives6Spelling(); Alternatives7Spelling();
    Alternatives8Spelling(); Alternatives9Spelling(); Alternatives10Spelling(); Alternatives11Spelling();
    Alternatives12Spelling(); Alternatives13Spelling(); Alternatives14Spelling(); Alternatives15Spelling();
    Alternatives16Spelling(); Alternatives17Spelling(); Alternatives18Spelling();
    forall t | t in MedicalTermsPattern
      ensures VocabularyTerm(t)
    {
      SpellingIsVocabularyTerm(t);
    }
  }

  /** No glossary entry is empty or holds a `_`. */
  predicate GlossaryEntry(v: string)
  {
    |v| > 0 && forall m :: 0 <= m < |v| ==> v[m] != '_'
  }

  lemma GlossaryPart0Entries()
    ensures WellFormedGlossary(GlossaryPart0)
  {
  }

  lemma GlossaryPart0Keys()
    ensures forall k :: k in GlossaryPart0 ==> k in Alternatives0
  {
  }

  lemma GlossaryPart1Entries()
    ensures WellFormedGlossary(GlossaryPart1)
  {
  }

  lemma GlossaryPart1Keys()
    ensures forall k :: k in GlossaryPart1 ==> k in Alternatives1
  {
  }

  lemma GlossaryPart2Entries()
    ensures WellFormedGlossary(GlossaryPart2)
  {
  }

  lemma GlossaryPart2Keys()
    ensures forall k :: k in GlossaryPart2 ==> k in Alternatives2
  {
  }

  lemma GlossaryPart3Entries()
    ensures WellFormedGlossary(GlossaryPart3)
  {
  }

  lemma GlossaryPart3Keys()
    ensures forall k :: k in GlossaryPart3 ==> k in Alternatives3
  {
  }

  lemma GlossaryPart4Entries()
    ensures WellFormedGlossary(GlossaryPart4)
  {
  }

  lemma GlossaryPart4Keys()
    ensures forall k :: k in GlossaryPart4 ==> k in Alternatives4
  {
  }

  lemma GlossaryPart5Entries()
    ensures WellFormedGlossary(GlossaryPart5)
  {
  }

  lemma GlossaryPart5Keys()
    ensures forall k :: k in GlossaryPart5 ==> k in Alternatives5
  {
  }

  lemma GlossaryPart6Entries()
    ensures WellFormedGlossary(GlossaryPart6)
  {
  }

  lemma GlossaryPart6Keys()
    ensures forall k :: k in GlossaryPart6 ==> k in Alternatives6 + Alternatives17 + Alternatives18
  {
  }

  /** Every glossary entry is non-empty (so `|| englishTerm` never falls back on a hit) and has
      no `_`. */
  lemma GlossaryWellFormed()
    ensures WellFormedGlossary(Glossary)
  {
    GlossaryPart0Entries(); GlossaryPart1Entries(); GlossaryPart2Entries();
    GlossaryPart3Entries(); GlossaryPart4Entries(); GlossaryPart5Entries();
    GlossaryPart6Entries();
    var g := GlossaryPart0;
    WellFormedUnion(g, GlossaryPart1); g := g + GlossaryPart1;
    WellFormedUnion(g, GlossaryPart2); g := g + GlossaryPart2;
    WellFormedUnion(g, GlossaryPart3); g := g + GlossaryPart3;
    WellFormedUnion(g, GlossaryPart4); g := g + GlossaryPart4;
    WellFormedUnion(g, GlossaryPart5); g := g + GlossaryPart5;
    WellFormedUnion(g, GlossaryPart6); g := g + GlossaryPart6;
  }

  lemma WellFormedUnion(a: map<string, string>, b: map<string, string>)
    requires WellFormedGlossary(a) && WellFormedGlossary(b)
    ensures WellFormedGlossary(a + b)
  {
    forall k | k in a + b
      ensures GlossaryEntry((a + b)[k])
    {
      if k in b {
        assert (a + b)[k] == b[k];
      } else {
        assert (a + b)[k] == a[k];
      }
    }
  }

  /** Every glossary key is a vocabulary term: no entry of the record is out of reach. */
  lemma GlossaryKeysInVocabulary()
    ensures forall k :: k in Glossary ==> k in MedicalTermsPattern
  {
    GlossaryPart0Keys();
    GlossaryPart1Keys();
    GlossaryPart2Keys();
    GlossaryPart3Keys();
    GlossaryPart4Keys();
    GlossaryPart5Keys();
    GlossaryPart6Keys();
  }

  /** The glossary entry for "antibiotic", which only its first group holds. */
  lemma AntibioticEntry()
    ensures "antibiotic" in Glossary && Glossary["antibiotic"] == "thuốc kháng sinh"
  {
    AntibioticInFirstPart();
    AntibioticOutsideLaterParts();
    EntryOfFirstPart(GlossaryPart0, GlossaryPart1, GlossaryPart2, GlossaryPart3,
                     GlossaryPart4, GlossaryPart5, GlossaryPart6, "antibiotic");
  }

  lemma AntibioticInFirstPart()
    ensures "antibiotic" in GlossaryPart0 && GlossaryPart0["antibiotic"] == "thuốc kháng sinh"
  {
  }

  lemma AntibioticOutsideLaterParts()
    ensures "antibiotic" !in GlossaryPart1 && "antibiotic" !in GlossaryPart2 && "antibiotic" !in GlossaryPart3
    ensures "antibiotic" !in GlossaryPart4 && "antibiotic" !in GlossaryPart5 && "antibiotic" !in GlossaryPart6
  {
  }

  /** A key that only the first of seven maps holds keeps its entry in their union. */
  lemma EntryOfFirstPart(p0: map<string, string>, p1: map<string, string>, p2: map<string, string>,
                         p3: map<string, string>, p4: map<string, string>, p5: map<string, string>,
                         p6: map<string, string>, k: string)
    requires k in p0 && k !in p1 && k !in p2 && k !in p3 && k !in p4 && k !in p5 && k !in p6
    ensures k in p0 + p1 + p2 + p3 + p4 + p5 + p6 && (p0 + p1 + p2 + p3 + p4 + p5 + p6)[k] == p0[k]
  {
  }

  /** Every entry of `glossary` is a non-empty text without `_`. */
  predicate WellFormedGlossary(glossary: map<string, string>)
  {
    forall k :: k in glossary ==> GlossaryEntry(glossary[k])
  }

  /** `glossary[englishTerm.toLowerCase()] || englishTerm` for a record `glossary`: the entry for
      the lower-cased term, or the term as given when there is none (or the entry is empty). */
  function GlossTerm(glossary: map<string, string>, englishTerm: string): (r: string)
    ensures WellFormedGlossary(glossary) && Lower(englishTerm) in glossary ==> r == glossary[Lower(englishTerm)]
    ensures Lower(englishTerm) !in glossary ==> r == englishTerm
  {
    var key := Lower(englishTerm);
    if key in glossary && glossary[key] != "" then glossary[key] else englishTerm
  }

  /** `getVietnameseMedicalTerm`: the lookup in the `medicalTranslations` record. */
  function GetVietnameseMedicalTerm(englishTerm: string): (r: string)
    ensures Lower(englishTerm) in Glossary ==> r == Glossary[Lower(englishTerm)]
    ensures Lower(englishTerm) !in Glossary ==> r == englishTerm
  {
    GlossaryWellFormed();
    GlossTerm(Glossary, englishTerm)
  }

  /** The lookup ignores case: any spelling of a term gets the same gloss. */
  lemma GlossaryLookupIgnoresCase(a: string, b: string)
    requires Lower(a) == Lower(b) && Lower(a) in Glossary
    ensures GetVietnameseMedicalTerm(a) == GetVietnameseMedicalTerm(b)
  {
  }

  /** A glossed term never carries a `_`, whether found in the glossary or passed through. */
  lemma GlossHasNoUnderscore(glossary: map<string, string>, t: string)
    requires WellFormedGlossary(glossary)
    requires forall m :: 0 <= m < |t| ==> t[m] != '_'
    ensures forall m :: 0 <= m < |GlossTerm(glossary, t)| ==> GlossTerm(glossary, t)[m] != '_'
  {
  }

  /** "antibiotic" is glossed as "thuốc kháng sinh", whatever its case. */
  lemma AntibioticGloss(t: string)
    requires Lower(t) == "antibiotic"
    ensures GetVietnameseMedicalTerm(t) == "thuốc kháng sinh"
  {
    AntibioticEntry();
  }

  /** No alternative of the pattern is empty, so the scan over it is well defined. */
  lemma PatternTermsNonEmpty()
    ensures NonEmptyTerms(MedicalTermsPattern)
  {
    VocabularyWellFormed();
    VocabularyNonEmpty(MedicalTermsPattern);
  }

  /** `text.match(MEDICAL_TERMS_PATTERN) || []`: every match, repeats included, as found in `text`. */
  function FindMatches(text: string): (r: seq<string>)
    ensures forall k :: 0 <= k < |r| ==> FoundTerm(r[k], MedicalTermsPattern)
  {
    VocabularyWellFormed();
    MatchesAreFoundTerms(text, 0, MedicalTermsPattern);
    MatchesFrom(text, 0, MedicalTermsPattern)
  }

  /** Each match of the whole text is the text itself at its position, as long as the first
      alternative of the pattern that stands there as a whole word, and the matches follow one
      another without overlapping. */
  lemma FindMatchesAreSlices(text: string)
    ensures NonEmptyTerms(MedicalTermsPattern)
    ensures var r, ps := FindMatches(text), MatchPositionsFrom(text, 0, MedicalTermsPattern);
            MatchesAreSlices(text, 0, MedicalTermsPattern, r, ps) && MatchesInOrder(r, ps)
  {
    PatternTermsNonEmpty();
    MatchesFromSlices(text, 0, MedicalTermsPattern);
    MatchesFromInOrder(text, 0, MedicalTermsPattern);
  }

  /** The scan of the whole text skips no position where an alternative of the pattern stands as
      a whole word. */
  lemma FindMatchesComplete(text: string)
    ensures NonEmptyTerms(MedicalTermsPattern)
    ensures NoMatchSkipped(text, 0, MedicalTermsPattern, FindMatches(text), MatchPositionsFrom(text, 0, MedicalTermsPattern))
  {
    PatternTermsNonEmpty();
    MatchesFromComplete(text, 0, MedicalTermsPattern);
  }

  /** There are no matches exactly when no alternative of the pattern stands anywhere in the text
      as a whole word. */
  lemma FindMatchesNoneIff(text: string)
    ensures NonEmptyTerms(MedicalTermsPattern)
    ensures FindMatches(text) == [] <==> NoTermFrom(text, 0, MedicalTermsPattern)
  {
    PatternTermsNonEmpty();
    ScanEmptyIff(text, 0, MedicalTermsPattern);
  }
}
