/**
 * `ClassificationType` and `Classification`: the verdict of an analysis, the
 * confidence it was reached with, an optional explanation and a list of
 * evidence sources.
 */
module Classifications {
  import opened Results
  import opened Seqs
  import opened Chars
  import opened Confidence
  import Hygiene

  datatype ClassificationType = Reliable | Inconclusive | Unfounded | Fake

  /** Verdicts in increasing order of reliability. */
  function TypeRank(t: ClassificationType): nat {
    match t
    case Fake => 0
    case Unfounded => 1
    case Inconclusive => 2
    case Reliable => 3
  }

  /** `ClassificationType.from_confidence`: RELIABLE from 0.8, INCONCLUSIVE from 0.4, UNFOUNDED from 0.2, FAKE below. */
  function FromConfidence(c: ConfidenceScore): (t: ClassificationType)
    ensures t == Reliable <==> IsHighConfidence(c)
    ensures t == Inconclusive || t == Reliable <==> !IsLowConfidence(c)
  {
    if Value(c) >= 0.8 then Reliable
    else if Value(c) >= 0.4 then Inconclusive
    else if Value(c) >= 0.2 then Unfounded
    else Fake
  }

  /** The four verdicts split [0, 1] into the bands [0.8, 1], [0.4, 0.8), [0.2, 0.4) and [0, 0.2). */
  lemma FromConfidenceBands(c: ConfidenceScore)
    ensures FromConfidence(c) == Reliable <==> 8000 <= c.ticks
    ensures FromConfidence(c) == Inconclusive <==> 4000 <= c.ticks < 8000
    ensures FromConfidence(c) == Unfounded <==> 2000 <= c.ticks < 4000
    ensures FromConfidence(c) == Fake <==> c.ticks < 2000
  {
  }

  /** A higher confidence never gives a less reliable verdict. */
  lemma FromConfidenceMonotone(a: ConfidenceScore, b: ConfidenceScore)
    requires a.ticks <= b.ticks
    ensures TypeRank(FromConfidence(a)) <= TypeRank(FromConfidence(b))
  {
  }

  /** RELIABLE is the HIGH confidence level and FAKE the VERY_LOW one. */
  lemma FromConfidenceAndLevel(c: ConfidenceScore)
    ensures FromConfidence(c) == Reliable <==> LevelOf(c) == High
    ensures FromConfidence(c) == Fake <==> LevelOf(c) == VeryLow
  {
  }

  const MaxReasoningLength := 1000
  const MaxEvidenceSources := 10
  const DefaultInconclusiveReasoning: string := "Insufficient evidence" + " to determine reliability"

  datatype Classification = Classification(
    classificationType: ClassificationType,
    confidence: ConfidenceScore,
    reasoning: Option<string>,
    evidenceSources: seq<string>)

  /** `validate_evidence_sources`: strip every entry, drop the empty ones, keep first occurrences, keep ten. */
  function CleanEvidence(v: seq<string>): seq<string> {
    Hygiene.Tidy(v, Strip, Hygiene.NonBlank, MaxEvidenceSources)
  }

  /** A usable evidence entry: non-empty and without whitespace at either end. */
  predicate IsEvidence(s: string) {
    s != [] && Trimmed(s)
  }

  /**
   * The cleaned list has at most ten entries, no repetition, each the stripped
   * form of an input entry; it keeps first-occurrence order, loses nothing when
   * at most ten distinct entries survive, and cleaning it again changes nothing.
   */
  lemma CleanEvidenceProperties(v: seq<string>)
    ensures var r := CleanEvidence(v);
      |r| <= MaxEvidenceSources && Distinct(r)
      && (forall k :: 0 <= k < |r| ==> IsEvidence(r[k]) && exists i :: 0 <= i < |v| && r[k] == Strip(v[i]))
    ensures CleanEvidence(CleanEvidence(v)) == CleanEvidence(v)
  {
    var r := CleanEvidence(v);
    Hygiene.TidyProperties(v, Strip, Hygiene.NonBlank, MaxEvidenceSources);
    forall k | 0 <= k < |r| ensures Strip(r[k]) == r[k] && IsEvidence(r[k]) {
      var i :| 0 <= i < |v| && r[k] == Strip(v[i]);
      StripTrimmed(r[k]);
    }
    Hygiene.TidyIdempotent(v, Strip, Hygiene.NonBlank, MaxEvidenceSources);
  }

  /** No entry with a non-blank strip is lost when at most ten distinct ones survive. */
  lemma CleanEvidenceComplete(v: seq<string>, i: nat)
    requires i < |v| && Strip(v[i]) != []
    requires |Dedupe(Hygiene.Cleaned(v, Strip, Hygiene.NonBlank))| <= MaxEvidenceSources
    ensures Strip(v[i]) in CleanEvidence(v)
  {
    Hygiene.TidyComplete(v, Strip, Hygiene.NonBlank, MaxEvidenceSources, i);
  }

  /** `validate_reasoning`: missing or blank reasoning becomes None, anything else is stored stripped. */
  function CleanReasoning(v: Option<string>): (r: Option<string>)
    ensures r.None? <==> v.None? || All(v.value, IsSpace)
    ensures r.Some? ==> IsEvidence(r.value) && |r.value| <= |v.value|
  {
    if v.None? then None
    else
      var cleaned := Strip(v.value);
      if cleaned == [] then None else Some(cleaned)
  }

  /** Cleaning reasoning twice is cleaning it once. */
  lemma CleanReasoningIdempotent(v: Option<string>)
    ensures CleanReasoning(CleanReasoning(v)) == CleanReasoning(v)
  {
    if CleanReasoning(v).Some? {
      StripTrimmed(CleanReasoning(v).value);
    }
  }

  /** What every constructed classification satisfies. */
  predicate Valid(c: Classification) {
    (c.reasoning.Some? ==> IsEvidence(c.reasoning.value) && |c.reasoning.value| <= MaxReasoningLength)
    && |c.evidenceSources| <= MaxEvidenceSources && Distinct(c.evidenceSources)
    && forall k :: 0 <= k < |c.evidenceSources| ==> IsEvidence(c.evidenceSources[k])
  }

  /**
   * Construction: the field bounds (reasoning of at most 1000 characters, at
   * most ten evidence entries) are checked on the raw values, then the
   * validators clean them.
   */
  function New(t: ClassificationType, confidence: ConfidenceScore, reasoning: Option<string>,
               evidence: seq<string>): (r: Result<Classification>)
    ensures r.Ok? <==> (reasoning.Some? ==> |reasoning.value| <= MaxReasoningLength)
                       && |evidence| <= MaxEvidenceSources
    ensures r.Ok? ==> Valid(r.value)
    ensures r.Ok? ==> r.value.classificationType == t && r.value.confidence == confidence
    ensures r.Ok? ==> r.value.reasoning == CleanReasoning(reasoning) && r.value.evidenceSources == CleanEvidence(evidence)
  {
    if reasoning.Some? && |reasoning.value| > MaxReasoningLength then Err(TooLong)
    else if |evidence| > MaxEvidenceSources then Err(TooManyItems)
    else
      CleanEvidenceProperties(evidence);
      Ok(Classification(t, confidence, CleanReasoning(reasoning), CleanEvidence(evidence)))
  }

  /** `evidence_sources or []`. */
  function OrEmpty(evidence: Option<seq<string>>): seq<string> {
    if evidence.Some? then evidence.value else []
  }

  /** `Classification.create_reliable`: RELIABLE whatever the confidence. */
  function CreateReliable(confidence: ConfidenceScore, reasoning: Option<string> := None,
                          evidence: Option<seq<string>> := None): (r: Result<Classification>)
    ensures r.Ok? ==> r.value.classificationType == Reliable && r.value.confidence == confidence && Valid(r.value)
    ensures r.Ok? <==> (reasoning.Some? ==> |reasoning.value| <= MaxReasoningLength)
                       && |OrEmpty(evidence)| <= MaxEvidenceSources
  {
    New(Reliable, confidence, reasoning, OrEmpty(evidence))
  }

  /** `Classification.create_fake`: FAKE whatever the confidence. */
  function CreateFake(confidence: ConfidenceScore, reasoning: Option<string> := None,
                      evidence: Option<seq<string>> := None): (r: Result<Classification>)
    ensures r.Ok? ==> r.value.classificationType == Fake && r.value.confidence == confidence && Valid(r.value)
    ensures r.Ok? <==> (reasoning.Some? ==> |reasoning.value| <= MaxReasoningLength)
                       && |OrEmpty(evidence)| <= MaxEvidenceSources
  {
    New(Fake, confidence, reasoning, OrEmpty(evidence))
  }

  /**
   * `Classification.create_inconclusive`: INCONCLUSIVE with no evidence; a
   * missing or empty reasoning is replaced by the default explanation.
   */
  function CreateInconclusive(confidence: ConfidenceScore, reasoning: Option<string> := None): (r: Result<Classification>)
    ensures r.Ok? <==> reasoning.None? || |reasoning.value| <= MaxReasoningLength
    ensures r.Ok? ==> r.value.classificationType == Inconclusive && r.value.evidenceSources == [] && Valid(r.value)
    ensures reasoning.None? || reasoning.value == [] ==>
      r == Ok(Classification(Inconclusive, confidence, Some(DefaultInconclusiveReasoning), []))
  {
    var given := if reasoning.None? || reasoning.value == [] then DefaultInconclusiveReasoning else reasoning.value;
    DefaultReasoningTrimmed();
    New(Inconclusive, confidence, Some(given), [])
  }

  lemma DefaultReasoningTrimmed()
    ensures Strip(DefaultInconclusiveReasoning) == DefaultInconclusiveReasoning
  {
    StripTrimmed(DefaultInconclusiveReasoning);
  }

  /** Whitespace-only reasoning is not replaced by the default: the validator then drops it. */
  lemma InconclusiveBlankReasoning(confidence: ConfidenceScore, reasoning: string)
    requires reasoning != [] && |reasoning| <= MaxReasoningLength && All(reasoning, IsSpace)
    ensures CreateInconclusive(confidence, Some(reasoning)) == Ok(Classification(Inconclusive, confidence, None, []))
  {
  }

  /** `Classification.from_confidence_auto`: the verdict is `from_confidence` of the confidence. */
  function FromConfidenceAuto(confidence: ConfidenceScore, reasoning: Option<string> := None,
                              evidence: Option<seq<string>> := None): (r: Result<Classification>)
    ensures r.Ok? ==> r.value.classificationType == FromConfidence(confidence) && Valid(r.value)
    ensures r.Ok? <==> (reasoning.Some? ==> |reasoning.value| <= MaxReasoningLength)
                       && |OrEmpty(evidence)| <= MaxEvidenceSources
  {
    New(FromConfidence(confidence), confidence, reasoning, OrEmpty(evidence))
  }

  /** `is_trustworthy`: the verdict is RELIABLE. */
  predicate IsTrustworthy(c: Classification) {
    c.classificationType == Reliable
  }

  /** `is_problematic`: the verdict is UNFOUNDED or FAKE. */
  predicate IsProblematic(c: Classification) {
    c.classificationType == Unfounded || c.classificationType == Fake
  }

  /** No classification is both trustworthy and problematic; INCONCLUSIVE is neither. */
  lemma TrustworthyOrProblematic(c: Classification)
    ensures !(IsTrustworthy(c) && IsProblematic(c))
    ensures !IsTrustworthy(c) && !IsProblematic(c) <==> c.classificationType == Inconclusive
  {
  }

  /** An automatic classification is trustworthy from 0.8 and problematic below 0.4. */
  lemma AutoVerdict(confidence: ConfidenceScore, reasoning: Option<string>, evidence: Option<seq<string>>)
    requires FromConfidenceAuto(confidence, reasoning, evidence).Ok?
    ensures var c := FromConfidenceAuto(confidence, reasoning, evidence).value;
      (IsTrustworthy(c) <==> 8000 <= confidence.ticks) && (IsProblematic(c) <==> confidence.ticks < 4000)
  {
    FromConfidenceBands(confidence);
  }
}
