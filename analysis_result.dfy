/**
 * `AnalysisResult`: the outcome of analysing one text, with the
 * classification reached, the source that reached it, what it cost and how
 * long it took, and the fact-check sources consulted.
 */
module AnalysisResults {
  import opened Results
  import opened Seqs
  import opened Chars
  import opened Confidence
  import Hygiene
  import Texts
  import Classifications

  datatype AnalysisSource = FactCheck | Llm | VectorSearch | Cache | Hybrid | Manual

  /** `get_reliability_score`: how far a source is trusted. */
  function Reliability(s: AnalysisSource): (r: real)
    ensures 0.75 <= r <= 1.0
    ensures r == 1.0 <==> s == Cache || s == Manual
  {
    match s
    case FactCheck => 0.95
    case VectorSearch => 0.85
    case Llm => 0.75
    case Hybrid => 0.90
    case Cache => 1.0
    case Manual => 1.0
  }

  /** Among the services that analyse text, fact checking is trusted most and the language model least. */
  lemma ReliabilityOrder()
    ensures Reliability(Llm) < Reliability(VectorSearch) < Reliability(Hybrid) < Reliability(FactCheck)
            < Reliability(Cache)
  {
  }

  const MaxFactCheckSources := 10
  const DefaultCacheTimeMs := 1
  const DefaultInconclusiveReason: string := "Unable to determine" + " reliability"
  /** The confidence of an inconclusive result, 0.5, in ten-thousandths. */
  const InconclusiveConfidence := ConfidenceScore(5000)

  datatype AnalysisResult = AnalysisResult(
    text: Texts.Text,
    classification: Classifications.Classification,
    source: AnalysisSource,
    processingTimeMs: nat,
    costCents: nat,
    createdAt: int,
    expiresAt: Option<int>,
    factCheckSources: seq<string>,
    similarTextsFound: nat,
    /** The source a cached verdict first came from, which `create_from_cache` keeps in the metadata. */
    originalSource: Option<AnalysisSource>)

  // ------------------------------------------------------ fact-check sources

  /** `validate_fact_check_sources`: strip every entry, drop the empty ones, keep first occurrences, keep ten. */
  function CleanSources(v: seq<string>): seq<string> {
    Hygiene.Tidy(v, Strip, Hygiene.NonBlank, MaxFactCheckSources)
  }

  /**
   * The cleaned sources: at most ten, no repetition, each the non-empty
   * stripped form of an input entry, in first-occurrence order; cleaning them
   * again changes nothing.
   */
  lemma CleanSourcesProperties(v: seq<string>)
    ensures var r := CleanSources(v);
      |r| <= MaxFactCheckSources && Distinct(r)
      && (forall k :: 0 <= k < |r| ==> r[k] != [] && Trimmed(r[k]) && exists i :: 0 <= i < |v| && r[k] == Strip(v[i]))
    ensures CleanSources(CleanSources(v)) == CleanSources(v)
  {
    var r := CleanSources(v);
    Hygiene.TidyProperties(v, Strip, Hygiene.NonBlank, MaxFactCheckSources);
    forall k | 0 <= k < |r| ensures Strip(r[k]) == r[k] {
      StripTrimmed(r[k]);
    }
    Hygiene.TidyIdempotent(v, Strip, Hygiene.NonBlank, MaxFactCheckSources);
  }

  /** No source with a non-blank strip is lost when at most ten distinct ones survive. */
  lemma CleanSourcesComplete(v: seq<string>, i: nat)
    requires i < |v| && Strip(v[i]) != []
    requires |Dedupe(Hygiene.Cleaned(v, Strip, Hygiene.NonBlank))| <= MaxFactCheckSources
    ensures Strip(v[i]) in CleanSources(v)
  {
    Hygiene.TidyComplete(v, Strip, Hygiene.NonBlank, MaxFactCheckSources, i);
  }

  /** The stripped, non-empty sources before de-duplication. */
  function CleanedSources(v: seq<string>): seq<string> {
    Hygiene.Cleaned(v, Strip, Hygiene.NonBlank)
  }

  /** The loop state after i entries: the de-duplicated cleaned prefix and the set of its members. */
  ghost predicate KeptSources(v: seq<string>, i: nat, cleaned: seq<string>, seen: set<string>)
    requires i <= |v|
  {
    cleaned == Dedupe(CleanedSources(v[..i])) && forall x :: x in seen <==> x in cleaned
  }

  /** One iteration of the source loop keeps the loop state. */
  lemma SourceStep(v: seq<string>, i: nat, cleaned: seq<string>, seen: set<string>, source: string,
                   cleaned': seq<string>, seen': set<string>)
    requires i < |v| && KeptSources(v, i, cleaned, seen)
    requires source == Strip(v[i])
    requires source != [] && source !in seen ==> cleaned' == cleaned + [source] && seen' == seen + {source}
    requires !(source != [] && source !in seen) ==> cleaned' == cleaned && seen' == seen
    ensures KeptSources(v, i + 1, cleaned', seen')
  {
    Hygiene.DedupeStep(v, Strip, Hygiene.NonBlank, i);
  }

  /** The body of the source loop: strip the next source and keep it when it is not empty and unseen. */
  method AddSource(v: seq<string>, i: nat, cleaned: seq<string>, seen: set<string>)
    returns (cleaned': seq<string>, seen': set<string>)
    requires i < |v| && KeptSources(v, i, cleaned, seen)
    ensures KeptSources(v, i + 1, cleaned', seen')
  {
    var cleanSource := Strip(v[i]);
    cleaned', seen' := cleaned, seen;
    if cleanSource != [] && cleanSource !in seen {
      cleaned' := cleaned + [cleanSource];
      seen' := seen + {cleanSource};
    }
    SourceStep(v, i, cleaned, seen, cleanSource, cleaned', seen');
  }

  /** The loop of `validate_fact_check_sources`, with its `seen` set. */
  method SourceLoop(v: seq<string>) returns (cleaned: seq<string>)
    ensures cleaned == Dedupe(CleanedSources(v))
  {
    cleaned := [];
    var seen: set<string> := {};
    var i := 0;
    assert CleanedSources(v[..0]) == [];
    while i < |v|
      invariant 0 <= i <= |v|
      invariant KeptSources(v, i, cleaned, seen)
    {
      cleaned, seen := AddSource(v, i, cleaned, seen);
      i := i + 1;
    }
    assert v[..i] == v;
  }

  /** `validate_fact_check_sources`: an empty list stays empty; otherwise the loop's result cut to ten. */
  method ValidateFactCheckSources(v: seq<string>) returns (sources: seq<string>)
    ensures sources == CleanSources(v)
  {
    if v == [] {
      Hygiene.TidyEmpty(Strip, Hygiene.NonBlank, MaxFactCheckSources);
      return [];
    }
    var cleaned := SourceLoop(v);
    sources := SliceTo(cleaned, MaxFactCheckSources);
  }

  // -------------------------------------------------------------- the entity

  /**
   * Construction: time, cost and the similar-text count must not be
   * negative (large values are accepted), at most ten fact-check sources are
   * accepted, and the validator cleans them.
   */
  function New(text: Texts.Text, classification: Classifications.Classification, source: AnalysisSource,
               processingTimeMs: int, costCents: int, now: int, expiresAt: Option<int>,
               factCheckSources: seq<string>, similarTextsFound: int,
               originalSource: Option<AnalysisSource>): (r: Result<AnalysisResult>)
    ensures r.Ok? <==> processingTimeMs >= 0 && costCents >= 0 && |factCheckSources| <= MaxFactCheckSources
                       && similarTextsFound >= 0
    ensures processingTimeMs < 0 || costCents < 0 ==> r == Err(Negative)
    ensures r.Ok? ==> r.value.text == text && r.value.classification == classification && r.value.source == source
                      && r.value.processingTimeMs == processingTimeMs && r.value.costCents == costCents
                      && r.value.createdAt == now && r.value.expiresAt == expiresAt
                      && r.value.factCheckSources == CleanSources(factCheckSources)
                      && r.value.similarTextsFound == similarTextsFound && r.value.originalSource == originalSource
  {
    if processingTimeMs < 0 || costCents < 0 then Err(Negative)
    else if |factCheckSources| > MaxFactCheckSources then Err(TooManyItems)
    else if similarTextsFound < 0 then Err(Negative)
    else Ok(AnalysisResult(text, classification, source, processingTimeMs, costCents, now, expiresAt,
                           CleanSources(factCheckSources), similarTextsFound, originalSource))
  }

  /** What every constructed result satisfies. */
  predicate Valid(a: AnalysisResult) {
    |a.factCheckSources| <= MaxFactCheckSources && Distinct(a.factCheckSources)
    && forall k :: 0 <= k < |a.factCheckSources| ==> a.factCheckSources[k] != [] && Trimmed(a.factCheckSources[k])
  }

  lemma NewValid(text: Texts.Text, classification: Classifications.Classification, source: AnalysisSource,
                 processingTimeMs: int, costCents: int, now: int, expiresAt: Option<int>,
                 factCheckSources: seq<string>, similarTextsFound: int, originalSource: Option<AnalysisSource>)
    requires New(text, classification, source, processingTimeMs, costCents, now, expiresAt, factCheckSources,
                 similarTextsFound, originalSource).Ok?
    ensures Valid(New(text, classification, source, processingTimeMs, costCents, now, expiresAt, factCheckSources,
                      similarTextsFound, originalSource).value)
  {
    CleanSourcesProperties(factCheckSources);
  }

  // ---------------------------------------------------------------- factories

  /** `create_from_fact_check`: source FACT_CHECK; the other fields as given. */
  function CreateFromFactCheck(text: Texts.Text, classification: Classifications.Classification,
                               processingTimeMs: int, factCheckSources: seq<string>, costCents: int := 0,
                               expiresAt: Option<int> := None, now: int := 0): (r: Result<AnalysisResult>)
    ensures r.Ok? <==> processingTimeMs >= 0 && costCents >= 0 && |factCheckSources| <= MaxFactCheckSources
    ensures r.Ok? ==> r.value.source == FactCheck && r.value.text == text && r.value.classification == classification
                      && r.value.processingTimeMs == processingTimeMs && r.value.costCents == costCents
                      && r.value.expiresAt == expiresAt && r.value.factCheckSources == CleanSources(factCheckSources)
                      && r.value.createdAt == now && r.value.similarTextsFound == 0 && r.value.originalSource.None?
  {
    New(text, classification, FactCheck, processingTimeMs, costCents, now, expiresAt, factCheckSources, 0, None)
  }

  /** `create_from_llm`: source LLM, no fact-check sources; the other fields as given. */
  function CreateFromLlm(text: Texts.Text, classification: Classifications.Classification,
                         processingTimeMs: int, costCents: int, expiresAt: Option<int> := None,
                         now: int := 0): (r: Result<AnalysisResult>)
    ensures r.Ok? <==> processingTimeMs >= 0 && costCents >= 0
    ensures r.Ok? ==> r.value.source == Llm && r.value.text == text && r.value.classification == classification
                      && r.value.processingTimeMs == processingTimeMs && r.value.costCents == costCents
                      && r.value.expiresAt == expiresAt && r.value.factCheckSources == []
                      && r.value.createdAt == now && r.value.originalSource.None?
  {
    New(text, classification, Llm, processingTimeMs, costCents, now, expiresAt, [], 0, None)
  }

  /** `create_from_cache`: source CACHE, free, one millisecond by default, remembering the original source. */
  function CreateFromCache(text: Texts.Text, classification: Classifications.Classification,
                           originalSource: AnalysisSource, processingTimeMs: int := DefaultCacheTimeMs,
                           now: int := 0): (r: Result<AnalysisResult>)
    ensures r.Ok? <==> processingTimeMs >= 0
    ensures r.Ok? ==> r.value.source == Cache && r.value.costCents == 0 && r.value.text == text
                      && r.value.classification == classification && r.value.processingTimeMs == processingTimeMs
                      && r.value.originalSource == Some(originalSource) && r.value.expiresAt.None?
                      && r.value.factCheckSources == []
    ensures r.Ok? ==> IsCached(r.value) && IsCostEffective(r.value) && !IsExpired(r.value, now)
  {
    New(text, classification, Cache, processingTimeMs, 0, now, None, [], 0, Some(originalSource))
  }

  /**
   * `create_inconclusive`: source HYBRID, free, with an INCONCLUSIVE
   * classification of confidence 0.5 whose reasoning is the given reason.
   */
  function CreateInconclusive(text: Texts.Text, processingTimeMs: int,
                              reason: string := DefaultInconclusiveReason, now: int := 0): (r: Result<AnalysisResult>)
    ensures r.Ok? <==> processingTimeMs >= 0 && |reason| <= Classifications.MaxReasoningLength
    ensures r.Ok? ==> r.value.source == Hybrid && r.value.costCents == 0 && r.value.text == text
                      && r.value.processingTimeMs == processingTimeMs
                      && r.value.classification.classificationType == Classifications.Inconclusive
                      && r.value.classification.confidence == InconclusiveConfidence
                      && r.value.classification.evidenceSources == []
    ensures r.Ok? ==> !IsCached(r.value) && IsCostEffective(r.value) && !IsHighConfidence(r.value)
  {
    var classification := Classifications.CreateInconclusive(InconclusiveConfidence, Some(reason));
    if classification.Err? then Err(classification.error)
    else New(text, classification.value, Hybrid, processingTimeMs, 0, now, None, [], 0, None)
  }

  /** The stored confidence of an inconclusive result is what `ConfidenceScore(value=0.5)` builds. */
  lemma InconclusiveConfidenceIsHalf()
    ensures Confidence.Create(0.5) == Ok(InconclusiveConfidence)
    ensures Value(InconclusiveConfidence) == 0.5
  {
    assert Value(InconclusiveConfidence) == 0.5;
    CreateExact(InconclusiveConfidence);
  }

  // --------------------------------------------------------------- predicates

  /** `is_cached`. */
  predicate IsCached(a: AnalysisResult) {
    a.source == Cache
  }

  /** `is_expired`: never without an expiry time, otherwise once `now` is past it. */
  predicate IsExpired(a: AnalysisResult, now: int) {
    a.expiresAt.Some? && now > a.expiresAt.value
  }

  /** Once expired, a result stays expired. */
  lemma ExpiredStays(a: AnalysisResult, now: int, later: int)
    requires IsExpired(a, now) && now <= later
    ensures IsExpired(a, later)
  {
  }

  /** `is_high_confidence(threshold)`, 0.8 by default. */
  predicate IsHighConfidence(a: AnalysisResult, threshold: real := 0.8) {
    Confidence.IsHighConfidence(a.classification.confidence, threshold)
  }

  /** `is_fast_response(threshold_ms)`, 2000 ms by default. */
  predicate IsFastResponse(a: AnalysisResult, thresholdMs: int := 2000) {
    a.processingTimeMs <= thresholdMs
  }

  /** `is_cost_effective(threshold_cents)`, 10 cents by default. */
  predicate IsCostEffective(a: AnalysisResult, thresholdCents: int := 10) {
    a.costCents <= thresholdCents
  }

  // ------------------------------------------------------------- performance

  function Max(a: int, b: int): int {
    if a >= b then a else b
  }

  function MinReal(a: real, b: real): real {
    if a <= b then a else b
  }

  /** A positive quotient, at least 1 when the divisor does not exceed the dividend. */
  lemma DivBounds(n: real, d: real)
    requires 0.0 < n && 0.0 < d
    ensures 0.0 < n / d
    ensures d <= n ==> 1.0 <= n / d
  {
    assert n / d * d == n;
  }

  /** The confidence term: 40% of the confidence value. */
  function ConfidenceTerm(c: ConfidenceScore): (r: real)
    ensures 0.0 <= r <= 0.4
  {
    Value(c) * 0.4
  }

  /** The speed term: 30% of min(1, 5000 / max(time, 100)). */
  function SpeedTerm(timeMs: int): (r: real)
    ensures 0.0 <= r <= 0.3
    ensures timeMs <= 5000 ==> r == 0.3
  {
    var d := Max(timeMs, 100) as real;
    DivBounds(5000.0, d);
    MinReal(1.0, 5000.0 / d) * 0.3
  }

  /** The cost term: 20% of min(1, 50 / max(cost, 1)). */
  function CostTerm(costCents: int): (r: real)
    ensures 0.0 <= r <= 0.2
    ensures costCents <= 50 ==> r == 0.2
  {
    var d := Max(costCents, 1) as real;
    DivBounds(50.0, d);
    MinReal(1.0, 50.0 / d) * 0.2
  }

  /** The source term: 10% of the source's reliability. */
  function SourceTerm(s: AnalysisSource): (r: real)
    ensures 0.075 <= r <= 0.1
  {
    Reliability(s) * 0.1
  }

  /** `get_performance_score` on the fields it reads. */
  function Score(c: ConfidenceScore, timeMs: int, costCents: int, s: AnalysisSource): (r: real)
    ensures 0.0 <= r <= 1.0
  {
    ConfidenceTerm(c) + SpeedTerm(timeMs) + CostTerm(costCents) + SourceTerm(s)
  }

  /** `get_performance_score`: between 0 and 1. */
  function PerformanceScore(a: AnalysisResult): (r: real)
    ensures 0.0 <= r <= 1.0
  {
    Score(a.classification.confidence, a.processingTimeMs, a.costCents, a.source)
  }

  /** A positive number divided by a larger one is no larger. */
  lemma DivAntitone(n: real, x: real, y: real)
    requires 0.0 < n && 0.0 < x <= y
    ensures n / y <= n / x
  {
    assert n / y * y == n && n / x * x == n;
    assert n / y * x <= n / y * y;
  }

  /** A slower answer never scores higher on speed. */
  lemma SpeedTermAntitone(t1: int, t2: int)
    requires t1 <= t2
    ensures SpeedTerm(t2) <= SpeedTerm(t1)
  {
    DivAntitone(5000.0, Max(t1, 100) as real, Max(t2, 100) as real);
  }

  /** A dearer answer never scores higher on cost. */
  lemma CostTermAntitone(c1: int, c2: int)
    requires c1 <= c2
    ensures CostTerm(c2) <= CostTerm(c1)
  {
    DivAntitone(50.0, Max(c1, 1) as real, Max(c2, 1) as real);
  }

  /**
   * The score rises with confidence and falls with time and cost: a result
   * at least as confident, as fast and as cheap from the same source scores
   * at least as high.
   */
  lemma ScoreMonotone(c1: ConfidenceScore, t1: int, k1: int, c2: ConfidenceScore, t2: int, k2: int,
                      s: AnalysisSource)
    requires c1.ticks <= c2.ticks && t2 <= t1 && k2 <= k1
    ensures Score(c1, t1, k1, s) <= Score(c2, t2, k2, s)
  {
    SpeedTermAntitone(t2, t1);
    CostTermAntitone(k2, k1);
  }

  /** A fully confident cached answer within 5 seconds and 50 cents scores exactly 1. */
  lemma ScoreTop(c: ConfidenceScore, timeMs: int, costCents: int)
    requires c.ticks == Scale && timeMs <= 5000 && costCents <= 50
    ensures Score(c, timeMs, costCents, Cache) == 1.0
  {
  }
}
