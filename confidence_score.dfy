/**
 * `ConfidenceScore`: a confidence between 0.0 and 1.0 kept to four decimal
 * places. The model stores the number of ten-thousandths (0..10000), so the
 * four-decimal rounding and the 1e-4 equality tolerance are exact.
 */
module Confidence {
  import opened Results

  const Scale := 10000

  type Ticks = t: int | 0 <= t <= 10000

  /** A stored confidence score: `value == ticks / 10000`. */
  datatype ConfidenceScore = ConfidenceScore(ticks: Ticks)

  function Value(c: ConfidenceScore): (v: real)
    ensures 0.0 <= v <= 1.0
  {
    c.ticks as real / Scale as real
  }

  /** Python's `round` on an exact number: to the nearest integer, halves to the even neighbour. */
  function RoundHalfEven(x: real): (r: int)
    ensures x - 0.5 <= r as real <= x + 0.5
  {
    var f := x.Floor;
    var d := x - f as real;
    if d < 0.5 then f
    else if d > 0.5 then f + 1
    else if f % 2 == 0 then f
    else f + 1
  }

  /** Rounding leaves integers alone. */
  lemma RoundInteger(n: int)
    ensures RoundHalfEven(n as real) == n
  {
    assert (n as real).Floor == n;
  }

  /** Rounding never reverses the order of two numbers. */
  lemma RoundMonotone(x: real, y: real)
    requires x <= y
    ensures RoundHalfEven(x) <= RoundHalfEven(y)
  {
    var fx, fy := x.Floor, y.Floor;
    if fx < fy {
      assert RoundHalfEven(x) <= fx + 1 <= fy;
    }
  }

  /**
   * Construction (`validate_range`): refused outside [0, 1]; otherwise the
   * value rounded to four decimals, which lies within half a ten-thousandth of
   * the input.
   */
  function Create(v: real): (r: Result<ConfidenceScore>)
    ensures r.Ok? <==> 0.0 <= v <= 1.0
    ensures r.Ok? ==> -0.00005 <= Value(r.value) - v <= 0.00005
  {
    if !(0.0 <= v <= 1.0) then Err(OutOfRange)
    else
      var t := RoundHalfEven(v * Scale as real);
      RoundInteger(0);
      RoundInteger(Scale);
      RoundMonotone(0.0, v * Scale as real);
      RoundMonotone(v * Scale as real, Scale as real);
      Ok(ConfidenceScore(t))
  }

  /** A value with at most four decimals is stored exactly. */
  lemma CreateExact(c: ConfidenceScore)
    ensures Create(Value(c)) == Ok(c)
  {
    assert Value(c) * Scale as real == c.ticks as real;
    RoundInteger(c.ticks);
  }

  /** `ConfidenceScore.from_percentage`: refused outside [0, 100]; otherwise the score of p / 100. */
  function FromPercentage(p: real): (r: Result<ConfidenceScore>)
    ensures r.Ok? <==> 0.0 <= p <= 100.0
    ensures r.Ok? ==> -0.00005 <= Value(r.value) - p / 100.0 <= 0.00005
  {
    if !(0.0 <= p <= 100.0) then Err(OutOfRange)
    else Create(p / 100.0)
  }

  /** `ConfidenceScore.to_percentage`: value × 100 rounded to two decimals. */
  function ToPercentage(c: ConfidenceScore): (p: real)
    ensures 0.0 <= p <= 100.0
  {
    var scaled := Value(c) * 100.0 * 100.0;
    assert scaled == c.ticks as real;
    RoundInteger(c.ticks);
    RoundHalfEven(scaled) as real / 100.0
  }

  /** Converting to a percentage and back gives the same score. */
  lemma PercentageRoundTrip(c: ConfidenceScore)
    ensures FromPercentage(ToPercentage(c)) == Ok(c)
  {
    RoundInteger(c.ticks);
    assert ToPercentage(c) / 100.0 == Value(c);
    CreateExact(c);
  }

  /** `is_high_confidence(threshold)`: the value reaches the threshold (default 0.8). */
  predicate IsHighConfidence(c: ConfidenceScore, threshold: real := 0.8) {
    Value(c) >= threshold
  }

  /** `is_low_confidence(threshold)`: the value is below the threshold (default 0.4). */
  predicate IsLowConfidence(c: ConfidenceScore, threshold: real := 0.4) {
    Value(c) < threshold
  }

  /** For one threshold a score is either high or low, never both. */
  lemma HighOrLow(c: ConfidenceScore, threshold: real)
    ensures IsHighConfidence(c, threshold) != IsLowConfidence(c, threshold)
  {
  }

  /** With the default thresholds a score can be neither high nor low, but never both. */
  lemma DefaultThresholds(c: ConfidenceScore)
    ensures !(IsHighConfidence(c) && IsLowConfidence(c))
    ensures !IsHighConfidence(c) && !IsLowConfidence(c) <==> 4000 <= c.ticks < 8000
  {
  }

  datatype Level = High | Medium | Low | VeryLow

  /** Levels in increasing order of confidence. */
  function LevelRank(l: Level): nat {
    match l
    case VeryLow => 0
    case Low => 1
    case Medium => 2
    case High => 3
  }

  /** `get_confidence_level`: HIGH from 0.8, MEDIUM from 0.6, LOW from 0.2, VERY_LOW below. */
  function LevelOf(c: ConfidenceScore): (l: Level)
    ensures l == High <==> IsHighConfidence(c)
  {
    if Value(c) >= 0.8 then High
    else if Value(c) >= 0.6 then Medium
    else if Value(c) >= 0.2 then Low
    else VeryLow
  }

  /** The level is the band of [0, 1] the value falls in, so every score has exactly one. */
  lemma LevelBands(c: ConfidenceScore)
    ensures LevelOf(c) == High <==> 8000 <= c.ticks
    ensures LevelOf(c) == Medium <==> 6000 <= c.ticks < 8000
    ensures LevelOf(c) == Low <==> 2000 <= c.ticks < 6000
    ensures LevelOf(c) == VeryLow <==> c.ticks < 2000
  {
  }

  /** A higher score never gets a lower level. */
  lemma LevelMonotone(a: ConfidenceScore, b: ConfidenceScore)
    requires a.ticks <= b.ticks
    ensures LevelRank(LevelOf(a)) <= LevelRank(LevelOf(b))
  {
  }

  /** `__eq__` between scores: the values differ by less than 1e-4. */
  predicate Equals(a: ConfidenceScore, b: ConfidenceScore) {
    -0.0001 < Value(a) - Value(b) < 0.0001
  }

  /** `__eq__` against a number. */
  predicate EqualsNumber(a: ConfidenceScore, x: real) {
    -0.0001 < Value(a) - x < 0.0001
  }

  /** On four-decimal values the tolerance equality is exactly equality of the stored scores. */
  lemma EqualsExact(a: ConfidenceScore, b: ConfidenceScore)
    ensures Equals(a, b) <==> a == b
    ensures Equals(a, b) == Equals(b, a)
  {
    if Equals(a, b) {
      assert -1.0 < (a.ticks - b.ticks) as real < 1.0;
    }
  }

  /** `__lt__`, `__le__`, `__gt__`, `__ge__` compare stored values. */
  predicate Less(a: ConfidenceScore, b: ConfidenceScore) {
    Value(a) < Value(b)
  }

  predicate LessOrEqual(a: ConfidenceScore, b: ConfidenceScore) {
    Value(a) <= Value(b)
  }

  /** Exactly one of less, equal and greater holds, and the order is that of the stored counts. */
  lemma Trichotomy(a: ConfidenceScore, b: ConfidenceScore)
    ensures Less(a, b) <==> a.ticks < b.ticks
    ensures LessOrEqual(a, b) <==> Less(a, b) || Equals(a, b)
    ensures (if Less(a, b) then 1 else 0) + (if Equals(a, b) then 1 else 0) + (if Less(b, a) then 1 else 0) == 1
  {
    EqualsExact(a, b);
  }
}
