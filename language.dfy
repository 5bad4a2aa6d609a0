/**
 * The language-code check shared by `Text` and `User`: a code matching
 * `^[a-z]{2}(-[A-Z]{2})?$` under `re.match` is stored lower-cased, anything
 * else becomes "pt". Python's `$` also matches just before a final newline,
 * so a code followed by one "\n" passes too.
 */
module Languages {
  import opened Results
  import opened Chars

  const DefaultLanguage: string := "pt"
  const MinCodeLength := 2
  const MaxCodeLength := 5

  /** `[a-z]{2}` or `[a-z]{2}-[A-Z]{2}`, the whole string. */
  predicate IsCodeShape(v: string) {
    (|v| == 2 && IsAsciiLower(v[0]) && IsAsciiLower(v[1]))
    || (|v| == 5 && IsAsciiLower(v[0]) && IsAsciiLower(v[1]) && v[2] == '-'
        && IsAsciiUpper(v[3]) && IsAsciiUpper(v[4]))
  }

  /** `re.match(r'^[a-z]{2}(-[A-Z]{2})?$', v)` succeeds. */
  predicate MatchesCode(v: string) {
    IsCodeShape(v) || (|v| > 0 && v[|v| - 1] == '\n' && IsCodeShape(v[..|v| - 1]))
  }

  /** `validate_language_code` on a string: matching codes are lower-cased, others become "pt". */
  function NormalizeCode(v: string): (r: string)
    ensures r == DefaultLanguage || (MatchesCode(v) && r == LowerStr(v))
    ensures 2 <= |r| <= 6 && All(r, NotUpper)
  {
    LowerStrAll(v);
    if MatchesCode(v) then LowerStr(v) else DefaultLanguage
  }

  /** A two-letter code is kept as it is, and checking it again keeps it again. */
  lemma TwoLetterCodeStable(v: string)
    requires |v| == 2 && IsAsciiLower(v[0]) && IsAsciiLower(v[1])
    ensures NormalizeCode(v) == v && NormalizeCode(NormalizeCode(v)) == v
  {
    assert LowerStr(v) == v;
  }

  /**
   * A regional code such as "pt-BR" is stored as "pt-br", which no longer
   * matches the pattern: checking the stored code again yields "pt".
   */
  lemma RegionalCodeNotStable(v: string)
    requires |v| == 5 && IsCodeShape(v)
    ensures NormalizeCode(v) == LowerStr(v)
    ensures NormalizeCode(NormalizeCode(v)) == DefaultLanguage
  {
    var r := LowerStr(v);
    assert !IsAsciiUpper(r[3]);
    assert r[4] != '\n';
  }

  /**
   * A language field: between two and five characters (checked on the raw
   * value), then a matching code is stored lower-cased and anything else as "pt".
   */
  function ValidateCode(v: string): (r: Result<string>)
    ensures r.Ok? <==> MinCodeLength <= |v| <= MaxCodeLength
    ensures r.Ok? ==> r.value == NormalizeCode(v)
    ensures |v| < MinCodeLength ==> r == Err(TooShort)
    ensures |v| > MaxCodeLength ==> r == Err(TooLong)
  {
    if |v| < MinCodeLength then Err(TooShort)
    else if |v| > MaxCodeLength then Err(TooLong)
    else Ok(NormalizeCode(v))
  }

  /**
   * A code of the right length that is not a language code falls back to
   * "pt"; one longer than five characters is refused rather than replaced.
   */
  lemma ValidateCodeFallback(v: string)
    ensures MinCodeLength <= |v| <= MaxCodeLength && !MatchesCode(v) ==> ValidateCode(v) == Ok(DefaultLanguage)
    ensures |v| > MaxCodeLength ==> ValidateCode(v) == Err(TooLong)
  {
  }
}
