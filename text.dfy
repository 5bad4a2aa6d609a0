/**
 * The `Text` entity: a piece of content submitted for fact-checking, with its
 * stripped original, a normalised copy, the `TextHash` of that copy, a
 * language code, counts, cleaned keywords and an optional source URL.
 */
module Texts {
  import opened Results
  import opened Seqs
  import opened Chars
  import Hygiene
  import TextHashes
  import Digest
  import Languages
  import TextProcessor

  const MinContentLength := 10
  const MaxContentLength := 2000
  const MinLanguageLength := Languages.MinCodeLength
  const MaxLanguageLength := Languages.MaxCodeLength
  const MaxKeywords := 20
  const MaxSourceUrlLength := 500
  const MinSentenceLength := 10
  const DefaultPreviewLength := 100

  datatype Text = Text(
    originalContent: string,
    normalizedContent: string,
    textHash: TextHashes.TextHash,
    language: string,
    wordCount: nat,
    characterCount: nat,
    keywords: seq<string>,
    sourceUrl: Option<string>,
    createdAt: int)

  // ------------------------------------------------------------ normalising

  /** Characters `_normalize_content` keeps: anything outside category C, and tab, line feed, carriage return. */
  predicate KeptInContent(c: char) {
    !IsOtherCategory(c) || c == '\n' || c == '\r' || c == '\t'
  }

  predicate NotOtherCategory(c: char) {
    !IsOtherCategory(c)
  }

  /**
   * `Text._normalize_content`: strip, collapse every whitespace run to one
   * space, then drop the category-C characters (NFC composition is the
   * identity here).
   */
  function NormalizeContent(content: string): (r: string)
    ensures |r| <= |content|
  {
    Keep(CollapseSpaces(Strip(content)), KeptInContent)
  }

  /** The normalised content holds no category-C character and no whitespace but the plain space. */
  lemma NormalizeContentShape(content: string)
    ensures All(NormalizeContent(content), NotOtherCategory)
    ensures All(NormalizeContent(content), PlainOrNotSpace)
  {
    var c := CollapseSpaces(Strip(content));
    var r := NormalizeContent(content);
    CollapseAll(Strip(content), PlainOrNotSpace);
    KeepShape(c, KeptInContent, PlainOrNotSpace);
    forall i | 0 <= i < |r| ensures NotOtherCategory(r[i]) {
      assert KeptInContent(r[i]) && PlainOrNotSpace(r[i]);
    }
  }

  /** The text a, space, x, space, b. */
  function Spaced(a: char, x: char, b: char): string {
    [a] + ([' '] + ([x] + ([' '] + [b])))
  }

  /**
   * Whitespace is collapsed before the category-C characters are dropped, so
   * a zero-width space (or any other such character) between two spaces
   * leaves a double space behind.
   */
  lemma DoubleSpaceRemains(a: char, x: char, b: char)
    requires !IsSpace(a) && !IsSpace(b) && !IsSpace(x)
    requires KeptInContent(a) && KeptInContent(b) && !KeptInContent(x)
    ensures NormalizeContent(Spaced(a, x, b)) == [a, ' ', ' ', b]
  {
    SpacedCollapsed(a, x, b);
    SpacedKept(a, x, b);
  }

  lemma SpacedCollapsed(a: char, x: char, b: char)
    requires !IsSpace(a) && !IsSpace(b) && !IsSpace(x)
    ensures Strip(Spaced(a, x, b)) == Spaced(a, x, b)
    ensures CollapseSpaces(Spaced(a, x, b)) == Spaced(a, x, b)
  {
    var s := Spaced(a, x, b);
    assert s[0] == a && s[|s| - 1] == b;
    StripTrimmed(s);
    CollapseWordCons(b, []);
    assert [b] + [] == [b];
    CollapseSpaceCons([b]);
    CollapseWordCons(x, [' '] + [b]);
    CollapseSpaceCons([x] + ([' '] + [b]));
    CollapseWordCons(a, [' '] + ([x] + ([' '] + [b])));
  }

  lemma SpacedKept(a: char, x: char, b: char)
    requires KeptInContent(a) && KeptInContent(b) && !KeptInContent(x)
    ensures Keep(Spaced(a, x, b), KeptInContent) == [a, ' ', ' ', b]
  {
    KeepCons(b, [], KeptInContent);
    assert [b] + [] == [b];
    KeepCons(' ', [b], KeptInContent);
    KeepCons(x, [' '] + [b], KeptInContent);
    KeepCons(' ', [x] + ([' '] + [b]), KeptInContent);
    KeepCons(a, [' '] + ([x] + ([' '] + [b])), KeptInContent);
  }

  /** Dropping category-C characters commutes with lower-casing. */
  lemma {:induction false} KeepLower(s: string)
    ensures Keep(LowerStr(s), KeptInContent) == LowerStr(Keep(s, KeptInContent))
  {
    if s != [] {
      var h, t := s[0], s[1..];
      var head := if KeptInContent(h) then [h] else [];
      calc {
        Keep(LowerStr(s), KeptInContent);
        { assert LowerStr(s)[0] == Lower(h) && LowerStr(s)[1..] == LowerStr(t); }
        (if KeptInContent(Lower(h)) then [Lower(h)] else []) + Keep(LowerStr(t), KeptInContent);
        { KeepLower(t);
          assert KeptInContent(Lower(h)) == KeptInContent(h);
          assert LowerStr(head) == if KeptInContent(h) then [Lower(h)] else []; }
        LowerStr(head) + LowerStr(Keep(t, KeptInContent));
        { LowerStrConcat(head, Keep(t, KeptInContent)); }
        LowerStr(head + Keep(t, KeptInContent));
      }
    }
  }

  /** Normalising lower-cased content is lower-casing the normalised content. */
  lemma NormalizeContentLower(content: string)
    ensures NormalizeContent(LowerStr(content)) == LowerStr(NormalizeContent(content))
  {
    StripLower(content);
    CollapseLower(Strip(content));
    KeepLower(CollapseSpaces(Strip(content)));
  }

  // ------------------------------------------------------------- validators

  /**
   * The `original_content` field: 10 to 2000 characters, then
   * `validate_content_length` refuses blank content, checks the stripped
   * length and stores the stripped text.
   */
  function ValidateContent(v: string): (r: Result<string>)
    ensures r.Ok? <==> MinContentLength <= |v| <= MaxContentLength && MinContentLength <= |Strip(v)|
    ensures r.Ok? ==> r.value == Strip(v) && Trimmed(r.value)
  {
    if |v| < MinContentLength then Err(TooShort)
    else if |v| > MaxContentLength then Err(TooLong)
    else if v == [] || Strip(v) == [] then Err(EmptyText)
    else
      var stripped := Strip(v);
      if |stripped| < MinContentLength then Err(TooShort)
      else if |stripped| > MaxContentLength then Err(TooLong)
      else Ok(stripped)
  }

  /** Accepted content is accepted again unchanged, and passes `TextProcessor.is_valid_length`. */
  lemma ValidateContentStable(v: string)
    requires ValidateContent(v).Ok?
    ensures ValidateContent(ValidateContent(v).value) == ValidateContent(v)
    ensures TextProcessor.IsValidLength(v)
  {
    StripTrimmed(Strip(v));
  }

  /**
   * The `language` field: 2 to 5 characters when present, then
   * `validate_language_code` turns a missing code into "pt" and normalises
   * the rest.
   */
  function ValidateLanguage(v: Option<string>): (r: Result<string>)
    ensures r.Ok? <==> v.None? || MinLanguageLength <= |v.value| <= MaxLanguageLength
    ensures r.Ok? && v.None? ==> r.value == Languages.DefaultLanguage
    ensures r.Ok? && v.Some? ==> r.value == Languages.NormalizeCode(v.value)
  {
    if v.None? then Ok(Languages.DefaultLanguage)
    else Languages.ValidateCode(v.value)
  }

  /** `keyword.strip().lower()`. */
  function LowerStrip(s: string): string {
    LowerStr(Strip(s))
  }

  /** `clean_keyword and len(clean_keyword) >= 2`. */
  predicate LongKeyword(s: string) {
    s != [] && |s| >= 2
  }

  /** `validate_keywords`: stripped, lower-cased, at least two characters, first occurrences, at most 20. */
  function CleanKeywords(v: seq<string>): seq<string> {
    Hygiene.Tidy(v, LowerStrip, LongKeyword, MaxKeywords)
  }

  /** A stored keyword: at least two characters, no surrounding whitespace, no upper case. */
  predicate IsKeyword(s: string) {
    |s| >= 2 && Trimmed(s) && All(s, NotUpper)
  }

  /** A cleaned keyword has no surrounding whitespace and no upper case. */
  lemma LowerStripClean(s: string)
    ensures Trimmed(LowerStrip(s)) && All(LowerStrip(s), NotUpper)
  {
    var t := Strip(s);
    LowerStrTrimmed(t);
    LowerStrAll(t);
  }

  /** Cleaning a cleaned keyword changes nothing. */
  lemma LowerStripIdempotent(s: string)
    ensures LowerStrip(LowerStrip(s)) == LowerStrip(s)
  {
    LowerStripClean(s);
    StripTrimmed(LowerStrip(s));
    LowerStrIdempotent(Strip(s));
  }

  /**
   * The cleaned keywords: at most 20, no repetition, each a keyword obtained
   * from an input entry, in first-occurrence order; cleaning them again
   * changes nothing.
   */
  lemma CleanKeywordsProperties(v: seq<string>)
    ensures var r := CleanKeywords(v);
      |r| <= MaxKeywords && Distinct(r)
      && (forall k :: 0 <= k < |r| ==> IsKeyword(r[k]) && exists i :: 0 <= i < |v| && r[k] == LowerStrip(v[i]))
    ensures CleanKeywords(CleanKeywords(v)) == CleanKeywords(v)
  {
    var r := CleanKeywords(v);
    Hygiene.TidyProperties(v, LowerStrip, LongKeyword, MaxKeywords);
    forall k | 0 <= k < |r| ensures LowerStrip(r[k]) == r[k] && IsKeyword(r[k]) {
      var i :| 0 <= i < |v| && r[k] == LowerStrip(v[i]);
      LowerStripClean(v[i]);
      LowerStripIdempotent(v[i]);
    }
    Hygiene.TidyIdempotent(v, LowerStrip, LongKeyword, MaxKeywords);
  }

  /** Keywords that differ only in case or surrounding whitespace are kept once. */
  lemma CleanKeywordsMerge(v: seq<string>, i: nat, j: nat)
    requires i < j < |v| && LowerStrip(v[i]) == LowerStrip(v[j]) && LongKeyword(LowerStrip(v[i]))
    requires |Dedupe(Hygiene.Cleaned(v, LowerStrip, LongKeyword))| <= MaxKeywords
    ensures LowerStrip(v[i]) in CleanKeywords(v)
    ensures Count(CleanKeywords(v), LowerStrip(v[i])) == 1
  {
    var r := CleanKeywords(v);
    Hygiene.TidyComplete(v, LowerStrip, LongKeyword, MaxKeywords, i);
    CleanKeywordsProperties(v);
    DistinctCount(r, LowerStrip(v[i]));
  }

  /** The cleaned keywords that pass the length check, before de-duplication. */
  function CleanedKeywords(v: seq<string>): seq<string> {
    Hygiene.Cleaned(v, LowerStrip, LongKeyword)
  }

  /** The loop state after i entries: the de-duplicated cleaned prefix and the set of its members. */
  ghost predicate KeptKeywords(v: seq<string>, i: nat, kept: seq<string>, seen: set<string>)
    requires i <= |v|
  {
    kept == Dedupe(CleanedKeywords(v[..i])) && forall x :: x in seen <==> x in kept
  }

  /**
   * One iteration of the keyword loop: appending the next cleaned keyword
   * when it is long enough and unseen keeps `kept` the de-duplicated cleaned
   * prefix and `seen` its set of members.
   */
  lemma KeywordStep(v: seq<string>, i: nat, kept: seq<string>, seen: set<string>, keyword: string,
                    kept': seq<string>, seen': set<string>)
    requires i < |v| && KeptKeywords(v, i, kept, seen)
    requires keyword == LowerStrip(v[i])
    requires LongKeyword(keyword) && keyword !in seen ==> kept' == kept + [keyword] && seen' == seen + {keyword}
    requires !(LongKeyword(keyword) && keyword !in seen) ==> kept' == kept && seen' == seen
    ensures KeptKeywords(v, i + 1, kept', seen')
  {
    Hygiene.DedupeStep(v, LowerStrip, LongKeyword, i);
  }

  /** The body of the keyword loop: clean the next keyword and keep it when it is long enough and unseen. */
  method AddKeyword(v: seq<string>, i: nat, kept: seq<string>, seen: set<string>)
    returns (kept': seq<string>, seen': set<string>)
    requires i < |v| && KeptKeywords(v, i, kept, seen)
    ensures KeptKeywords(v, i + 1, kept', seen')
  {
    var keyword := LowerStrip(v[i]);
    kept', seen' := kept, seen;
    if LongKeyword(keyword) && keyword !in seen {
      kept' := kept + [keyword];
      seen' := seen + {keyword};
    }
    KeywordStep(v, i, kept, seen, keyword, kept', seen');
  }

  /** The loop of `validate_keywords`, with its `seen` set. */
  method KeywordLoop(v: seq<string>) returns (kept: seq<string>)
    ensures kept == Dedupe(CleanedKeywords(v))
  {
    kept := [];
    var seen: set<string> := {};
    var i := 0;
    assert CleanedKeywords(v[..0]) == [];
    while i < |v|
      invariant 0 <= i <= |v|
      invariant KeptKeywords(v, i, kept, seen)
    {
      kept, seen := AddKeyword(v, i, kept, seen);
      i := i + 1;
    }
    assert v[..i] == v;
  }

  /** `validate_keywords`: an empty list stays empty; otherwise the loop's result cut to twenty. */
  method ValidateKeywords(v: seq<string>) returns (cleaned: seq<string>)
    ensures cleaned == CleanKeywords(v)
  {
    if v == [] {
      Hygiene.TidyEmpty(LowerStrip, LongKeyword, MaxKeywords);
      return [];
    }
    var kept := KeywordLoop(v);
    cleaned := SliceTo(kept, MaxKeywords);
  }

  // ------------------------------------------------------------- the entity

  /** `language or "pt"`. */
  function LanguageOrDefault(language: Option<string>): string {
    if language.None? || language.value == [] then Languages.DefaultLanguage else language.value
  }

  /** `keywords or []`. */
  function KeywordsOrEmpty(keywords: Option<seq<string>>): seq<string> {
    if keywords.Some? then keywords.value else []
  }

  /**
   * `Text.create`: refuses blank content; stores the stripped content, its
   * normal form, the hash of that form, the language, the counts and the
   * cleaned keywords, after the field checks (content of 10 to 2000
   * characters, at least one word, language code of 2 to 5 characters, at
   * most 20 keywords, URL of at most 500 characters). `now` is the creation
   * time.
   */
  function Create(content: string, sourceUrl: Option<string> := None, language: Option<string> := None,
                  keywords: Option<seq<string>> := None, now: int := 0): (r: Result<Text>)
    ensures r.Ok? <==>
      MinContentLength <= |Strip(content)| <= MaxContentLength
      && Words(NormalizeContent(Strip(content))) != []
      && MinLanguageLength <= |LanguageOrDefault(language)| <= MaxLanguageLength
      && |KeywordsOrEmpty(keywords)| <= MaxKeywords
      && (sourceUrl.Some? ==> |sourceUrl.value| <= MaxSourceUrlLength)
    ensures r.Ok? ==>
      var t := r.value;
      t.originalContent == Strip(content) && t.characterCount == |t.originalContent|
      && t.normalizedContent == NormalizeContent(t.originalContent)
      && t.textHash == TextHashes.TextHash(Digest.HexDigest(TextHashes.NormalizeText(t.normalizedContent)))
      && TextHashes.IsDigestString(t.textHash.value)
      && t.wordCount == |Words(t.normalizedContent)| >= 1
      && t.language == Languages.NormalizeCode(LanguageOrDefault(language))
      && t.keywords == CleanKeywords(KeywordsOrEmpty(keywords))
      && t.sourceUrl == sourceUrl && t.createdAt == now
  {
    var original := Strip(content);
    if content == [] || original == [] then Err(EmptyText)
    else
      StripTrimmed(original);
      Assemble(original, sourceUrl, language, keywords, now)
  }

  /** The part of `Text.create` after the blank check: derive the fields from the stripped content and validate them. */
  function Assemble(original: string, sourceUrl: Option<string>, language: Option<string>,
                    keywords: Option<seq<string>>, now: int): (r: Result<Text>)
    requires Trimmed(original)
    ensures r.Ok? <==>
      MinContentLength <= |original| <= MaxContentLength
      && Words(NormalizeContent(original)) != []
      && MinLanguageLength <= |LanguageOrDefault(language)| <= MaxLanguageLength
      && |KeywordsOrEmpty(keywords)| <= MaxKeywords
      && (sourceUrl.Some? ==> |sourceUrl.value| <= MaxSourceUrlLength)
    ensures r.Ok? ==>
      var t := r.value;
      t.originalContent == original && t.characterCount == |original|
      && t.normalizedContent == NormalizeContent(original)
      && t.textHash == TextHashes.TextHash(Digest.HexDigest(TextHashes.NormalizeText(t.normalizedContent)))
      && TextHashes.IsDigestString(t.textHash.value)
      && t.wordCount == |Words(t.normalizedContent)| >= 1
      && t.language == Languages.NormalizeCode(LanguageOrDefault(language))
      && t.keywords == CleanKeywords(KeywordsOrEmpty(keywords))
      && t.sourceUrl == sourceUrl && t.createdAt == now
  {
    StripTrimmed(original);
    var normalized := NormalizeContent(original);
    var hash := TextHashes.FromText(normalized);
    if hash.Err? then Err(hash.error)
    else
      var checkedContent := ValidateContent(original);
      var checkedLanguage := ValidateLanguage(Some(LanguageOrDefault(language)));
      var words := |Words(normalized)|;
      var kws := KeywordsOrEmpty(keywords);
      if checkedContent.Err? then Err(checkedContent.error)
      else if checkedLanguage.Err? then Err(checkedLanguage.error)
      else if words < 1 then Err(OutOfRange)
      else if |kws| > MaxKeywords then Err(TooManyItems)
      else if sourceUrl.Some? && |sourceUrl.value| > MaxSourceUrlLength then Err(TooLong)
      else
        Ok(Text(checkedContent.value, normalized, hash.value, checkedLanguage.value,
                words, |original|, CleanKeywords(kws), sourceUrl, now))
  }

  /**
   * Every created text is consistent: its counts and stored lists obey the
   * field bounds, its normalised content holds no category-C character, and
   * its hash is the hash of its normalised content.
   */
  predicate Valid(t: Text) {
    MinContentLength <= |t.originalContent| <= MaxContentLength && Trimmed(t.originalContent)
    && t.characterCount == |t.originalContent|
    && t.normalizedContent == NormalizeContent(t.originalContent)
    && All(t.normalizedContent, NotOtherCategory)
    && TextHashes.FromText(t.normalizedContent) == Ok(t.textHash)
    && t.wordCount == |Words(t.normalizedContent)| >= 1
    && 2 <= |t.language| && All(t.language, NotUpper)
    && |t.keywords| <= MaxKeywords && Distinct(t.keywords)
    && (forall k :: 0 <= k < |t.keywords| ==> IsKeyword(t.keywords[k]))
  }

  lemma CreateValid(content: string, sourceUrl: Option<string>, language: Option<string>,
                    keywords: Option<seq<string>>, now: int)
    requires Create(content, sourceUrl, language, keywords, now).Ok?
    ensures Valid(Create(content, sourceUrl, language, keywords, now).value)
  {
    var t := Create(content, sourceUrl, language, keywords, now).value;
    NormalizeContentShape(t.originalContent);
    CleanKeywordsProperties(KeywordsOrEmpty(keywords));
  }

  /** Surrounding whitespace does not matter: the stripped content gives the same text. */
  lemma CreateStripInsensitive(content: string, sourceUrl: Option<string>, language: Option<string>,
                               keywords: Option<seq<string>>, now: int)
    ensures Create(Strip(content), sourceUrl, language, keywords, now) == Create(content, sourceUrl, language, keywords, now)
  {
    StripTrimmed(Strip(content));
  }

  /** Lower-casing the content lower-cases its normalised form and changes neither its length nor its hash input. */
  lemma LowerContent(content: string)
    ensures var n := NormalizeContent(Strip(content));
      NormalizeContent(Strip(LowerStr(content))) == LowerStr(n)
      && |Strip(LowerStr(content))| == |Strip(content)|
      && (Words(LowerStr(n)) == [] <==> Words(n) == [])
      && TextHashes.NormalizeText(LowerStr(n)) == TextHashes.NormalizeText(n)
  {
    var n := NormalizeContent(Strip(content));
    StripLower(content);
    NormalizeContentLower(Strip(content));
    WordsEmpty(n);
    WordsEmpty(LowerStr(n));
    LowerStrBlank(n);
    TextHashes.NormalizeTextCaseInsensitive(n);
  }

  /** Content that differs only in case gives an equal text (the same hash). */
  lemma CreateCaseInsensitive(content: string, sourceUrl: Option<string>, language: Option<string>,
                              keywords: Option<seq<string>>, now: int)
    requires Create(content, sourceUrl, language, keywords, now).Ok?
    ensures Create(LowerStr(content), sourceUrl, language, keywords, now).Ok?
    ensures Equals(Create(LowerStr(content), sourceUrl, language, keywords, now).value,
                   Create(content, sourceUrl, language, keywords, now).value)
  {
    LowerContent(content);
  }

  // ------------------------------------------------------------- operations

  /** `Text.extract_sentences`: the trimmed pieces of the normalised content between runs of `.`, `!`, `?` with at least ten characters. */
  method ExtractSentences(t: Text) returns (sentences: seq<string>)
    ensures sentences == TextProcessor.KeepSentences(TextProcessor.SplitSentences(t.normalizedContent), MinSentenceLength)
    ensures forall i :: 0 <= i < |sentences| ==> TextProcessor.IsSentence(sentences[i], MinSentenceLength)
  {
    var pieces := TextProcessor.SplitSentences(t.normalizedContent);
    sentences := TextProcessor.KeepLongSentences(pieces, MinSentenceLength);
    forall i | 0 <= i < |sentences| ensures TextProcessor.IsSentence(sentences[i], MinSentenceLength) {
      forall j | 0 <= j < |pieces| ensures All(pieces[j], TextProcessor.NotEnder) {
        TextProcessor.SplitSentencesNoEnder(t.normalizedContent, j);
      }
      TextProcessor.KeepSentencesShape(pieces, MinSentenceLength, i);
    }
  }

  /** `str.rfind(c)`: the last index holding c, or -1. */
  function RFind(s: string, c: char): (k: int)
    ensures -1 <= k < |s|
    ensures k >= 0 ==> s[k] == c
    ensures forall j :: k < j < |s| ==> s[j] != c
  {
    if s == [] then -1
    else if s[|s| - 1] == c then |s| - 1
    else RFind(s[..|s| - 1], c)
  }

  /**
   * Where a preview of o cut at `maxLength` ends: at the last space of the
   * first `maxLength` characters when it lies beyond 80% of `maxLength`,
   * otherwise at `maxLength` itself.
   */
  predicate PreviewCut(o: string, maxLength: nat, n: int)
    requires maxLength < |o|
  {
    0 <= n <= maxLength
    && (n < maxLength ==> o[n] == ' ' && 5 * n > 4 * maxLength
                          && forall j :: n < j < maxLength ==> o[j] != ' ')
    && (n == maxLength ==> forall j :: 0 <= j < maxLength && 5 * j > 4 * maxLength ==> o[j] != ' ')
  }

  /**
   * `Text.get_preview`: the original content when it fits in `maxLength`,
   * otherwise a prefix of it followed by "...", cut at a space close to the
   * limit when there is one.
   */
  function GetPreview(t: Text, maxLength: int := DefaultPreviewLength): (r: string)
    ensures |t.originalContent| <= maxLength ==> r == t.originalContent
    ensures |t.originalContent| > maxLength ==>
      |r| >= 3 && r[|r| - 3..] == "..." && r[..|r| - 3] <= t.originalContent
    ensures |t.originalContent| > maxLength >= 0 ==> PreviewCut(t.originalContent, maxLength, |r| - 3)
  {
    var o := t.originalContent;
    if |o| <= maxLength then o
    else
      var truncated := SliceTo(o, maxLength);
      var lastSpace := RFind(truncated, ' ');
      var cut := if 5 * lastSpace > 4 * maxLength then SliceTo(truncated, lastSpace) else truncated;
      assert (cut + "...")[..|cut|] == cut;
      cut + "..."
  }

  /** `Text.__eq__` between texts: the same hash. */
  predicate Equals(a: Text, b: Text) {
    a.textHash == b.textHash
  }

  /** `Text.__hash__`: the hash value. */
  function HashKey(t: Text): string {
    t.textHash.value
  }

  /** Equal texts hash alike; equality is an equivalence. */
  lemma EqualsConsistent(a: Text, b: Text, c: Text)
    ensures Equals(a, b) ==> HashKey(a) == HashKey(b)
    ensures Equals(a, a) && (Equals(a, b) <==> Equals(b, a))
    ensures Equals(a, b) && Equals(b, c) ==> Equals(a, c)
  {
  }

  /** The word set `is_similar_to` compares: `set(normalized_content.lower().split())`. */
  function SimilarityWords(t: Text): set<string> {
    WordSet(LowerStr(t.normalizedContent))
  }

  /**
   * `Text.is_similar_to`: texts with the same hash are similar; otherwise both
   * must have words and the Jaccard index of their word sets must reach the
   * threshold.
   */
  function IsSimilarTo(a: Text, b: Text, threshold: real := 0.8): (r: bool)
    ensures Equals(a, b) ==> r
  {
    if a.textHash == b.textHash then true
    else
      var w1 := SimilarityWords(a);
      var w2 := SimilarityWords(b);
      if w1 == {} || w2 == {} then false
      else Jaccard(w1, w2) >= threshold
  }

  /** Similarity does not depend on the order of the two texts. */
  lemma SimilarSymmetric(a: Text, b: Text, threshold: real)
    ensures IsSimilarTo(a, b, threshold) == IsSimilarTo(b, a, threshold)
  {
    if SimilarityWords(a) != {} && SimilarityWords(b) != {} {
      JaccardSymmetric(SimilarityWords(a), SimilarityWords(b));
    }
  }

  /** A text similar at some threshold is similar at every lower one. */
  lemma SimilarThresholdMonotone(a: Text, b: Text, low: real, high: real)
    requires low <= high && IsSimilarTo(a, b, high)
    ensures IsSimilarTo(a, b, low)
  {
  }

  /** Texts with the same non-empty word set are similar at every threshold up to 1. */
  lemma SameWordsSimilar(a: Text, b: Text, threshold: real)
    requires SimilarityWords(a) == SimilarityWords(b) != {} && threshold <= 1.0
    ensures IsSimilarTo(a, b, threshold)
  {
    JaccardOne(SimilarityWords(a), SimilarityWords(b));
  }

  /** A text without words is similar only to a text with the same hash. */
  lemma BlankNotSimilar(a: Text, b: Text, threshold: real)
    requires All(a.normalizedContent, IsSpace)
    ensures IsSimilarTo(a, b, threshold) <==> Equals(a, b)
  {
    var l := LowerStr(a.normalizedContent);
    assert All(l, IsSpace);
    WordSetEmpty(l);
  }
}
