/**
 * `TextProcessor`: the text canonicalisation used for hashing and analysis,
 * length and content validation, sentence splitting, keyword extraction and
 * word-set similarity.
 *
 * Unicode NFC composition is the identity here, and `lower`, `isalnum`, `\w`
 * and `\s` are the character tables of module Chars.
 */
module TextProcessor {
  import opened Results
  import opened Chars
  import opened Seqs
  import Digest

  const MinTextLength := 10
  const MaxTextLength := 2000
  const MinSentenceLength := 10

  // ------------------------------------------------------------- normalize

  predicate IsLineBreak(c: char) {
    c == '\t' || c == '\n' || c == '\r'
  }

  /** The class `[.,;:!?]` whose runs the hashing mode collapses. */
  predicate IsPunct(c: char) {
    c == '.' || c == ',' || c == ';' || c == ':' || c == '!' || c == '?'
  }

  predicate NoPunctRun(s: string) {
    forall i :: 0 < i < |s| ==> !(IsPunct(s[i - 1]) && IsPunct(s[i]))
  }

  /** The shape of a display-normalised text. */
  predicate Canonical(s: string) {
    All(s, NotControl) && All(s, PlainOrNotSpace) && NoSpaceRun(s) && Trimmed(s)
  }

  /** Tabs, newlines and carriage returns become spaces. */
  function ReplaceLineBreaks(s: string): (r: string)
    ensures |r| == |s|
    ensures forall i :: 0 <= i < |s| ==> r[i] == (if IsLineBreak(s[i]) then ' ' else s[i])
  {
    seq(|s|, i requires 0 <= i < |s| => if IsLineBreak(s[i]) then ' ' else s[i])
  }

  /** `re.sub('[.,;:!?]{2,}', lambda m: m.group(0)[0], s)`: each run keeps its first character. */
  function CollapsePunct(s: string): (r: string)
    ensures |r| <= |s|
    ensures |s| > 0 ==> |r| > 0 && r[0] == s[0]
    decreases |s|
  {
    if s == [] then []
    else if IsPunct(s[0]) then [s[0]] + CollapsePunct(s[RunLength(s, IsPunct)..])
    else [s[0]] + CollapsePunct(s[1..])
  }

  /** How far CollapsePunct advances past the head of a non-empty text. */
  function PunctStep(s: string): (k: nat)
    requires s != []
    ensures 0 < k <= |s|
    ensures CollapsePunct(s) == [s[0]] + CollapsePunct(s[k..])
    ensures IsPunct(s[0]) ==> k == |s| || !IsPunct(s[k])
    ensures !IsPunct(s[0]) ==> k == 1
  {
    if IsPunct(s[0]) then RunLength(s, IsPunct) else 1
  }

  /** No run of punctuation survives the collapse. */
  lemma {:induction false} CollapsePunctNoRun(s: string)
    ensures NoPunctRun(CollapsePunct(s))
    decreases |s|
  {
    if s != [] {
      var k := PunctStep(s);
      CollapsePunctNoRun(s[k..]);
    }
  }

  /** The collapse only deletes characters, so every property of the characters carries over. */
  lemma {:induction false} CollapsePunctAll(s: string, p: char -> bool)
    requires All(s, p)
    ensures All(CollapsePunct(s), p)
    decreases |s|
  {
    if s != [] {
      var k := PunctStep(s);
      AllSlice(s, p, k, |s|);
      CollapsePunctAll(s[k..], p);
    }
  }

  /** Collapsing punctuation creates no whitespace run. */
  lemma {:induction false} CollapsePunctNoSpaceRun(s: string)
    requires NoSpaceRun(s)
    ensures NoSpaceRun(CollapsePunct(s))
    decreases |s|
  {
    if s != [] {
      var k := PunctStep(s);
      NoSpaceRunSlice(s, k, |s|);
      CollapsePunctNoSpaceRun(s[k..]);
    }
  }

  /** Collapsing a text without punctuation runs changes nothing. */
  lemma {:induction false} CollapsePunctIdentity(s: string)
    requires NoPunctRun(s)
    ensures CollapsePunct(s) == s
    decreases |s|
  {
    if s != [] {
      assert NoPunctRun(s[1..]);
      CollapsePunctIdentity(s[1..]);
      var k := PunctStep(s);
      assert k == 1;
      assert [s[0]] + s[1..] == s;
    }
  }

  /** The display-mode pipeline: line breaks, control codes, whitespace runs, NFC, strip. */
  function DisplayForm(text: string): (r: string)
    ensures |r| <= |text|
  {
    Strip(CollapseSpaces(Keep(ReplaceLineBreaks(text), NotControl)))
  }

  lemma DisplayFormShape(text: string)
    ensures Canonical(DisplayForm(text))
  {
    var kept := Keep(ReplaceLineBreaks(text), NotControl);
    KeepShape(ReplaceLineBreaks(text), NotControl, NotControl);
    var collapsed := CollapseSpaces(kept);
    CollapseAll(kept, NotControl);
    CollapseNoSpaceRun(kept);
    StripAll(collapsed, NotControl);
    StripAll(collapsed, PlainOrNotSpace);
    StripKeepsNoSpaceRun(collapsed);
  }

  /** The extra hashing-mode steps: lower case, punctuation runs, quotes (the identity). */
  function HashingForm(s: string): (r: string)
    ensures |r| <= |s|
  {
    CollapsePunct(LowerStr(s))
  }

  lemma HashingFormShape(s: string)
    requires Canonical(s)
    ensures var r := HashingForm(s); Canonical(r) && All(r, NotUpper) && NoPunctRun(r)
  {
    var lowered := LowerStr(s);
    LowerStrAll(s);
    assert NoSpaceRun(lowered) && Trimmed(lowered);
    CollapsePunctNoSpaceRun(lowered);
    CollapsePunctAll(lowered, NotControl);
    CollapsePunctAll(lowered, PlainOrNotSpace);
    CollapsePunctAll(lowered, NotUpper);
    CollapsePunctNoRun(lowered);
    CollapsePunctEnds(lowered);
  }

  /** The collapse ends in whitespace only when the text does. */
  lemma {:induction false} CollapsePunctEnds(s: string)
    ensures s != [] && IsSpace(CollapsePunct(s)[|CollapsePunct(s)| - 1]) ==> IsSpace(s[|s| - 1])
    decreases |s|
  {
    if s != [] {
      var k := PunctStep(s);
      if k < |s| {
        CollapsePunctEnds(s[k..]);
        var r := CollapsePunct(s[k..]);
        assert CollapsePunct(s)[|CollapsePunct(s)| - 1] == r[|r| - 1];
      }
    }
  }

  /**
   * `TextProcessor.normalize(text, for_hashing)`: fails only on the empty
   * string; the result has no control characters, no whitespace other than
   * single plain spaces and none at either end; in hashing mode it has no
   * upper-case letters and no punctuation runs either.
   */
  function Normalize(text: string, forHashing: bool := false): (r: Result<string>)
    ensures r.Err? <==> text == []
    ensures r.Ok? ==> Canonical(r.value) && |r.value| <= |text|
    ensures r.Ok? && forHashing ==> All(r.value, NotUpper) && NoPunctRun(r.value)
  {
    if text == [] then Err(EmptyText)
    else
      var display := DisplayForm(text);
      DisplayFormShape(text);
      if forHashing then HashingFormShape(display); Ok(HashingForm(display)) else Ok(display)
  }

  /** Text made only of whitespace and control codes normalises to "" instead of failing. */
  lemma BlankNormalizesEmpty(text: string, forHashing: bool)
    requires text != []
    requires All(text, SpaceOrControl)
    ensures Normalize(text, forHashing) == Ok([])
  {
    var replaced := ReplaceLineBreaks(text);
    var kept := Keep(replaced, NotControl);
    KeepShape(replaced, NotControl, SpaceOrControl);
    assert All(kept, IsSpace) by {
      forall i | 0 <= i < |kept| ensures IsSpace(kept[i]) {
        assert NotControl(kept[i]) && SpaceOrControl(kept[i]);
      }
    }
    CollapseAll(kept, IsSpace);
  }

  predicate SpaceOrControl(c: char) {
    IsSpace(c) || IsControl(c)
  }

  /** Normalising a normalised text changes nothing, in either mode. */
  lemma NormalizeIdempotent(text: string, forHashing: bool)
    requires text != []
    requires Normalize(text, forHashing).value != []
    ensures Normalize(Normalize(text, forHashing).value, forHashing) == Normalize(text, forHashing)
  {
    NormalizeFixedPoint(Normalize(text, forHashing).value, forHashing);
  }

  /** A non-empty text already in the output shape of a mode is its own normal form there. */
  lemma NormalizeFixedPoint(n: string, forHashing: bool)
    requires n != [] && Canonical(n)
    requires forHashing ==> All(n, NotUpper) && NoPunctRun(n)
    ensures Normalize(n, forHashing) == Ok(n)
  {
    if forHashing {
      HashingFixedPoint(n);
    } else {
      DisplayFormCanonical(n);
    }
  }

  lemma HashingFixedPoint(n: string)
    requires n != [] && Canonical(n) && All(n, NotUpper) && NoPunctRun(n)
    ensures Normalize(n, true) == Ok(n)
  {
    DisplayFormCanonical(n);
    HashingFormIdentity(n);
  }

  lemma DisplayFormCanonical(s: string)
    requires Canonical(s)
    ensures DisplayForm(s) == s
  {
    var replaced := ReplaceLineBreaks(s);
    assert replaced == s;
    KeepAll(s, NotControl);
    CollapseCanonical(s);
    StripTrimmed(s);
  }

  lemma HashingFormIdentity(s: string)
    requires Canonical(s) && All(s, NotUpper) && NoPunctRun(s)
    ensures HashingForm(s) == s
  {
    assert LowerStr(s) == s;
    CollapsePunctIdentity(s);
  }

  /** `TextProcessor.generate_hash`: the SHA-256 hex digest of the hashing form. */
  function GenerateHash(text: string): (r: Result<string>)
    ensures r.Err? <==> text == []
    ensures r.Ok? ==> |r.value| == 64 && Digest.IsLowerHex(r.value)
  {
    match Normalize(text, true)
    case Err(e) => Err(e)
    case Ok(n) => Ok(Digest.HexDigest(n))
  }

  /** Texts with the same hashing form have the same hash. */
  lemma SameFormSameHash(a: string, b: string)
    requires a != [] && b != [] && Normalize(a, true) == Normalize(b, true)
    ensures GenerateHash(a) == GenerateHash(b)
  {
  }

  /** Hashing the hashing form of a text gives the text's own hash. */
  lemma HashOfNormalForm(text: string)
    requires text != [] && Normalize(text, true).value != []
    ensures GenerateHash(Normalize(text, true).value) == GenerateHash(text)
  {
    NormalizeIdempotent(text, true);
  }

  // ------------------------------------------------------------ validation

  /** `TextProcessor.is_valid_length`: the stripped text has 10 to 2000 characters. */
  function IsValidLength(text: string): (r: bool)
    ensures r <==> MinTextLength <= |Strip(text)| <= MaxTextLength
  {
    text != [] && MinTextLength <= |Strip(text)| <= MaxTextLength
  }

  /**
   * The word characters of a text: what both `re.sub(r'[\s\W]', '', s)`
   * in `validate_text` and `re.sub(r'[^\w]', '', word)` in
   * `extract_keywords_basic` keep.
   */
  function WordChars(s: string): (r: string)
    ensures |r| <= |s|
  {
    Keep(s, IsWordChar)
  }

  /**
   * `TextProcessor.validate_text`: None when the text is acceptable, otherwise
   * the first failed check among empty, too short, too long and fewer than five
   * word characters.
   */
  function ValidateText(text: string): (r: Option<Error>)
    ensures r == Some(EmptyText) <==> text == []
    ensures r == Some(TooShort) <==> text != [] && |Strip(text)| < MinTextLength
    ensures r == Some(TooLong) <==> |Strip(text)| > MaxTextLength
    ensures r == Some(NotMeaningful) <==> IsValidLength(text) && |WordChars(Strip(text))| < 5
    ensures r.None? <==> IsValidLength(text) && |WordChars(Strip(text))| >= 5
  {
    if text == [] then Some(EmptyText)
    else
      var cleaned := Strip(text);
      if |cleaned| < MinTextLength then Some(TooShort)
      else if |cleaned| > MaxTextLength then Some(TooLong)
      else if |WordChars(cleaned)| < 5 then Some(NotMeaningful)
      else None
  }

  // -------------------------------------------------------------- sentences

  /** The class `[.!?]` that ends a sentence. */
  predicate IsEnder(c: char) {
    c == '.' || c == '!' || c == '?'
  }

  predicate NotEnder(c: char) {
    !IsEnder(c)
  }

  /** What follows the first piece and the run of enders after it. */
  function AfterSentence(s: string): (r: string)
    requires RunLength(s, NotEnder) < |s|
    ensures |r| < |s|
  {
    var n := RunLength(s, NotEnder);
    s[n + RunLength(s[n..], IsEnder)..]
  }

  /** `re.split(r'[.!?]+', s)`: the pieces between maximal runs of sentence enders. */
  function SplitSentences(s: string): (r: seq<string>)
    ensures |r| >= 1
    decreases |s|
  {
    var n := RunLength(s, NotEnder);
    if n == |s| then [s] else [s[..n]] + SplitSentences(AfterSentence(s))
  }

  /** The text up to its first ender has none. */
  lemma SentenceHead(s: string)
    ensures All(s[..RunLength(s, NotEnder)], NotEnder)
  {
    var n := RunLength(s, NotEnder);
    assert forall i :: 0 <= i < n ==> s[..n][i] == s[i];
  }

  /** Past the first piece only enders are skipped. */
  lemma SentenceStep(s: string)
    requires RunLength(s, NotEnder) < |s|
    ensures Keep(s, NotEnder) == s[..RunLength(s, NotEnder)] + Keep(AfterSentence(s), NotEnder)
  {
    var n := RunLength(s, NotEnder);
    KeepSplit(s, n, NotEnder);
    SentenceHead(s);
    KeepAll(s[..n], NotEnder);
    SkipEnders(s);
  }

  lemma SkipEnders(s: string)
    requires RunLength(s, NotEnder) < |s|
    ensures Keep(s[RunLength(s, NotEnder)..], NotEnder) == Keep(AfterSentence(s), NotEnder)
  {
    var tail := s[RunLength(s, NotEnder)..];
    AfterSentenceTail(s);
    EnderRunNotKept(tail);
    KeepDropPrefix(tail, RunLength(tail, IsEnder), NotEnder);
  }

  /** What follows a sentence is the rest of the text past its run of enders. */
  lemma AfterSentenceTail(s: string)
    requires RunLength(s, NotEnder) < |s|
    ensures var tail := s[RunLength(s, NotEnder)..];
      AfterSentence(s) == tail[RunLength(tail, IsEnder)..]
  {
  }

  /** A run of sentence enders holds nothing that splitting keeps. */
  lemma EnderRunNotKept(t: string)
    ensures forall i :: 0 <= i < RunLength(t, IsEnder) ==> !NotEnder(t[i])
  {
  }

  /** Every piece of a split is free of sentence enders. */
  lemma {:induction false} SplitSentencesNoEnder(s: string, k: nat)
    requires k < |SplitSentences(s)|
    ensures All(SplitSentences(s)[k], NotEnder)
    decreases |s|
  {
    var n := RunLength(s, NotEnder);
    if n < |s| {
      var ps := SplitSentences(AfterSentence(s));
      assert SplitSentences(s) == [s[..n]] + ps;
      if k == 0 {
        SentenceHead(s);
      } else {
        SplitSentencesNoEnder(AfterSentence(s), k - 1);
        ConsIndex(s[..n], ps, k);
      }
    }
  }

  function Concat(ps: seq<string>): string {
    if ps == [] then [] else ps[0] + Concat(ps[1..])
  }

  /** Splitting loses nothing but the sentence enders: the pieces put together are the text without them. */
  lemma {:induction false} SplitSentencesLossless(s: string)
    ensures Concat(SplitSentences(s)) == Keep(s, NotEnder)
    decreases |s|
  {
    var n := RunLength(s, NotEnder);
    if n == |s| {
      KeepAll(s, NotEnder);
      assert Concat([s]) == s + Concat([]);
    } else {
      var rest := AfterSentence(s);
      SplitSentencesLossless(rest);
      SentenceStep(s);
      var ps := SplitSentences(rest);
      assert SplitSentences(s) == [s[..n]] + ps;
      assert ([s[..n]] + ps)[1..] == ps;
    }
  }

  /** A sentence as extraction returns it: trimmed, without enders, at least `minLength` long. */
  predicate IsSentence(s: string, minLength: int) {
    All(s, NotEnder) && Trimmed(s) && |s| >= minLength
  }

  /** The trimmed pieces of at least `minLength` characters, in order. */
  function KeepSentences(pieces: seq<string>, minLength: int): (r: seq<string>)
    ensures |r| <= |pieces|
  {
    if pieces == [] then []
    else
      var t := Strip(pieces[|pieces| - 1]);
      KeepSentences(pieces[..|pieces| - 1], minLength) + (if |t| >= minLength then [t] else [])
  }

  /** What survives the filter is a sentence when no piece holds an ender. */
  lemma {:induction false} KeepSentencesShape(pieces: seq<string>, minLength: int, k: nat)
    requires forall j :: 0 <= j < |pieces| ==> All(pieces[j], NotEnder)
    requires k < |KeepSentences(pieces, minLength)|
    ensures IsSentence(KeepSentences(pieces, minLength)[k], minLength)
  {
    var init := pieces[..|pieces| - 1];
    var t := Strip(pieces[|pieces| - 1]);
    var front := KeepSentences(init, minLength);
    assert KeepSentences(pieces, minLength) == front + (if |t| >= minLength then [t] else []);
    if k < |front| {
      assert forall j :: 0 <= j < |init| ==> init[j] == pieces[j];
      KeepSentencesShape(init, minLength, k);
    } else {
      StripAll(pieces[|pieces| - 1], NotEnder);
    }
  }

  /**
   * `TextProcessor.extract_sentences`: the trimmed pieces of the display form
   * between runs of `.`, `!` and `?` that have at least `minLength` characters
   * (10 when absent); none for the empty text.
   */
  method ExtractSentences(text: string, minLength: Option<int> := None) returns (sentences: seq<string>)
    ensures text == [] ==> sentences == []
    ensures text != [] ==> sentences == KeepSentences(SplitSentences(Normalize(text).value),
                                                      if minLength.Some? then minLength.value else MinSentenceLength)
    ensures forall i :: 0 <= i < |sentences| ==>
              IsSentence(sentences[i], if minLength.Some? then minLength.value else MinSentenceLength)
  {
    if text == [] {
      return [];
    }
    var least := if minLength.Some? then minLength.value else MinSentenceLength;
    var pieces := SplitSentences(Normalize(text).value);
    sentences := KeepLongSentences(pieces, least);
    forall i | 0 <= i < |sentences| ensures IsSentence(sentences[i], least) {
      forall j | 0 <= j < |pieces| ensures All(pieces[j], NotEnder) {
        SplitSentencesNoEnder(Normalize(text).value, j);
      }
      KeepSentencesShape(pieces, least, i);
    }
  }

  /** One iteration of the sentence loop keeps `sentences` the filtered prefix. */
  lemma LongSentenceStep(pieces: seq<string>, i: nat, minLength: int, sentence: string,
                     sentences: seq<string>, sentences': seq<string>)
    requires i < |pieces| && sentences == KeepSentences(pieces[..i], minLength)
    requires sentence == Strip(pieces[i])
    requires |sentence| >= minLength ==> sentences' == sentences + [sentence]
    requires |sentence| < minLength ==> sentences' == sentences
    ensures sentences' == KeepSentences(pieces[..i + 1], minLength)
  {
    assert pieces[..i + 1][..i] == pieces[..i] && pieces[..i + 1][i] == pieces[i];
  }

  /** The loop of `extract_sentences`: strip each piece and keep those of at least `minLength` characters. */
  method KeepLongSentences(pieces: seq<string>, minLength: int) returns (sentences: seq<string>)
    ensures sentences == KeepSentences(pieces, minLength)
  {
    sentences := [];
    var i := 0;
    while i < |pieces|
      invariant 0 <= i <= |pieces|
      invariant sentences == KeepSentences(pieces[..i], minLength)
    {
      sentences := AddSentence(pieces, i, minLength, sentences);
      i := i + 1;
    }
    assert pieces[..i] == pieces;
  }

  /** The body of the sentence loop: strip the next piece and keep it when it is long enough. */
  method AddSentence(pieces: seq<string>, i: nat, minLength: int, sentences: seq<string>)
    returns (sentences': seq<string>)
    requires i < |pieces| && sentences == KeepSentences(pieces[..i], minLength)
    ensures sentences' == KeepSentences(pieces[..i + 1], minLength)
  {
    var sentence := Strip(pieces[i]);
    sentences' := sentences;
    if |sentence| >= minLength {
      sentences' := sentences + [sentence];
    }
    LongSentenceStep(pieces, i, minLength, sentence, sentences, sentences');
  }

  // ----------------------------------------------------- clean_for_analysis

  /** The characters `[\w\s.,!?;:-]` that analysis keeps. */
  predicate IsAnalysisChar(c: char) {
    IsWordChar(c) || IsSpace(c) || IsPunct(c) || c == '-'
  }

  predicate IsPause(c: char) {
    c == ',' || c == ';' || c == ':'
  }

  /** No whitespace directly before a character of `[.!?,:;]`. */
  predicate NoSpaceBeforePunct(s: string) {
    forall i :: 0 < i < |s| ==> !(IsSpace(s[i - 1]) && IsPunct(s[i]))
  }

  lemma NoSpaceBeforePunctSlice(s: string, a: nat, b: nat)
    requires a <= b <= |s| && NoSpaceBeforePunct(s)
    ensures NoSpaceBeforePunct(s[a..b])
  {
    forall i | 0 < i < b - a ensures !(IsSpace(s[a..b][i - 1]) && IsPunct(s[a..b][i])) {
      assert s[a..b][i - 1] == s[a + i - 1] && s[a..b][i] == s[a + i];
    }
  }

  /** `re.sub(r'([class]){2,}', r'\1', s)`: each run of two or more keeps its last character. */
  function CollapseRunsToLast(s: string, p: char -> bool): (r: string)
    ensures |r| <= |s|
    ensures |s| > 0 ==> |r| > 0 && (p(r[0]) <==> p(s[0]))
    decreases |s|
  {
    if s == [] then []
    else if p(s[0]) then
      var k := RunLength(s, p);
      [s[k - 1]] + CollapseRunsToLast(s[k..], p)
    else [s[0]] + CollapseRunsToLast(s[1..], p)
  }

  /** How far CollapseRunsToLast advances, and the character it keeps for the head. */
  lemma RunsStep(s: string, p: char -> bool) returns (k: nat)
    requires s != []
    ensures 0 < k <= |s|
    ensures CollapseRunsToLast(s, p) == [s[k - 1]] + CollapseRunsToLast(s[k..], p)
    ensures p(s[0]) ==> p(s[k - 1]) && (k == |s| || !p(s[k]))
    ensures !p(s[0]) ==> k == 1
  {
    k := if p(s[0]) then RunLength(s, p) else 1;
  }

  /** No run of the class survives. */
  lemma {:induction false} RunsToLastNoRun(s: string, p: char -> bool)
    ensures forall i :: 0 < i < |CollapseRunsToLast(s, p)| ==>
      !(p(CollapseRunsToLast(s, p)[i - 1]) && p(CollapseRunsToLast(s, p)[i]))
    decreases |s|
  {
    if s != [] {
      var k := RunsStep(s, p);
      RunsToLastNoRun(s[k..], p);
    }
  }

  /** The collapse only deletes characters, so every property of the characters carries over. */
  lemma {:induction false} RunsToLastAll(s: string, p: char -> bool, q: char -> bool)
    requires All(s, q)
    ensures All(CollapseRunsToLast(s, p), q)
    decreases |s|
  {
    if s != [] {
      var k := RunsStep(s, p);
      AllSlice(s, q, k, |s|);
      RunsToLastAll(s[k..], p, q);
    }
  }

  /** `re.sub(r'\s+([.!?,:;])', r'\1', s)`: whitespace before punctuation is dropped. */
  function DropSpaceBeforePunct(s: string): (r: string)
    ensures |r| <= |s|
    ensures |s| > 0 && !IsSpace(s[0]) ==> |r| > 0 && r[0] == s[0]
    decreases |s|
  {
    if s == [] then []
    else if IsSpace(s[0]) then
      var k := RunLength(s, IsSpace);
      if k < |s| && IsPunct(s[k]) then DropSpaceBeforePunct(s[k..])
      else s[..k] + DropSpaceBeforePunct(s[k..])
    else [s[0]] + DropSpaceBeforePunct(s[1..])
  }

  /** After the drop no whitespace stands before punctuation. */
  lemma {:induction false} DropNoSpaceBeforePunct(s: string)
    ensures NoSpaceBeforePunct(DropSpaceBeforePunct(s))
    decreases |s|
  {
    if s != [] {
      if IsSpace(s[0]) {
        var k := RunLength(s, IsSpace);
        DropNoSpaceBeforePunct(s[k..]);
        if !(k < |s| && IsPunct(s[k])) {
          var d := DropSpaceBeforePunct(s[k..]);
          assert DropSpaceBeforePunct(s) == s[..k] + d;
          assert forall i :: 0 <= i < k ==> s[..k][i] == s[i];
        }
      } else {
        DropNoSpaceBeforePunct(s[1..]);
        assert DropSpaceBeforePunct(s) == [s[0]] + DropSpaceBeforePunct(s[1..]);
      }
    }
  }

  /** The drop only deletes characters, so every property of the characters carries over. */
  lemma {:induction false} DropAll(s: string, q: char -> bool)
    requires All(s, q)
    ensures All(DropSpaceBeforePunct(s), q)
    decreases |s|
  {
    if s != [] {
      if IsSpace(s[0]) {
        var k := RunLength(s, IsSpace);
        AllSlice(s, q, k, |s|);
        AllSlice(s, q, 0, k);
        DropAll(s[k..], q);
      } else {
        AllSlice(s, q, 1, |s|);
        DropAll(s[1..], q);
      }
    }
  }

  /** `re.sub(r'([.!?])\s*([A-Z])', r'\1 \2', s)`: exactly one space between an ender and a capital. */
  function SpaceAfterEnder(s: string): (r: string)
    ensures |s| > 0 ==> |r| > 0 && r[0] == s[0]
    decreases |s|
  {
    if s == [] then []
    else if IsEnder(s[0]) then
      var k := RunLength(s[1..], IsSpace);
      if 1 + k < |s| && IsAsciiUpper(s[1 + k]) then [s[0], ' ', s[1 + k]] + SpaceAfterEnder(s[2 + k..])
      else [s[0]] + SpaceAfterEnder(s[1..])
    else [s[0]] + SpaceAfterEnder(s[1..])
  }

  /** Whether SpaceAfterEnder rewrites the head of s, and where it then continues. */
  lemma EnderStep(s: string) returns (k: nat, rewrites: bool)
    requires s != []
    ensures rewrites ==> (2 <= k + 2 <= |s| && IsEnder(s[0]) && IsAsciiUpper(s[1 + k])
                          && SpaceAfterEnder(s) == [s[0], ' ', s[1 + k]] + SpaceAfterEnder(s[2 + k..]))
    ensures !rewrites ==> SpaceAfterEnder(s) == [s[0]] + SpaceAfterEnder(s[1..])
  {
    k := RunLength(s[1..], IsSpace);
    rewrites := IsEnder(s[0]) && 1 + k < |s| && IsAsciiUpper(s[1 + k]);
  }

  /** Only plain spaces are inserted: every other character comes from the text. */
  lemma {:induction false} SpaceAfterEnderAll(s: string, q: char -> bool)
    requires All(s, q) && q(' ')
    ensures All(SpaceAfterEnder(s), q)
    decreases |s|
  {
    if s != [] {
      var k, rewrites := EnderStep(s);
      if rewrites {
        AllSlice(s, q, 2 + k, |s|);
        SpaceAfterEnderAll(s[2 + k..], q);
        var head := [s[0], ' ', s[1 + k]];
        assert All(head, q) by {
          assert q(s[0]) && q(s[1 + k]);
        }
        AllConcat(head, SpaceAfterEnder(s[2 + k..]), q);
      } else {
        AllSlice(s, q, 1, |s|);
        SpaceAfterEnderAll(s[1..], q);
        AllCons(s[0], SpaceAfterEnder(s[1..]), q);
      }
    }
  }

  /** Inserting the space after an ender puts no whitespace before punctuation. */
  lemma {:induction false} SpaceAfterEnderKeeps(s: string)
    requires NoSpaceBeforePunct(s)
    ensures NoSpaceBeforePunct(SpaceAfterEnder(s))
    decreases |s|
  {
    if s != [] {
      var k, rewrites := EnderStep(s);
      if rewrites {
        NoSpaceBeforePunctSlice(s, 2 + k, |s|);
        SpaceAfterEnderKeeps(s[2 + k..]);
        RewrittenHead(s[0], s[1 + k], SpaceAfterEnder(s[2 + k..]));
      } else {
        NoSpaceBeforePunctSlice(s, 1, |s|);
        SpaceAfterEnderKeeps(s[1..]);
        assert |s| > 1 ==> !(IsSpace(s[0]) && IsPunct(s[1]));
        CopiedHead(s[0], SpaceAfterEnder(s[1..]));
      }
    }
  }

  lemma RewrittenHead(e: char, u: char, r: string)
    requires IsEnder(e) && IsAsciiUpper(u) && NoSpaceBeforePunct(r)
    ensures NoSpaceBeforePunct([e, ' ', u] + r)
  {
  }

  lemma CopiedHead(c: char, r: string)
    requires NoSpaceBeforePunct(r) && (r != [] && IsSpace(c) ==> !IsPunct(r[0]))
    ensures NoSpaceBeforePunct([c] + r)
  {
  }

  /** Collapsing whitespace puts no whitespace before punctuation. */
  lemma {:induction false} CollapseNoSpaceBeforePunct(s: string)
    requires NoSpaceBeforePunct(s)
    ensures NoSpaceBeforePunct(CollapseSpaces(s))
    decreases |s|
  {
    if s != [] {
      if IsSpace(s[0]) {
        var t := StripStart(s);
        NoSpaceBeforePunctSlice(s, |s| - |t|, |s|);
        CollapseNoSpaceBeforePunct(t);
        CollapseAfterSpace(s);
      } else {
        NoSpaceBeforePunctSlice(s, 1, |s|);
        CollapseNoSpaceBeforePunct(s[1..]);
        CollapseHead(s);
      }
    }
  }

  lemma CollapseAfterSpace(s: string)
    requires s != [] && IsSpace(s[0]) && NoSpaceBeforePunct(s)
    requires NoSpaceBeforePunct(CollapseSpaces(StripStart(s)))
    ensures NoSpaceBeforePunct(CollapseSpaces(s))
  {
    var t := StripStart(s);
    var c := CollapseSpaces(t);
    assert CollapseSpaces(s) == [' '] + c;
    if t != [] {
      var k := |s| - |t|;
      assert IsSpace(s[k - 1]) && s[k] == t[0];
      CollapseHead(t);
    }
  }

  /**
   * `TextProcessor.clean_for_analysis`: "" for the empty text; otherwise the
   * display form reduced to word characters, whitespace and `.,!?;:-`, with
   * punctuation runs collapsed, whitespace before punctuation dropped and one
   * space between a sentence ender and a capital, then collapsed and stripped.
   * The result keeps only those characters, has single plain spaces and
   * none at either end, and no whitespace before punctuation.
   */
  function CleanForAnalysis(text: string): (r: string)
    ensures text == [] ==> r == []
    ensures All(r, IsAnalysisChar) && All(r, PlainOrNotSpace) && NoSpaceRun(r) && Trimmed(r)
    ensures NoSpaceBeforePunct(r)
  {
    if text == [] then []
    else
      var kept := Keep(DisplayForm(text), IsAnalysisChar);
      var ends := CollapseRunsToLast(kept, IsEnder);
      var pauses := CollapseRunsToLast(ends, IsPause);
      var stage := DropSpaceBeforePunct(pauses);
      var spaced := SpaceAfterEnder(stage);
      KeepShape(DisplayForm(text), IsAnalysisChar, IsAnalysisChar);
      RunsToLastAll(kept, IsEnder, IsAnalysisChar);
      RunsToLastAll(ends, IsPause, IsAnalysisChar);
      DropAll(pauses, IsAnalysisChar);
      DropNoSpaceBeforePunct(pauses);
      SpaceAfterEnderAll(stage, IsAnalysisChar);
      SpaceAfterEnderKeeps(stage);
      CleanTail(spaced);
      Strip(CollapseSpaces(spaced))
  }

  /** The final collapse and strip of `clean_for_analysis`. */
  lemma CleanTail(spaced: string)
    requires All(spaced, IsAnalysisChar) && NoSpaceBeforePunct(spaced)
    ensures var r := Strip(CollapseSpaces(spaced));
      All(r, IsAnalysisChar) && All(r, PlainOrNotSpace) && NoSpaceRun(r) && Trimmed(r)
      && NoSpaceBeforePunct(r)
  {
    var collapsed := CollapseSpaces(spaced);
    CollapseAll(spaced, IsAnalysisChar);
    CollapseNoSpaceRun(spaced);
    CollapseNoSpaceBeforePunct(spaced);
    StripAll(collapsed, IsAnalysisChar);
    StripAll(collapsed, PlainOrNotSpace);
    StripKeepsNoSpaceRun(collapsed);
    StripNoSpaceBeforePunct(collapsed);
  }

  lemma StripNoSpaceBeforePunct(s: string)
    requires NoSpaceBeforePunct(s)
    ensures NoSpaceBeforePunct(Strip(s))
  {
    var t := StripStart(s);
    NoSpaceBeforePunctSlice(s, |s| - |t|, |s|);
    NoSpaceBeforePunctSlice(t, 0, |StripEnd(t)|);
  }

  /** Collapsing runs leaves a text with no character of the class unchanged. */
  lemma {:induction false} RunsToLastNone(s: string, p: char -> bool)
    requires forall i :: 0 <= i < |s| ==> !p(s[i])
    ensures CollapseRunsToLast(s, p) == s
    decreases |s|
  {
    if s != [] {
      RunsToLastNone(s[1..], p);
    }
  }

  /** Without punctuation there is no whitespace to drop. */
  lemma {:induction false} DropNone(s: string)
    requires forall i :: 0 <= i < |s| ==> !IsPunct(s[i])
    ensures DropSpaceBeforePunct(s) == s
    decreases |s|
  {
    if s != [] {
      if IsSpace(s[0]) {
        var k := RunLength(s, IsSpace);
        assert DropSpaceBeforePunct(s[k..]) == s[k..] by { DropNone(s[k..]); }
        assert DropSpaceBeforePunct(s) == s[..k] + DropSpaceBeforePunct(s[k..]) by {
          assert k == |s| || !IsPunct(s[k]);
        }
        assert s[..k] + s[k..] == s;
      } else {
        assert DropSpaceBeforePunct(s[1..]) == s[1..] by { DropNone(s[1..]); }
        assert [s[0]] + s[1..] == s;
      }
    }
  }

  /** Without sentence enders no space is inserted. */
  lemma {:induction false} SpaceAfterEnderNone(s: string)
    requires forall i :: 0 <= i < |s| ==> !IsEnder(s[i])
    ensures SpaceAfterEnder(s) == s
    decreases |s|
  {
    if s != [] {
      SpaceAfterEnderNone(s[1..]);
    }
  }

  /** The run collapses and the space drop leave a text without punctuation unchanged. */
  lemma PunctStagesNone(s: string)
    requires forall i :: 0 <= i < |s| ==> !IsPunct(s[i])
    ensures DropSpaceBeforePunct(CollapseRunsToLast(CollapseRunsToLast(s, IsEnder), IsPause)) == s
  {
    RunsToLastNone(s, IsEnder);
    RunsToLastNone(s, IsPause);
    DropNone(s);
  }

  /**
   * A canonical text of analysis characters without punctuation is already
   * clean: every step of `clean_for_analysis` leaves it as it is.
   */
  lemma CleanForAnalysisFixed(s: string)
    requires s != [] && Canonical(s) && All(s, IsAnalysisChar)
    requires forall i :: 0 <= i < |s| ==> !IsPunct(s[i])
    ensures CleanForAnalysis(s) == s
  {
    calc {
      CleanForAnalysis(s);
      Strip(CollapseSpaces(SpaceAfterEnder(DropSpaceBeforePunct(
        CollapseRunsToLast(CollapseRunsToLast(Keep(DisplayForm(s), IsAnalysisChar), IsEnder), IsPause)))));
      { DisplayFormCanonical(s); KeepAll(s, IsAnalysisChar); }
      Strip(CollapseSpaces(SpaceAfterEnder(DropSpaceBeforePunct(
        CollapseRunsToLast(CollapseRunsToLast(s, IsEnder), IsPause)))));
      { PunctStagesNone(s); }
      Strip(CollapseSpaces(SpaceAfterEnder(s)));
      { SpaceAfterEnderNone(s); }
      Strip(CollapseSpaces(s));
      { CollapseCanonical(s); }
      Strip(s);
      { StripTrimmed(s); }
      s;
    }
  }

  // --------------------------------------------------------------- keywords

  /** The stop words of `extract_keywords_basic` other than "não", grouped by length. */
  const ShortStopWords: set<string> := {
    "a", "an", "as", "at", "be", "by", "he", "in", "is", "it", "of", "on", "to",
    "o", "e", "os", "um", "de", "do", "da", "em", "no", "na", "se"
  }

  const ThreeLetterStopWords: set<string> := {
    "and", "are", "for", "has", "its", "the", "was", "uma", "dos", "das", "nos", "nas",
    "por", "com", "sem", "que"
  }

  const LongStopWords: set<string> := {
    "from", "that", "will", "with", "this", "these", "those", "they", "para", "mais", "muito"
  }

  /** The stop words as the file spells them: "não" appears as the mis-decoding "nÃ£o". */
  const StopWordsAsWritten: set<string> :=
    ShortStopWords + ThreeLetterStopWords + LongStopWords + {"n\U{C3}\U{A3}o"}

  /** The stop words with "não" spelled as intended. */
  const StopWords: set<string> := ShortStopWords + ThreeLetterStopWords + LongStopWords + {"n\U{E3}o"}

  /**
   * The mis-decoded entry can never match: a cleaned word holds only word
   * characters and U+00A3 is not one, so "não" is counted as a keyword.
   */
  lemma StopWordsAsWrittenMissNao(w: string)
    ensures WordChars(w) != "n\U{C3}\U{A3}o"
    ensures WordChars("n\U{E3}o") == "n\U{E3}o" && IsCandidate("n\U{E3}o", StopWordsAsWritten)
  {
    KeepShape(w, IsWordChar, IsWordChar);
    assert !IsWordChar("n\U{C3}\U{A3}o"[2]);
    KeepAll("n\U{E3}o", IsWordChar);
    NaoNotListed();
  }

  /** No stop word, in either spelling of the set, is longer than five characters. */
  lemma StopWordsAtMostFive()
    ensures forall x :: x in StopWordsAsWritten ==> |x| <= 5
    ensures forall x :: x in StopWords ==> |x| <= 5
  {
    forall x | x in ShortStopWords + ThreeLetterStopWords + LongStopWords ensures |x| <= 5 {
      if x in ShortStopWords {
        ShortStopWordsLength();
      } else if x in ThreeLetterStopWords {
        ThreeLetterStopWordsLength();
      } else {
        LongStopWordsLength();
      }
    }
  }

  lemma NaoNotListed()
    ensures "n\U{E3}o" !in ShortStopWords + ThreeLetterStopWords + LongStopWords
  {
    ShortStopWordsLength();
    LongStopWordsLength();
    NaoNotThreeLetter();
  }

  lemma ShortStopWordsLength()
    ensures forall x :: x in ShortStopWords ==> |x| < 3 && All(x, IsWordChar)
  {
  }

  lemma LongStopWordsLength()
    ensures forall x :: x in LongStopWords ==> 3 < |x| <= 5 && All(x, IsWordChar)
  {
  }

  lemma ThreeLetterStopWordsLength()
    ensures forall x :: x in ThreeLetterStopWords ==> |x| == 3
  {
  }

  lemma ThreeLetterWordChars()
    ensures forall x :: x in ThreeLetterStopWords ==> All(x, IsWordChar)
  {
  }

  lemma NaoNotThreeLetter()
    ensures "n\U{E3}o" !in ThreeLetterStopWords
  {
  }

  /** Every corrected stop word is made of word characters, so it can be filtered; "não" now is. */
  lemma StopWordsMatchable()
    ensures forall w :: w in StopWords ==> All(w, IsWordChar)
    ensures !IsCandidate("n\U{E3}o", StopWords)
  {
    forall w | w in StopWords ensures All(w, IsWordChar) {
      if w in ShortStopWords {
        ShortStopWordsLength();
      } else if w in ThreeLetterStopWords {
        ThreeLetterWordChars();
      } else if w in LongStopWords {
        LongStopWordsLength();
      } else {
        NaoWordChars(w);
      }
    }
  }

  lemma NaoWordChars(w: string)
    requires w == "n\U{E3}o"
    ensures All(w, IsWordChar)
  {
  }

  /** A cleaned word is counted when it has three or more characters and is not a stop word. */
  predicate IsCandidate(w: string, stop: set<string>) {
    |w| >= 3 && w !in stop
  }

  /** The cleaned words that are counted, in text order. */
  function Candidates(words: seq<string>, stop: set<string>): (r: seq<string>)
    ensures |r| <= |words|
  {
    if words == [] then []
    else
      var w := WordChars(words[|words| - 1]);
      Candidates(words[..|words| - 1], stop) + (if IsCandidate(w, stop) then [w] else [])
  }

  lemma {:induction false} CandidatesAreCandidates(words: seq<string>, stop: set<string>, k: nat)
    requires k < |Candidates(words, stop)|
    ensures IsCandidate(Candidates(words, stop)[k], stop)
  {
    var front := Candidates(words[..|words| - 1], stop);
    if k < |front| {
      CandidatesAreCandidates(words[..|words| - 1], stop, k);
    }
  }

  /** The word-frequency dictionary the loop of `extract_keywords_basic` fills. */
  function Frequencies(cands: seq<string>): (m: map<string, nat>)
  {
    if cands == [] then map[]
    else
      var m := Frequencies(cands[..|cands| - 1]);
      var x := cands[|cands| - 1];
      m[x := (if x in m then m[x] else 0) + 1]
  }

  /** Each candidate is counted once per occurrence, and nothing else is in the dictionary. */
  lemma {:induction false} FrequenciesCount(cands: seq<string>, x: string)
    ensures x in Frequencies(cands) <==> x in cands
    ensures x in Frequencies(cands) ==> Frequencies(cands)[x] == Count(cands, x)
  {
    if cands != [] {
      var init := cands[..|cands| - 1];
      FrequenciesCount(init, x);
      assert cands == init + [cands[|cands| - 1]];
      assert x in cands <==> x in init || x == cands[|cands| - 1];
    }
  }

  /** The frequency a ranking sorts by; 0 for a word not in the dictionary. */
  function Weight(freq: map<string, nat>, x: string): nat {
    if x in freq then freq[x] else 0
  }

  /** x placed before the first element that does not outweigh it. */
  function Insert(x: string, s: seq<string>, freq: map<string, nat>): (r: seq<string>)
    ensures |r| == |s| + 1
  {
    if s == [] || Weight(freq, s[0]) <= Weight(freq, x) then [x] + s
    else [s[0]] + Insert(x, s[1..], freq)
  }

  /**
   * `sorted(word_freq.items(), key=lambda x: x[1], reverse=True)` on the keys:
   * by non-increasing frequency, keys of equal frequency in dictionary order.
   */
  function Rank(keys: seq<string>, freq: map<string, nat>): (r: seq<string>)
    ensures |r| == |keys|
  {
    if keys == [] then [] else Insert(keys[0], Rank(keys[1..], freq), freq)
  }

  predicate SortedByWeight(s: seq<string>, freq: map<string, nat>) {
    forall i :: 0 < i < |s| ==> Weight(freq, s[i - 1]) >= Weight(freq, s[i])
  }

  /** The inserted element comes first unless the head outweighs it. */
  lemma InsertHead(x: string, s: seq<string>, freq: map<string, nat>)
    ensures Insert(x, s, freq)[0] == x || (s != [] && Insert(x, s, freq)[0] == s[0])
  {
  }

  /** Insertion adds x and loses nothing. */
  lemma {:induction false} InsertPerm(x: string, s: seq<string>, freq: map<string, nat>)
    ensures multiset(Insert(x, s, freq)) == multiset(s) + multiset{x}
  {
    if s != [] && Weight(freq, s[0]) > Weight(freq, x) {
      InsertPerm(x, s[1..], freq);
      assert s == [s[0]] + s[1..];
    }
  }

  /** Insertion into a sorted list keeps it sorted. */
  lemma {:induction false} InsertSorted(x: string, s: seq<string>, freq: map<string, nat>)
    requires SortedByWeight(s, freq)
    ensures SortedByWeight(Insert(x, s, freq), freq)
  {
    if s != [] && Weight(freq, s[0]) > Weight(freq, x) {
      var r := Insert(x, s[1..], freq);
      var t := [s[0]] + r;
      assert Insert(x, s, freq) == t;
      assert SortedByWeight(s[1..], freq);
      InsertSorted(x, s[1..], freq);
      InsertHead(x, s[1..], freq);
      forall i | 0 < i < |t| ensures Weight(freq, t[i - 1]) >= Weight(freq, t[i]) {
        if i == 1 {
          assert t[0] == s[0] && t[1] == r[0];
        } else {
          assert t[i - 1] == r[i - 2] && t[i] == r[i - 1];
        }
      }
    } else {
      var t := [x] + s;
      assert Insert(x, s, freq) == t;
      forall i | 0 < i < |t| ensures Weight(freq, t[i - 1]) >= Weight(freq, t[i]) {
        if i > 1 {
          assert t[i - 1] == s[i - 2] && t[i] == s[i - 1];
        }
      }
    }
  }

  /** The ranking is sorted by non-increasing frequency and is a permutation of the keys. */
  lemma {:induction false} RankSorted(keys: seq<string>, freq: map<string, nat>)
    ensures SortedByWeight(Rank(keys, freq), freq)
    ensures multiset(Rank(keys, freq)) == multiset(keys)
  {
    if keys != [] {
      RankSorted(keys[1..], freq);
      InsertSorted(keys[0], Rank(keys[1..], freq), freq);
      InsertPerm(keys[0], Rank(keys[1..], freq), freq);
      assert keys == [keys[0]] + keys[1..];
    }
  }

  /** The elements of s of weight v, in order. */
  function OfWeight(s: seq<string>, freq: map<string, nat>, v: nat): seq<string> {
    if s == [] then []
    else (if Weight(freq, s[0]) == v then [s[0]] else []) + OfWeight(s[1..], freq, v)
  }

  lemma {:induction false} InsertStable(x: string, s: seq<string>, freq: map<string, nat>, v: nat)
    requires SortedByWeight(s, freq)
    ensures OfWeight(Insert(x, s, freq), freq, v)
         == (if Weight(freq, x) == v then [x] else []) + OfWeight(s, freq, v)
  {
    if s != [] && Weight(freq, s[0]) > Weight(freq, x) {
      var r := Insert(x, s[1..], freq);
      assert Insert(x, s, freq) == [s[0]] + r;
      assert SortedByWeight(s[1..], freq);
      InsertStable(x, s[1..], freq, v);
      OfWeightCons(s[0], r, freq, v);
      OfWeightCons(s[0], s[1..], freq, v);
      assert [s[0]] + s[1..] == s;
    } else {
      OfWeightCons(x, s, freq, v);
    }
  }

  lemma OfWeightCons(y: string, s: seq<string>, freq: map<string, nat>, v: nat)
    ensures OfWeight([y] + s, freq, v) == (if Weight(freq, y) == v then [y] else []) + OfWeight(s, freq, v)
  {
    assert ([y] + s)[1..] == s;
  }

  /** Keys of equal frequency keep their dictionary order: the sort is stable. */
  lemma {:induction false} RankStable(keys: seq<string>, freq: map<string, nat>, v: nat)
    ensures OfWeight(Rank(keys, freq), freq, v) == OfWeight(keys, freq, v)
  {
    if keys != [] {
      RankStable(keys[1..], freq, v);
      RankSorted(keys[1..], freq);
      InsertStable(keys[0], Rank(keys[1..], freq), freq, v);
    }
  }

  /** The counted words of a word list, distinct, ranked by frequency and cut to `maxKeywords`. */
  function RankedKeywords(words: seq<string>, stop: set<string>, maxKeywords: int): seq<string> {
    var cands := Candidates(words, stop);
    SliceTo(Rank(Dedupe(cands), Frequencies(cands)), maxKeywords)
  }

  /** The keywords of a text: those of the words of its cleaned, lower-cased form. */
  function Keywords(text: string, stop: set<string>, maxKeywords: int): seq<string> {
    if text == [] then [] else RankedKeywords(Words(LowerStr(CleanForAnalysis(text))), stop, maxKeywords)
  }

  /**
   * `TextProcessor.extract_keywords_basic`, as written: the stop set is the
   * one the file spells, with "não" mis-decoded, so "não" is counted.
   */
  method ExtractKeywordsBasic(text: string, maxKeywords: int := 20) returns (keywords: seq<string>)
    ensures keywords == Keywords(text, StopWordsAsWritten, maxKeywords)
  {
    keywords := ExtractKeywordsWith(text, StopWordsAsWritten, maxKeywords);
  }

  /** `extract_keywords_basic` with "não" spelled as intended, so that it is filtered. */
  method ExtractKeywordsCorrected(text: string, maxKeywords: int := 20) returns (keywords: seq<string>)
    ensures keywords == Keywords(text, StopWords, maxKeywords)
  {
    keywords := ExtractKeywordsWith(text, StopWords, maxKeywords);
  }

  /**
   * The body of `extract_keywords_basic` for a given stop set: the loop
   * counts each counted word in a dictionary whose keys keep their
   * first-insertion order; the keys are then sorted by frequency and cut to
   * `maxKeywords`.
   */
  method ExtractKeywordsWith(text: string, stop: set<string>, maxKeywords: int) returns (keywords: seq<string>)
    ensures keywords == Keywords(text, stop, maxKeywords)
  {
    if text == [] {
      return [];
    }
    var words := Words(LowerStr(CleanForAnalysis(text)));
    var freq, order := CountWords(words, stop);
    keywords := SliceTo(Rank(order, freq), maxKeywords);
    assert keywords == RankedKeywords(words, stop, maxKeywords);
  }

  /** The counting loop: `freq` is the dictionary, `order` its keys in insertion order. */
  method CountWords(words: seq<string>, stop: set<string>) returns (freq: map<string, nat>, order: seq<string>)
    ensures freq == Frequencies(Candidates(words, stop))
    ensures order == Dedupe(Candidates(words, stop))
  {
    freq, order := map[], [];
    var i := 0;
    while i < |words|
      invariant 0 <= i <= |words|
      invariant freq == Frequencies(Candidates(words[..i], stop))
      invariant order == Dedupe(Candidates(words[..i], stop))
    {
      var cleanWord := WordChars(words[i]);
      CandidatesStep(words, stop, i);
      ghost var before := Candidates(words[..i], stop);
      ghost var after := Candidates(words[..i + 1], stop);
      if |cleanWord| >= 3 && cleanWord !in stop {
        assert after == before + [cleanWord];
        FrequenciesCount(before, cleanWord);
        FrequenciesSnoc(before, cleanWord);
        DedupeSnoc(before, cleanWord);
        if cleanWord !in freq {
          order := order + [cleanWord];
        }
        freq := freq[cleanWord := (if cleanWord in freq then freq[cleanWord] else 0) + 1];
        assert freq == Frequencies(after);
        assert order == Dedupe(after);
      } else {
        assert after == before;
      }
      i := i + 1;
    }
    assert words[..i] == words;
  }

  lemma CandidatesStep(words: seq<string>, stop: set<string>, i: nat)
    requires i < |words|
    ensures var w := WordChars(words[i]);
      Candidates(words[..i + 1], stop)
        == Candidates(words[..i], stop) + (if IsCandidate(w, stop) then [w] else [])
  {
    assert words[..i + 1][..i] == words[..i];
  }

  lemma FrequenciesSnoc(cands: seq<string>, x: string)
    ensures Frequencies(cands + [x]) == Frequencies(cands)[x := Weight(Frequencies(cands), x) + 1]
  {
    assert (cands + [x])[..|cands|] == cands;
  }

  /**
   * The keywords are at most `maxKeywords` distinct counted words, by
   * non-increasing frequency, equally frequent ones in order of first use.
   */
  lemma KeywordsProperties(words: seq<string>, stop: set<string>, maxKeywords: int)
    ensures var r := RankedKeywords(words, stop, maxKeywords);
      var cands := Candidates(words, stop);
      var freq := Frequencies(cands);
      && (maxKeywords >= 0 ==> |r| <= maxKeywords)
      && Distinct(r)
      && (forall i :: 0 <= i < |r| ==> IsCandidate(r[i], stop) && Weight(freq, r[i]) == Count(cands, r[i]))
      && SortedByWeight(r, freq)
      && r <= Rank(Dedupe(cands), freq)
  {
    var cands := Candidates(words, stop);
    var freq := Frequencies(cands);
    var ranked := Rank(Dedupe(cands), freq);
    var r := RankedKeywords(words, stop, maxKeywords);
    RankSorted(Dedupe(cands), freq);
    DedupeUnique(cands);
    RankDistinct(Dedupe(cands), freq);
    DistinctPrefix(ranked, maxKeywords);
    forall i | 0 <= i < |r| ensures IsCandidate(r[i], stop) && Weight(freq, r[i]) == Count(cands, r[i]) {
      RankedWord(words, stop, ranked[i]);
    }
  }

  /** A ranked key is a counted word, ranked by its number of occurrences. */
  lemma RankedWord(words: seq<string>, stop: set<string>, x: string)
    requires var cands := Candidates(words, stop);
      x in Rank(Dedupe(cands), Frequencies(cands))
    ensures var cands := Candidates(words, stop);
      IsCandidate(x, stop) && Weight(Frequencies(cands), x) == Count(cands, x)
  {
    var cands := Candidates(words, stop);
    var keys := Dedupe(cands);
    RankSorted(keys, Frequencies(cands));
    assert x in multiset(keys);
    var k := IndexOf(keys, x);
    var c := IndexOf(cands, x);
    CandidatesAreCandidates(words, stop, c);
    FrequenciesCount(cands, x);
  }

  /**
   * "não é verdade": the program as written keeps "não" among the keywords,
   * while with the intended spelling only "verdade" is left.
   */
  lemma NaoCountedAsWritten()
    ensures Keywords("n\U{E3}o \U{E9} verdade", StopWordsAsWritten, 20) == ["n\U{E3}o", "verdade"]
    ensures Keywords("n\U{E3}o \U{E9} verdade", StopWords, 20) == ["verdade"]
  {
    StopWordsAsWrittenMissNao([]);
    StopWordsAtMostFive();
    NaoKeywords(StopWordsAsWritten);
    NaoKeywords(StopWords);
  }

  /** The keywords of "não é verdade" for a stop set without "verdade". */
  lemma NaoKeywords(stop: set<string>)
    requires "verdade" !in stop
    ensures Keywords("n\U{E3}o \U{E9} verdade", stop, 20)
      == if "n\U{E3}o" in stop then ["verdade"] else ["n\U{E3}o", "verdade"]
  {
    var nao, e, verdade := "n\U{E3}o", "\U{E9}", "verdade";
    assert "n\U{E3}o \U{E9} verdade" == nao + " " + e + " " + verdade;
    assert IsSimpleWord(nao) && IsSimpleWord(e) && IsSimpleWord(verdade);
    assert |nao| == 3 && |e| == 1 && |verdade| == 7;
    ThreeWordKeywords(nao, e, verdade, stop);
  }

  /**
   * The keywords of three simple words where the middle one is too short and
   * the last one is no stop word: the first one, when it is not a stop word,
   * then the last.
   */
  lemma ThreeWordKeywords(a: string, b: string, c: string, stop: set<string>)
    requires IsSimpleWord(a) && IsSimpleWord(b) && IsSimpleWord(c)
    requires |a| >= 3 && |b| < 3 && |c| >= 3 && c !in stop && a != c
    ensures Keywords(a + " " + b + " " + c, stop, 20) == if a in stop then [c] else [a, c]
  {
    var t := a + " " + b + " " + c;
    calc {
      Keywords(t, stop, 20);
      RankedKeywords(Words(LowerStr(CleanForAnalysis(t))), stop, 20);
      { SimpleThreeWords(a, b, c); }
      RankedKeywords([a, b, c], stop, 20);
      { ThreeWordRanking(a, b, c, stop); }
      if a in stop then [c] else [a, c];
    }
  }

  /** The ranking behind `ThreeWordKeywords`, on the split words. */
  lemma ThreeWordRanking(a: string, b: string, c: string, stop: set<string>)
    requires IsSimpleWord(a) && IsSimpleWord(b) && IsSimpleWord(c)
    requires |a| >= 3 && |b| < 3 && |c| >= 3 && c !in stop && a != c
    ensures RankedKeywords([a, b, c], stop, 20) == if a in stop then [c] else [a, c]
  {
    SimpleWordChars(a);
    SimpleWordChars(b);
    SimpleWordChars(c);
    CandidatesThree(a, b, c, stop);
    if a in stop {
      assert Candidates([a, b, c], stop) == [c];
      RankOne(c);
    } else {
      assert Candidates([a, b, c], stop) == [a, c];
      RankPair(a, c);
    }
  }

  /** Three simple words joined by single spaces come out of cleaning, lower-casing and splitting as themselves. */
  lemma SimpleThreeWords(a: string, b: string, c: string)
    requires IsSimpleWord(a) && IsSimpleWord(b) && IsSimpleWord(c)
    ensures Words(LowerStr(CleanForAnalysis(a + " " + b + " " + c))) == [a, b, c]
  {
    var tail := b + " " + c;
    var t := a + " " + tail;
    assert a + " " + b + " " + c == t;
    assert SimpleText(c);
    SimpleJoin(b, c);
    SimpleJoin(a, tail);
    SimpleTextFixed(t);
    calc {
      Words(t);
      { WordsJoin(a, tail); }
      [a] + Words(tail);
      { WordsJoin(b, c); }
      [a] + ([b] + Words(c));
      { SimpleWordIsWord(c); WordsSingle(c); }
      [a] + ([b] + [c]);
      { ConsThree(a, b, c); }
      [a, b, c];
    }
  }

  /** A simple word is its own cleaned form. */
  lemma SimpleWordChars(w: string)
    requires IsSimpleWord(w)
    ensures WordChars(w) == w
  {
    KeepAll(w, IsWordChar);
  }

  /** A lower-case word of word characters. */
  predicate IsSimpleWord(w: string) {
    w != [] && forall i :: 0 <= i < |w| ==> IsWordChar(w[i]) && !HasLowerCase(w[i])
  }

  /** A simple word holds no whitespace. */
  lemma SimpleWordIsWord(w: string)
    requires IsSimpleWord(w)
    ensures IsWord(w)
  {
    forall i | 0 <= i < |w| ensures NotSpace(w[i]) {
      assert IsWordChar(w[i]);
    }
  }

  /** Simple words joined by single spaces: text the analysis cleaning and lower-casing leave alone. */
  predicate SimpleText(s: string) {
    && s != [] && s[0] != ' ' && s[|s| - 1] != ' '
    && (forall i :: 0 <= i < |s| ==> s[i] == ' ' || (IsWordChar(s[i]) && !HasLowerCase(s[i])))
    && (forall i :: 0 < i < |s| ==> s[i - 1] != ' ' || s[i] != ' ')
  }

  lemma SimpleTextFixed(s: string)
    requires SimpleText(s)
    ensures LowerStr(s) == s && CleanForAnalysis(s) == s
  {
    forall i | 0 <= i < |s|
      ensures NotUpper(s[i]) && IsAnalysisChar(s[i]) && !IsPunct(s[i])
      ensures NotControl(s[i]) && PlainOrNotSpace(s[i]) && (IsSpace(s[i]) <==> s[i] == ' ')
    {
      SimpleCharFacts(s[i]);
    }
    assert All(s, NotUpper);
    LowerStrFixed(s);
    assert All(s, IsAnalysisChar);
    assert forall i :: 0 <= i < |s| ==> !IsPunct(s[i]);
    assert Canonical(s);
    CleanForAnalysisFixed(s);
  }

  /** A character of a simple text is a plain space or a lower-case word character. */
  lemma SimpleCharFacts(c: char)
    requires c == ' ' || (IsWordChar(c) && !HasLowerCase(c))
    ensures NotUpper(c) && IsAnalysisChar(c) && !IsPunct(c)
    ensures NotControl(c) && PlainOrNotSpace(c) && (IsSpace(c) <==> c == ' ')
  {
  }

  /** A simple word, a space and a simple text make a simple text. */
  lemma SimpleJoin(a: string, b: string)
    requires IsSimpleWord(a) && SimpleText(b)
    ensures SimpleText(a + " " + b)
  {
    var s := a + " " + b;
    forall i | 0 <= i < |s| ensures s[i] == ' ' || (IsWordChar(s[i]) && !HasLowerCase(s[i])) {
      if i < |a| {
        assert s[i] == a[i];
      } else if i > |a| {
        assert s[i] == b[i - |a| - 1];
      }
    }
    forall i | 0 < i < |s| ensures s[i - 1] != ' ' || s[i] != ' ' {
      if i <= |a| {
        assert s[i - 1] == a[i - 1];
      } else if i > |a| + 1 {
        assert s[i] == b[i - |a| - 1] && s[i - 1] == b[i - |a| - 2];
      } else {
        assert s[i] == b[0];
      }
    }
  }

  /** The split of a word, a space and the rest. */
  lemma WordsJoin(a: string, r: string)
    requires IsSimpleWord(a)
    ensures Words(a + " " + r) == [a] + Words(r)
  {
    SimpleWordIsWord(a);
    var sr := " " + r;
    assert a + " " + r == a + sr;
    WordsCons(a, sr);
    WordsSpace(sr);
    assert sr[1..] == r;
  }

  /** The counted words of a three-word list, each kept when its cleaned form is a candidate. */
  lemma CandidatesThree(a: string, b: string, c: string, stop: set<string>)
    ensures Candidates([a, b, c], stop)
      == Counted(a, stop) + Counted(b, stop) + Counted(c, stop)
  {
    calc {
      Candidates([a, b, c], stop);
      { assert [a, b] + [c] == [a, b, c]; CandidatesSnoc([a, b], c, stop); }
      Candidates([a, b], stop) + Counted(c, stop);
      { assert [a] + [b] == [a, b]; CandidatesSnoc([a], b, stop); }
      Candidates([a], stop) + Counted(b, stop) + Counted(c, stop);
      { assert [] + [a] == [a]; CandidatesSnoc([], a, stop); }
      Counted(a, stop) + Counted(b, stop) + Counted(c, stop);
    }
  }

  /** One more word adds its cleaned form to the counted words exactly when it qualifies. */
  lemma CandidatesSnoc(words: seq<string>, w: string, stop: set<string>)
    ensures Candidates(words + [w], stop) == Candidates(words, stop) + Counted(w, stop)
  {
    assert (words + [w])[..|words|] == words;
  }

  /** The cleaned form of a word, as a one-element list when it is counted. */
  function Counted(w: string, stop: set<string>): (r: seq<string>)
    ensures |r| <= 1
  {
    var x := WordChars(w);
    if IsCandidate(x, stop) then [x] else []
  }

  /** Two distinct candidates seen once each keep their order in the ranking. */
  lemma RankPair(a: string, b: string)
    requires a != b
    ensures Rank(Dedupe([a, b]), Frequencies([a, b])) == [a, b]
  {
    assert [a, b][..1] == [a];
    assert [a][..0] == [];
    var f := Frequencies([a, b]);
    assert Frequencies([a]) == map[a := 1];
    assert Weight(f, a) == 1 && Weight(f, b) == 1;
    assert [a, b][1..] == [b];
    assert [b][1..] == [];
    assert DedupeFrom([b], {a}) == [b];
    assert DedupeFrom([a, b], {}) == [a] + DedupeFrom([b], {a});
    assert Dedupe([a, b]) == [a, b];
    assert Rank([b], f) == [b];
  }

  /** A single candidate ranks alone. */
  lemma RankOne(a: string)
    ensures Rank(Dedupe([a]), Frequencies([a])) == [a]
  {
    assert [a][..0] == [];
    assert [a][1..] == [];
  }

  /** Ranking the keys of a dictionary repeats none of them. */
  lemma RankDistinct(keys: seq<string>, freq: map<string, nat>)
    requires Distinct(keys)
    ensures Distinct(Rank(keys, freq))
  {
    var ranked := Rank(keys, freq);
    RankSorted(keys, freq);
    forall i, j | 0 <= i < j < |ranked| ensures ranked[i] != ranked[j] {
      MultisetDistinct(keys, ranked, i, j);
    }
  }

  /** Two positions of a permutation of a sequence without repetitions hold different elements. */
  lemma MultisetDistinct(a: seq<string>, b: seq<string>, i: nat, j: nat)
    requires Distinct(a) && multiset(a) == multiset(b) && i < j < |b|
    ensures b[i] != b[j]
  {
    if b[i] == b[j] {
      var x := b[i];
      assert multiset(b)[x] >= 2 by {
        assert b == b[..i] + [x] + b[i + 1..j] + [x] + b[j + 1..];
      }
      DistinctOnce(a, x);
    }
  }

  lemma {:induction false} DistinctOnce(a: seq<string>, x: string)
    requires Distinct(a)
    ensures multiset(a)[x] <= 1
  {
    if a != [] {
      assert Distinct(a[1..]);
      DistinctOnce(a[1..], x);
      assert a == [a[0]] + a[1..];
      if a[0] == x {
        assert x !in a[1..];
      }
    }
  }

  // ------------------------------------------------------------- similarity

  /**
   * `TextProcessor.similarity_score`: 0 for an empty text, 1 for equal
   * hashing forms, 0 when either form has no words, otherwise the Jaccard
   * index of the two word sets.
   */
  function SimilarityScore(text1: string, text2: string): (r: real)
    ensures 0.0 <= r <= 1.0
  {
    if text1 == [] || text2 == [] then 0.0
    else
      var n1, n2 := Normalize(text1, true).value, Normalize(text2, true).value;
      if n1 == n2 then 1.0
      else if WordSet(n1) == {} || WordSet(n2) == {} then 0.0
      else Jaccard(WordSet(n1), WordSet(n2))
  }

  /** The score does not depend on the order of its arguments. */
  lemma SimilaritySymmetric(text1: string, text2: string)
    ensures SimilarityScore(text1, text2) == SimilarityScore(text2, text1)
  {
    if text1 != [] && text2 != [] {
      var n1, n2 := Normalize(text1, true).value, Normalize(text2, true).value;
      if n1 != n2 && WordSet(n1) != {} && WordSet(n2) != {} {
        JaccardSymmetric(WordSet(n1), WordSet(n2));
      }
    }
  }

  /** The score is 1 exactly when both texts are non-empty and their hashing forms have the same words. */
  lemma SimilarityOne(text1: string, text2: string)
    ensures SimilarityScore(text1, text2) == 1.0 <==>
      text1 != [] && text2 != [] &&
      var n1, n2 := Normalize(text1, true).value, Normalize(text2, true).value;
      n1 == n2 || (WordSet(n1) != {} && WordSet(n1) == WordSet(n2))
  {
    if text1 != [] && text2 != [] {
      var n1, n2 := Normalize(text1, true).value, Normalize(text2, true).value;
      if n1 != n2 && WordSet(n1) != {} && WordSet(n2) != {} {
        JaccardOne(WordSet(n1), WordSet(n2));
      }
    }
  }

  /** Texts with the same hashing form, and a text with itself, score 1. */
  lemma SimilarityReflexive(text: string)
    requires text != []
    ensures SimilarityScore(text, text) == 1.0
  {
  }
}
