# VeritasAI domain core in Dafny

VeritasAI is a browser extension that checks whether a piece of text is
reliable. Its domain layer holds the things an analysis is built from:

- the submitted `Text`, with a normalised copy and a `TextHash` fingerprint;
- the `ConfidenceScore` of a verdict and the `Classification` it leads to;
- the `AnalysisResult` that records who reached the verdict, at what cost and how fast;
- the `User` with their preferences, usage totals and per-service `ApiKey`s.

Next to the domain layer sits the `TextProcessor` utility. It normalises text
for display and for hashing, validates length and content, splits sentences,
extracts frequency-ranked keywords and scores the similarity of two texts.

This project models that core in Dafny and proves what it promises.

- Value objects and the pure parts of the entities are datatypes and functions.
- Each field validator is its own function.
- Each pydantic `Field` bound is an explicit check in the constructor, made before the validators run.
- Every refusal of an operation the source exposes is an `Err` of a `Result`. Only internal helpers carry preconditions, and their callers establish them first: `ApiKeys.SimpleEncrypt` and `ApiKeys.KeyStream` need a non-empty key, which `ApiKeys.Create` checks before calling them. `ApiKeys.Create` itself requires that the fresh key standing for `secrets.token_bytes(32)` has 32 bytes, as that call always returns.
- The loops of the source are methods with loop invariants, each proved equal to a specification function:
  - the keyword, fact-check-source and API-key de-duplication loops;
  - the sentence filter;
  - the word-frequency count.
- `User` is a class. Its key list and usage totals are fields that its methods update in place.

Modules, one per file:

| module | models |
|---|---|
| `Results` | `Option`, `Result` and the error kinds |
| `Chars` | Python's `str.isspace`, `str.strip`, `str.lower`, `str.split()`, `re.sub(r'\s+', ' ', …)` and `unicodedata.category` |
| `Seqs` | slicing, first-occurrence de-duplication, counting, the Jaccard index |
| `Hygiene` | the strip/drop-blank/dedupe/cap list clean-up shared by three validators |
| `Digest` | UTF-8 (RFC 3629), SHA-256 (FIPS 180-4) and lower-case hex, written out in full |
| `Languages` | the `^[a-z]{2}(-[A-Z]{2})?$` language-code check |
| `TextProcessor` | `src/utils/text_processor.py` |
| `TextHashes` | `src/domain/value_objects/text_hash.py` |
| `Confidence` | `src/domain/value_objects/confidence_score.py` |
| `ApiKeys` | `src/domain/value_objects/api_key.py` |
| `Classifications` | `src/domain/entities/classification.py` |
| `Texts` | `src/domain/entities/text.py` |
| `AnalysisResults` | `src/domain/entities/analysis_result.py` |
| `Users` | `src/domain/entities/user.py` |

Representation choices:

- A confidence is an integer count of ten-thousandths (0..10000). This makes the
  four-decimal rounding and the `1e-4` equality tolerance exact.
- The performance score is a `real`.
- Bytes are integers 0..255.
- Times are integers supplied by the caller (`now`).
- Unicode NFC composition is the identity.
- `Lower` and `IsAlnum` are exact on U+0000-U+00FF, including ª µ º ¹ ² ³ ¼ ½ ¾ as alphanumeric; no later code point is upper-case or alphanumeric for them.
- `IsSpace` is Python's whitespace set exactly.
- The `str_strip_whitespace` setting of `TextHash` trims with the Unicode White_Space property instead (`TextHashes.IsWhiteSpace`). That set is Python's without the information separators U+001C-U+001F.
- Category C is every control (Cc), format (Cf) and private-use (Co) code point, the tag characters U+E0001 and U+E0020-U+E007F included; unassigned code points are not in it.

Where the code and its documentation differ, the model follows the code:

- `Text._normalize_content` removes control characters after collapsing
  whitespace. A control character between two spaces therefore leaves a double
  space behind (`Texts.DoubleSpaceRemains`).
- The language check uses `re.match`, whose `$` also matches before a final
  newline. A regional code such as "en-US" is stored lower-cased as "en-us".
  That stored value then no longer passes the same check
  (`Languages.RegionalCodeNotStable`).
- The quote normalisation of `TextProcessor.normalize` matches only the ASCII
  `"` and `'` and replaces each with itself, so it is the identity.
- `clean_for_analysis` collapses runs with `r'\1'` on a repeated group. A run
  therefore keeps its LAST character, not its first.
- `extract_keywords_basic` spells the stop word "não" as the mis-decoded
  "nÃ£o", so "não" is counted as a keyword. `TextProcessor.ExtractKeywordsBasic`
  uses the set as written; `TextProcessor.ExtractKeywordsCorrected` uses the
  intended spelling (see "## Findings").

## Model

| member | source | states |
|---|---|---|
| TextProcessor.ReplaceLineBreaks | src/utils/text_processor.py:55 | tab, newline and carriage return become a space; every other character is kept in place |
| TextProcessor.CollapsePunctNoRun | src/utils/text_processor.py:73-76 | after the hashing-mode punctuation clean-up no two characters of `.,;:!?` are adjacent |
| TextProcessor.CollapsePunctAll | src/utils/text_processor.py:73-76 | the clean-up only deletes characters: any property of every input character holds of every output character |
| TextProcessor.CollapsePunctNoSpaceRun | src/utils/text_processor.py:73-76 | the clean-up creates no whitespace run |
| TextProcessor.CollapsePunctIdentity | src/utils/text_processor.py:73-76 | a text without punctuation runs is left unchanged |
| TextProcessor.CollapsePunctEnds | src/utils/text_processor.py:73-76 | the clean-up leaves trailing whitespace only where the text had it |
| TextProcessor.DisplayFormShape | src/utils/text_processor.py:55-66 | display normalisation yields no control character, no whitespace other than a single space between non-spaces, and no leading or trailing whitespace |
| TextProcessor.HashingFormShape | src/utils/text_processor.py:69-80 | on a display-normalised text the hashing steps keep that shape, leave no upper-case letter and no punctuation run |
| TextProcessor.Normalize | src/utils/text_processor.py:36-82 | fails exactly on the empty string; otherwise yields the canonical shape, never longer than the input, and in hashing mode lower case without punctuation runs |
| TextProcessor.BlankNormalizesEmpty | src/utils/text_processor.py:50-66 | a non-empty text of only whitespace and control characters normalises to "" instead of failing |
| TextProcessor.NormalizeIdempotent | src/utils/text_processor.py:36-82 | normalising a non-empty normal form again returns it unchanged, in either mode |
| TextProcessor.NormalizeFixedPoint | src/utils/text_processor.py:36-82 | a non-empty text already in a mode's output shape is its own normal form |
| TextProcessor.HashingFixedPoint | src/utils/text_processor.py:36-82 | a non-empty canonical lower-case text without punctuation runs is its own hashing form |
| TextProcessor.DisplayFormCanonical | src/utils/text_processor.py:55-66 | display normalisation leaves a canonical text unchanged |
| TextProcessor.HashingFormIdentity | src/utils/text_processor.py:69-80 | the hashing steps leave a canonical lower-case text without punctuation runs unchanged |
| TextProcessor.GenerateHash | src/utils/text_processor.py:85-106 | fails exactly on the empty string; otherwise 64 lower-case hex characters |
| TextProcessor.SameFormSameHash | src/utils/text_processor.py:101-106 | texts with the same hashing form have the same hash |
| TextProcessor.HashOfNormalForm | src/utils/text_processor.py:101-106 | hashing a text's hashing form gives the text's own hash |
| TextProcessor.IsValidLength | src/utils/text_processor.py:109-123 | true exactly when the stripped text has 10 to 2000 characters |
| TextProcessor.ValidateText | src/utils/text_processor.py:126-152 | each error exactly under its condition in the source's order (empty, too short, too long, fewer than 5 content characters); accepted exactly when the length is valid and there are at least 5 content characters |
| TextProcessor.SplitSentencesNoEnder | src/utils/text_processor.py:176 | no piece of the split holds `.`, `!` or `?` |
| TextProcessor.SplitSentencesLossless | src/utils/text_processor.py:176 | the pieces put back together are the text without its sentence enders |
| TextProcessor.KeepSentencesShape | src/utils/text_processor.py:179-185 | every kept piece is stripped, free of enders and at least `min_length` long |
| TextProcessor.ExtractSentences | src/utils/text_processor.py:155-185 | [] on empty input; otherwise the filtered pieces of the display-normalised text, each a trimmed sentence of at least `min_length` (default 10) characters |
| TextProcessor.KeepLongSentences | src/utils/text_processor.py:179-185 | the loop returns exactly the stripped pieces of at least `min_length` characters, in order |
| TextProcessor.AddSentence | src/utils/text_processor.py:180-183 | one iteration extends the filtered prefix by the next piece |
| TextProcessor.LongSentenceStep | src/utils/text_processor.py:180-183 | appending a long stripped piece, or skipping a short one, keeps the loop invariant |
| TextProcessor.RunsToLastNoRun | src/utils/text_processor.py:245-246 | after collapsing `[.!?]` or `[,;:]` runs no two characters of the class are adjacent |
| TextProcessor.RunsToLastAll | src/utils/text_processor.py:245-246 | the collapse only deletes characters |
| TextProcessor.DropNoSpaceBeforePunct | src/utils/text_processor.py:249 | after the drop no whitespace stands before `.!?,:;` |
| TextProcessor.DropAll | src/utils/text_processor.py:249 | the drop only deletes characters |
| TextProcessor.SpaceAfterEnderAll | src/utils/text_processor.py:250 | the rewrite inserts only plain spaces |
| TextProcessor.SpaceAfterEnderKeeps | src/utils/text_processor.py:250 | the rewrite puts no whitespace before punctuation |
| TextProcessor.CollapseNoSpaceBeforePunct | src/utils/text_processor.py:253 | collapsing whitespace puts no whitespace before punctuation |
| TextProcessor.CleanForAnalysis | src/utils/text_processor.py:222-255 | empty input gives ""; every result holds only `[\w\s.,!?;:-]` characters, only plain spaces, no whitespace run, no surrounding whitespace and no whitespace before punctuation |
| TextProcessor.RunsToLastNone | src/utils/text_processor.py:245-246 | collapsing punctuation runs leaves a text with no character of that class unchanged |
| TextProcessor.DropNone | src/utils/text_processor.py:249 | dropping whitespace before punctuation leaves a text without punctuation unchanged |
| TextProcessor.SpaceAfterEnderNone | src/utils/text_processor.py:250 | the space-after-sentence-end step leaves a text without `.`, `!` or `?` unchanged |
| TextProcessor.PunctStagesNone | src/utils/text_processor.py:245-249 | the three punctuation steps leave a text without punctuation unchanged |
| TextProcessor.CleanForAnalysisFixed | src/utils/text_processor.py:238-255 | a non-empty display-normalised text of analysis characters without punctuation comes out of cleaning unchanged |
| TextProcessor.SimpleTextFixed | src/utils/text_processor.py:273-276 | lower-case words of word characters joined by single spaces survive cleaning and lower-casing unchanged |
| TextProcessor.WordsJoin | src/utils/text_processor.py:276 | a simple word, a space and any rest split into that word followed by the split of the rest |
| TextProcessor.SimpleThreeWords | src/utils/text_processor.py:273-276 | three such words joined by single spaces are split back into exactly those three words |
| TextProcessor.CleanTail | src/utils/text_processor.py:253 | the final collapse and strip keep the analysis alphabet and give the clean shape |
| TextProcessor.StopWordsMatchable | src/utils/text_processor.py:279-286 | with "não" spelled as intended every stop word is made of word characters, and "não" is filtered |
| TextProcessor.StopWordsAsWrittenMissNao | src/utils/text_processor.py:285 | no cleaned word equals the listed "nÃ£o", while "não" itself passes the filter |
| TextProcessor.ThreeLetterStopWordsLength | src/utils/text_processor.py:279-286 | the three-letter stop words have three characters |
| TextProcessor.StopWordsAtMostFive | src/utils/text_processor.py:279-286 | no stop word, in the written or the corrected spelling, is longer than five characters |
| TextProcessor.CandidatesSnoc | src/utils/text_processor.py:290-295 | one more word adds its cleaned form to the counted words exactly when it has 3+ characters and is not a stop word |
| TextProcessor.CandidatesThree | src/utils/text_processor.py:290-295 | the counted words of a three-word list are each word's cleaned form, in order, where it qualifies |
| TextProcessor.CandidatesAreCandidates | src/utils/text_processor.py:292-294 | every counted word has at least 3 characters and is not a stop word |
| TextProcessor.FrequenciesCount | src/utils/text_processor.py:289-295 | the dictionary holds exactly the counted words, each mapped to its number of occurrences |
| TextProcessor.CountWords | src/utils/text_processor.py:289-295 | the loop builds exactly that dictionary, with its keys in first-insertion order |
| TextProcessor.CandidatesStep | src/utils/text_processor.py:290-295 | one word extends the counted list by its cleaned form exactly when it qualifies |
| TextProcessor.FrequenciesSnoc | src/utils/text_processor.py:295 | one more occurrence raises that word's count by one |
| TextProcessor.InsertPerm | src/utils/text_processor.py:298 | insertion adds the element and loses nothing |
| TextProcessor.InsertSorted | src/utils/text_processor.py:298 | insertion keeps the list sorted by non-increasing frequency |
| TextProcessor.RankSorted | src/utils/text_processor.py:298 | the ranking is sorted by non-increasing frequency and is a permutation of the keys |
| TextProcessor.InsertStable | src/utils/text_processor.py:298 | insertion places an element after those of its own frequency |
| TextProcessor.RankStable | src/utils/text_processor.py:298 | keys of equal frequency keep dictionary order: the sort is stable |
| TextProcessor.RankDistinct | src/utils/text_processor.py:298-299 | ranking distinct keys repeats none |
| TextProcessor.ExtractKeywordsBasic | src/utils/text_processor.py:258-301 | as written: the frequency-ranked, capped keywords of the cleaned lower-cased text, filtered by the stop set the file spells, whose "nÃ£o" lets "não" through |
| TextProcessor.ExtractKeywordsCorrected | src/utils/text_processor.py:258-301 | the same keywords filtered by the stop set with "não" spelled as intended |
| TextProcessor.ExtractKeywordsWith | src/utils/text_processor.py:269-301 | for any stop set: [] for empty text, otherwise the counting loop and the sort give exactly the specified keywords |
| TextProcessor.KeywordsProperties | src/utils/text_processor.py:288-299 | for any stop set: at most `max_keywords`, distinct, each a counted word weighted by its occurrences, sorted by frequency, a prefix of the full ranking |
| TextProcessor.RankedWord | src/utils/text_processor.py:289-299 | for any stop set: a ranked word is a counted word ranked by its number of occurrences |
| TextProcessor.RankPair | src/utils/text_processor.py:298-299 | two distinct words seen once each keep their first-use order |
| TextProcessor.RankOne | src/utils/text_processor.py:298-299 | a single counted word ranks alone |
| TextProcessor.ThreeWordRanking | src/utils/text_processor.py:288-299 | of three words with a short middle one and a non-stop last one, the keywords are the first (unless it is a stop word) and the last |
| TextProcessor.ThreeWordKeywords | src/utils/text_processor.py:258-301 | the same for the text of the three words joined by single spaces |
| TextProcessor.NaoKeywords | src/utils/text_processor.py:258-301 | for any stop set without "verdade", "não é verdade" has the keywords ["não", "verdade"], or ["verdade"] when "não" is a stop word |
| TextProcessor.NaoCountedAsWritten | src/utils/text_processor.py:279-286 | "não é verdade" has the keywords ["não", "verdade"] with the stop set as written and ["verdade"] with the corrected one |
| TextProcessor.SimilarityScore | src/utils/text_processor.py:304-336 | always between 0 and 1 |
| TextProcessor.SimilaritySymmetric | src/utils/text_processor.py:304-336 | the score does not depend on the order of its arguments |
| TextProcessor.SimilarityOne | src/utils/text_processor.py:315-336 | the score is 1 exactly when both texts are non-empty and their hashing forms are equal or have the same non-empty word set |
| TextProcessor.SimilarityReflexive | src/utils/text_processor.py:319-324 | a non-empty text scores 1 against itself |
| TextHashes.Trim | src/domain/value_objects/text_hash.py:97-100 | the `str_strip_whitespace` strip: no White_Space at either end, empty exactly when the value is all White_Space |
| TextHashes.Make | src/domain/value_objects/text_hash.py:20-34 | accepted exactly when the value trimmed of White_Space is 64 characters of `[0-9a-f]`, stored trimmed |
| TextHashes.SeparatorKept | src/domain/value_objects/text_hash.py:97-100 | an information separator U+001C-U+001F before a digest survives the field strip, so the 65-character value is refused as too long, although `str.strip` would remove it |
| TextHashes.UpperCaseRefused | src/domain/value_objects/text_hash.py:20-26 | a hex string with an upper-case digit is refused by the field pattern before the validator can lower-case it |
| TextHashes.MakeStored | src/domain/value_objects/text_hash.py:20-34 | a stored digest is accepted back unchanged |
| TextHashes.LowerHexUnchanged | src/domain/value_objects/text_hash.py:32-34 | lower-casing a lower-case hex string changes nothing |
| TextHashes.NormalizeTextShape | src/domain/value_objects/text_hash.py:58-79 | the hash normalisation has no surrounding whitespace, no whitespace run, only plain spaces and no upper-case letter |
| TextHashes.NormalizeTextIdempotent | src/domain/value_objects/text_hash.py:58-79 | normalising twice is normalising once |
| TextHashes.NormalizeTextCaseInsensitive | src/domain/value_objects/text_hash.py:70-73 | lower-casing the input first changes nothing |
| TextHashes.FromText | src/domain/value_objects/text_hash.py:36-56 | fails exactly on the empty string; otherwise the valid digest of the normalised text |
| TextHashes.SameNormalFormSameHash | src/domain/value_objects/text_hash.py:51-56 | texts with the same normal form get the same hash |
| TextHashes.CaseInsensitiveHash | src/domain/value_objects/text_hash.py:51-79 | a text and its lower-case form get the same hash |
| TextHashes.HashOfNormalForm | src/domain/value_objects/text_hash.py:51-56 | hashing the normal form gives the text's own hash |
| TextHashes.Equals | src/domain/value_objects/text_hash.py:85-91 | equal to a hash with the same value or to the same raw string, never to anything else |
| TextHashes.HashConsistent | src/domain/value_objects/text_hash.py:85-95 | equal values have equal `__hash__` keys |
| TextHashes.EqualsEquivalence | src/domain/value_objects/text_hash.py:85-91 | equality between hashes is reflexive, symmetric and transitive |
| Confidence.Value | src/domain/value_objects/confidence_score.py:18-23 | a stored score lies in [0, 1] |
| Confidence.RoundHalfEven | src/domain/value_objects/confidence_score.py:31 | the rounded value is within one half of the input |
| Confidence.RoundInteger | src/domain/value_objects/confidence_score.py:31 | an integer rounds to itself |
| Confidence.RoundMonotone | src/domain/value_objects/confidence_score.py:31 | rounding is monotone |
| Confidence.Create | src/domain/value_objects/confidence_score.py:18-31 | accepted exactly on [0, 1]; the stored value is within 0.00005 of the input |
| Confidence.CreateExact | src/domain/value_objects/confidence_score.py:25-31 | a four-decimal value is stored exactly |
| Confidence.FromPercentage | src/domain/value_objects/confidence_score.py:33-47 | accepted exactly on [0, 100]; the stored value is within 0.00005 of p/100 |
| Confidence.ToPercentage | src/domain/value_objects/confidence_score.py:49-56 | lies in [0, 100] |
| Confidence.PercentageRoundTrip | src/domain/value_objects/confidence_score.py:33-56 | converting a score to a percentage and back gives the same score |
| Confidence.HighOrLow | src/domain/value_objects/confidence_score.py:58-80 | for one threshold exactly one of high and low confidence holds |
| Confidence.DefaultThresholds | src/domain/value_objects/confidence_score.py:58-80 | with the defaults never both; neither exactly on [0.4, 0.8) |
| Confidence.LevelOf | src/domain/value_objects/confidence_score.py:82-96 | HIGH exactly when the score is high confidence |
| Confidence.LevelBands | src/domain/value_objects/confidence_score.py:82-96 | HIGH from 0.8, MEDIUM on [0.6, 0.8), LOW on [0.2, 0.6), VERY_LOW below 0.2 |
| Confidence.LevelMonotone | src/domain/value_objects/confidence_score.py:82-96 | a higher score never gets a lower level |
| Confidence.EqualsExact | src/domain/value_objects/confidence_score.py:106-112 | tolerance equality of stored scores is equality of the scores, and symmetric |
| Confidence.Trichotomy | src/domain/value_objects/confidence_score.py:114-132 | `<` compares the stored values, `<=` is `<` or equal, and exactly one of `<`, equal and `>` holds |
| ApiKeys.ValidateServiceName | src/domain/value_objects/api_key.py:26-52 | accepted exactly when 1 to 50 characters long with a lower-case form on the allow-list; stored lower-cased |
| ApiKeys.ValidateServiceNameStable | src/domain/value_objects/api_key.py:38-52 | a stored service name passes the check unchanged |
| ApiKeys.New | src/domain/value_objects/api_key.py:20-62 | accepted exactly with a non-empty encrypted value and a valid service name, which is stored lower-cased |
| ApiKeys.XorCancel | src/domain/value_objects/api_key.py:110-139 | XOR-ing a byte twice with the same byte restores it |
| ApiKeys.KeyStreamCycles | src/domain/value_objects/api_key.py:110-138 | the repeated key has the key's byte `r` at every position `q·|k| + r` |
| ApiKeys.XorZipCancel | src/domain/value_objects/api_key.py:110-139 | XOR-zipping twice with the same stream restores the data |
| ApiKeys.SimpleEncrypt | src/domain/value_objects/api_key.py:104-117 | the key followed by as many bytes as the data: length `|k| + |d|`, prefix `k` |
| ApiKeys.EncryptCycles | src/domain/value_objects/api_key.py:104-117 | each data byte is XOR-ed with the key byte at its position modulo the key length |
| ApiKeys.Decrypt | src/domain/value_objects/api_key.py:119-143 | fails exactly on an empty value; a value of at most 32 bytes decrypts to "" |
| ApiKeys.DecryptEncrypted | src/domain/value_objects/api_key.py:119-143 | with a 32-byte key, decrypting the encryption of some bytes returns their UTF-8 decoding |
| ApiKeys.Create | src/domain/value_objects/api_key.py:64-102 | refuses an empty key or one whose stripped length is under 8, an empty encryption key and an unknown service; otherwise stores the encryption of the key's UTF-8 bytes |
| ApiKeys.CreateRoundTrip | src/domain/value_objects/api_key.py:92-143 | with a 32-byte or generated key, decrypting a created key gives back the raw key |
| ApiKeys.ShortKeyLosesRawKey | src/domain/value_objects/api_key.py:92-135 | with a 1-byte encryption key and a short raw key, creation succeeds but decryption returns "" |
| ApiKeys.CreateChecked | src/domain/value_objects/api_key.py:64-102 | as Create, and also refuses an encryption key that is not 32 bytes |
| ApiKeys.CreateCheckedRoundTrip | src/domain/value_objects/api_key.py:64-143 | every key CreateChecked accepts decrypts to its raw key |
| ApiKeys.ValidFormatLength | src/domain/value_objects/api_key.py:145-166 | a key of valid format decrypts to at least 8 characters |
| ApiKeys.CustomKeyValidFormat | src/domain/value_objects/api_key.py:145-166 | every created "custom" key has a valid format |
| ApiKeys.Mask | src/domain/value_objects/api_key.py:176-180 | same length as the plaintext; all `*` up to 8 characters; otherwise the first and last 4 characters with `*` between |
| ApiKeys.MaskForDisplay | src/domain/value_objects/api_key.py:168-182 | "***INVALID***" when decryption fails, otherwise the mask of the plaintext |
| ApiKeys.CreateMask | src/domain/value_objects/api_key.py:64-182 | the display of a created key is the mask of its raw key |
| ApiKeys.EqualsIgnoresDefault | src/domain/value_objects/api_key.py:188-195 | equal keys decrypt, mask and validate alike, and differ only in `is_default` |
| Classifications.FromConfidence | src/domain/entities/classification.py:30-47 | RELIABLE exactly on high confidence; RELIABLE or INCONCLUSIVE exactly when not low confidence |
| Classifications.FromConfidenceBands | src/domain/entities/classification.py:30-47 | RELIABLE from 0.8, INCONCLUSIVE on [0.4, 0.8), UNFOUNDED on [0.2, 0.4), FAKE below 0.2 |
| Classifications.FromConfidenceMonotone | src/domain/entities/classification.py:40-47 | a higher confidence never maps to a lower verdict |
| Classifications.FromConfidenceAndLevel | src/domain/entities/classification.py:30-47 | RELIABLE exactly at the HIGH level and FAKE exactly at VERY_LOW |
| Classifications.CleanEvidenceProperties | src/domain/entities/classification.py:114-120 | at most 10 distinct non-blank stripped entries, each the strip of an input entry; cleaning twice is cleaning once |
| Classifications.CleanEvidenceComplete | src/domain/entities/classification.py:114-120 | below the cap every non-blank entry's strip is kept |
| Classifications.CleanReasoning | src/domain/entities/classification.py:122-133 | None exactly for None or blank reasoning, otherwise a non-empty stripped text no longer than the input |
| Classifications.CleanReasoningIdempotent | src/domain/entities/classification.py:122-133 | cleaning reasoning twice is cleaning it once |
| Classifications.New | src/domain/entities/classification.py:87-133 | accepted exactly when the reasoning has at most 1000 characters and there are at most 10 evidence entries; stores both cleaned |
| Classifications.CreateReliable | src/domain/entities/classification.py:135-148 | a valid RELIABLE classification, whatever the confidence |
| Classifications.CreateFake | src/domain/entities/classification.py:150-163 | a valid FAKE classification, whatever the confidence |
| Classifications.CreateInconclusive | src/domain/entities/classification.py:165-177 | INCONCLUSIVE with no evidence; missing or empty reasoning becomes the default sentence |
| Classifications.DefaultReasoningTrimmed | src/domain/entities/classification.py:175 | the default reasoning survives the reasoning validator unchanged |
| Classifications.InconclusiveBlankReasoning | src/domain/entities/classification.py:122-177 | blank but non-empty reasoning is not replaced by the default and ends as None |
| Classifications.FromConfidenceAuto | src/domain/entities/classification.py:179-204 | the verdict is the one the confidence maps to |
| Classifications.TrustworthyOrProblematic | src/domain/entities/classification.py:206-212 | never both trustworthy and problematic; neither exactly when INCONCLUSIVE |
| Classifications.AutoVerdict | src/domain/entities/classification.py:179-212 | an automatic verdict is trustworthy exactly from 0.8 and problematic exactly below 0.4 |
| Languages.NormalizeCode | src/domain/entities/text.py:97-108 | "pt", or the lower-cased input when it matches the pattern; 2 to 6 characters without upper case |
| Languages.TwoLetterCodeStable | src/domain/entities/text.py:105-108 | a two-letter lower-case code is kept and stays kept |
| Languages.RegionalCodeNotStable | src/domain/entities/text.py:105-108 | a regional code is stored lower-cased and would fall back to "pt" when checked again |
| Languages.ValidateCode | src/domain/entities/user.py:160-170 | accepted exactly on 2 to 5 characters, then normalised |
| Languages.ValidateCodeFallback | src/domain/entities/user.py:160-170 | a code of valid length that fails the pattern becomes "pt"; one over 5 characters is refused |
| Texts.NormalizeContentShape | src/domain/entities/text.py:177-199 | the normalised content has no category-C character and only plain spaces |
| Texts.DoubleSpaceRemains | src/domain/entities/text.py:188-197 | a control character between two spaces leaves a double space |
| Texts.NormalizeContentLower | src/domain/entities/text.py:177-199 | lower-casing commutes with the content normalisation |
| Texts.ValidateContent | src/domain/entities/text.py:81-95 | accepted exactly when the raw value has 10 to 2000 characters and the stripped value at least 10; stores the stripped value |
| Texts.ValidateContentStable | src/domain/entities/text.py:81-95 | stored content passes again unchanged and has a valid length for `TextProcessor` |
| Texts.ValidateLanguage | src/domain/entities/text.py:97-108 | None gives "pt"; a code of 2 to 5 characters is normalised; any other length is refused |
| Texts.LowerStripClean | src/domain/entities/text.py:123 | a cleaned keyword is trimmed and has no upper-case letter |
| Texts.LowerStripIdempotent | src/domain/entities/text.py:123 | cleaning a keyword twice is cleaning it once |
| Texts.CleanKeywordsProperties | src/domain/entities/text.py:110-128 | at most 20 distinct keywords of 2 or more characters, each the cleaned form of an input entry; cleaning twice is cleaning once |
| Texts.CleanKeywordsMerge | src/domain/entities/text.py:121-126 | entries that differ only in case or surrounding space give one keyword |
| Texts.ValidateKeywords | src/domain/entities/text.py:110-128 | the validator returns exactly the cleaned keyword list |
| Texts.KeywordLoop | src/domain/entities/text.py:118-126 | the loop keeps the first occurrence of each long cleaned keyword |
| Texts.AddKeyword | src/domain/entities/text.py:122-126 | one iteration keeps the loop invariant |
| Texts.KeywordStep | src/domain/entities/text.py:122-126 | appending a new long keyword, or skipping it, keeps the loop invariant |
| Texts.Create | src/domain/entities/text.py:130-175 | accepted exactly when the content and fields meet their bounds and the content has a word; stores the stripped original, its length, the normalised content, the hash of that content's hash normalisation, the word count, the language and the cleaned keywords |
| Texts.Assemble | src/domain/entities/text.py:154-175 | the same for content that is already stripped |
| Texts.CreateValid | src/domain/entities/text.py:22-79 | every created text satisfies all field bounds |
| Texts.CreateStripInsensitive | src/domain/entities/text.py:151-154 | creating from the stripped content gives the same result |
| Texts.LowerContent | src/domain/entities/text.py:151-164 | lower-casing the content lower-cases its normal form, keeps its length and its words, and leaves its hash normalisation unchanged |
| Texts.CreateCaseInsensitive | src/domain/entities/text.py:154-160 | a lower-cased copy of valid content is valid and equal to the original text |
| Texts.ExtractSentences | src/domain/entities/text.py:201-218 | the stripped pieces of the normalised content of at least 10 characters, each a trimmed sentence |
| Texts.RFind | src/domain/entities/text.py:235 | the last position of the character, or -1 |
| Texts.GetPreview | src/domain/entities/text.py:220-240 | the original when it fits; otherwise a prefix followed by "...", cut at the last space only when that space lies beyond 80% of the limit |
| Texts.EqualsConsistent | src/domain/entities/text.py:289-297 | equal texts hash alike; equality is an equivalence |
| Texts.IsSimilarTo | src/domain/entities/text.py:242-254 | texts with equal hashes are similar |
| Texts.SimilarSymmetric | src/domain/entities/text.py:242-267 | similarity does not depend on the order of the texts |
| Texts.SimilarThresholdMonotone | src/domain/entities/text.py:266-267 | similar at a threshold means similar at every lower one |
| Texts.SameWordsSimilar | src/domain/entities/text.py:257-267 | the same non-empty word set is similar at every threshold up to 1 |
| Texts.BlankNotSimilar | src/domain/entities/text.py:253-261 | a text without words is similar only to a text with its hash |
| AnalysisResults.Reliability | src/domain/entities/analysis_result.py:42-52 | between 0.75 and 1; exactly 1 for CACHE and MANUAL |
| AnalysisResults.ReliabilityOrder | src/domain/entities/analysis_result.py:42-52 | LLM < VECTOR_SEARCH < HYBRID < FACT_CHECK < CACHE |
| AnalysisResults.CleanSourcesProperties | src/domain/entities/analysis_result.py:150-168 | at most 10 distinct non-blank stripped sources, each the strip of an input; cleaning twice is cleaning once |
| AnalysisResults.CleanSourcesComplete | src/domain/entities/analysis_result.py:158-166 | below the cap every non-blank source's strip is kept |
| AnalysisResults.ValidateFactCheckSources | src/domain/entities/analysis_result.py:150-168 | the validator returns exactly the cleaned source list |
| AnalysisResults.SourceLoop | src/domain/entities/analysis_result.py:155-166 | the loop keeps the first occurrence of each non-blank stripped source |
| AnalysisResults.AddSource | src/domain/entities/analysis_result.py:159-166 | one iteration keeps the loop invariant |
| AnalysisResults.SourceStep | src/domain/entities/analysis_result.py:159-166 | appending a new source, or skipping it, keeps the loop invariant |
| AnalysisResults.New | src/domain/entities/analysis_result.py:63-148 | accepted exactly with non-negative time and cost, at most 10 sources and a non-negative similar-text count; negative time or cost gives `Negative`; fields stored as given, sources cleaned |
| AnalysisResults.NewValid | src/domain/entities/analysis_result.py:63-168 | every constructed result satisfies the entity invariant |
| AnalysisResults.CreateFromFactCheck | src/domain/entities/analysis_result.py:170-189 | source FACT_CHECK, other fields passed through |
| AnalysisResults.CreateFromLlm | src/domain/entities/analysis_result.py:191-210 | source LLM, no sources, other fields passed through |
| AnalysisResults.CreateFromCache | src/domain/entities/analysis_result.py:212-228 | source CACHE, cost 0, no expiry, the original source recorded; cached, cost-effective and unexpired |
| AnalysisResults.CreateInconclusive | src/domain/entities/analysis_result.py:230-249 | source HYBRID, cost 0, an INCONCLUSIVE classification at 0.5 without evidence; not cached, cost-effective, not high confidence |
| AnalysisResults.InconclusiveConfidenceIsHalf | src/domain/entities/analysis_result.py:244 | the confidence used is the score 0.5 |
| AnalysisResults.ExpiredStays | src/domain/entities/analysis_result.py:255-259 | once expired, a result stays expired |
| AnalysisResults.SpeedTerm | src/domain/entities/analysis_result.py:281-282 | in [0, 0.3], and 0.3 up to 5000 ms |
| AnalysisResults.CostTerm | src/domain/entities/analysis_result.py:284-285 | in [0, 0.2], and 0.2 up to 50 cents |
| AnalysisResults.ConfidenceTerm | src/domain/entities/analysis_result.py:278-279 | in [0, 0.4] |
| AnalysisResults.SourceTerm | src/domain/entities/analysis_result.py:287-288 | in [0.075, 0.1] |
| AnalysisResults.Score | src/domain/entities/analysis_result.py:273-291 | the weighted sum of the four terms lies in [0, 1] |
| AnalysisResults.PerformanceScore | src/domain/entities/analysis_result.py:273-291 | in [0, 1] |
| AnalysisResults.SpeedTermAntitone | src/domain/entities/analysis_result.py:281-282 | a slower result never scores higher on speed |
| AnalysisResults.CostTermAntitone | src/domain/entities/analysis_result.py:284-285 | a costlier result never scores higher on cost |
| AnalysisResults.ScoreMonotone | src/domain/entities/analysis_result.py:273-291 | non-decreasing in confidence, non-increasing in time and cost |
| AnalysisResults.ScoreTop | src/domain/entities/analysis_result.py:273-291 | full confidence from the cache in at most 5000 ms at at most 50 cents scores exactly 1 |
| Users.ValidateUserId | src/domain/entities/user.py:147-158 | accepted exactly on 8 to 64 letters, digits, `-` and `_`; stored unchanged |
| Users.IdTrimmed | src/domain/entities/user.py:147-158 | an id of id characters is unchanged by stripping |
| Users.GeneratedIdValid | src/domain/entities/user.py:203-205 | "user_" and 12 hex digits is a valid id |
| Users.FirstFor | src/domain/entities/user.py:249-262 | a key of the service from the list, or None exactly when no key has the service |
| Users.FirstForIsFirst | src/domain/entities/user.py:258-261 | the key found is the first one with its service |
| Users.FirstForIsHead | src/domain/entities/user.py:258-261 | the key found is the head of the service's keys, or None when it has none |
| Users.WithoutServiceKeepsOthers | src/domain/entities/user.py:243-247 | filtering one service keeps the other services' keys in order |
| Users.WithoutServiceShrinks | src/domain/entities/user.py:243-247 | filtering shrinks the list exactly when some key has the service |
| Users.WithoutServiceUnique | src/domain/entities/user.py:243-247 | filtering keeps services unique |
| Users.NoneForFiltered | src/domain/entities/user.py:243-247 | after filtering a service none of its keys remain |
| Users.FirstForSnoc | src/domain/entities/user.py:180-186 | appending a key changes a lookup only for its service when that service had no key yet |
| Users.FirstPerServiceLookup | src/domain/entities/user.py:172-188 | the de-duplicated list answers every lookup as the input does |
| Users.FirstPerServiceUnique | src/domain/entities/user.py:172-188 | no service appears twice after de-duplication |
| Users.FirstPerServiceFromInput | src/domain/entities/user.py:172-188 | every kept key comes from the input |
| Users.FirstPerServiceFixed | src/domain/entities/user.py:172-188 | a list with unique services is kept as it is |
| Users.FirstPerServiceIdempotent | src/domain/entities/user.py:172-188 | de-duplicating twice is de-duplicating once |
| Users.ValidateApiKeys | src/domain/entities/user.py:172-188 | the validator returns exactly the first key of each service in input order |
| Users.AddFirstKey | src/domain/entities/user.py:183-186 | one iteration keeps the loop invariant |
| Users.ApiKeyStep | src/domain/entities/user.py:183-186 | appending a key of a new service, or skipping one of a seen service, keeps the loop invariant |
| Users.User.Init | src/domain/entities/user.py:67-140 | every field holds the given value and both timestamps are `now` |
| Users.User.New | src/domain/entities/user.py:60-188 | accepted exactly when id, cache days, language length, threshold and totals meet their bounds; stores the first key per service and the normalised language; both timestamps `now` |
| Users.User.CreateNew | src/domain/entities/user.py:190-217 | the documented defaults; a blank id is replaced by a generated one |
| Users.DefaultLanguageKept | src/domain/entities/user.py:160-170 | the default language "pt" passes the language validator unchanged |
| Users.AppendNewService | src/domain/entities/user.py:183-186 | appending a key of a new service keeps services unique |
| Users.User.AddApiKey | src/domain/entities/user.py:219-231 | the keys of the new key's service are removed, the key is appended, services stay unique |
| Users.AddApiKeyOwnService | src/domain/entities/user.py:219-231 | after adding, the new key is the only key of its service, the last key and the one found |
| Users.AddApiKeyOtherServices | src/domain/entities/user.py:219-231 | adding leaves every other service's keys and lookups as they were |
| Users.User.RemoveApiKey | src/domain/entities/user.py:233-247 | the service's keys are removed; true exactly when one existed; services stay unique |
| Users.RemoveApiKeyEffect | src/domain/entities/user.py:233-247 | after removal no key of the service is found, and other services are untouched |
| Users.User.GetApiKey | src/domain/entities/user.py:249-262 | None exactly when no key has the service, otherwise a stored key of that service |
| Users.User.HasApiKey | src/domain/entities/user.py:264-274 | true exactly when GetApiKey finds a key |
| Users.User.RecordAnalysis | src/domain/entities/user.py:276-285 | one more analysis, the cost added when positive, the activity time set, the invariant kept |
| Chars.Lower | src/domain/value_objects/text_hash.py:73 | the result has no upper-case letter; a character is unchanged exactly when it has no lower-case form; whitespace, control and word classes are kept |
| Chars.LowerStr | src/domain/value_objects/text_hash.py:73 | lower-cases each character and keeps the length |
| Chars.LowerStrIdempotent | src/domain/value_objects/text_hash.py:73 | lower-casing twice is lower-casing once |
| Chars.LowerStrFixed | src/utils/text_processor.py:276 | a text without upper-case letters is its own lower-cased form |
| Chars.Strip | src/utils/text_processor.py:66 | no surrounding whitespace; empty exactly when the input is all whitespace |
| Chars.StripLower | src/domain/value_objects/text_hash.py:70-73 | stripping and lower-casing commute |
| Chars.CollapseNoSpaceRun | src/utils/text_processor.py:60 | collapsing whitespace leaves no run |
| Chars.CollapseAll | src/utils/text_processor.py:60 | the collapse leaves only plain spaces and keeps every property that spaces share |
| Chars.CollapseKeepsWords | src/utils/text_processor.py:60 | the collapse keeps every non-space character in order |
| Chars.CollapseTrimmed | src/utils/text_processor.py:60-66 | collapsing keeps a trimmed text trimmed |
| Chars.CollapseCanonical | src/utils/text_processor.py:60 | a text without runs and with only plain spaces is left unchanged |
| Chars.CollapseLower | src/domain/value_objects/text_hash.py:70-73 | collapsing and lower-casing commute |
| Chars.KeepShape | src/domain/entities/text.py:196-197 | filtering keeps only accepted characters and every shared property |
| Chars.KeepAll | src/domain/entities/text.py:196-197 | a text of accepted characters is kept whole |
| Chars.KeepConcat | src/domain/entities/text.py:196-197 | filtering a concatenation filters each part |
| Chars.WordsAreWords | src/domain/entities/text.py:163 | every token of `split()` is non-empty and without whitespace |
| Chars.WordsEmpty | src/domain/entities/text.py:163 | `split()` is empty exactly for an all-whitespace text |
| Chars.WordsCons | src/utils/text_processor.py:276 | a word followed by whitespace or nothing is the first token of `split()`, the rest split as before |
| Chars.WordsSingle | src/utils/text_processor.py:276 | a single word without whitespace splits into itself |
| Chars.WordsSpace | src/utils/text_processor.py:276 | leading whitespace does not change `split()` |
| Chars.WordSetEmpty | src/utils/text_processor.py:319-324 | the word set is empty exactly for an all-whitespace text |
| Seqs.SliceTo | src/domain/entities/text.py:128 | Python slicing `[:n]`: a prefix of the length Python gives, for negative n too |
| Seqs.IndexOfFirst | src/domain/entities/classification.py:119 | the index found is the first occurrence |
| Seqs.DedupeOrder | src/domain/entities/classification.py:119 | first-occurrence de-duplication keeps first-occurrence order |
| Seqs.DedupeUnique | src/domain/entities/classification.py:119 | the de-duplicated list has no repetition |
| Seqs.DedupeMembers | src/domain/entities/classification.py:119 | de-duplication keeps every element |
| Seqs.DedupeDistinct | src/domain/entities/classification.py:119 | a list without repetition is kept as it is |
| Seqs.DistinctPrefix | src/domain/entities/text.py:128 | a prefix of a list without repetition has none |
| Seqs.Count | src/utils/text_processor.py:295 | a count is positive exactly for a member and never exceeds the length |
| Seqs.DistinctCount | src/utils/text_processor.py:298-299 | a member of a list without repetition occurs once |
| Seqs.DedupeSnoc | src/domain/entities/text.py:121-126 | one more element is appended exactly when not yet seen |
| Seqs.Jaccard | src/utils/text_processor.py:333-336 | the index lies in [0, 1] |
| Seqs.JaccardOne | src/utils/text_processor.py:333-336 | the index is 1 exactly for equal sets |
| Seqs.JaccardSymmetric | src/utils/text_processor.py:333-336 | the index is symmetric |
| Hygiene.CleanedStep | src/domain/entities/classification.py:119 | one more entry extends the cleaned list by its cleaning exactly when that passes the filter |
| Hygiene.DedupeStep | src/domain/entities/text.py:121-126 | one more entry is kept exactly when its cleaning passes the filter and is new |
| Hygiene.CleanedSound | src/domain/entities/classification.py:119 | every cleaned entry passes the filter and is the cleaning of an input entry |
| Hygiene.CleanedComplete | src/domain/entities/classification.py:119 | every entry whose cleaning passes the filter appears |
| Hygiene.CleanedFixed | src/domain/entities/classification.py:119 | a list of clean entries that pass the filter is kept as it is |
| Hygiene.TidyProperties | src/domain/entities/classification.py:119-120 | capped, distinct, each the cleaning of an input, in first-occurrence order |
| Hygiene.TidyComplete | src/domain/entities/classification.py:119-120 | below the cap nothing that passes the filter is lost |
| Hygiene.TidyIdempotent | src/domain/entities/classification.py:119-120 | when cleaning is idempotent on the result, tidying twice is tidying once |
| Hygiene.TidyEmpty | src/domain/entities/text.py:114-115 | tidying the empty list gives the empty list, as the early return does |
| Digest.Utf8RoundTrip | src/domain/value_objects/api_key.py:95-141 | decoding the UTF-8 encoding of a string gives the string back |
| Digest.EncodeChar | src/domain/value_objects/api_key.py:95 | one character takes one to four bytes |
| Digest.Utf8Encode | src/domain/value_objects/api_key.py:95 | a string of n characters takes between n and 4n bytes |
| Digest.DecodeEncodedChar | src/domain/value_objects/api_key.py:141 | decoding the front of an encoded character gives the character and its byte count |
| Digest.Sha256 | src/domain/value_objects/text_hash.py:54 | the digest is 32 bytes |
| Digest.Hex | src/domain/value_objects/text_hash.py:54 | two lower-case hex digits per byte |
| Digest.HexDigest | src/domain/value_objects/text_hash.py:54 | `hexdigest()` of the UTF-8 bytes: 64 lower-case hex characters |

## Left out

- `TextProcessor.get_text_stats`: optional statistics over functions the model already covers, left out.
- Unicode NFC composition (Unicode Standard Annex #15) is the identity. `str.lower`, `isalnum` and `\w` are exact on U+0000-U+00FF only: letters and digits beyond it (Greek, Cyrillic, CJK, other scripts' digits) are neither upper-case nor word characters in the model. Category C does not include unassigned (Cn) code points.
- Floating point: a confidence is exact ten-thousandths, and the performance score and thresholds are reals. Python's `round` is round-half-even on the exact value, not on the binary float.
- base64: an API key's `encrypted_value` is the byte string itself. The base64 validator is the non-empty check, and a decode failure is not modelled.
- The clock, `secrets.token_bytes(32)` and `uuid.uuid4()` are parameters: `now`, a 32-byte `freshKey` and 32 hex digits.
- A user's `created_at` and `last_active_at` come from separate clock reads. Both are `now` here.
- `metadata`, `api_response_raw`, `to_dict`, `__str__`, `get_display_text`, display names, colours, emoji and descriptions are presentation, left out.
- The `isinstance` checks on list entries and arguments are left out: every entry is a string or a key by its type.
- The order pydantic reports several failing fields in is one fixed order here. Which failures occur is exact; which one is named first may differ.
- `Texts.IsSimilarTo`: its ensures states only the hash case; the word-set cases are stated by the lemmas beside it.
- The predicates `is_cached`, `is_fast_response`, `is_cost_effective` and `is_high_confidence` of an analysis result are one-line predicates without contracts of their own. They are used in the factory contracts.
- The security of the XOR framing is not claimed. Only its byte-level round trip is proved.

## Findings

| source | as written | input that shows it | evidently intended | confidence | as-written member | corrected member |
|---|---|---|---|---|---|---|
| src/utils/text_processor.py:285 | the stop word "não" is spelled "nÃ£o", a mis-decoded UTF-8 | "não é verdade" gives the keywords ["não", "verdade"] | "não" is a stop word | not executed | TextProcessor.NaoCountedAsWritten | TextProcessor.ExtractKeywordsCorrected |
| src/domain/value_objects/api_key.py:92-135 | `create` accepts an encryption key of any length, but `decrypt` always takes the first 32 bytes as the key | raw key "abcdefgh" with the 1-byte encryption key b"\x01" decrypts to "" | only 32-byte keys are accepted, so decryption restores the raw key | not executed | ApiKeys.ShortKeyLosesRawKey | ApiKeys.CreateCheckedRoundTrip |
