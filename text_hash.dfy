/**
 * `TextHash`: the SHA-256 fingerprint of a text, held as 64 lower-case hex
 * characters, with its own normalisation (strip, collapse whitespace, lower
 * case; NFC composition is the identity here).
 */
module TextHashes {
  import opened Results
  import opened Chars
  import Digest

  const HashLength := 64

  datatype TextHash = TextHash(value: string)

  /** The stored form of a digest: exactly 64 characters of `[0-9a-f]`. */
  predicate IsDigestString(s: string) {
    |s| == HashLength && Digest.IsLowerHex(s)
  }

  lemma LowerHexUnchanged(s: string)
    requires Digest.IsLowerHex(s)
    ensures LowerStr(s) == s
  {
    forall i | 0 <= i < |s| ensures LowerStr(s)[i] == s[i] {
      assert s[i] in s;
    }
  }

  /**
   * The Unicode White_Space property, which the `str_strip_whitespace` model
   * setting trims with: Python's whitespace set without the information
   * separators U+001C-U+001F, which `str.isspace` accepts and White_Space does not.
   */
  predicate IsWhiteSpace(c: char) {
    IsSpace(c) && !(0x1C <= c as int <= 0x1F)
  }

  /** No White_Space character at either end. */
  predicate WhiteTrimmed(s: string) {
    |s| == 0 || (!IsWhiteSpace(s[0]) && !IsWhiteSpace(s[|s| - 1]))
  }

  /** s without its leading White_Space characters. */
  function TrimStart(s: string): (r: string)
    ensures |r| <= |s| && r == s[|s| - |r|..]
    ensures r == [] || !IsWhiteSpace(r[0])
    ensures forall i :: 0 <= i < |s| - |r| ==> IsWhiteSpace(s[i])
  {
    if |s| > 0 && IsWhiteSpace(s[0]) then TrimStart(s[1..]) else s
  }

  /** s without its trailing White_Space characters. */
  function TrimEnd(s: string): (r: string)
    ensures |r| <= |s| && r == s[..|r|]
    ensures r == [] || !IsWhiteSpace(r[|r| - 1])
    ensures forall i :: |r| <= i < |s| ==> IsWhiteSpace(s[i])
  {
    if |s| > 0 && IsWhiteSpace(s[|s| - 1]) then TrimEnd(s[..|s| - 1]) else s
  }

  /** The strip applied to every string field of the model: both ends, by White_Space. */
  function Trim(s: string): (r: string)
    ensures WhiteTrimmed(r)
    ensures |r| <= |s|
    ensures r == [] <==> forall i :: 0 <= i < |s| ==> IsWhiteSpace(s[i])
  {
    TrimEnd(TrimStart(s))
  }

  /** Trimming a string that has no White_Space at either end changes nothing. */
  lemma TrimWhiteTrimmed(s: string)
    requires WhiteTrimmed(s)
    ensures Trim(s) == s
  {
  }

  /**
   * Construction of a `TextHash`: the value is trimmed of White_Space, must
   * have exactly 64 characters and match `^[a-f0-9]{64}$`, and the validator
   * then stores its lower-case form. The result is accepted exactly when the
   * trimmed value is a digest string, and is then stored as given.
   */
  function Make(v: string): (r: Result<TextHash>)
    ensures r.Ok? <==> IsDigestString(Trim(v))
    ensures r.Ok? ==> IsDigestString(r.value.value) && r.value.value == Trim(v)
  {
    var s := Trim(v);
    if |s| < HashLength then Err(TooShort)
    else if |s| > HashLength then Err(TooLong)
    else if !Digest.IsLowerHex(s) then Err(InvalidFormat)
    else
      LowerHexUnchanged(s);
      if !Digest.IsLowerHex(LowerStr(s)) then Err(InvalidFormat)
      else Ok(TextHash(LowerStr(s)))
  }

  /**
   * An information separator in front of a digest is kept by the field strip,
   * so the value is one character too long and refused, although Python's
   * `str.strip` would have removed it.
   */
  lemma SeparatorKept(d: string, c: char)
    requires IsDigestString(d) && 0x1C <= c as int <= 0x1F
    ensures Make([c] + d) == Err(TooLong)
    ensures Strip([c] + d) == d
  {
    var v := [c] + d;
    assert Trim(v) == v by {
      assert Digest.IsLowerHexChar(d[|d| - 1]) by { assert d[|d| - 1] in d; }
      assert v[0] == c && v[|v| - 1] == d[|d| - 1];
      TrimWhiteTrimmed(v);
    }
    assert Strip(v) == d by {
      assert Trimmed(d) by {
        assert Digest.IsLowerHexChar(d[0]) by { assert d[0] in d; }
        assert Digest.IsLowerHexChar(d[|d| - 1]) by { assert d[|d| - 1] in d; }
      }
      assert StripStart(v) == d by {
        assert IsSpace(v[0]) && v[1..] == d;
      }
      StripTrimmed(d);
    }
  }

  /** A string with an upper-case hex digit is refused rather than lower-cased. */
  lemma UpperCaseRefused(v: string, i: nat)
    requires i < |v| && 'A' <= v[i] <= 'F' && Trimmed(v)
    ensures Make(v).Err?
  {
    assert Trim(v) == v by {
      assert !IsWhiteSpace(v[0]) && !IsWhiteSpace(v[|v| - 1]);
      TrimWhiteTrimmed(v);
    }
    assert !Digest.IsLowerHex(v) by {
      assert v[i] in v && !Digest.IsLowerHexChar(v[i]);
    }
  }

  /** Every stored hash is accepted again unchanged. */
  lemma MakeStored(h: TextHash)
    requires IsDigestString(h.value)
    ensures Make(h.value) == Ok(h)
  {
    assert WhiteTrimmed(h.value) by {
      if h.value != [] {
        assert h.value[0] in h.value && h.value[|h.value| - 1] in h.value;
      }
    }
    TrimWhiteTrimmed(h.value);
    LowerHexUnchanged(h.value);
  }

  /** `TextHash._normalize_text`: strip, collapse each whitespace run to one space, lower-case. */
  function NormalizeText(text: string): (r: string)
    ensures |r| <= |text|
  {
    LowerStr(CollapseSpaces(Strip(text)))
  }

  /** The normal form has no whitespace at either end, no whitespace run, no whitespace but the plain space, and no upper case. */
  lemma NormalizeTextShape(text: string)
    ensures var r := NormalizeText(text);
      Trimmed(r) && NoSpaceRun(r) && All(r, PlainOrNotSpace) && All(r, NotUpper)
  {
    var c := CollapseSpaces(Strip(text));
    CollapseTrimmed(Strip(text));
    CollapseNoSpaceRun(Strip(text));
    CollapseAll(Strip(text), PlainOrNotSpace);
    LowerStrTrimmed(c);
    LowerStrNoSpaceRun(c);
    LowerStrAll(c);
  }

  /** Normalising a normal form changes nothing. */
  lemma NormalizeTextIdempotent(text: string)
    ensures NormalizeText(NormalizeText(text)) == NormalizeText(text)
  {
    var r := NormalizeText(text);
    NormalizeTextShape(text);
    StripTrimmed(r);
    CollapseCanonical(r);
    assert LowerStr(r) == r;
  }

  /** Lower-casing a text first does not change its normal form. */
  lemma NormalizeTextCaseInsensitive(text: string)
    ensures NormalizeText(LowerStr(text)) == NormalizeText(text)
  {
    StripLower(text);
    CollapseLower(Strip(text));
    LowerStrIdempotent(CollapseSpaces(Strip(text)));
  }

  /**
   * `TextHash.from_text`: refuses the empty string; otherwise the SHA-256 hex
   * digest of the UTF-8 encoding of the normal form.
   */
  function FromText(text: string): (r: Result<TextHash>)
    ensures r.Err? <==> text == []
    ensures r.Ok? ==> IsDigestString(r.value.value)
    ensures r.Ok? ==> r.value.value == Digest.HexDigest(NormalizeText(text))
  {
    if text == [] then Err(EmptyText)
    else
      var digest := Digest.HexDigest(NormalizeText(text));
      MakeStored(TextHash(digest));
      Make(digest)
  }

  /** Texts with the same normal form get the same hash; in particular texts that differ in case. */
  lemma SameNormalFormSameHash(a: string, b: string)
    requires a != [] && b != [] && NormalizeText(a) == NormalizeText(b)
    ensures FromText(a) == FromText(b)
  {
    assert FromText(a).value == FromText(b).value;
  }

  lemma CaseInsensitiveHash(text: string)
    requires text != []
    ensures FromText(LowerStr(text)) == FromText(text)
  {
    NormalizeTextCaseInsensitive(text);
    SameNormalFormSameHash(LowerStr(text), text);
  }

  /** Hashing a normal form gives the hash of the text it came from. */
  lemma HashOfNormalForm(text: string)
    requires NormalizeText(text) != []
    ensures FromText(NormalizeText(text)) == FromText(text)
  {
    NormalizeTextIdempotent(text);
  }

  /** What `TextHash.__eq__` can be compared with. */
  datatype Other = HashValue(h: TextHash) | StringValue(s: string) | OtherValue

  /** `TextHash.__eq__`: the same value, whether the other side is a hash or a plain string. */
  function Equals(h: TextHash, other: Other): (r: bool)
    ensures other.HashValue? ==> (r <==> h == other.h)
    ensures other.StringValue? ==> (r <==> h.value == other.s)
    ensures other.OtherValue? ==> !r
  {
    match other
    case HashValue(o) => h.value == o.value
    case StringValue(s) => h.value == s
    case OtherValue => false
  }

  /** `TextHash.__hash__` hashes the value: the key handed to the hash function. */
  function HashKey(h: TextHash): string {
    h.value
  }

  /** Equal hashes, or a hash equal to a string, hash alike (as that string hashes). */
  lemma HashConsistent(h: TextHash, other: Other)
    requires Equals(h, other)
    ensures other.HashValue? ==> HashKey(h) == HashKey(other.h)
    ensures other.StringValue? ==> HashKey(h) == other.s
  {
  }

  /** Equality between hashes is an equivalence. */
  lemma EqualsEquivalence(a: TextHash, b: TextHash, c: TextHash)
    ensures Equals(a, HashValue(a))
    ensures Equals(a, HashValue(b)) == Equals(b, HashValue(a))
    ensures Equals(a, HashValue(b)) && Equals(b, HashValue(c)) ==> Equals(a, HashValue(c))
  {
  }
}
