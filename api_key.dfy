/**
 * `ApiKey`: an API key for one external service, stored XOR-"encrypted"
 * with the encryption key written in front of the ciphertext. The stored
 * value is the byte string that `encrypted_value` holds in base64; base64
 * itself is not modelled (see README).
 */
module ApiKeys {
  import opened Results
  import opened Seqs
  import opened Chars
  import opened Digest

  const MaxServiceNameLength := 50
  const MinRawKeyLength := 8
  /** How many leading bytes `decrypt` takes as the key. */
  const StoredKeyLength := 32
  const Invalid: string := "***INVALID***"

  datatype ApiKey = ApiKey(encrypted: seq<Byte>, serviceName: string, isDefault: bool)

  // --------------------------------------------------------------- services

  /** The services a key may belong to. */
  predicate IsKnownService(s: string) {
    s == "google_fact_check" || s == "groq_llm" || s == "openrouter" || s == "custom"
  }

  /**
   * `service_name`: between 1 and 50 characters (checked on the raw value),
   * then its lower-cased form must be a known service and is what is stored.
   */
  function ValidateServiceName(v: string): (r: Result<string>)
    ensures r.Ok? <==> 1 <= |v| <= MaxServiceNameLength && IsKnownService(LowerStr(v))
    ensures r.Ok? ==> r.value == LowerStr(v) && IsKnownService(r.value)
    ensures |v| == 0 ==> r == Err(TooShort)
    ensures |v| > MaxServiceNameLength ==> r == Err(TooLong)
  {
    if |v| < 1 then Err(TooShort)
    else if |v| > MaxServiceNameLength then Err(TooLong)
    else if !IsKnownService(LowerStr(v)) then Err(UnknownService)
    else Ok(LowerStr(v))
  }

  /** A stored service name is accepted again unchanged. */
  lemma ValidateServiceNameStable(v: string)
    requires ValidateServiceName(v).Ok?
    ensures ValidateServiceName(ValidateServiceName(v).value) == ValidateServiceName(v)
  {
    LowerStrIdempotent(v);
  }

  /**
   * Construction from fields: `encrypted_value` must not be empty (the
   * base64 text of no bytes is empty) and the service name must pass its check.
   */
  function New(encrypted: seq<Byte>, serviceName: string, isDefault: bool): (r: Result<ApiKey>)
    ensures r.Ok? <==> encrypted != [] && ValidateServiceName(serviceName).Ok?
    ensures r.Ok? ==> r.value == ApiKey(encrypted, LowerStr(serviceName), isDefault)
  {
    if encrypted == [] then Err(TooShort)
    else match ValidateServiceName(serviceName)
      case Err(e) => Err(e)
      case Ok(s) => Ok(ApiKey(encrypted, s, isDefault))
  }

  /** What every constructed key satisfies. */
  predicate Valid(k: ApiKey) {
    k.encrypted != [] && IsKnownService(k.serviceName)
  }

  // -------------------------------------------------------------------- XOR

  function Pow2(n: nat): (r: nat)
    ensures r >= 1
  {
    if n == 0 then 1 else 2 * Pow2(n - 1)
  }

  /** Bitwise exclusive or of the low n bits of a and b. */
  function XorBits(a: nat, b: nat, n: nat): (r: nat)
    ensures r < Pow2(n)
  {
    if n == 0 then 0
    else (if a % 2 == b % 2 then 0 else 1) + 2 * XorBits(a / 2, b / 2, n - 1)
  }

  /** XOR-ing twice with the same bits gives the bits back. */
  lemma {:induction false} XorBitsCancel(a: nat, b: nat, n: nat)
    requires a < Pow2(n)
    ensures XorBits(XorBits(a, b, n), b, n) == a
  {
    if n > 0 {
      var x := XorBits(a, b, n);
      assert x % 2 == (if a % 2 == b % 2 then 0 else 1) && x / 2 == XorBits(a / 2, b / 2, n - 1);
      XorBitsCancel(a / 2, b / 2, n - 1);
    }
  }

  /** `a ^ b` on two bytes. */
  function Xor(a: Byte, b: Byte): Byte {
    assert Pow2(8) == 256;
    XorBits(a, b, 8)
  }

  /** XOR-ing twice with the same byte gives the byte back. */
  lemma XorCancel(a: Byte, b: Byte)
    ensures Xor(Xor(a, b), b) == a
  {
    assert Pow2(8) == 256;
    XorBitsCancel(a, b, 8);
  }

  /** `key * times`: the key repeated `times` times. */
  function Repeat(k: seq<Byte>, times: nat): (r: seq<Byte>)
    ensures |r| == |k| * times
  {
    if times == 0 then [] else k + Repeat(k, times - 1)
  }

  /** Byte r of the q-th copy of the key is byte r of the key. */
  lemma {:induction false} RepeatIndex(k: seq<Byte>, times: nat, q: nat, r: nat)
    requires r < |k| && q * |k| + r < |k| * times
    ensures Repeat(k, times)[q * |k| + r] == k[r]
  {
    assert times > 0;
    if q > 0 {
      assert q * |k| == (q - 1) * |k| + |k|;
      assert |k| * times == |k| * (times - 1) + |k|;
      RepeatIndex(k, times - 1, q - 1, r);
    }
  }

  /** `(key * (n // len(key) + 1))[:n]`: the key stream that covers n bytes. */
  function KeyStream(k: seq<Byte>, n: nat): (r: seq<Byte>)
    requires |k| > 0
    ensures |r| == n
  {
    var times := n / |k| + 1;
    assert n < |k| * times by {
      assert n == |k| * (n / |k|) + n % |k|;
    }
    SliceTo(Repeat(k, times), n)
  }

  /** The key stream cycles through the key: byte q·|k| + r of the stream is byte r of the key. */
  lemma KeyStreamCycles(k: seq<Byte>, n: nat, q: nat, r: nat)
    requires r < |k| && q * |k| + r < n
    ensures KeyStream(k, n)[q * |k| + r] == k[r]
  {
    var times := n / |k| + 1;
    assert n < |k| * times by {
      assert n == |k| * (n / |k|) + n % |k|;
    }
    RepeatIndex(k, times, q, r);
  }

  /** `bytes(a ^ b for a, b in zip(data, stream))`: `zip` stops at the shorter input. */
  function XorZip(data: seq<Byte>, stream: seq<Byte>): (r: seq<Byte>)
    ensures |r| == if |data| < |stream| then |data| else |stream|
  {
    var n := if |data| < |stream| then |data| else |stream|;
    seq(n, i requires 0 <= i < n => Xor(data[i], stream[i]))
  }

  /** Applying the same stream twice gives the data back. */
  lemma XorZipCancel(data: seq<Byte>, stream: seq<Byte>)
    requires |data| == |stream|
    ensures XorZip(XorZip(data, stream), stream) == data
  {
    var once := XorZip(data, stream);
    forall i | 0 <= i < |data| ensures XorZip(once, stream)[i] == data[i] {
      XorCancel(data[i], stream[i]);
    }
  }

  /**
   * `_simple_encrypt`: the key followed by the data XOR-ed with the key
   * repeated over it (an empty key divides by zero in the source, so the
   * callers refuse it first).
   */
  function SimpleEncrypt(data: seq<Byte>, k: seq<Byte>): (r: seq<Byte>)
    requires |k| > 0
    ensures |r| == |k| + |data| && r[..|k|] == k
  {
    k + XorZip(data, KeyStream(k, |data|))
  }

  /** Data byte q·|k| + j is stored XOR-ed with key byte j, after the key. */
  lemma EncryptCycles(data: seq<Byte>, k: seq<Byte>, q: nat, j: nat)
    requires j < |k| && q * |k| + j < |data|
    ensures SimpleEncrypt(data, k)[|k| + q * |k| + j] == Xor(data[q * |k| + j], k[j])
  {
    KeyStreamCycles(k, |data|, q, j);
  }

  // -------------------------------------------------------------- decrypt

  /**
   * `decrypt`: the first 32 stored bytes are the key, the rest the
   * ciphertext; XOR-ing it with the key stream must give UTF-8. No stored
   * bytes at all make the key empty, which divides by zero in the source.
   */
  function Decrypt(a: ApiKey): (r: Result<string>)
    ensures a.encrypted == [] <==> r == Err(InvalidKey)
    ensures 0 < |a.encrypted| <= StoredKeyLength ==> r == Ok([])
  {
    var key := SliceTo(a.encrypted, StoredKeyLength);
    var data := a.encrypted[|key|..];
    if |key| == 0 then Err(InvalidKey)
    else match Utf8Decode(XorZip(data, KeyStream(key, |data|)))
      case None => Err(Undecodable)
      case Some(s) => Ok(s)
  }

  /** Decrypting what a 32-byte key encrypted gives the data back, when it is UTF-8. */
  lemma {:induction false} DecryptEncrypted(data: seq<Byte>, k: seq<Byte>, serviceName: string, isDefault: bool)
    requires |k| == StoredKeyLength
    ensures var r := Decrypt(ApiKey(SimpleEncrypt(data, k), serviceName, isDefault));
      match Utf8Decode(data)
      case None => r == Err(Undecodable)
      case Some(s) => r == Ok(s)
  {
    var e := SimpleEncrypt(data, k);
    var cipher := XorZip(data, KeyStream(k, |data|));
    assert e == k + cipher;
    assert SliceTo(e, StoredKeyLength) == k;
    assert e[|k|..] == cipher;
    XorZipCancel(data, KeyStream(k, |data|));
  }

  // ---------------------------------------------------------------- create

  /** The key used: the one given, or the 32 fresh random bytes `secrets.token_bytes(32)` supplies. */
  function KeyOrFresh(encryptionKey: Option<seq<Byte>>, freshKey: seq<Byte>): seq<Byte> {
    if encryptionKey.Some? then encryptionKey.value else freshKey
  }

  /**
   * `ApiKey.create` as written: refuses an empty raw key and one shorter
   * than eight characters once stripped, encrypts the UTF-8 of the raw key
   * (unstripped) with the given key or a fresh one, then builds the key.
   * An empty encryption key divides by zero in `_simple_encrypt`.
   */
  function Create(raw: string, serviceName: string, isDefault: bool, encryptionKey: Option<seq<Byte>>,
                  freshKey: seq<Byte>): (r: Result<ApiKey>)
    requires |freshKey| == StoredKeyLength
    ensures r.Ok? <==> raw != [] && |Strip(raw)| >= MinRawKeyLength
                       && KeyOrFresh(encryptionKey, freshKey) != [] && ValidateServiceName(serviceName).Ok?
    ensures raw == [] ==> r == Err(EmptyText)
    ensures raw != [] && |Strip(raw)| < MinRawKeyLength ==> r == Err(TooShort)
    ensures r.Ok? ==> Valid(r.value) && r.value.serviceName == LowerStr(serviceName)
                      && r.value.isDefault == isDefault
                      && r.value.encrypted == SimpleEncrypt(Utf8Encode(raw), KeyOrFresh(encryptionKey, freshKey))
  {
    if raw == [] then Err(EmptyText)
    else if |Strip(raw)| < MinRawKeyLength then Err(TooShort)
    else
      var k := KeyOrFresh(encryptionKey, freshKey);
      if k == [] then Err(InvalidKey)
      else New(SimpleEncrypt(Utf8Encode(raw), k), serviceName, isDefault)
  }

  /** With a generated key or a given 32-byte key, decryption gives the raw key back. */
  lemma CreateRoundTrip(raw: string, serviceName: string, isDefault: bool, encryptionKey: Option<seq<Byte>>,
                        freshKey: seq<Byte>)
    requires |freshKey| == StoredKeyLength
    requires encryptionKey.None? || |encryptionKey.value| == StoredKeyLength
    requires Create(raw, serviceName, isDefault, encryptionKey, freshKey).Ok?
    ensures Decrypt(Create(raw, serviceName, isDefault, encryptionKey, freshKey).value) == Ok(raw)
  {
    DecryptEncrypted(Utf8Encode(raw), KeyOrFresh(encryptionKey, freshKey), LowerStr(serviceName), isDefault);
    Utf8RoundTrip(raw);
  }

  /**
   * A one-byte key is accepted, but `decrypt` then takes the key and up to
   * 31 ciphertext bytes as its 32-byte key: a raw key of 8 to 31 bytes
   * decrypts to the empty string.
   */
  lemma ShortKeyLosesRawKey(raw: string, serviceName: string, isDefault: bool, b: Byte, freshKey: seq<Byte>)
    requires |freshKey| == StoredKeyLength
    requires |Strip(raw)| >= MinRawKeyLength && |Utf8Encode(raw)| < StoredKeyLength
    requires ValidateServiceName(serviceName).Ok?
    ensures Create(raw, serviceName, isDefault, Some([b]), freshKey).Ok?
    ensures Decrypt(Create(raw, serviceName, isDefault, Some([b]), freshKey).value) == Ok([])
    ensures raw != []
  {
  }

  /**
   * `create` with the key length `decrypt` relies on enforced: an
   * encryption key other than 32 bytes is refused.
   */
  function CreateChecked(raw: string, serviceName: string, isDefault: bool, encryptionKey: Option<seq<Byte>>,
                         freshKey: seq<Byte>): (r: Result<ApiKey>)
    requires |freshKey| == StoredKeyLength
    ensures r.Ok? <==> raw != [] && |Strip(raw)| >= MinRawKeyLength
                       && |KeyOrFresh(encryptionKey, freshKey)| == StoredKeyLength && ValidateServiceName(serviceName).Ok?
    ensures r.Ok? ==> r == Create(raw, serviceName, isDefault, encryptionKey, freshKey)
  {
    if raw == [] then Err(EmptyText)
    else if |Strip(raw)| < MinRawKeyLength then Err(TooShort)
    else if |KeyOrFresh(encryptionKey, freshKey)| != StoredKeyLength then Err(InvalidKey)
    else Create(raw, serviceName, isDefault, encryptionKey, freshKey)
  }

  /** Every key the checked `create` builds decrypts to its raw key. */
  lemma CreateCheckedRoundTrip(raw: string, serviceName: string, isDefault: bool, encryptionKey: Option<seq<Byte>>,
                               freshKey: seq<Byte>)
    requires |freshKey| == StoredKeyLength
    requires CreateChecked(raw, serviceName, isDefault, encryptionKey, freshKey).Ok?
    ensures Decrypt(CreateChecked(raw, serviceName, isDefault, encryptionKey, freshKey).value) == Ok(raw)
  {
    CreateRoundTrip(raw, serviceName, isDefault, encryptionKey, freshKey);
  }

  // --------------------------------------------------------------- format

  /** `s.startswith(p)`. */
  predicate StartsWith(s: string, p: string) {
    |p| <= |s| && s[..|p|] == p
  }

  /** `p in s`. */
  predicate Contains(s: string, p: string) {
    StartsWith(s, p) || (s != [] && Contains(s[1..], p))
  }

  /**
   * `is_valid_format`: false when decryption fails; otherwise at least 20
   * characters starting "AIza" or "ya29" for Google, at least 30 containing
   * "gsk_" for Groq, at least 20 for OpenRouter and at least 8 otherwise.
   */
  predicate IsValidFormat(a: ApiKey) {
    match Decrypt(a)
    case Err(_) => false
    case Ok(d) =>
      if a.serviceName == "google_fact_check" then |d| >= 20 && (StartsWith(d, "AIza") || StartsWith(d, "ya29"))
      else if a.serviceName == "groq_llm" then |d| >= 30 && Contains(d, "gsk_")
      else if a.serviceName == "openrouter" then |d| >= 20
      else |d| >= 8
  }

  /** A key in a valid format decrypts to at least eight characters, whatever its service. */
  lemma ValidFormatLength(a: ApiKey)
    requires IsValidFormat(a)
    ensures Decrypt(a).Ok? && |Decrypt(a).value| >= 8
  {
  }

  /** A custom key created with a 32-byte key always has a valid format. */
  lemma CustomKeyValidFormat(raw: string, serviceName: string, isDefault: bool, encryptionKey: Option<seq<Byte>>,
                             freshKey: seq<Byte>)
    requires |freshKey| == StoredKeyLength
    requires encryptionKey.None? || |encryptionKey.value| == StoredKeyLength
    requires Create(raw, serviceName, isDefault, encryptionKey, freshKey).Ok?
    requires Create(raw, serviceName, isDefault, encryptionKey, freshKey).value.serviceName == "custom"
    ensures IsValidFormat(Create(raw, serviceName, isDefault, encryptionKey, freshKey).value)
  {
    CreateRoundTrip(raw, serviceName, isDefault, encryptionKey, freshKey);
  }

  // ----------------------------------------------------------------- mask

  /** `"*" * n`. */
  function Stars(n: nat): (r: string)
    ensures |r| == n && forall i :: 0 <= i < n ==> r[i] == '*'
  {
    seq(n, _ => '*')
  }

  /** The masking of a decrypted key: stars only up to eight characters, else the first and last four around stars. */
  function Mask(d: string): (r: string)
    ensures |r| == |d|
    ensures |d| <= 8 ==> forall i :: 0 <= i < |r| ==> r[i] == '*'
    ensures |d| > 8 ==> r[..4] == d[..4] && r[|r| - 4..] == d[|d| - 4..]
    ensures |d| > 8 ==> forall i :: 4 <= i < |r| - 4 ==> r[i] == '*'
  {
    if |d| <= 8 then Stars(|d|)
    else
      var r := d[..4] + Stars(|d| - 8) + d[|d| - 4..];
      assert r[|r| - 4..] == d[|d| - 4..];
      r
  }

  /** `mask_for_display`: "***INVALID***" when decryption fails, otherwise the masked key. */
  function MaskForDisplay(a: ApiKey): (r: string)
    ensures Decrypt(a).Err? ==> r == Invalid
    ensures Decrypt(a).Ok? ==> r == Mask(Decrypt(a).value)
  {
    match Decrypt(a)
    case Err(_) => Invalid
    case Ok(d) => Mask(d)
  }

  /** A key created with a 32-byte key is displayed as its raw key masked. */
  lemma CreateMask(raw: string, serviceName: string, isDefault: bool, encryptionKey: Option<seq<Byte>>,
                   freshKey: seq<Byte>)
    requires |freshKey| == StoredKeyLength
    requires encryptionKey.None? || |encryptionKey.value| == StoredKeyLength
    requires Create(raw, serviceName, isDefault, encryptionKey, freshKey).Ok?
    ensures MaskForDisplay(Create(raw, serviceName, isDefault, encryptionKey, freshKey).value) == Mask(raw)
  {
    CreateRoundTrip(raw, serviceName, isDefault, encryptionKey, freshKey);
  }

  // ---------------------------------------------------------------- equality

  /** `__eq__`: same stored bytes and service; `is_default` does not take part. */
  predicate Equals(a: ApiKey, b: ApiKey) {
    a.encrypted == b.encrypted && a.serviceName == b.serviceName
  }

  /** Equal keys decrypt, mask and check the same; only `is_default` may differ. */
  lemma EqualsIgnoresDefault(a: ApiKey, b: ApiKey)
    requires Equals(a, b)
    ensures Decrypt(a) == Decrypt(b) && MaskForDisplay(a) == MaskForDisplay(b)
    ensures IsValidFormat(a) == IsValidFormat(b)
    ensures a == b <==> a.isDefault == b.isDefault
  {
  }
}
