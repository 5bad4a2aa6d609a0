/**
 * The byte-level primitives the core calls into: UTF-8 encoding and decoding
 * (RFC 3629), SHA-256 (FIPS 180-4) and `hexdigest`'s lower-case hex encoding.
 */
module Digest {
  import opened Results

  /** A byte as the integer it denotes. */
  type Byte = b: int | 0 <= b < 256

  // ---------------------------------------------------------------- UTF-8

  predicate IsContinuation(b: Byte) {
    0x80 <= b < 0xC0
  }

  /** The UTF-8 encoding of one Unicode scalar value (section 3 of RFC 3629). */
  function EncodeChar(c: char): (r: seq<Byte>)
    ensures 1 <= |r| <= 4
  {
    var n := c as int;
    if n < 0x80 then [n]
    else if n < 0x800 then [(0xC0 + n / 64), (0x80 + n % 64)]
    else if n < 0x10000 then
      [(0xE0 + n / 4096), (0x80 + (n / 64) % 64), (0x80 + n % 64)]
    else
      [(0xF0 + n / 262144), (0x80 + (n / 4096) % 64),
       (0x80 + (n / 64) % 64), (0x80 + n % 64)]
  }

  /** `s.encode('utf-8')`. */
  function Utf8Encode(s: string): (r: seq<Byte>)
    ensures |s| <= |r| <= 4 * |s|
  {
    if s == [] then [] else EncodeChar(s[0]) + Utf8Encode(s[1..])
  }

  /**
   * The first scalar value of b and the number of bytes it takes, or None when b
   * does not start with a well-formed UTF-8 sequence (overlong forms, surrogates
   * and values above U+10FFFF are refused, as Python's strict decoder does).
   */
  function DecodeFirst(b: seq<Byte>): (r: Option<(char, nat)>)
    requires |b| > 0
    ensures r.Some? ==> 1 <= r.value.1 <= |b|
  {
    var b0: int := b[0];
    if b0 < 0x80 then Some((b0 as char, 1))
    else if 0xC0 <= b0 < 0xE0 && |b| >= 2 && IsContinuation(b[1]) then
      var n := (b0 - 0xC0) * 64 + (b[1] as int - 0x80);
      if 0x80 <= n then Some((n as char, 2)) else None
    else if 0xE0 <= b0 < 0xF0 && |b| >= 3 && IsContinuation(b[1]) && IsContinuation(b[2]) then
      var n := (b0 - 0xE0) * 4096 + (b[1] as int - 0x80) * 64 + (b[2] as int - 0x80);
      if 0x800 <= n && !(0xD800 <= n <= 0xDFFF) then Some((n as char, 3)) else None
    else if 0xF0 <= b0 < 0xF8 && |b| >= 4 && IsContinuation(b[1]) && IsContinuation(b[2])
            && IsContinuation(b[3]) then
      var n := (b0 - 0xF0) * 262144 + (b[1] as int - 0x80) * 4096
               + (b[2] as int - 0x80) * 64 + (b[3] as int - 0x80);
      if 0x10000 <= n <= 0x10FFFF then Some((n as char, 4)) else None
    else None
  }

  /** `b.decode('utf-8')`: None when b is not well-formed UTF-8. */
  function Utf8Decode(b: seq<Byte>): Option<string>
    decreases |b|
  {
    if b == [] then Some([])
    else match DecodeFirst(b)
      case None => None
      case Some((c, k)) =>
        match Utf8Decode(b[k..])
        case None => None
        case Some(s) => Some([c] + s)
  }

  lemma DecodeEncodedChar(c: char, rest: seq<Byte>)
    ensures DecodeFirst(EncodeChar(c) + rest) == Some((c, |EncodeChar(c)|))
  {
    var n := c as int;
    if n < 0x80 {
    } else if n < 0x800 {
      DecodeTwo(c, rest);
    } else if n < 0x10000 {
      DecodeThree(c, rest);
    } else {
      DecodeFour(c, rest);
    }
  }

  lemma DecodeTwo(c: char, rest: seq<Byte>)
    requires 0x80 <= c as int < 0x800
    ensures DecodeFirst(EncodeChar(c) + rest) == Some((c, 2))
  {
    var n := c as int;
    var q, r := n / 64, n % 64;
    assert n == q * 64 + r && 0 <= r < 64 && 2 <= q < 32;
    var b := EncodeChar(c) + rest;
    assert b[0] == 0xC0 + q && b[1] == 0x80 + r;
  }

  lemma DecodeThree(c: char, rest: seq<Byte>)
    requires 0x800 <= c as int < 0x10000
    ensures DecodeFirst(EncodeChar(c) + rest) == Some((c, 3))
  {
    var n := c as int;
    var q, r := n / 64, n % 64;
    assert n == q * 64 + r && 0 <= r < 64;
    var q1, r1 := q / 64, q % 64;
    assert q == q1 * 64 + r1 && 0 <= r1 < 64;
    assert n / 4096 == q1;
    assert n == q1 * 4096 + r1 * 64 + r && q1 < 16;
    var b := EncodeChar(c) + rest;
    assert b[0] == 0xE0 + q1 && b[1] == 0x80 + r1 && b[2] == 0x80 + r;
  }

  lemma DecodeFour(c: char, rest: seq<Byte>)
    requires 0x10000 <= c as int
    ensures DecodeFirst(EncodeChar(c) + rest) == Some((c, 4))
  {
    var n := c as int;
    var q, r := n / 64, n % 64;
    assert n == q * 64 + r && 0 <= r < 64;
    var q1, r1 := q / 64, q % 64;
    assert q == q1 * 64 + r1 && 0 <= r1 < 64;
    var q2, r2 := q1 / 64, q1 % 64;
    assert q1 == q2 * 64 + r2 && 0 <= r2 < 64;
    assert n / 4096 == q1 && n / 262144 == q2;
    assert n == q2 * 262144 + r2 * 4096 + r1 * 64 + r && q2 < 5;
    var b := EncodeChar(c) + rest;
    assert b[0] == 0xF0 + q2 && b[1] == 0x80 + r2;
    assert b[2] == 0x80 + r1 && b[3] == 0x80 + r;
  }

  /** Decoding undoes encoding: every string survives the trip through UTF-8 bytes. */
  lemma {:induction false} Utf8RoundTrip(s: string)
    ensures Utf8Decode(Utf8Encode(s)) == Some(s)
  {
    if s != [] {
      var e := EncodeChar(s[0]);
      var rest := Utf8Encode(s[1..]);
      DecodeEncodedChar(s[0], rest);
      assert (e + rest)[|e|..] == rest;
      Utf8RoundTrip(s[1..]);
      assert [s[0]] + s[1..] == s;
    }
  }

  // -------------------------------------------------------------- SHA-256

  /** The round constants of section 4.2.2 of FIPS 180-4. */
  const RoundConstants: seq<bv32> := [
    0x428a2f98, 0x71374491, 0xb5c0fbcf, 0xe9b5dba5, 0x3956c25b, 0x59f111f1, 0x923f82a4, 0xab1c5ed5,
    0xd807aa98, 0x12835b01, 0x243185be, 0x550c7dc3, 0x72be5d74, 0x80deb1fe, 0x9bdc06a7, 0xc19bf174,
    0xe49b69c1, 0xefbe4786, 0x0fc19dc6, 0x240ca1cc, 0x2de92c6f, 0x4a7484aa, 0x5cb0a9dc, 0x76f988da,
    0x983e5152, 0xa831c66d, 0xb00327c8, 0xbf597fc7, 0xc6e00bf3, 0xd5a79147, 0x06ca6351, 0x14292967,
    0x27b70a85, 0x2e1b2138, 0x4d2c6dfc, 0x53380d13, 0x650a7354, 0x766a0abb, 0x81c2c92e, 0x92722c85,
    0xa2bfe8a1, 0xa81a664b, 0xc24b8b70, 0xc76c51a3, 0xd192e819, 0xd6990624, 0xf40e3585, 0x106aa070,
    0x19a4c116, 0x1e376c08, 0x2748774c, 0x34b0bcb5, 0x391c0cb3, 0x4ed8aa4a, 0x5b9cca4f, 0x682e6ff3,
    0x748f82ee, 0x78a5636f, 0x84c87814, 0x8cc70208, 0x90befffa, 0xa4506ceb, 0xbef9a3f7, 0xc67178f2
  ]

  /** The initial hash value of section 5.3.3 of FIPS 180-4. */
  const InitialHash: seq<bv32> := [
    0x6a09e667, 0xbb67ae85, 0x3c6ef372, 0xa54ff53a, 0x510e527f, 0x9b05688c, 0x1f83d9ab, 0x5be0cd19
  ]

  function Ch(x: bv32, y: bv32, z: bv32): bv32 { (x & y) ^ (!x & z) }
  function Maj(x: bv32, y: bv32, z: bv32): bv32 { (x & y) ^ (x & z) ^ (y & z) }
  function BigSigma0(x: bv32): bv32 { x.RotateRight(2) ^ x.RotateRight(13) ^ x.RotateRight(22) }
  function BigSigma1(x: bv32): bv32 { x.RotateRight(6) ^ x.RotateRight(11) ^ x.RotateRight(25) }
  function SmallSigma0(x: bv32): bv32 { x.RotateRight(7) ^ x.RotateRight(18) ^ (x >> 3) }
  function SmallSigma1(x: bv32): bv32 { x.RotateRight(17) ^ x.RotateRight(19) ^ (x >> 10) }

  /** x as `count` big-endian bytes (x taken modulo 256^count). */
  function BigEndian(x: nat, count: nat): (r: seq<Byte>)
    ensures |r| == count
  {
    if count == 0 then [] else BigEndian(x / 256, count - 1) + [(x % 256)]
  }

  /** Padding of section 5.1.1: a 1 bit, zeros, and the message length in bits as 64 bits. */
  function Pad(m: seq<Byte>): (r: seq<Byte>)
    ensures |r| % 64 == 0 && |r| > |m|
  {
    var zeros := (55 - |m|) % 64;
    m + [0x80] + seq(zeros, _ => 0) + BigEndian(|m| * 8, 8)
  }

  function WordAt(block: seq<Byte>, i: nat): bv32
    requires 4 * i + 3 < |block|
  {
    ((block[4 * i] as bv32) << 24) | ((block[4 * i + 1] as bv32) << 16)
    | ((block[4 * i + 2] as bv32) << 8) | (block[4 * i + 3] as bv32)
  }

  /** Extends the message schedule of section 6.2.2, step 1, to its 64 words. */
  function ExtendSchedule(w: seq<bv32>): (r: seq<bv32>)
    requires 16 <= |w| <= 64
    ensures |r| == 64
    decreases 64 - |w|
  {
    if |w| == 64 then w
    else
      var t := |w|;
      ExtendSchedule(w + [SmallSigma1(w[t - 2]) + w[t - 7] + SmallSigma0(w[t - 15]) + w[t - 16]])
  }

  function Schedule(block: seq<Byte>): (r: seq<bv32>)
    requires |block| == 64
    ensures |r| == 64
  {
    ExtendSchedule(seq(16, i requires 0 <= i < 16 => WordAt(block, i)))
  }

  /** Rounds t..63 of section 6.2.2, step 3, on the working variables a..h. */
  function Rounds(v: seq<bv32>, w: seq<bv32>, t: nat): (r: seq<bv32>)
    requires |v| == 8 && |w| == 64 && t <= 64
    ensures |r| == 8
    decreases 64 - t
  {
    if t == 64 then v
    else
      var t1 := v[7] + BigSigma1(v[4]) + Ch(v[4], v[5], v[6]) + RoundConstants[t] + w[t];
      var t2 := BigSigma0(v[0]) + Maj(v[0], v[1], v[2]);
      Rounds([t1 + t2, v[0], v[1], v[2], v[3] + t1, v[4], v[5], v[6]], w, t + 1)
  }

  function Compress(h: seq<bv32>, block: seq<Byte>): (r: seq<bv32>)
    requires |h| == 8 && |block| == 64
    ensures |r| == 8
  {
    var v := Rounds(h, Schedule(block), 0);
    seq(8, i requires 0 <= i < 8 => h[i] + v[i])
  }

  function HashBlocks(h: seq<bv32>, m: seq<Byte>): (r: seq<bv32>)
    requires |h| == 8 && |m| % 64 == 0
    ensures |r| == 8
    decreases |m|
  {
    if m == [] then h
    else
      assert |m| >= 64 && (|m| - 64) % 64 == 0;
      HashBlocks(Compress(h, m[..64]), m[64..])
  }

  function WordsToBytes(h: seq<bv32>): (r: seq<Byte>)
    ensures |r| == 4 * |h|
  {
    if h == [] then [] else BigEndian(h[0] as int, 4) + WordsToBytes(h[1..])
  }

  /** `hashlib.sha256(m).digest()`. */
  function Sha256(m: seq<Byte>): (r: seq<Byte>)
    ensures |r| == 32
  {
    WordsToBytes(HashBlocks(InitialHash, Pad(m)))
  }

  // ------------------------------------------------------------------ hex

  predicate IsLowerHexChar(c: char) {
    '0' <= c <= '9' || 'a' <= c <= 'f'
  }

  predicate IsLowerHex(s: string) {
    forall c :: c in s ==> IsLowerHexChar(c)
  }

  function HexChar(n: nat): (c: char)
    requires n < 16
    ensures IsLowerHexChar(c)
  {
    if n < 10 then ('0' as int + n) as char else ('a' as int + n - 10) as char
  }

  /** `bytes.hex()`: two lower-case hex digits per byte, most significant first. */
  function Hex(b: seq<Byte>): (r: string)
    ensures |r| == 2 * |b| && IsLowerHex(r)
  {
    if b == [] then [] else [HexChar(b[0] / 16), HexChar(b[0] % 16)] + Hex(b[1..])
  }

  /** `hashlib.sha256(s.encode('utf-8')).hexdigest()`. */
  function HexDigest(s: string): (r: string)
    ensures |r| == 64 && IsLowerHex(r)
  {
    Hex(Sha256(Utf8Encode(s)))
  }
}
