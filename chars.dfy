/**
 * Character classes and the whitespace handling of Python's `str` that the
 * three normalisation pipelines build on: `str.isspace` (the `\s` class of a
 * `str` regular expression), `str.strip`, `re.sub(r'\s+', ' ', s)`,
 * `str.split()`, `str.lower` and `unicodedata.category`.
 *
 * `IsSpace` is Python's whitespace set exactly. `Lower` and `IsAlnum` are
 * exact on U+0000-U+00FF and treat every later code point as neither
 * upper-case nor alphanumeric; `IsOtherCategory` covers every control (Cc),
 * format (Cf) and private-use (Co) code point, not the unassigned ones.
 */
module Chars {

  import opened Seqs

  /** `c.isspace()`: Python's Unicode whitespace set. */
  predicate IsSpace(c: char) {
    var n := c as int;
    (9 <= n <= 13) || (0x1C <= n <= 0x20) || n == 0x85 || n == 0xA0 || n == 0x1680
    || (0x2000 <= n <= 0x200A) || n == 0x2028 || n == 0x2029 || n == 0x202F
    || n == 0x205F || n == 0x3000
  }

  predicate NotSpace(c: char) {
    !IsSpace(c)
  }

  /** A character that is either not whitespace or the plain space U+0020. */
  predicate PlainOrNotSpace(c: char) {
    !IsSpace(c) || c == ' '
  }

  /** The regex class `[\u0000-\u001F\u007F-\u009F]` (the C0 and C1 control codes). */
  predicate IsControl(c: char) {
    c as int <= 0x1F || 0x7F <= c as int <= 0x9F
  }

  predicate NotControl(c: char) {
    !IsControl(c)
  }

  /**
   * `unicodedata.category(c)[0] == 'C'`: controls (Cc), format characters (Cf),
   * including the tag characters U+E0001 and U+E0020-U+E007F, and private use (Co).
   */
  predicate IsOtherCategory(c: char) {
    var n := c as int;
    IsControl(c)
    || n == 0xAD || (0x600 <= n <= 0x605) || n == 0x61C || n == 0x6DD || n == 0x70F
    || (0x890 <= n <= 0x891) || n == 0x8E2
    || n == 0x180E || (0x200B <= n <= 0x200F) || (0x202A <= n <= 0x202E)
    || (0x2060 <= n <= 0x2064) || (0x2066 <= n <= 0x206F) || n == 0xFEFF
    || (0xFFF9 <= n <= 0xFFFB)
    || n == 0x110BD || n == 0x110CD || (0x13430 <= n <= 0x1343F) || (0x1BCA0 <= n <= 0x1BCA3)
    || (0x1D173 <= n <= 0x1D17A) || n == 0xE0001 || (0xE0020 <= n <= 0xE007F)
    || (0xE000 <= n <= 0xF8FF) || (0xF0000 <= n <= 0xFFFFD) || (0x100000 <= n <= 0x10FFFD)
  }

  predicate IsAsciiUpper(c: char) {
    'A' <= c <= 'Z'
  }

  predicate IsAsciiLower(c: char) {
    'a' <= c <= 'z'
  }

  predicate IsDigit(c: char) {
    '0' <= c <= '9'
  }

  /** Upper-case letters `lower` changes: ASCII A-Z and Latin-1 U+00C0-U+00DE except U+00D7. */
  predicate HasLowerCase(c: char) {
    IsAsciiUpper(c) || (0xC0 <= c as int <= 0xDE && c as int != 0xD7)
  }

  predicate NotUpper(c: char) {
    !HasLowerCase(c)
  }

  /**
   * `c.isalnum()` on U+0000-U+00FF: ASCII letters and digits; the ordinal
   * indicators ª and º and the micro sign µ; the superscripts ¹ ² ³ and the
   * fractions ¼ ½ ¾, which are numeric; and the Latin-1 letters.
   */
  predicate IsAlnum(c: char) {
    var n := c as int;
    IsAsciiUpper(c) || IsAsciiLower(c) || IsDigit(c)
    || n == 0xAA || n == 0xB2 || n == 0xB3 || n == 0xB5 || n == 0xB9 || n == 0xBA
    || (0xBC <= n <= 0xBE)
    || (0xC0 <= n <= 0xFF && n != 0xD7 && n != 0xF7)
  }

  /** The regex class `\w` of a `str` pattern. */
  predicate IsWordChar(c: char) {
    IsAlnum(c) || c == '_'
  }

  /** `c.lower()` for one character. */
  function Lower(c: char): (r: char)
    ensures !HasLowerCase(r) && !IsAsciiUpper(r)
    ensures r == c <==> !HasLowerCase(c)
    ensures IsSpace(r) == IsSpace(c) && IsControl(r) == IsControl(c)
    ensures IsOtherCategory(r) == IsOtherCategory(c) && IsWordChar(r) == IsWordChar(c)
  {
    if HasLowerCase(c) then (c as int + 32) as char else c
  }

  /** `s.lower()`. */
  function LowerStr(s: string): (r: string)
    ensures |r| == |s| && forall i :: 0 <= i < |s| ==> r[i] == Lower(s[i])
  {
    seq(|s|, i requires 0 <= i < |s| => Lower(s[i]))
  }

  // ------------------------------------------------- character-wise facts

  /** Every character of s satisfies p. */
  predicate All(s: string, p: char -> bool) {
    forall i :: 0 <= i < |s| ==> p(s[i])
  }

  lemma AllSlice(s: string, p: char -> bool, a: nat, b: nat)
    requires a <= b <= |s| && All(s, p)
    ensures All(s[a..b], p)
  {
    assert forall i :: 0 <= i < b - a ==> s[a..b][i] == s[a + i];
  }

  /** Lower-casing keeps control codes and whitespace in their classes and leaves no upper case. */
  lemma LowerStrAll(s: string)
    ensures All(s, NotControl) ==> All(LowerStr(s), NotControl)
    ensures All(s, PlainOrNotSpace) ==> All(LowerStr(s), PlainOrNotSpace)
    ensures All(LowerStr(s), NotUpper)
  {
  }

  /** Lower-casing keeps a string trimmed. */
  lemma LowerStrTrimmed(s: string)
    requires Trimmed(s)
    ensures Trimmed(LowerStr(s))
  {
    if s != [] {
      assert LowerStr(s)[0] == Lower(s[0]);
      assert LowerStr(s)[|s| - 1] == Lower(s[|s| - 1]);
    }
  }

  /** Lower-casing creates no whitespace run. */
  lemma LowerStrNoSpaceRun(s: string)
    requires NoSpaceRun(s)
    ensures NoSpaceRun(LowerStr(s))
  {
    var r := LowerStr(s);
    forall i | 0 < i < |r| ensures !(IsSpace(r[i - 1]) && IsSpace(r[i])) {
      assert r[i - 1] == Lower(s[i - 1]) && r[i] == Lower(s[i]);
    }
  }

  /** Lower-casing neither creates nor removes whitespace. */
  lemma LowerStrBlank(s: string)
    ensures All(LowerStr(s), IsSpace) == All(s, IsSpace)
  {
    if !All(s, IsSpace) {
      var i :| 0 <= i < |s| && !IsSpace(s[i]);
      assert !IsSpace(LowerStr(s)[i]);
    }
  }

  // ----------------------------------------------------------------- Keep

  /** The characters of s that satisfy `keep`, in order. */
  function Keep(s: string, keep: char -> bool): (r: string)
    ensures |r| <= |s|
  {
    if s == [] then [] else (if keep(s[0]) then [s[0]] else []) + Keep(s[1..], keep)
  }

  /** What Keep returns passes its filter and keeps every property of the input's characters. */
  lemma {:induction false} KeepShape(s: string, keep: char -> bool, p: char -> bool)
    ensures All(Keep(s, keep), keep)
    ensures All(s, p) ==> All(Keep(s, keep), p)
  {
    if s != [] {
      KeepShape(s[1..], keep, p);
      if All(s, p) {
        AllSlice(s, p, 1, |s|);
      }
    }
  }

  /** Keeping every character of a string whose characters all pass the filter changes nothing. */
  lemma {:induction false} KeepAll(s: string, keep: char -> bool)
    requires All(s, keep)
    ensures Keep(s, keep) == s
  {
    if s != [] {
      AllSlice(s, keep, 1, |s|);
      KeepAll(s[1..], keep);
    }
  }

  /** Keeping nothing of a string whose characters all fail the filter. */
  lemma {:induction false} KeepNone(s: string, keep: char -> bool)
    requires forall i :: 0 <= i < |s| ==> !keep(s[i])
    ensures Keep(s, keep) == []
  {
    if s != [] {
      KeepNone(s[1..], keep);
    }
  }

  /** Keep, one character at a time. */
  lemma KeepCons(h: char, t: string, keep: char -> bool)
    ensures Keep([h] + t, keep) == (if keep(h) then [h] else []) + Keep(t, keep)
  {
    assert ([h] + t)[1..] == t;
  }

  /** Keeping the characters of a concatenation keeps those of each part. */
  lemma {:induction false} KeepConcat(a: string, b: string, keep: char -> bool)
    ensures Keep(a + b, keep) == Keep(a, keep) + Keep(b, keep)
  {
    if a != [] {
      KeepConcat(a[1..], b, keep);
      assert (a + b)[0] == a[0] && (a + b)[1..] == a[1..] + b;
      var head := if keep(a[0]) then [a[0]] else [];
      assert Keep(a + b, keep) == head + Keep(a[1..] + b, keep);
      assert Keep(a, keep) == head + Keep(a[1..], keep);
    } else {
      assert a + b == b;
    }
  }

  /** Keeping the characters of a text split at n keeps those of each side. */
  lemma KeepSplit(s: string, n: nat, keep: char -> bool)
    requires n <= |s|
    ensures Keep(s, keep) == Keep(s[..n], keep) + Keep(s[n..], keep)
  {
    assert s == s[..n] + s[n..];
    KeepConcat(s[..n], s[n..], keep);
  }

  /** Dropping a prefix of characters the filter rejects does not change what it keeps. */
  lemma {:induction false} KeepDropPrefix(s: string, k: nat, keep: char -> bool)
    requires k <= |s| && forall i :: 0 <= i < k ==> !keep(s[i])
    ensures Keep(s, keep) == Keep(s[k..], keep)
  {
    if k > 0 {
      KeepDropPrefix(s[1..], k - 1, keep);
      assert s[1..][k - 1..] == s[k..];
    }
  }

  /** Length of the leading run of characters of s that satisfy p. */
  function RunLength(s: string, p: char -> bool): (n: nat)
    ensures n <= |s|
    ensures forall i :: 0 <= i < n ==> p(s[i])
    ensures n == |s| || !p(s[n])
    ensures |s| > 0 && p(s[0]) ==> n > 0
  {
    if s == [] || !p(s[0]) then 0 else 1 + RunLength(s[1..], p)
  }

  // ---------------------------------------------------------------- strip

  /** No two whitespace characters in a row. */
  predicate NoSpaceRun(s: string) {
    forall i :: 0 < i < |s| ==> !(IsSpace(s[i - 1]) && IsSpace(s[i]))
  }

  /** No whitespace at either end. */
  predicate Trimmed(s: string) {
    |s| == 0 || (!IsSpace(s[0]) && !IsSpace(s[|s| - 1]))
  }

  /** `s.lstrip()`: s without its leading whitespace. */
  function StripStart(s: string): (r: string)
    ensures |r| <= |s| && r == s[|s| - |r|..]
    ensures r == [] || !IsSpace(r[0])
    ensures forall i :: 0 <= i < |s| - |r| ==> IsSpace(s[i])
  {
    if |s| > 0 && IsSpace(s[0]) then StripStart(s[1..]) else s
  }

  /** `s.rstrip()`: s without its trailing whitespace. */
  function StripEnd(s: string): (r: string)
    ensures |r| <= |s| && r == s[..|r|]
    ensures r == [] || !IsSpace(r[|r| - 1])
    ensures forall i :: |r| <= i < |s| ==> IsSpace(s[i])
  {
    if |s| > 0 && IsSpace(s[|s| - 1]) then StripEnd(s[..|s| - 1]) else s
  }

  /** `s.strip()`: empty exactly when s is all whitespace. */
  function Strip(s: string): (r: string)
    ensures Trimmed(r)
    ensures |r| <= |s|
    ensures r == [] <==> forall i :: 0 <= i < |s| ==> IsSpace(s[i])
  {
    StripEnd(StripStart(s))
  }

  /** Stripping keeps every property of the characters. */
  lemma StripAll(s: string, p: char -> bool)
    requires All(s, p)
    ensures All(Strip(s), p)
  {
    var t := StripStart(s);
    AllSlice(s, p, |s| - |t|, |s|);
    AllSlice(t, p, 0, |StripEnd(t)|);
  }

  /** A slice of a string without whitespace runs has none. */
  lemma NoSpaceRunSlice(s: string, a: nat, b: nat)
    requires a <= b <= |s| && NoSpaceRun(s)
    ensures NoSpaceRun(s[a..b])
  {
    forall i | 0 < i < b - a ensures !(IsSpace(s[a..b][i - 1]) && IsSpace(s[a..b][i])) {
      assert s[a..b][i - 1] == s[a + i - 1] && s[a..b][i] == s[a + i];
    }
  }

  lemma StripKeepsNoSpaceRun(s: string)
    requires NoSpaceRun(s)
    ensures NoSpaceRun(Strip(s))
  {
    var t := StripStart(s);
    NoSpaceRunSlice(s, |s| - |t|, |s|);
    NoSpaceRunSlice(t, 0, |StripEnd(t)|);
  }

  /** Stripping a string that is already stripped changes nothing. */
  lemma StripTrimmed(s: string)
    requires Trimmed(s)
    ensures Strip(s) == s
  {
  }

  // ------------------------------------------------------------- collapse

  /** `re.sub(r'\s+', ' ', s)`: every maximal run of whitespace becomes one space. */
  function CollapseSpaces(s: string): (r: string)
    ensures |r| <= |s|
    ensures |r| == 0 <==> |s| == 0
    decreases |s|
  {
    if s == [] then []
    else if IsSpace(s[0]) then [' '] + CollapseSpaces(StripStart(s))
    else [s[0]] + CollapseSpaces(s[1..])
  }

  /** The result of a collapse has no whitespace run. */
  lemma {:induction false} CollapseNoSpaceRun(s: string)
    ensures NoSpaceRun(CollapseSpaces(s))
    ensures |s| > 0 ==> IsSpace(CollapseSpaces(s)[0]) == IsSpace(s[0])
    decreases |s|
  {
    if s != [] {
      var t := if IsSpace(s[0]) then StripStart(s) else s[1..];
      CollapseNoSpaceRun(t);
      var c := CollapseSpaces(t);
      var h := if IsSpace(s[0]) then ' ' else s[0];
      assert CollapseSpaces(s) == [h] + c;
      assert IsSpace(s[0]) && c != [] ==> !IsSpace(c[0]);
    }
  }

  /** Whitespace in the result of a collapse is the plain space, and other characters keep their properties. */
  lemma {:induction false} CollapseAll(s: string, p: char -> bool)
    ensures All(CollapseSpaces(s), PlainOrNotSpace)
    ensures All(s, p) && p(' ') ==> All(CollapseSpaces(s), p)
    decreases |s|
  {
    if s != [] {
      var t := if IsSpace(s[0]) then StripStart(s) else s[1..];
      var h := if IsSpace(s[0]) then ' ' else s[0];
      CollapseAll(t, p);
      assert CollapseSpaces(s) == [h] + CollapseSpaces(t);
      AllCons(h, CollapseSpaces(t), PlainOrNotSpace);
      AllCons(h, CollapseSpaces(t), p);
      if All(s, p) {
        AllSlice(s, p, |s| - |t|, |s|);
      }
    }
  }

  lemma AllConcat(a: string, b: string, p: char -> bool)
    ensures All(a + b, p) <==> All(a, p) && All(b, p)
  {
    var r := a + b;
    if All(a, p) && All(b, p) {
      forall i | 0 <= i < |r| ensures p(r[i]) {
        if i >= |a| {
          assert r[i] == b[i - |a|];
        }
      }
    }
    if All(r, p) {
      forall i | 0 <= i < |a| ensures p(a[i]) {
        assert a[i] == r[i];
      }
      forall i | 0 <= i < |b| ensures p(b[i]) {
        assert b[i] == r[|a| + i];
      }
    }
  }

  lemma AllCons(h: char, c: string, p: char -> bool)
    ensures All([h] + c, p) <==> p(h) && All(c, p)
  {
    var r := [h] + c;
    if p(h) && All(c, p) {
      forall i | 0 <= i < |r| ensures p(r[i]) {
        if i > 0 {
          assert r[i] == c[i - 1];
        }
      }
    }
    if All(r, p) {
      assert r[0] == h;
      forall i | 0 <= i < |c| ensures p(c[i]) {
        assert c[i] == r[i + 1];
      }
    }
  }

  /** A collapse ends in whitespace exactly when its input does. */
  lemma {:induction false} CollapseLast(s: string)
    requires s != []
    ensures IsSpace(CollapseSpaces(s)[|CollapseSpaces(s)| - 1]) == IsSpace(s[|s| - 1])
    decreases |s|
  {
    var t := if IsSpace(s[0]) then StripStart(s) else s[1..];
    var h := if IsSpace(s[0]) then ' ' else s[0];
    CollapseUnfold(s, t, h);
    if t != [] {
      CollapseLast(t);
      SuffixLast(s, t);
      var c := CollapseSpaces(t);
      ConsIndex(h, c, |c|);
    } else if IsSpace(s[0]) {
      assert IsSpace(s[|s| - 1]);
    } else {
      assert |s| == 1;
    }
  }

  /** A non-empty suffix ends where the whole string does. */
  lemma SuffixLast(s: string, t: string)
    requires t != [] && |t| <= |s| && t == s[|s| - |t|..]
    ensures t[|t| - 1] == s[|s| - 1]
  {
  }

  /** A collapse of a stripped string is stripped. */
  lemma CollapseTrimmed(s: string)
    requires Trimmed(s)
    ensures Trimmed(CollapseSpaces(s))
  {
    if s != [] {
      CollapseNoSpaceRun(s);
      CollapseLast(s);
    }
  }

  /** Collapsing keeps the characters of a string that are not whitespace, in order. */
  lemma {:induction false} CollapseKeepsWords(s: string)
    ensures Keep(CollapseSpaces(s), NotSpace) == Keep(s, NotSpace)
    decreases |s|
  {
    if s != [] {
      if IsSpace(s[0]) {
        CollapseKeepsWords(StripStart(s));
        CollapseKeepsWordsSpace(s);
      } else {
        CollapseKeepsWords(s[1..]);
        CollapseKeepsWordsWord(s);
      }
    }
  }

  lemma CollapseKeepsWordsSpace(s: string)
    requires s != [] && IsSpace(s[0])
    requires Keep(CollapseSpaces(StripStart(s)), NotSpace) == Keep(StripStart(s), NotSpace)
    ensures Keep(CollapseSpaces(s), NotSpace) == Keep(s, NotSpace)
  {
    var t := StripStart(s);
    assert CollapseSpaces(s) == [' '] + CollapseSpaces(t);
    KeepSpaceCons(CollapseSpaces(t));
    KeepStripStart(s);
  }

  /** A leading space is not kept among the non-space characters. */
  lemma KeepSpaceCons(c: string)
    ensures Keep([' '] + c, NotSpace) == Keep(c, NotSpace)
  {
    assert ([' '] + c)[1..] == c;
  }

  /** The leading whitespace is not kept among the non-space characters. */
  lemma KeepStripStart(s: string)
    ensures Keep(StripStart(s), NotSpace) == Keep(s, NotSpace)
  {
    var t := StripStart(s);
    KeepDropPrefix(s, |s| - |t|, NotSpace);
  }

  lemma CollapseKeepsWordsWord(s: string)
    requires s != [] && !IsSpace(s[0])
    requires Keep(CollapseSpaces(s[1..]), NotSpace) == Keep(s[1..], NotSpace)
    ensures Keep(CollapseSpaces(s), NotSpace) == Keep(s, NotSpace)
  {
    assert ([s[0]] + CollapseSpaces(s[1..]))[1..] == CollapseSpaces(s[1..]);
  }

  /** A string whose only whitespace is single plain spaces is its own collapse. */
  lemma {:induction false} CollapseCanonical(s: string)
    requires NoSpaceRun(s) && All(s, PlainOrNotSpace)
    ensures CollapseSpaces(s) == s
    decreases |s|
  {
    if s != [] {
      CanonicalTail(s);
      CollapseCanonical(s[1..]);
      CollapseHead(s);
    }
  }

  lemma CanonicalTail(s: string)
    requires |s| > 0 && NoSpaceRun(s) && All(s, PlainOrNotSpace)
    ensures NoSpaceRun(s[1..]) && All(s[1..], PlainOrNotSpace)
    ensures IsSpace(s[0]) ==> s[0] == ' ' && (|s| == 1 || !IsSpace(s[1]))
  {
    NoSpaceRunSlice(s, 1, |s|);
    AllSlice(s, PlainOrNotSpace, 1, |s|);
  }

  /** One collapse step on a string whose first character starts no whitespace run. */
  lemma CollapseHead(s: string)
    requires |s| > 0 && (IsSpace(s[0]) ==> s[0] == ' ' && (|s| == 1 || !IsSpace(s[1])))
    ensures CollapseSpaces(s) == [s[0]] + CollapseSpaces(s[1..])
  {
    if IsSpace(s[0]) {
      assert StripStart(s[1..]) == s[1..];
    }
  }

  // ------------------------------------------------- case and whitespace

  lemma LowerStrConcat(a: string, b: string)
    ensures LowerStr(a + b) == LowerStr(a) + LowerStr(b)
  {
  }

  /** Lower-casing twice is lower-casing once. */
  lemma LowerStrIdempotent(s: string)
    ensures LowerStr(LowerStr(s)) == LowerStr(s)
  {
  }

  /** Lower-casing and `lstrip` commute, since lower-casing keeps whitespace whitespace. */
  lemma {:induction false} StripStartLower(s: string)
    ensures StripStart(LowerStr(s)) == LowerStr(StripStart(s))
    decreases |s|
  {
    if |s| > 0 && IsSpace(s[0]) {
      assert LowerStr(s)[1..] == LowerStr(s[1..]);
      StripStartLower(s[1..]);
    }
  }

  lemma {:induction false} StripEndLower(s: string)
    ensures StripEnd(LowerStr(s)) == LowerStr(StripEnd(s))
    decreases |s|
  {
    if |s| > 0 && IsSpace(s[|s| - 1]) {
      assert LowerStr(s)[..|s| - 1] == LowerStr(s[..|s| - 1]);
      StripEndLower(s[..|s| - 1]);
    }
  }

  lemma StripLower(s: string)
    ensures Strip(LowerStr(s)) == LowerStr(Strip(s))
  {
    StripStartLower(s);
    StripEndLower(StripStart(s));
  }

  /** Lower-casing and collapsing whitespace commute. */
  lemma {:induction false} CollapseLower(s: string)
    ensures CollapseSpaces(LowerStr(s)) == LowerStr(CollapseSpaces(s))
    decreases |s|
  {
    if s != [] {
      var t := if IsSpace(s[0]) then StripStart(s) else s[1..];
      var h := if IsSpace(s[0]) then ' ' else s[0];
      CollapseLower(t);
      CollapseLowerHead(s, t, h);
    }
  }

  lemma CollapseLowerHead(s: string, t: string, h: char)
    requires s != []
    requires t == if IsSpace(s[0]) then StripStart(s) else s[1..]
    requires h == if IsSpace(s[0]) then ' ' else s[0]
    requires CollapseSpaces(LowerStr(t)) == LowerStr(CollapseSpaces(t))
    ensures CollapseSpaces(LowerStr(s)) == LowerStr(CollapseSpaces(s))
  {
    LoweredHead(s, t, h);
    CollapseUnfold(s, t, h);
    LowerCons(h, CollapseSpaces(t));
  }

  /** A collapse copies a leading non-whitespace character. */
  lemma CollapseWordCons(h: char, t: string)
    requires !IsSpace(h)
    ensures CollapseSpaces([h] + t) == [h] + CollapseSpaces(t)
  {
    assert ([h] + t)[1..] == t;
  }

  /** A collapse keeps a single leading space before a non-whitespace character. */
  lemma CollapseSpaceCons(t: string)
    requires t != [] && !IsSpace(t[0])
    ensures CollapseSpaces([' '] + t) == [' '] + CollapseSpaces(t)
  {
    assert ([' '] + t)[1..] == t;
    assert StripStart([' '] + t) == t;
  }

  lemma CollapseUnfold(s: string, t: string, h: char)
    requires s != []
    requires t == if IsSpace(s[0]) then StripStart(s) else s[1..]
    requires h == if IsSpace(s[0]) then ' ' else s[0]
    ensures CollapseSpaces(s) == [h] + CollapseSpaces(t)
  {
  }

  lemma LowerCons(h: char, c: string)
    ensures LowerStr([h] + c) == [Lower(h)] + LowerStr(c)
  {
    LowerStrConcat([h], c);
    assert LowerStr([h]) == [Lower(h)];
  }

  /** One collapse step on the lower-cased string mirrors the step on the string. */
  lemma LoweredHead(s: string, t: string, h: char)
    requires s != []
    requires t == if IsSpace(s[0]) then StripStart(s) else s[1..]
    requires h == if IsSpace(s[0]) then ' ' else s[0]
    ensures CollapseSpaces(LowerStr(s)) == [Lower(h)] + CollapseSpaces(LowerStr(t))
  {
    if IsSpace(s[0]) {
      LoweredSpaceHead(s);
    } else {
      LoweredWordHead(s);
    }
  }

  lemma LoweredSpaceHead(s: string)
    requires s != [] && IsSpace(s[0])
    ensures CollapseSpaces(LowerStr(s)) == [' '] + CollapseSpaces(LowerStr(StripStart(s)))
  {
    var l := LowerStr(s);
    assert IsSpace(l[0]);
    assert CollapseSpaces(l) == [' '] + CollapseSpaces(StripStart(l));
    StripStartLower(s);
  }

  lemma LoweredWordHead(s: string)
    requires s != [] && !IsSpace(s[0])
    ensures CollapseSpaces(LowerStr(s)) == [Lower(s[0])] + CollapseSpaces(LowerStr(s[1..]))
  {
    var l := LowerStr(s);
    assert !IsSpace(l[0]);
    assert CollapseSpaces(l) == [l[0]] + CollapseSpaces(l[1..]);
    assert l[1..] == LowerStr(s[1..]);
  }

  // ---------------------------------------------------------------- split

  /** A non-empty run of non-whitespace characters. */
  predicate IsWord(w: string) {
    |w| > 0 && All(w, NotSpace)
  }

  /** The first word of a string that is not blank. */
  function FirstWord(s: string): (w: string)
    requires StripStart(s) != []
    ensures IsWord(w)
  {
    var t := StripStart(s);
    var n := RunLength(t, NotSpace);
    assert forall i :: 0 <= i < n ==> t[..n][i] == t[i];
    t[..n]
  }

  /** What follows the first word of a string that is not blank. */
  function AfterFirstWord(s: string): (r: string)
    requires StripStart(s) != []
    ensures |r| < |s|
  {
    var t := StripStart(s);
    t[RunLength(t, NotSpace)..]
  }

  /** `s.split()`: the maximal runs of non-whitespace characters, in order. */
  function Words(s: string): (r: seq<string>)
    decreases |s|
  {
    if StripStart(s) == [] then [] else [FirstWord(s)] + Words(AfterFirstWord(s))
  }

  /** Every element of `s.split()` is a word. */
  lemma {:induction false} WordsAreWords(s: string, k: nat)
    requires k < |Words(s)|
    ensures IsWord(Words(s)[k])
    decreases |s|
  {
    if k > 0 {
      var ws := Words(AfterFirstWord(s));
      assert Words(s) == [FirstWord(s)] + ws;
      WordsAreWords(AfterFirstWord(s), k - 1);
      ConsIndex(FirstWord(s), ws, k);
    }
  }

  /** `s.split()` is empty exactly when s is blank. */
  lemma WordsEmpty(s: string)
    ensures Words(s) == [] <==> All(s, IsSpace)
  {
    var t := StripStart(s);
    if t != [] {
      assert !IsSpace(s[|s| - |t|]);
    }
  }

  /** `set(s.split())`. */
  function WordSet(s: string): set<string> {
    set w | w in Words(s)
  }

  /** A word followed by whitespace or by nothing is the first element of the split. */
  lemma WordsCons(w: string, r: string)
    requires IsWord(w) && (r == [] || IsSpace(r[0]))
    ensures Words(w + r) == [w] + Words(r)
  {
    var s := w + r;
    assert StripStart(s) == s;
    var n := RunLength(s, NotSpace);
    assert forall i :: 0 <= i < |w| ==> s[i] == w[i] && NotSpace(s[i]);
    assert |w| < |s| ==> s[|w|] == r[0] && !NotSpace(s[|w|]);
    assert n == |w|;
    assert s[..n] == w && s[n..] == r;
  }

  /** A single word splits into itself. */
  lemma WordsSingle(w: string)
    requires IsWord(w)
    ensures Words(w) == [w]
  {
    assert w + [] == w;
    WordsCons(w, []);
  }

  /** Leading whitespace does not change the split. */
  lemma WordsSpace(s: string)
    requires s != [] && IsSpace(s[0])
    ensures Words(s) == Words(s[1..])
  {
    assert StripStart(s) == StripStart(s[1..]);
  }

  /** A string without upper-case characters is its own lower-cased form. */
  lemma LowerStrFixed(s: string)
    requires All(s, NotUpper)
    ensures LowerStr(s) == s
  {
    forall i | 0 <= i < |s| ensures LowerStr(s)[i] == s[i] {
      assert NotUpper(s[i]);
    }
  }

  /** The word set is empty exactly for blank text. */
  lemma WordSetEmpty(s: string)
    ensures WordSet(s) == {} <==> All(s, IsSpace)
  {
    WordsEmpty(s);
    if Words(s) != [] {
      assert Words(s)[0] in WordSet(s);
    }
  }
}
