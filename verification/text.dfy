/**
 * String helpers with the JavaScript meaning the handlers rely on:
 * `trim`, `toLowerCase` (ASCII stand-in), UTF-16 `length`, decimal
 * rendering of integers (`toString` / `String(n)`) and its inverse.
 */
module Text {

  predicate IsAsciiDigit(c: char) {
    '0' <= c <= '9'
  }

  predicate AllDigits(s: string) {
    forall i :: 0 <= i < |s| ==> IsAsciiDigit(s[i])
  }

  /** JavaScript's LineTerminator production: what a regex `.` does not match. */
  predicate IsLineTerminator(c: char) {
    c == '\n' || c == '\r' || c == '\U{2028}' || c == '\U{2029}'
  }

  /** What `String.prototype.trim` strips: WhiteSpace (including every Zs
      space separator) and LineTerminator. */
  predicate IsJsSpace(c: char) {
    || c == '\t' || c == '\U{000B}' || c == '\U{000C}' || c == ' '
    || c == '\U{00A0}' || c == '\U{FEFF}' || c == '\U{1680}'
    || ('\U{2000}' <= c <= '\U{200A}')
    || c == '\U{202F}' || c == '\U{205F}' || c == '\U{3000}'
    || IsLineTerminator(c)
  }

  /** First index at or after `i` that holds no space (or `|s|`). */
  function SkipSpaces(s: string, i: nat): (n: nat)
    requires i <= |s|
    ensures i <= n <= |s|
    ensures forall k :: i <= k < n ==> IsJsSpace(s[k])
    ensures n < |s| ==> !IsJsSpace(s[n])
    decreases |s| - i
  {
    if i == |s| || !IsJsSpace(s[i]) then i else SkipSpaces(s, i + 1)
  }

  /** Smallest end `n` above `lo` such that `s[n..j]` is all spaces. */
  function SkipSpacesBack(s: string, lo: nat, j: nat): (n: nat)
    requires lo <= j <= |s|
    ensures lo <= n <= j
    ensures forall k :: n <= k < j ==> IsJsSpace(s[k])
    ensures lo < n ==> !IsJsSpace(s[n - 1])
    decreases j
  {
    if j == lo || !IsJsSpace(s[j - 1]) then j else SkipSpacesBack(s, lo, j - 1)
  }

  /** `r` is `s` with every leading and trailing space removed. */
  ghost predicate IsTrimOf(r: string, s: string) {
    exists i, j ::
      && 0 <= i <= j <= |s|
      && r == s[i..j]
      && (forall k :: 0 <= k < i ==> IsJsSpace(s[k]))
      && (forall k :: j <= k < |s| ==> IsJsSpace(s[k]))
      && (r == [] || (!IsJsSpace(r[0]) && !IsJsSpace(r[|r| - 1])))
  }

  /** `String.prototype.trim`. */
  function Trim(s: string): (r: string)
    ensures IsTrimOf(r, s)
    ensures |r| <= |s|
    ensures r == [] <==> forall k :: 0 <= k < |s| ==> IsJsSpace(s[k])
  {
    var i := SkipSpaces(s, 0);
    var j := SkipSpacesBack(s, i, |s|);
    assert i < |s| ==> i < j;
    var r := s[i..j];
    assert r == [] || (r[0] == s[i] && r[|r| - 1] == s[j - 1]);
    r
  }

  /** A string that starts and ends with a non-space is its own trim. */
  lemma TrimUnpadded(s: string)
    requires s != [] && !IsJsSpace(s[0]) && !IsJsSpace(s[|s| - 1])
    ensures Trim(s) == s
  {
  }

  /** Length in UTF-16 code units, as JavaScript's `length` counts it:
      a character outside the Basic Multilingual Plane counts twice. */
  function Utf16Length(s: string): (n: nat)
    ensures |s| <= n <= 2 * |s|
  {
    if |s| == 0 then 0
    else Utf16Length(s[..|s| - 1]) + (if s[|s| - 1] as int > 0xFFFF then 2 else 1)
  }

  predicate IsUpperAscii(c: char) {
    'A' <= c <= 'Z'
  }

  function LowerChar(c: char): char {
    if IsUpperAscii(c) then (c as int + 32) as char else c
  }

  function UpperChar(c: char): char {
    if 'a' <= c <= 'z' then (c as int - 32) as char else c
  }

  /** `toLowerCase`, restricted to the ASCII letters: the result has no
      upper-case letter, differs from the input only in letter case, and an
      input that is already lower-case comes back unchanged (so lower-casing
      twice is lower-casing once). */
  function Lower(s: string): (r: string)
    ensures |r| == |s|
    ensures forall i :: 0 <= i < |s| ==> r[i] == LowerChar(s[i])
    ensures IsLower(r)
    ensures IsLower(s) ==> r == s
  {
    seq(|s|, i requires 0 <= i < |s| => LowerChar(s[i]))
  }

  /** `toUpperCase`, restricted to the ASCII letters. */
  function Upper(s: string): (r: string)
    ensures |r| == |s|
    ensures forall i :: 0 <= i < |s| ==> r[i] == UpperChar(s[i])
  {
    seq(|s|, i requires 0 <= i < |s| => UpperChar(s[i]))
  }

  /** No upper-case ASCII letter occurs in `s`. */
  predicate IsLower(s: string) {
    forall i :: 0 <= i < |s| ==> !IsUpperAscii(s[i])
  }

  /** `a` and `b` differ at most in the case of ASCII letters. */
  predicate SameIgnoringCase(a: string, b: string) {
    |a| == |b| && forall i :: 0 <= i < |a| ==> LowerChar(a[i]) == LowerChar(b[i])
  }

  /** Lower-casing merges exactly the strings that differ only in case. */
  lemma LowerMergesCase(a: string, b: string)
    ensures Lower(a) == Lower(b) <==> SameIgnoringCase(a, b)
  {
    if SameIgnoringCase(a, b) {
      assert forall i :: 0 <= i < |a| ==> Lower(a)[i] == Lower(b)[i];
    }
    if Lower(a) == Lower(b) {
      assert forall i :: 0 <= i < |a| ==> LowerChar(a[i]) == Lower(a)[i] == Lower(b)[i];
    }
  }

  /** Upper-casing an email does not change the key it lowers to. */
  lemma LowerOfUpper(s: string)
    ensures Lower(Upper(s)) == Lower(s)
  {
    assert SameIgnoringCase(Upper(s), s);
    LowerMergesCase(Upper(s), s);
  }

  function DigitChar(d: nat): (c: char)
    requires d < 10
    ensures IsAsciiDigit(c)
  {
    ('0' as int + d) as char
  }

  function DigitValue(c: char): (d: nat)
    requires IsAsciiDigit(c)
    ensures d < 10
  {
    c as int - '0' as int
  }

  /** Decimal rendering of a natural number, as `Number.prototype.toString()`
      writes an integer. */
  function DecimalString(n: nat): (s: string)
    ensures |s| >= 1
    ensures AllDigits(s)
    ensures s[0] == '0' <==> n == 0
    decreases n
  {
    if n < 10 then [DigitChar(n)] else DecimalString(n / 10) + [DigitChar(n % 10)]
  }

  /** Reads a string of decimal digits back as a natural number. */
  function ParseDecimal(s: string): nat
    requires AllDigits(s)
  {
    if |s| == 0 then 0 else 10 * ParseDecimal(s[..|s| - 1]) + DigitValue(s[|s| - 1])
  }

  /** `String(n)` for an integral number. */
  function IntToString(n: int): (s: string)
    ensures 0 <= n ==> s == DecimalString(n)
    ensures n < 0 ==> |s| >= 2 && s[0] == '-'
  {
    if n < 0 then "-" + DecimalString(-n) else DecimalString(n)
  }

  function Pow10(k: nat): (p: nat)
    ensures p >= 1
  {
    if k == 0 then 1 else 10 * Pow10(k - 1)
  }

  /** Reading back a rendered number gives the number. */
  lemma {:induction false} ParseDecimalString(n: nat)
    ensures ParseDecimal(DecimalString(n)) == n
    decreases n
  {
    if n >= 10 {
      var s := DecimalString(n);
      assert s[..|s| - 1] == DecimalString(n / 10);
      ParseDecimalString(n / 10);
    }
  }

  /** Different numbers render differently. */
  lemma DecimalStringInjective(a: nat, b: nat)
    ensures DecimalString(a) == DecimalString(b) ==> a == b
  {
    ParseDecimalString(a);
    ParseDecimalString(b);
  }

  /** Rendering a parsed digit string without a leading zero gives it back. */
  lemma {:induction false} DecimalStringParse(s: string)
    requires |s| >= 1 && AllDigits(s) && s[0] != '0'
    ensures DecimalString(ParseDecimal(s)) == s
    decreases |s|
  {
    if |s| > 1 {
      var init := s[..|s| - 1];
      DecimalStringParse(init);
      ParseAtLeastOne(init);
      var n := ParseDecimal(s);
      assert n / 10 == ParseDecimal(init);
      assert n % 10 == DigitValue(s[|s| - 1]);
      assert DigitChar(DigitValue(s[|s| - 1])) == s[|s| - 1];
      assert s == init + [s[|s| - 1]];
    } else {
      assert DigitChar(DigitValue(s[0])) == s[0];
    }
  }

  lemma {:induction false} ParseAtLeastOne(s: string)
    requires |s| >= 1 && AllDigits(s) && s[0] != '0'
    ensures ParseDecimal(s) >= 1
    decreases |s|
  {
    if |s| > 1 {
      ParseAtLeastOne(s[..|s| - 1]);
    }
  }

  /** A number below 10^k renders in at most k digits. */
  lemma {:induction false} DecimalStringShort(n: nat, k: nat)
    requires k >= 1 && n < Pow10(k)
    ensures |DecimalString(n)| <= k
    decreases k
  {
    if n >= 10 {
      DecimalStringShort(n / 10, k - 1);
    }
  }

  /** A number of at least 10^k renders in more than k digits. */
  lemma {:induction false} DecimalStringLong(n: nat, k: nat)
    requires Pow10(k) <= n
    ensures |DecimalString(n)| > k
    decreases k
  {
    if k > 0 {
      DecimalStringLong(n / 10, k - 1);
    }
  }

  /** A number between 10^(k-1) and 10^k renders as exactly k digits. */
  lemma DecimalStringLength(n: nat, k: nat)
    requires k >= 1 && Pow10(k - 1) <= n < Pow10(k)
    ensures |DecimalString(n)| == k
  {
    DecimalStringShort(n, k);
    DecimalStringLong(n, k - 1);
  }
}
