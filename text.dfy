/** Character classes and string helpers, restricted to ASCII.
    Python's `\s`, `str.strip` and `str.isspace` share one whitespace set;
    its ASCII part is TAB, LF, VT, FF, CR, the four separators 0x1C-0x1F and SPACE. */
module Text {

  predicate IsSpace(c: char) {
    var n := c as int;
    n == 32 || 9 <= n <= 13 || 28 <= n <= 31
  }

  predicate IsDigit(c: char) { '0' <= c <= '9' }

  /** `\w`: letters, digits and the underscore. */
  predicate IsWordChar(c: char) {
    IsDigit(c) || 'a' <= c <= 'z' || 'A' <= c <= 'Z' || c == '_'
  }

  predicate AllSpace(s: string) { forall i | 0 <= i < |s| :: IsSpace(s[i]) }

  predicate AllDigits(s: string) { forall i | 0 <= i < |s| :: IsDigit(s[i]) }

  /** What the regex `.` can consume: anything but a line feed. */
  predicate NoNewline(s: string) { forall i | 0 <= i < |s| :: s[i] != '\n' }

  /** The first index at or after `i` that does not hold whitespace. */
  function SkipSpace(s: string, i: nat): (j: nat)
    requires i <= |s|
    ensures i <= j <= |s| && AllSpace(s[i..j])
    ensures j < |s| ==> !IsSpace(s[j])
    decreases |s| - i
  {
    if i < |s| && IsSpace(s[i]) then SkipSpace(s, i + 1) else i
  }

  /** The first index at or after `i` that does not hold a digit. */
  function SkipDigits(s: string, i: nat): (j: nat)
    requires i <= |s|
    ensures i <= j <= |s| && AllDigits(s[i..j])
    ensures j < |s| ==> !IsDigit(s[j])
    decreases |s| - i
  {
    if i < |s| && IsDigit(s[i]) then SkipDigits(s, i + 1) else i
  }

  /** The length of `s` once trailing whitespace is dropped. */
  function TrimEnd(s: string): (k: nat)
    ensures k <= |s| && AllSpace(s[k..])
    ensures k > 0 ==> !IsSpace(s[k - 1])
  {
    if |s| > 0 && IsSpace(s[|s| - 1]) then
      var k := TrimEnd(s[..|s| - 1]);
      assert s[k..] == s[..|s| - 1][k..] + [s[|s| - 1]];
      k
    else |s|
  }

  lemma {:induction false} SkipSpaceUnique(s: string, i: nat, j: nat)
    requires i <= j <= |s| && AllSpace(s[i..j])
    requires j < |s| ==> !IsSpace(s[j])
    ensures SkipSpace(s, i) == j
    decreases j - i
  {
    if i < j {
      assert s[i] == s[i..j][0];
      assert s[i + 1..j] == s[i..j][1..];
      SkipSpaceUnique(s, i + 1, j);
    }
  }

  lemma SkipDigitsUnique(s: string, i: nat, j: nat)
    requires i <= j <= |s| && AllDigits(s[i..j])
    requires j < |s| ==> !IsDigit(s[j])
    ensures SkipDigits(s, i) == j
  {
    assert forall n | i <= n < j :: IsDigit(s[n]) by {
      forall n | i <= n < j ensures IsDigit(s[n]) { assert s[n] == s[i..j][n - i]; }
    }
  }

  lemma {:induction false} TrimEndUnique(s: string, k: nat)
    requires k <= |s| && AllSpace(s[k..])
    requires k > 0 ==> !IsSpace(s[k - 1])
    ensures TrimEnd(s) == k
  {
    if k < |s| {
      var t := s[..|s| - 1];
      assert s[|s| - 1] == s[k..][|s| - 1 - k];
      assert t[k..] == s[k..][..|s| - 1 - k];
      assert k > 0 ==> t[k - 1] == s[k - 1];
      TrimEndUnique(t, k);
    }
  }

  /** Python's `str.strip()` with no argument. */
  function Strip(s: string): string {
    var i := SkipSpace(s, 0);
    var t := s[i..];
    t[..TrimEnd(t)]
  }

  /** `strip` removes whitespace from both ends and nothing else. */
  lemma StripSpec(s: string)
    ensures exists i, j :: 0 <= i <= j <= |s| && Strip(s) == s[i..j] && AllSpace(s[..i]) && AllSpace(s[j..])
    ensures Strip(s) == [] || (!IsSpace(Strip(s)[0]) && !IsSpace(Strip(s)[|Strip(s)| - 1]))
    ensures Strip(s) == [] <==> AllSpace(s)
  {
    var i := SkipSpace(s, 0);
    StripBounds(s, i, TrimEnd(s[i..]));
  }

  lemma StripBounds(s: string, i: nat, k: nat)
    requires i == SkipSpace(s, 0) && k == TrimEnd(s[i..])
    ensures s[i..][..k] == s[i..i + k] && AllSpace(s[..i]) && AllSpace(s[i + k..])
    ensures s[i..][..k] == [] <==> AllSpace(s)
  {
    var t := s[i..];
    assert s[..i] == s[0..i];
    assert s[i + k..] == t[k..];
    if t[..k] == [] {
      assert k == 0;
      assert s == s[..i] + t;
      forall n | 0 <= n < |s| ensures IsSpace(s[n]) {
        assert s[n] == (s[..i] + t)[n];
      }
    } else {
      assert !IsSpace(s[i + k - 1]);
    }
  }

  /** A string with no whitespace at either end is its own `strip`. */
  lemma StripUnchanged(s: string)
    requires s != [] ==> !IsSpace(s[0]) && !IsSpace(s[|s| - 1])
    ensures Strip(s) == s
  {
    SkipSpaceUnique(s, 0, 0);
    assert s[0..] == s;
    TrimEndUnique(s, |s|);
  }

  /** `strip` only removes characters, so it cannot introduce a line feed. */
  lemma StripNoNewline(s: string)
    requires NoNewline(s)
    ensures NoNewline(Strip(s))
  {
    var i := SkipSpace(s, 0);
    StripBounds(s, i, TrimEnd(s[i..]));
    forall x | 0 <= x < |Strip(s)| ensures Strip(s)[x] != '\n' {
      assert Strip(s)[x] == s[i + x];
    }
  }

  /** A slice holds no character its string lacks. */
  lemma NotInSlice(s: string, c: char, i: nat, j: nat)
    requires c !in s && i <= j <= |s|
    ensures c !in s[i..j]
  {
    forall k | 0 <= k < j - i ensures s[i..j][k] != c { assert s[i..j][k] == s[i + k]; }
  }

  /** `strip` only removes characters. */
  lemma StripChars(s: string, c: char)
    requires c !in s
    ensures c !in Strip(s)
  {
    var i := SkipSpace(s, 0);
    var k := TrimEnd(s[i..]);
    StripBounds(s, i, k);
    NotInSlice(s, c, i, i + k);
  }

  /** Equal strings with the same tail have the same head. */
  lemma AppendCancel(a: string, b: string, c: string)
    ensures a + c == b + c ==> a == b
  {
    if a + c == b + c {
      assert a == (a + c)[..|a|];
      assert b == (b + c)[..|b|];
    }
  }

  /** Whitespace in front of a string does not survive `strip`. */
  lemma StripSpacePrefix(w: string, g: string)
    requires AllSpace(w)
    ensures Strip(w + g) == Strip(g)
  {
    var i := SkipSpace(g, 0);
    assert (w + g)[|w|..|w| + i] == g[0..i];
    assert (w + g)[0..|w|] == w;
    forall n | 0 <= n < |w| + i ensures IsSpace((w + g)[n]) {
      if n < |w| { assert (w + g)[n] == w[n]; } else { assert (w + g)[n] == g[0..i][n - |w|]; }
    }
    assert AllSpace((w + g)[0..|w| + i]);
    if |w| + i < |w + g| { assert (w + g)[|w| + i] == g[i]; }
    SkipSpaceUnique(w + g, 0, |w| + i);
    assert (w + g)[|w| + i..] == g[i..];
  }

  /** Whitespace after a string does not survive `strip`. */
  lemma StripSpaceSuffix(g: string, w: string)
    requires AllSpace(w)
    ensures Strip(g + w) == Strip(g)
  {
    var i := SkipSpace(g, 0);
    if i == |g| {
      assert AllSpace(g[0..i]);
      assert g[0..i] == g;
      assert AllSpace(g + w) by {
        forall n | 0 <= n < |g + w| ensures IsSpace((g + w)[n]) {
          if n < |g| { assert IsSpace(g[n]); } else { assert (g + w)[n] == w[n - |g|]; }
        }
      }
      assert AllSpace(g);
    } else {
      assert (g + w)[0..i] == g[0..i];
      assert (g + w)[i] == g[i];
      SkipSpaceUnique(g + w, 0, i);
      var t := g[i..];
      var k := TrimEnd(t);
      assert !IsSpace(t[0]);
      var t' := (g + w)[i..];
      assert t' == t + w;
      assert t'[k..] == t[k..] + w;
      assert AllSpace(t'[k..]) by {
        forall n | 0 <= n < |t'[k..]| ensures IsSpace(t'[k..][n]) {
          if n < |t[k..]| { assert IsSpace(t[k..][n]); } else { assert t'[k..][n] == w[n - |t[k..]|]; }
        }
      }
      assert t'[k - 1] == t[k - 1];
      TrimEndUnique(t', k);
      assert t'[..k] == t[..k];
    }
  }

  function LowerChar(c: char): char {
    if 'A' <= c <= 'Z' then (c as int - 'A' as int + 'a' as int) as char else c
  }

  /** Python's `str.lower()` on ASCII letters. */
  function Lower(s: string): (r: string)
    ensures |r| == |s| && forall i | 0 <= i < |s| :: r[i] == LowerChar(s[i])
  {
    seq(|s|, i requires 0 <= i < |s| => LowerChar(s[i]))
  }

  /** Two strings equal up to ASCII letter case. */
  predicate EqualIgnoringCase(a: string, b: string) {
    |a| == |b| && forall i | 0 <= i < |a| :: LowerChar(a[i]) == LowerChar(b[i])
  }

  /** No upper-case ASCII letter in `s`. */
  predicate LowerCase(s: string) { forall i | 0 <= i < |s| :: !('A' <= s[i] <= 'Z') }

  /** Lower-casing and comparing with a lower-case string is a
      case-insensitive comparison. */
  lemma LowerMatches(s: string, x: string)
    requires LowerCase(x)
    ensures Lower(s) == x <==> EqualIgnoringCase(s, x)
  {
    if EqualIgnoringCase(s, x) {
      forall i | 0 <= i < |s| ensures Lower(s)[i] == x[i] {
        assert LowerChar(x[i]) == x[i];
      }
    }
    if Lower(s) == x {
      forall i | 0 <= i < |s| ensures LowerChar(s[i]) == LowerChar(x[i]) {
        assert LowerChar(x[i]) == x[i];
      }
    }
  }

  function DigitValue(c: char): nat
    requires IsDigit(c)
  {
    c as int - '0' as int
  }

  function DigitChar(d: nat): (c: char)
    requires d < 10
    ensures IsDigit(c) && DigitValue(c) == d
  {
    ('0' as int + d) as char
  }

  /** Python's `int()` of a string of ASCII digits. */
  function DigitsValue(s: string): nat
    requires AllDigits(s)
  {
    if |s| == 0 then 0 else DigitsValue(s[..|s| - 1]) * 10 + DigitValue(s[|s| - 1])
  }

  function Pow10(k: nat): nat { if k == 0 then 1 else 10 * Pow10(k - 1) }

  lemma {:induction false} DigitsValueBound(s: string)
    requires AllDigits(s)
    ensures DigitsValue(s) < Pow10(|s|)
  {
    if |s| > 0 { DigitsValueBound(s[..|s| - 1]); }
  }

  /** A leading zero does not change the value. */
  lemma {:induction false} DigitsValueLeadingZero(s: string)
    requires AllDigits(s)
    ensures AllDigits("0" + s) && DigitsValue("0" + s) == DigitsValue(s)
  {
    if |s| > 0 {
      DigitsValueLeadingZero(s[..|s| - 1]);
      assert ("0" + s)[..|"0" + s| - 1] == "0" + s[..|s| - 1];
    } else {
      assert "0" + s == "0";
    }
  }

  /** Python's `str(n)` for a non-negative integer. */
  function DecimalString(n: nat): (r: string)
    ensures 1 <= |r| && AllDigits(r) && DigitsValue(r) == n
    ensures |r| > 1 ==> r[0] != '0'
  {
    if n < 10 then [DigitChar(n)]
    else
      var r := DecimalString(n / 10) + [DigitChar(n % 10)];
      assert r[..|r| - 1] == DecimalString(n / 10);
      r
  }

  lemma {:induction false} DecimalStringLength(n: nat, k: nat)
    requires n < Pow10(k) && k >= 1
    ensures |DecimalString(n)| <= k
  {
    if n >= 10 { DecimalStringLength(n / 10, k - 1); }
  }

  /** `k` copies of `c`. */
  function Repeat(c: char, k: nat): (r: string)
    ensures |r| == k && forall i | 0 <= i < k :: r[i] == c
  {
    if k == 0 then [] else [c] + Repeat(c, k - 1)
  }

  /** The `0w` part of a format spec: left-pad with zeros to width `w`. */
  function ZeroPad(s: string, w: nat): (r: string)
    ensures |r| == if |s| < w then w else |s|
    ensures AllDigits(s) ==> AllDigits(r) && DigitsValue(r) == DigitsValue(s)
  {
    if |s| < w then
      var p := ZeroPad(s, w - 1);
      if AllDigits(p) then DigitsValueLeadingZero(p); "0" + p else "0" + p
    else s
  }

  /** Python's `<` on `str`: lexicographic by code point. */
  function StrLess(a: string, b: string): bool {
    if |a| == 0 then |b| > 0
    else if |b| == 0 then false
    else if a[0] != b[0] then a[0] < b[0]
    else StrLess(a[1..], b[1..])
  }

  lemma {:induction false} StrLessIrreflexive(a: string)
    ensures !StrLess(a, a)
  {
    if |a| > 0 { StrLessIrreflexive(a[1..]); }
  }

  lemma {:induction false} StrLessTransitive(a: string, b: string, c: string)
    requires StrLess(a, b) && StrLess(b, c)
    ensures StrLess(a, c)
  {
    if |a| > 0 && |b| > 0 && |c| > 0 && a[0] == b[0] == c[0] {
      StrLessTransitive(a[1..], b[1..], c[1..]);
    }
  }

  lemma {:induction false} StrLessTotal(a: string, b: string)
    requires a != b
    ensures StrLess(a, b) || StrLess(b, a)
  {
    if |a| > 0 && |b| > 0 && a[0] == b[0] {
      assert a == [a[0]] + a[1..] && b == [b[0]] + b[1..];
      StrLessTotal(a[1..], b[1..]);
    }
  }
}
