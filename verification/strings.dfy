/**
 * The parts of Python's `str` that the pipeline relies on: digit classes,
 * integer text, case mapping, `strip`, `replace`, prefix/suffix tests and
 * a leftmost search standing for `re.search`.
 */
module Strings {
  import opened Outcomes

  // ---------------------------------------------------------------- digits

  /** The regular-expression class `\d`, restricted to ASCII digits. */
  predicate IsDigit(c: char) { '0' <= c <= '9' }

  predicate AllDigits(s: string) { forall i | 0 <= i < |s| :: IsDigit(s[i]) }

  function DigitValue(c: char): (d: nat)
    requires IsDigit(c)
    ensures d < 10
  {
    c as int - '0' as int
  }

  function DigitChar(d: nat): (c: char)
    requires d < 10
    ensures IsDigit(c) && DigitValue(c) == d
  {
    ('0' as int + d) as char
  }

  function Pow10(n: nat): (p: nat)
    ensures p >= 1
  {
    if n == 0 then 1 else 10 * Pow10(n - 1)
  }

  /** Python's `int` on a string of ASCII digits, most significant digit first. */
  function DigitsValue(s: string): nat
    requires AllDigits(s)
  {
    if s == [] then 0 else DigitsValue(s[..|s| - 1]) * 10 + DigitValue(s[|s| - 1])
  }

  /** Python's `str` on a natural number: shortest decimal text. */
  function NatText(n: nat): (s: string)
    ensures |s| >= 1 && AllDigits(s)
  {
    if n < 10 then [DigitChar(n)] else NatText(n / 10) + [DigitChar(n % 10)]
  }

  /** `int(str(n)) == n`, and the text has no leading zero. */
  lemma {:induction false} NatTextValue(n: nat)
    ensures DigitsValue(NatText(n)) == n
    ensures NatText(n)[0] == '0' ==> n == 0
  {
    if n >= 10 {
      var s := NatText(n);
      assert s[..|s| - 1] == NatText(n / 10);
      NatTextValue(n / 10);
    }
  }

  /** Python's `str` on an integer. */
  function IntText(i: int): string
  {
    if i < 0 then "-" + NatText(-i) else NatText(i)
  }

  lemma AllDigitsAppend(a: string, b: string)
    requires AllDigits(a) && AllDigits(b)
    ensures AllDigits(a + b)
  {
    assert forall i | |a| <= i < |a + b| :: (a + b)[i] == b[i - |a|];
  }

  lemma {:induction false} DigitsValueAppend(a: string, b: string)
    requires AllDigits(a) && AllDigits(b)
    ensures AllDigits(a + b)
    ensures DigitsValue(a + b) == DigitsValue(a) * Pow10(|b|) + DigitsValue(b)
    decreases |b|
  {
    if b == [] {
      assert a + b == a;
    } else {
      var ab := a + b;
      var b' := b[..|b| - 1];
      var d := DigitValue(b[|b| - 1]);
      assert ab[..|ab| - 1] == a + b';
      assert ab[|ab| - 1] == b[|b| - 1];
      DigitsValueAppend(a, b');
      assert DigitsValue(ab) == DigitsValue(a + b') * 10 + d;
      assert DigitsValue(b) == DigitsValue(b') * 10 + d;
      Regroup(DigitsValue(a), Pow10(|b'|), DigitsValue(b'), d);
    }
  }

  lemma Regroup(x: int, p: int, y: int, d: int)
    ensures (x * p + y) * 10 + d == x * (10 * p) + (y * 10 + d)
  {
  }

  /** Zeros in front do not change the value of a digit string. */
  lemma {:induction false} LeadingZeros(n: nat, t: string)
    requires AllDigits(t)
    ensures AllDigits(Zeros(n) + t) && DigitsValue(Zeros(n) + t) == DigitsValue(t)
  {
    ZerosValue(n);
    DigitsValueAppend(Zeros(n), t);
    assert DigitsValue(Zeros(n)) * Pow10(|t|) == 0;
  }

  function Zeros(n: nat): (z: string)
    ensures |z| == n && AllDigits(z)
  {
    if n == 0 then "" else Zeros(n - 1) + "0"
  }

  lemma {:induction false} ZerosValue(n: nat)
    ensures DigitsValue(Zeros(n)) == 0
  {
    if n > 0 {
      assert Zeros(n)[..n - 1] == Zeros(n - 1);
      ZerosValue(n - 1);
    }
  }

  // ---------------------------------------------------------- case mapping

  /**
   * `str.upper` on one character: ASCII letters and the Latin-1 letters that
   * have a one-character upper case.
   */
  function UpperChar(c: char): (u: char)
    ensures !('a' <= u <= 'z')
    ensures IsDigit(c) ==> u == c
  {
    if 'a' <= c <= 'z' then (c as int - 32) as char
    else if 0xE0 <= c as int <= 0xFE && c as int != 0xF7 then (c as int - 32) as char
    else if c as int == 0xFF then 0x178 as char
    else if c as int == 0xB5 then 0x39C as char
    else c
  }

  /** `str.lower` on one character: ASCII and Latin-1 upper-case letters. */
  function LowerChar(c: char): (l: char)
    ensures !('A' <= l <= 'Z')
    ensures IsDigit(c) ==> l == c
    ensures c == '_' || c == '.' ==> l == c
  {
    if 'A' <= c <= 'Z' then (c as int + 32) as char
    else if 0xC0 <= c as int <= 0xDE && c as int != 0xD7 then (c as int + 32) as char
    else c
  }

  function Upper(s: string): (r: string)
    ensures |r| == |s| && forall i | 0 <= i < |s| :: r[i] == UpperChar(s[i])
  {
    seq(|s|, i requires 0 <= i < |s| => UpperChar(s[i]))
  }

  function Lower(s: string): (r: string)
    ensures |r| == |s| && forall i | 0 <= i < |s| :: r[i] == LowerChar(s[i])
  {
    seq(|s|, i requires 0 <= i < |s| => LowerChar(s[i]))
  }

  lemma LowerCharIdempotent(c: char)
    ensures LowerChar(LowerChar(c)) == LowerChar(c)
  {
  }

  /** Lower-casing twice is lower-casing once. */
  lemma LowerIdempotent(s: string)
    ensures Lower(Lower(s)) == Lower(s)
  {
    forall i | 0 <= i < |s|
      ensures Lower(Lower(s))[i] == Lower(s)[i]
    {
      LowerCharIdempotent(s[i]);
    }
  }

  // ------------------------------------------------------------- stripping

  /** Python's `str.isspace` for one character (its whitespace set). */
  predicate IsSpace(c: char)
  {
    var n := c as int;
    (0x09 <= n <= 0x0D) || (0x1C <= n <= 0x20) || n == 0x85 || n == 0xA0
    || n == 0x1680 || (0x2000 <= n <= 0x200A) || n == 0x2028 || n == 0x2029
    || n == 0x202F || n == 0x205F || n == 0x3000
  }

  /** How many leading characters `drop` accepts. */
  function LeadingCount(s: string, drop: char -> bool): (k: nat)
    ensures k <= |s| && forall j | 0 <= j < k :: drop(s[j])
    ensures k < |s| ==> !drop(s[k])
  {
    if s != [] && drop(s[0]) then 1 + LeadingCount(s[1..], drop) else 0
  }

  function TrimStart(s: string, drop: char -> bool): (r: string)
    ensures exists k | 0 <= k <= |s| :: r == s[k..] && forall j | 0 <= j < k :: drop(s[j])
    ensures r != [] ==> !drop(r[0])
  {
    var k := LeadingCount(s, drop);
    s[k..]
  }

  function TrimEnd(s: string, drop: char -> bool): (r: string)
    ensures exists k | 0 <= k <= |s| :: r == s[..k] && forall j | k <= j < |s| :: drop(s[j])
    ensures r != [] ==> !drop(r[|r| - 1])
  {
    if s != [] && drop(s[|s| - 1]) then
      var t := s[..|s| - 1];
      var r := TrimEnd(t, drop);
      var k :| 0 <= k <= |t| && r == t[..k] && forall j | k <= j < |t| :: drop(t[j]);
      assert r == s[..k];
      assert forall j | k <= j < |t| :: s[j] == t[j];
      r
    else
      assert s == s[..|s|];
      s
  }

  /** `str.strip()`: leading and trailing whitespace removed. */
  function Strip(s: string): string
  {
    TrimEnd(TrimStart(s, IsSpace), IsSpace)
  }

  /** Text without white space is left alone by `strip`. */
  lemma StripNoSpace(s: string)
    requires forall i | 0 <= i < |s| :: !IsSpace(s[i])
    ensures Strip(s) == s
  {
    assert TrimStart(s, IsSpace) == s;
    assert TrimEnd(s, IsSpace) == s;
  }

  /** Text made only of white space strips to nothing. */
  lemma {:induction false} StripSpaces(s: string)
    requires forall i | 0 <= i < |s| :: IsSpace(s[i])
    ensures TrimStart(s, IsSpace) == "" && Strip(s) == ""
  {
    if s != [] {
      StripSpaces(s[1..]);
    }
  }

  /** `str.strip(c)` with a one-character argument. */
  function StripChar(s: string, c: char): string
  {
    TrimEnd(TrimStart(s, x => x == c), x => x == c)
  }

  /** Stripping `c` from text that ends in one `c`, and neither starts nor ends with it otherwise. */
  lemma StripOneTrailing(t: string, c: char)
    requires t != [] && t[0] != c && t[|t| - 1] != c
    ensures StripChar(t + [c], c) == t
  {
    var drop := x => x == c;
    TrimStartKeeps(t + [c], drop);
    TrimEndOne(t, c, drop);
  }

  lemma TrimStartKeeps(s: string, drop: char -> bool)
    requires s != [] && !drop(s[0])
    ensures TrimStart(s, drop) == s
  {
  }

  lemma TrimEndOne(t: string, x: char, drop: char -> bool)
    requires t != [] && drop(x) && !drop(t[|t| - 1])
    ensures TrimEnd(t + [x], drop) == t
  {
    assert (t + [x])[..|t|] == t;
  }

  /** `str.replace(c, '')`. */
  function Delete(s: string, c: char): (r: string)
    ensures c !in r
    ensures forall x | x in r :: x in s
  {
    if s == [] then "" else (if s[0] == c then "" else [s[0]]) + Delete(s[1..], c)
  }

  /** `str.replace(a, b)` for single characters. */
  function ReplaceChar(s: string, a: char, b: char): (r: string)
    ensures |r| == |s|
  {
    seq(|s|, i requires 0 <= i < |s| => if s[i] == a then b else s[i])
  }

  // ------------------------------------------------------------- searching

  predicate StartsWith(s: string, p: string) { |p| <= |s| && s[..|p|] == p }

  predicate EndsWith(s: string, p: string) { |p| <= |s| && s[|s| - |p|..] == p }

  /** The `in` operator on strings: `sub` occurs somewhere in `s`. */
  predicate Contains(s: string, sub: string)
    decreases |s|
  {
    StartsWith(s, sub) || (s != [] && Contains(s[1..], sub))
  }

  /**
   * Leftmost position at or after `from` where `at` holds: how `re.search`
   * scans a string for a pattern without alternatives.
   */
  function FirstMatch(s: string, from: nat, at: (string, nat) -> bool): (r: Option<nat>)
    ensures r.Some? ==> from <= r.value < |s| && at(s, r.value)
    ensures r.Some? ==> forall j | from <= j < r.value :: !at(s, j)
    ensures r.None? ==> forall j | from <= j < |s| :: !at(s, j)
    decreases |s| - from
  {
    if from >= |s| then None
    else if at(s, from) then Some(from)
    else FirstMatch(s, from + 1, at)
  }
}
