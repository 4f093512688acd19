/**
 * Exact decimal numbers standing for the pipeline's float64 amounts: parsing
 * of numeric text (Python's `float` and pandas' `to_numeric`), the text
 * Python prints for a float, and rounding to cents.
 */
module Numbers {
  import opened Outcomes
  import opened Strings

  /** The number `units / 10^scale`. */
  datatype Decimal = Decimal(units: int, scale: nat)

  function RealOf(d: Decimal): real
  {
    d.units as real / Pow10(d.scale) as real
  }

  predicate IsDot(t: string, i: nat) { i < |t| && t[i] == '.' }

  /** `digits[.digits]`, `digits.` or `.digits`, without a sign. */
  function ParseUnsigned(body: string): (r: Option<Decimal>)
    ensures r.Some? ==> r.value.units >= 0
  {
    var dot := FirstMatch(body, 0, IsDot);
    var ip := if dot.Some? then body[..dot.value] else body;
    var fp := if dot.Some? then body[dot.value + 1..] else "";
    if AllDigits(ip) && AllDigits(fp) && |ip| + |fp| >= 1 then
      AllDigitsAppend(ip, fp);
      Some(Decimal(DigitsValue(ip + fp), |fp|))
    else None
  }

  /**
   * Python's `float` on the grammar `[+-]? (d+ ('.' d*)? | '.' d+)`;
   * `None` where `float` raises `ValueError`.
   */
  function ParseDecimal(s: string): (r: Option<Decimal>)
    ensures r.None? ==> s == [] || ParseUnsigned(if s[0] in "+-" then s[1..] else s).None?
  {
    if s == [] then None
    else if s[0] == '-' then
      match ParseUnsigned(s[1..])
      case Some(d) => Some(Decimal(-d.units, d.scale))
      case None => None
    else if s[0] == '+' then ParseUnsigned(s[1..])
    else ParseUnsigned(s)
  }

  /** The same number with trailing fractional zeros removed. */
  function Normalize(d: Decimal): (n: Decimal)
    ensures RealOf(n) == RealOf(d)
    ensures n.scale == 0 || n.units % 10 != 0
    decreases d.scale
  {
    if d.scale > 0 && d.units % 10 == 0 then
      var q := d.units / 10;
      assert Pow10(d.scale) == 10 * Pow10(d.scale - 1);
      assert d.units as real == 10.0 * q as real;
      Normalize(Decimal(q, d.scale - 1))
    else d
  }

  /** `a` with its last `k` decimal digits removed, that is `a / 10^k`. */
  function Shift(a: nat, k: nat): nat
  {
    if k == 0 then a else Shift(a / 10, k - 1)
  }

  /** The last `k` decimal digits of `a`, zero-padded to exactly `k` characters. */
  function LastDigits(a: nat, k: nat): (t: string)
    ensures |t| == k && AllDigits(t)
  {
    if k == 0 then "" else LastDigits(a / 10, k - 1) + [DigitChar(a % 10)]
  }

  lemma {:induction false} ShiftSplit(a: nat, k: nat)
    ensures Shift(a, k) * Pow10(k) + DigitsValue(LastDigits(a, k)) == a
  {
    if k > 0 {
      var t := LastDigits(a, k);
      var t' := LastDigits(a / 10, k - 1);
      assert t[..k - 1] == t';
      assert t[k - 1] == DigitChar(a % 10);
      ShiftSplit(a / 10, k - 1);
      var q, p, r := Shift(a / 10, k - 1), Pow10(k - 1), DigitsValue(t');
      assert DigitsValue(t) == r * 10 + a % 10;
      Regroup(q, p, r, a % 10);
      assert q * (10 * p) + DigitsValue(t) == (a / 10) * 10 + a % 10;
    }
  }

  /** `a / 10^scale` written with exactly `scale` fractional digits. */
  function FixedText(a: nat, scale: nat): string
    requires scale >= 1
  {
    NatText(Shift(a, scale)) + "." + LastDigits(a, scale)
  }

  /** The unsigned part of a float's text: `a / 10^scale`, ".0" when whole. */
  function UnsignedText(a: nat, scale: nat): string
  {
    if scale == 0 then NatText(a) + ".0" else FixedText(a, scale)
  }

  /**
   * The text Python's `str` gives a float whose shortest representation is
   * `d`: at least one fractional digit, no trailing fractional zeros.
   */
  function FloatText(d: Decimal): string
  {
    SignedText(Normalize(d))
  }

  function SignedText(n: Decimal): string
  {
    var body := UnsignedText(Magnitude(n), n.scale);
    if n.units < 0 then "-" + body else body
  }

  function Magnitude(n: Decimal): nat
  {
    if n.units < 0 then -n.units else n.units
  }

  lemma {:induction false} NoDotInDigits(t: string, rest: string)
    requires AllDigits(t)
    ensures FirstMatch(t + "." + rest, 0, IsDot) == Some(|t|)
  {
    var s := t + "." + rest;
    assert IsDot(s, |t|);
    forall j | 0 <= j < |t| ensures !IsDot(s, j) {
      assert s[j] == t[j];
    }
  }

  lemma {:induction false} ParseDigitsDotDigits(ip: string, fp: string)
    requires AllDigits(ip) && AllDigits(fp) && |ip| >= 1
    ensures AllDigits(ip + fp)
    ensures ParseUnsigned(ip + "." + fp) == Some(Decimal(DigitsValue(ip + fp), |fp|))
  {
    var s := ip + "." + fp;
    NoDotInDigits(ip, fp);
    assert s[..|ip|] == ip;
    assert s[|ip| + 1..] == fp;
  }

  lemma FixedTextParse(a: nat, scale: nat)
    requires scale >= 1
    ensures ParseUnsigned(FixedText(a, scale)) == Some(Decimal(a, scale))
  {
    ParseDigitsDotDigits(NatText(Shift(a, scale)), LastDigits(a, scale));
    FixedDigitsValue(a, scale);
  }

  /** The digits of the fixed-point text, dot removed, read back as `a`. */
  lemma FixedDigitsValue(a: nat, scale: nat)
    ensures AllDigits(NatText(Shift(a, scale)) + LastDigits(a, scale))
    ensures DigitsValue(NatText(Shift(a, scale)) + LastDigits(a, scale)) == a
  {
    DigitsValueAppend(NatText(Shift(a, scale)), LastDigits(a, scale));
    ShiftSplit(a, scale);
    NatTextValue(Shift(a, scale));
  }

  lemma WholeTextParse(a: nat)
    ensures ParseUnsigned(NatText(a) + ".0") == Some(Decimal(a * 10, 1))
  {
    assert NatText(a) + ".0" == NatText(a) + "." + "0";
    ParseDigitsDotDigits(NatText(a), "0");
    WholeDigitsValue(a);
  }

  lemma WholeDigitsValue(a: nat)
    ensures AllDigits(NatText(a) + "0") && DigitsValue(NatText(a) + "0") == a * 10
  {
    var s := NatText(a) + "0";
    assert s[..|s| - 1] == NatText(a);
    NatTextValue(a);
  }

  /** The number a float's text reads back as: a whole number gains its ".0". */
  function Widened(d: Decimal): Decimal
  {
    if d.scale == 0 then Decimal(d.units * 10, 1) else d
  }

  lemma WidenedValue(d: Decimal)
    ensures RealOf(Widened(d)) == RealOf(d)
  {
    if d.scale == 0 {
      assert Pow10(1) == 10;
      assert (d.units * 10) as real == d.units as real * 10.0;
    }
  }

  lemma {:induction false} UnsignedTextParse(a: nat, scale: nat)
    ensures UnsignedText(a, scale) != [] && IsDigit(UnsignedText(a, scale)[0])
    ensures ParseUnsigned(UnsignedText(a, scale)) == Some(Widened(Decimal(a, scale)))
  {
    if scale == 0 {
      WholeTextParse(a);
    } else {
      FixedTextParse(a, scale);
    }
  }

  /** Reading back a signed float text gives the same digits, ".0" added to whole numbers. */
  lemma SignedTextRoundTrip(n: Decimal)
    ensures ParseDecimal(SignedText(n)) == Some(Widened(n))
  {
    var body := UnsignedText(Magnitude(n), n.scale);
    UnsignedTextParse(Magnitude(n), n.scale);
    if n.units < 0 {
      NegatedRoundTrip(SignedText(n), body, n);
    } else {
      UnsignedRoundTrip(SignedText(n), n);
    }
  }

  lemma UnsignedRoundTrip(body: string, n: Decimal)
    requires n.units >= 0 && body != [] && IsDigit(body[0])
    requires ParseUnsigned(body) == Some(Widened(n))
    ensures ParseDecimal(body) == Some(Widened(n))
  { }

  lemma NegatedRoundTrip(t: string, body: string, n: Decimal)
    requires n.units < 0 && t == "-" + body
    requires ParseUnsigned(body) == Some(Widened(Decimal(-n.units, n.scale)))
    ensures ParseDecimal(t) == Some(Widened(n))
  {
    assert t[1..] == body;
  }

  /** Reading back the text Python prints for a float gives the same number. */
  lemma {:induction false} FloatTextRoundTrip(d: Decimal)
    ensures ParseDecimal(FloatText(d)).Some?
    ensures RealOf(ParseDecimal(FloatText(d)).value) == RealOf(d)
  {
    SignedTextRoundTrip(Normalize(d));
    WidenedValue(Normalize(d));
  }

  /**
   * `round(x, 2)` as a whole number of cents: nearest, ties to even (numpy's
   * rounding), taken on the exact value.
   */
  function RoundCents(x: real): (c: int)
    ensures (c as real) - 0.5 <= x * 100.0 <= (c as real) + 0.5
  {
    var y := x * 100.0;
    var f := y.Floor;
    var frac := y - f as real;
    if frac < 0.5 then f
    else if frac > 0.5 then f + 1
    else if f % 2 == 0 then f
    else f + 1
  }

  /** Rounding to cents never reverses the order of two amounts. */
  lemma RoundCentsMonotone(x: real, y: real)
    requires x <= y
    ensures RoundCents(x) <= RoundCents(y)
  {
    var fx, fy := (x * 100.0).Floor, (y * 100.0).Floor;
    assert fx <= fy;
    if fx == fy {
      assert x * 100.0 - fx as real <= y * 100.0 - fy as real;
    }
  }
}
