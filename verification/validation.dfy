/**
 * The validation stage: the CNPJ check-digit rule (two modulo-11 check
 * digits over the first twelve and thirteen digits), the three record
 * checks, the rejection reason of each record and the split of the table
 * into valid and rejected records.
 */
module Validation {
  import opened Outcomes
  import opened Strings
  import opened Numbers
  import opened Frames

  // ------------------------------------------------------------ check digits

  /** `re.sub(r'[^0-9]', '', s)`: the ASCII digits of `s`, in order. */
  function DigitsOf(s: string): (d: string)
    ensures AllDigits(d) && |d| <= |s|
  {
    if s == [] then ""
    else
      var rest := DigitsOf(s[1..]);
      if IsDigit(s[0]) then
        assert forall i | 1 <= i < |[s[0]] + rest| :: ([s[0]] + rest)[i] == rest[i - 1];
        [s[0]] + rest
      else rest
  }

  /** The weights of the first check digit. */
  const FirstWeights: seq<int> := [5, 4, 3, 2, 9, 8, 7, 6, 5, 4, 3, 2]

  /** The weights of the second check digit: `weights.insert(0, 6)`. */
  const SecondWeights: seq<int> := [6, 5, 4, 3, 2, 9, 8, 7, 6, 5, 4, 3, 2]

  /** `sum(int(ds[i]) * ws[i] for i in range(n))`. */
  function WeightedSum(ds: string, ws: seq<int>, n: nat): int
    requires AllDigits(ds) && n <= |ws| && n <= |ds|
  {
    if n == 0 then 0 else WeightedSum(ds, ws, n - 1) + DigitValue(ds[n - 1]) * ws[n - 1]
  }

  /** `0 if sum % 11 < 2 else 11 - sum % 11`: always a single digit. */
  function CheckDigit(sum: int): (d: nat)
    ensures d < 10
    ensures d == 0 || d + sum % 11 == 11
  {
    var r := sum % 11;
    if r < 2 then 0 else 11 - r
  }

  function FirstCheck(ds: string): nat
    requires AllDigits(ds) && |ds| >= 12
  {
    CheckDigit(WeightedSum(ds, FirstWeights, 12))
  }

  function SecondCheck(ds: string): nat
    requires AllDigits(ds) && |ds| >= 13
  {
    CheckDigit(WeightedSum(ds, SecondWeights, 13))
  }

  /** `len(set(ds)) == 1`, for a non-empty string. */
  predicate AllSame(ds: string)
  {
    forall i | 0 <= i < |ds| :: ds[i] == ds[0]
  }

  /** The check of `validate_cnpj_math` on the digits of a CNPJ. */
  predicate ValidDigits(ds: string)
    requires AllDigits(ds)
  {
    |ds| == 14 && !AllSame(ds) && ds[12..] == [DigitChar(FirstCheck(ds)), DigitChar(SecondCheck(ds))]
  }

  /** `validate_cnpj_math(v)`: the digits of `str(v)` pass the check. */
  predicate ValidCnpj(v: Value)
  {
    ValidDigits(DigitsOf(Text(v)))
  }

  /** Twelve base digits followed by their two check digits. */
  function Complete(base: string): (ds: string)
    requires |base| == 12 && AllDigits(base)
    ensures |ds| == 14 && AllDigits(ds) && ds[..12] == base
  {
    var first := base + [DigitChar(FirstCheck(base))];
    assert AllDigits(first) by { assert forall i | 0 <= i < 12 :: first[i] == base[i]; }
    var ds := first + [DigitChar(SecondCheck(first))];
    assert forall i | 0 <= i < 13 :: ds[i] == first[i];
    ds
  }

  /** A weighted sum of `n` terms reads only the first `n` digits. */
  lemma {:induction false} WeightedSumAgree(ds: string, es: string, ws: seq<int>, n: nat)
    requires AllDigits(ds) && AllDigits(es) && n <= |ws| && n <= |ds| && n <= |es|
    requires forall i | 0 <= i < n :: ds[i] == es[i]
    ensures WeightedSum(ds, ws, n) == WeightedSum(es, ws, n)
  {
    if n > 0 {
      WeightedSumAgree(ds, es, ws, n - 1);
    }
  }

  /**
   * A digit string passes exactly when it has fourteen digits, not all the
   * same, and ends with the check digits of its first twelve.
   */
  lemma CompletionIff(ds: string)
    requires AllDigits(ds)
    ensures ValidDigits(ds) <==> |ds| == 14 && !AllSame(ds) && ds == Complete(ds[..12])
  {
    if |ds| == 14 {
      var base := ds[..12];
      var c := Complete(base);
      var first := base + [DigitChar(FirstCheck(base))];
      assert c[..13] == first;
      WeightedSumAgree(ds, c, FirstWeights, 12);
      WeightedSumAgree(base, c, FirstWeights, 12);
      WeightedSumAgree(first, c, SecondWeights, 13);
      if ValidDigits(ds) {
        assert ds[..13] == first;
        WeightedSumAgree(ds, c, SecondWeights, 13);
        assert ds == ds[..12] + ds[12..];
        assert c == c[..12] + c[12..];
      }
    }
  }

  /** Changing one check digit of a valid CNPJ makes it invalid. */
  lemma ChangedCheckDigit(ds: string, p: nat, x: char)
    requires AllDigits(ds) && ValidDigits(ds) && (p == 12 || p == 13) && IsDigit(x) && x != ds[p]
    ensures AllDigits(ds[p := x]) && !ValidDigits(ds[p := x])
  {
    var t := ds[p := x];
    assert AllDigits(t);
    WeightedSumAgree(ds, t, FirstWeights, 12);
    if p == 13 {
      WeightedSumAgree(ds, t, SecondWeights, 13);
      assert t[..13] == ds[..13];
      assert t[12..][1] == x;
    } else {
      assert t[..12] == ds[..12];
      assert t[12..][0] == x;
    }
  }

  lemma {:induction false} DigitsOfAppend(a: string, b: string)
    ensures DigitsOf(a + b) == DigitsOf(a) + DigitsOf(b)
  {
    if a != [] {
      assert (a + b)[1..] == a[1..] + b;
      DigitsOfAppend(a[1..], b);
    } else {
      assert a + b == b;
    }
  }

  /** Separators do not matter: removing a non-digit leaves the verdict unchanged. */
  lemma FormattingIgnored(a: string, c: char, b: string)
    requires !IsDigit(c)
    ensures ValidCnpj(Str(a + [c] + b)) == ValidCnpj(Str(a + b))
  {
    DigitsOfAppend(a + [c], b);
    DigitsOfAppend(a, [c]);
    DigitsOfAppend(a, b);
    assert DigitsOf([c]) == "" by { assert [c][1..] == []; }
    assert a + [c] + b == (a + [c]) + b;
    assert Text(Str(a + [c] + b)) == a + [c] + b;
    assert Text(Str(a + b)) == a + b;
    assert DigitsOf(a + [c]) == DigitsOf(a) + "" == DigitsOf(a);
    assert DigitsOf(a + [c] + b) == DigitsOf(a + b);
  }

  /** A bare digit string is its own digits. */
  lemma {:induction false} DigitsOfDigits(s: string)
    requires AllDigits(s)
    ensures DigitsOf(s) == s
  {
    if s != [] {
      DigitsOfDigits(s[1..]);
      assert s == [s[0]] + s[1..];
    }
  }

  /** The CNPJ 11.222.333/0001-81, as bare digits: check digits 8 and 1. */
  lemma ExampleValid()
    ensures var ds := "11222333000181"; AllDigits(ds) && ValidDigits(ds)
  {
    var ds := "11222333000181";
    assert AllDigits(ds) by {
      forall i | 0 <= i < |ds| ensures IsDigit(ds[i]) {
        assert ds[i] in "0123456789";
      }
    }
    ExampleFirstSum();
    ExampleSecondSum();
    assert ds[2] != ds[0];
  }

  /** The same base digits with a different last digit fail. */
  lemma ExampleInvalid()
    ensures var ds := "11222333000182"; AllDigits(ds) && !ValidDigits(ds)
  {
    var ds := "11222333000181";
    ExampleValid();
    ChangedCheckDigit(ds, 13, '2');
    assert ds[13 := '2'] == "11222333000182";
  }

  lemma ExampleFirstSum()
    ensures WeightedSum("11222333000181", FirstWeights, 12) == 102
  {
    var ds := "11222333000181";
    assert WeightedSum(ds, FirstWeights, 4) == 19;
    assert WeightedSum(ds, FirstWeights, 8) == 100;
  }

  lemma ExampleSecondSum()
    ensures WeightedSum("11222333000181", SecondWeights, 13) == 120
  {
    var ds := "11222333000181";
    assert WeightedSum(ds, SecondWeights, 4) == 25;
    assert WeightedSum(ds, SecondWeights, 8) == 101;
    assert WeightedSum(ds, SecondWeights, 12) == 104;
  }

  /** A weighted sum over zero digits is zero. */
  lemma {:induction false} ZeroSum(ds: string, ws: seq<int>, n: nat)
    requires AllDigits(ds) && n <= |ws| && n <= |ds|
    requires forall i | 0 <= i < n :: ds[i] == '0'
    ensures WeightedSum(ds, ws, n) == 0
  {
    if n > 0 {
      ZeroSum(ds, ws, n - 1);
    }
  }

  /** Fourteen zeros carry correct check digits, yet a repeated digit is rejected. */
  lemma ZerosRejected()
    ensures var z := "00000000000000";
      AllDigits(z) && z[12..] == [DigitChar(FirstCheck(z)), DigitChar(SecondCheck(z))] && !ValidDigits(z)
  {
    var z := "00000000000000";
    ZeroSum(z, FirstWeights, 12);
    ZeroSum(z, SecondWeights, 13);
  }

  // ---------------------------------------------------------------- records

  /** The column added to the rejected records. */
  const RejectionColumn := "motivo_rejeicao"

  /** The mask column the stage writes and drops again from both sides. */
  const MaskColumn := "is_valid"

  const NameReason := "Razão Social Vazia"
  const AmountReason := "Valor Zerado ou Negativo"
  const CnpjReason := "CNPJ Inválido"

  /** `notna() & str.strip() != '' & != 'N/A'`: the `N/A` test is on the unstripped text. */
  predicate NameOk(v: Value)
  {
    v != Null && (v.Str? ==> Strip(v.s) != "" && v.s != "N/A")
  }

  /** `ValorDespesas > 0`, strictly. */
  predicate AmountOk(v: Value)
  {
    Amount(v) > 0.0
  }

  /** Where the three checked columns sit in a row. */
  datatype Checks = Checks(name: nat, amount: nat, cnpj: nat)

  function ChecksOf(cols: seq<string>): (p: Checks)
    requires "RazaoSocial" in cols && "ValorDespesas" in cols && "CNPJ" in cols
    ensures p.name < |cols| && p.amount < |cols| && p.cnpj < |cols|
    ensures cols[p.name] == "RazaoSocial" && cols[p.amount] == "ValorDespesas" && cols[p.cnpj] == "CNPJ"
  {
    Checks(IndexOf(cols, "RazaoSocial"), IndexOf(cols, "ValorDespesas"), IndexOf(cols, "CNPJ"))
  }

  predicate Fits(p: Checks, r: Row)
  {
    p.name < |r| && p.amount < |r| && p.cnpj < |r|
  }

  predicate AllFit(p: Checks, rows: seq<Row>)
  {
    forall r | r in rows :: Fits(p, r)
  }

  /** `is_valid`: the record passes all three checks. */
  predicate RowValid(p: Checks, r: Row)
  {
    Fits(p, r) && NameOk(r[p.name]) && AmountOk(r[p.amount]) && ValidCnpj(r[p.cnpj])
  }

  /** `motivo_rejeicao` once the name check has written it. */
  function NameStage(p: Checks, r: Row): Value
    requires Fits(p, r)
  {
    if !NameOk(r[p.name]) then Str(NameReason) else Null
  }

  /** `motivo_rejeicao` once the amount check has overwritten it. */
  function AmountStage(p: Checks, r: Row): Value
    requires Fits(p, r)
  {
    if !AmountOk(r[p.amount]) then Str(AmountReason) else NameStage(p, r)
  }

  /** `motivo_rejeicao` once the CNPJ check has overwritten it: its final value. */
  function Reason(p: Checks, r: Row): Value
    requires Fits(p, r)
  {
    if !ValidCnpj(r[p.cnpj]) then Str(CnpjReason) else AmountStage(p, r)
  }

  /**
   * A record has no reason exactly when it is valid; otherwise the reason
   * names the last failing check in the order name, amount, CNPJ.
   */
  lemma ReasonIsLastFailure(p: Checks, r: Row)
    requires Fits(p, r)
    ensures Reason(p, r) == Null <==> RowValid(p, r)
    ensures Reason(p, r) == Str(CnpjReason) <==> !ValidCnpj(r[p.cnpj])
    ensures Reason(p, r) == Str(AmountReason) <==> ValidCnpj(r[p.cnpj]) && !AmountOk(r[p.amount])
    ensures Reason(p, r) == Str(NameReason) <==>
              ValidCnpj(r[p.cnpj]) && AmountOk(r[p.amount]) && !NameOk(r[p.name])
  {
    assert NameReason != AmountReason && NameReason != CnpjReason && AmountReason != CnpjReason by {
      assert NameReason[0] != AmountReason[0] && NameReason[0] != CnpjReason[0] && AmountReason[0] != CnpjReason[0];
    }
  }

  /** An amount that does not parse becomes 0 and is rejected; so is any amount at or below 0. */
  lemma AmountRejections(v: Value)
    ensures v.Str? && ParseDecimal(v.s).None? ==> !AmountOk(Numeric(v))
    ensures Amount(v) <= 0.0 <==> !AmountOk(Numeric(v))
  {
  }

  /** A name made only of white space (the empty name included) fails the name check. */
  lemma BlankNameRejected(s: string)
    requires forall i | 0 <= i < |s| :: IsSpace(s[i])
    ensures !NameOk(Str(s))
  {
    StripSpaces(s);
  }

  /** The `is_valid` mask as a function. */
  function IsValid(p: Checks): Row -> bool
  {
    x => RowValid(p, x)
  }

  /** The records that pass: `df[df['is_valid']]`. */
  function ValidRows(p: Checks, rows: seq<Row>): (r: seq<Row>)
    ensures forall x | x in r :: x in rows && RowValid(p, x)
    ensures forall x | x in rows && RowValid(p, x) :: x in r
  {
    Filter(rows, IsValid(p))
  }

  /** The records that fail: `df[~df['is_valid']]`. */
  function RejectedRows(p: Checks, rows: seq<Row>): (r: seq<Row>)
    ensures forall x | x in r :: x in rows && !RowValid(p, x)
    ensures forall x | x in rows && !RowValid(p, x) :: x in r
  {
    FilterOut(rows, IsValid(p))
  }

  /** Together the two sides hold every record exactly once. */
  lemma ValidRejectedPartition(p: Checks, rows: seq<Row>)
    ensures |ValidRows(p, rows)| + |RejectedRows(p, rows)| == |rows|
    ensures multiset(ValidRows(p, rows)) + multiset(RejectedRows(p, rows)) == multiset(rows)
  {
    FilterPartition(rows, IsValid(p));
  }

  /** The rejection reason of each record. */
  function Reasons(p: Checks, rows: seq<Row>): (vs: seq<Value>)
    requires AllFit(p, rows)
    ensures |vs| == |rows| && forall k | 0 <= k < |rows| :: vs[k] == Reason(p, rows[k])
  {
    seq(|rows|, k requires 0 <= k < |rows| => Reason(p, rows[k]))
  }

  /** Each record with its rejection reason appended. */
  function Tagged(p: Checks, rows: seq<Row>): (t: seq<Row>)
    requires AllFit(p, rows)
    ensures |t| == |rows| && forall k | 0 <= k < |rows| :: t[k] == rows[k] + [Reason(p, rows[k])]
  {
    seq(|rows|, k requires 0 <= k < |rows| => rows[k] + [Reason(p, rows[k])])
  }

  /** `pd.to_numeric(..., errors='coerce').fillna(0.0)` on `ValorDespesas`. */
  function Priced(df: Frame): (d: Frame)
    requires WellFormed(df) && "ValorDespesas" in df.columns
    ensures WellFormed(d) && d.columns == df.columns && |d.rows| == |df.rows|
    ensures forall i | 0 <= i < |df.rows| ::
              Cell(d.columns, d.rows[i], "ValorDespesas") == Numeric(Cell(df.columns, df.rows[i], "ValorDespesas"))
    ensures forall i, c | 0 <= i < |df.rows| && c in df.columns && c != "ValorDespesas" ::
              Cell(d.columns, d.rows[i], c) == Cell(df.columns, df.rows[i], c)
  {
    WithColumn(df, "ValorDespesas",
      seq(|df.rows|, i requires 0 <= i < |df.rows| => Numeric(Cell(df.columns, df.rows[i], "ValorDespesas"))))
  }

  /**
   * `df['is_valid'] = ...` overwrites an input column of that name in place,
   * and both sides later `drop` it, so such a column never reaches either
   * output. The checks do not read it, so it is dropped here before them.
   */
  function Unmasked(df: Frame): (d: Frame)
    requires WellFormed(df)
    ensures WellFormed(d) && |d.rows| == |df.rows| && MaskColumn !in d.columns
    ensures forall c :: c in d.columns <==> c in df.columns && c != MaskColumn
    ensures MaskColumn !in df.columns ==> d == df
    ensures forall i, c | 0 <= i < |df.rows| && c in df.columns && c != MaskColumn ::
              Cell(d.columns, d.rows[i], c) == Cell(df.columns, df.rows[i], c)
  {
    if MaskColumn in df.columns then DropColumn(df, MaskColumn) else df
  }

  /** The valid records (the source columns) and the rejected ones (with their reason). */
  datatype Split = Split(valid: Frame, rejected: Frame)

  /** A table with the three checked columns and no reason column yet. */
  predicate Checkable(d: Frame)
  {
    WellFormed(d) && RejectionColumn !in d.columns
    && "RazaoSocial" in d.columns && "ValorDespesas" in d.columns && "CNPJ" in d.columns
  }

  /** The two sides, given the reason of each record. */
  function SplitWith(d: Frame, p: Checks, reasons: seq<Value>): (s: Split)
    requires WellFormed(d) && RejectionColumn !in d.columns && |reasons| == |d.rows|
    ensures s.valid.columns == d.columns && WellFormed(s.valid)
    ensures s.rejected.columns == d.columns + [RejectionColumn] && WellFormed(s.rejected)
  {
    var tagged := WithColumn(d, RejectionColumn, reasons);
    Split(Frame(d.columns, ValidRows(p, d.rows)), Frame(tagged.columns, RejectedRows(p, tagged.rows)))
  }

  /** The masks, the reason column and the two sides, on a table whose amounts are numeric. */
  function SplitChecked(d: Frame): (s: Split)
    requires Checkable(d)
    ensures s.valid.columns == d.columns && WellFormed(s.valid)
    ensures s.rejected.columns == d.columns + [RejectionColumn] && WellFormed(s.rejected)
  {
    var p := ChecksOf(d.columns);
    assert AllFit(p, d.rows);
    SplitWith(d, p, Reasons(p, d.rows))
  }

  /** `run_validation_pipeline` on a loaded table. */
  function Validated(df: Frame): (r: Result<Split>)
    requires WellFormed(df) && RejectionColumn !in df.columns
    ensures r.Ok? <==> "ValorDespesas" in df.columns && "RazaoSocial" in df.columns && "CNPJ" in df.columns
    ensures r.Ok? ==> WellFormed(r.value.valid) && WellFormed(r.value.rejected)
    ensures r.Ok? ==> forall c :: c in r.value.valid.columns <==> c in df.columns && c != MaskColumn
    ensures r.Ok? ==> r.value.rejected.columns == r.value.valid.columns + [RejectionColumn]
    ensures r.Ok? && MaskColumn !in df.columns ==> r.value.valid.columns == df.columns
  {
    if "ValorDespesas" !in df.columns then KeyError("ValorDespesas")
    else if "RazaoSocial" !in df.columns then KeyError("RazaoSocial")
    else if "CNPJ" !in df.columns then KeyError("CNPJ")
    else Ok(SplitChecked(Priced(Unmasked(df))))
  }

  lemma TaggedAppend(p: Checks, a: seq<Row>, b: seq<Row>)
    requires AllFit(p, a) && AllFit(p, b)
    ensures AllFit(p, a + b) && Tagged(p, a + b) == Tagged(p, a) + Tagged(p, b)
  {
    assert forall k | |a| <= k < |a + b| :: (a + b)[k] == b[k - |a|];
  }

  /** The reason column does not affect the checks. */
  lemma TaggedRowValid(p: Checks, r: Row, v: Value)
    requires Fits(p, r)
    ensures RowValid(p, r + [v]) == RowValid(p, r)
  {
    assert (r + [v])[p.name] == r[p.name] && (r + [v])[p.amount] == r[p.amount] && (r + [v])[p.cnpj] == r[p.cnpj];
  }

  /** Tagging every record and then keeping the failing ones tags the failing ones. */
  lemma {:induction false} RejectedThenTagged(p: Checks, rows: seq<Row>)
    requires AllFit(p, rows)
    ensures AllFit(p, RejectedRows(p, rows))
    ensures RejectedRows(p, Tagged(p, rows)) == Tagged(p, RejectedRows(p, rows))
  {
    if rows != [] {
      var x := rows[0];
      var t := Tagged(p, rows);
      assert t[1..] == Tagged(p, rows[1..]);
      RejectedThenTagged(p, rows[1..]);
      TaggedRowValid(p, x, Reason(p, x));
      var head := if RowValid(p, x) then [] else [x];
      RejectedCons(p, t);
      RejectedCons(p, rows);
      assert Tagged(p, head) == if RowValid(p, t[0]) then [] else [t[0]];
      TaggedAppend(p, head, RejectedRows(p, rows[1..]));
    }
  }

  lemma RejectedCons(p: Checks, rows: seq<Row>)
    requires rows != []
    ensures RejectedRows(p, rows) == (if RowValid(p, rows[0]) then [] else [rows[0]]) + RejectedRows(p, rows[1..])
  { }

  /**
   * The valid side holds the records that pass, in their order; the
   * rejected side holds the failing ones, each with its reason appended;
   * between them every record appears exactly once.
   */
  lemma SplitCheckedParts(d: Frame)
    requires Checkable(d)
    ensures var p := ChecksOf(d.columns); var s := SplitChecked(d);
      AllFit(p, d.rows)
      && s.valid.rows == ValidRows(p, d.rows)
      && s.rejected.rows == Tagged(p, RejectedRows(p, d.rows))
      && |s.valid.rows| + |s.rejected.rows| == |d.rows|
      && multiset(s.valid.rows) + multiset(RejectedRows(p, d.rows)) == multiset(d.rows)
  {
    var p := ChecksOf(d.columns);
    assert AllFit(p, d.rows);
    SplitWithTagged(d, p);
    ValidRejectedPartition(p, d.rows);
  }

  lemma SplitWithTagged(d: Frame, p: Checks)
    requires WellFormed(d) && RejectionColumn !in d.columns && AllFit(p, d.rows)
    ensures AllFit(p, RejectedRows(p, d.rows))
    ensures SplitWith(d, p, Reasons(p, d.rows)).rejected.rows == Tagged(p, RejectedRows(p, d.rows))
  {
    var tagged := WithColumn(d, RejectionColumn, Reasons(p, d.rows));
    assert tagged.rows == Tagged(p, d.rows);
    RejectedThenTagged(p, d.rows);
  }

  /** A tagged record is among the tagged rows exactly when the record is among the rows. */
  lemma TaggedMember(p: Checks, rows: seq<Row>, x: Row)
    requires AllFit(p, rows) && Fits(p, x) && forall y | y in rows :: |y| == |x|
    ensures x + [Reason(p, x)] in Tagged(p, rows) <==> x in rows
  {
    var t := Tagged(p, rows);
    if x + [Reason(p, x)] in t {
      var k :| 0 <= k < |t| && t[k] == x + [Reason(p, x)];
      assert rows[k] in rows;
      assert rows[k] == t[k][..|x|] == x;
    }
    if x in rows {
      var k :| 0 <= k < |rows| && rows[k] == x;
      assert t[k] == x + [Reason(p, x)];
    }
  }

  /** Each record lands on exactly one side, decided by the three checks. */
  lemma SplitCheckedRecord(d: Frame, i: nat)
    requires Checkable(d) && i < |d.rows|
    ensures var p := ChecksOf(d.columns); var s := SplitChecked(d);
      Fits(p, d.rows[i])
      && (d.rows[i] in s.valid.rows <==> RowValid(p, d.rows[i]))
      && (d.rows[i] + [Reason(p, d.rows[i])] in s.rejected.rows <==> !RowValid(p, d.rows[i]))
  {
    var p := ChecksOf(d.columns);
    SplitCheckedParts(d);
    var x := d.rows[i];
    assert x in d.rows;
    TaggedMember(p, RejectedRows(p, d.rows), x);
  }

  /**
   * A loaded record is kept, with its amount made numeric, exactly when its
   * name is filled, its amount is above zero and its CNPJ passes the check
   * digits; otherwise it is rejected with its reason.
   */
  lemma RecordOutcome(df: Frame, i: nat)
    requires WellFormed(df) && RejectionColumn !in df.columns && Validated(df).Ok? && i < |df.rows|
    ensures var d := Priced(Unmasked(df)); var p := ChecksOf(d.columns); var v := Validated(df).value;
      var passes := NameOk(Cell(df.columns, df.rows[i], "RazaoSocial"))
        && Amount(Cell(df.columns, df.rows[i], "ValorDespesas")) > 0.0
        && ValidCnpj(Cell(df.columns, df.rows[i], "CNPJ"));
      Fits(p, d.rows[i])
      && (d.rows[i] in v.valid.rows <==> passes)
      && (d.rows[i] + [Reason(p, d.rows[i])] in v.rejected.rows <==> !passes)
  {
    var u := Unmasked(df);
    var d := Priced(u);
    var p := ChecksOf(d.columns);
    SplitCheckedRecord(d, i);
    assert d.rows[i][p.name] == Cell(df.columns, df.rows[i], "RazaoSocial");
    assert d.rows[i][p.cnpj] == Cell(df.columns, df.rows[i], "CNPJ");
    assert d.rows[i][p.amount] == Numeric(Cell(df.columns, df.rows[i], "ValorDespesas"));
  }

  /** A check applied to the cell at position `pos` of every record. */
  function Mask(rows: seq<Row>, pos: nat, ok: Value -> bool): (m: seq<bool>)
    requires forall k | 0 <= k < |rows| :: pos < |rows[k]|
    ensures |m| == |rows| && forall k | 0 <= k < |rows| :: m[k] == ok(rows[k][pos])
  {
    seq(|rows|, k requires 0 <= k < |rows| => ok(rows[k][pos]))
  }

  /** `df.loc[~mask, 'motivo_rejeicao'] = text`: only the failing records are overwritten. */
  method Overwrite(reasons: array<Value>, mask: seq<bool>, text: string)
    requires reasons.Length == |mask|
    modifies reasons
    ensures forall k | 0 <= k < |mask| :: reasons[k] == if mask[k] then old(reasons[k]) else Str(text)
  {
    for i := 0 to |mask|
      invariant forall k | 0 <= k < i :: reasons[k] == if mask[k] then old(reasons[k]) else Str(text)
      invariant forall k | i <= k < |mask| :: reasons[k] == old(reasons[k])
    {
      if !mask[i] {
        reasons[i] := Str(text);
      }
    }
  }

  /**
   * The `motivo_rejeicao` column, written by three passes in the source's
   * order, each overwriting the reason of the records its check fails.
   */
  method RejectionReasons(p: Checks, rows: seq<Row>) returns (rs: seq<Value>)
    requires AllFit(p, rows)
    ensures rs == Reasons(p, rows)
  {
    var reasons := new Value[|rows|](_ => Null);
    assert forall k | 0 <= k < |rows| :: Fits(p, rows[k]) by {
      forall k | 0 <= k < |rows| ensures Fits(p, rows[k]) {
        assert rows[k] in rows;
      }
    }
    Overwrite(reasons, Mask(rows, p.name, NameOk), NameReason);
    assert forall k | 0 <= k < |rows| :: reasons[k] == NameStage(p, rows[k]);
    Overwrite(reasons, Mask(rows, p.amount, AmountOk), AmountReason);
    assert forall k | 0 <= k < |rows| :: reasons[k] == AmountStage(p, rows[k]);
    Overwrite(reasons, Mask(rows, p.cnpj, ValidCnpj), CnpjReason);
    rs := reasons[..];
  }

  /** `run_validation_pipeline` step by step. */
  method RunValidation(df: Frame) returns (r: Result<Split>)
    requires WellFormed(df) && RejectionColumn !in df.columns
    ensures r == Validated(df)
  {
    if "ValorDespesas" !in df.columns {
      return KeyError("ValorDespesas");
    }
    if "RazaoSocial" !in df.columns {
      return KeyError("RazaoSocial");
    }
    if "CNPJ" !in df.columns {
      return KeyError("CNPJ");
    }
    var d := Priced(Unmasked(df));
    var p := ChecksOf(d.columns);
    assert AllFit(p, d.rows);
    var reasons := RejectionReasons(p, d.rows);
    r := Ok(SplitWith(d, p, reasons));
  }
}
