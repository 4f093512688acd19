/**
 * Stage 1.2: Brazilian-format amounts, the header alias table, the
 * expense-account filter and the consolidation of every extracted file into
 * one CSV output.
 */
module Processing {
  import opened Outcomes
  import opened Strings
  import opened Numbers
  import opened Frames

  // ------------------------------------------------------------ amounts

  /**
   * `clean_currency`: on text, every `.` (thousands separator) is removed,
   * every `,` becomes the decimal point and the result is read as a float,
   * 0.0 when it does not read; anything else is returned unchanged.
   */
  function CleanCurrency(v: Value): (r: Value)
    ensures v.Str? ==> r.Num?
    ensures !v.Str? ==> r == v
  {
    match v
    case Str(s) =>
      (match ParseDecimal(ReplaceChar(Delete(s, '.'), ',', '.'))
       case Some(d) => Num(d)
       case None => Num(Decimal(0, 0)))
    case _ => v
  }

  /** `a` written with `.` between groups of three digits, as in "1.234.567". */
  function Thousands(t: string): (g: string)
    ensures forall x | x in g :: x == '.' || x in t
  {
    if |t| <= 3 then t else Thousands(t[..|t| - 3]) + "." + t[|t| - 3..]
  }

  /** An amount of `cents` written in the Brazilian format, e.g. "-1.234,05". */
  function BrlText(cents: int): string
  {
    var a := if cents < 0 then -cents else cents;
    (if cents < 0 then "-" else "") + Thousands(NatText(Shift(a, 2))) + "," + LastDigits(a, 2)
  }

  lemma {:induction false} DeleteAppend(a: string, b: string, c: char)
    ensures Delete(a + b, c) == Delete(a, c) + Delete(b, c)
  {
    if a == [] {
      assert a + b == b;
    } else {
      assert (a + b)[1..] == a[1..] + b;
      DeleteAppend(a[1..], b, c);
    }
  }

  lemma {:induction false} DeleteAbsent(a: string, c: char)
    requires c !in a
    ensures Delete(a, c) == a
  {
    if a != [] {
      DeleteAbsent(a[1..], c);
    }
  }

  /** Removing the separators gives back the digits. */
  lemma {:induction false} ThousandsDelete(t: string)
    requires AllDigits(t)
    ensures Delete(Thousands(t), '.') == t
  {
    if |t| > 3 {
      var head, tail := t[..|t| - 3], t[|t| - 3..];
      assert '.' !in tail && Thousands(t) == Thousands(head) + "." + tail;
      ThousandsDelete(head);
      DeleteSeparator(Thousands(head), tail);
      assert t == head + tail;
    } else {
      assert '.' !in t;
      DeleteAbsent(t, '.');
    }
  }

  lemma DeleteSeparator(a: string, tail: string)
    requires '.' !in tail
    ensures Delete(a + "." + tail, '.') == Delete(a, '.') + tail
  {
    var d := Delete(a, '.');
    assert Delete(".", '.') == "";
    DeleteAppend(a, ".", '.');
    assert Delete(a + ".", '.') == d + "" == d;
    DeleteAppend(a + ".", tail, '.');
    DeleteAbsent(tail, '.');
  }

  lemma ReplaceCharAppend(a: string, b: string, x: char, y: char)
    ensures ReplaceChar(a + b, x, y) == ReplaceChar(a, x, y) + ReplaceChar(b, x, y)
  {
  }

  lemma ReplaceCharAbsent(a: string, x: char, y: char)
    requires x !in a
    ensures ReplaceChar(a, x, y) == a
  {
  }

  /**
   * The Brazilian text of an amount reads back as exactly that amount:
   * `clean_currency` inverts the display format.
   */
  lemma BrlTextRoundTrip(cents: int)
    ensures CleanCurrency(Str(BrlText(cents))) == Num(Decimal(cents, 2))
  {
    var a := if cents < 0 then -cents else cents;
    var ip, fp := NatText(Shift(a, 2)), LastDigits(a, 2);
    var sign := if cents < 0 then "-" else "";
    assert BrlText(cents) == sign + Thousands(ip) + "," + fp;
    SeparatorsRemoved(sign, ip, fp);
    CommaBecomesPoint(sign, ip, fp);
    SignedPointParse(cents);
  }

  lemma SeparatorsRemoved(sign: string, ip: string, fp: string)
    requires AllDigits(ip) && AllDigits(fp) && '.' !in sign
    ensures Delete(sign + Thousands(ip) + "," + fp, '.') == sign + ip + "," + fp
  {
    DeleteAppend(sign + Thousands(ip) + ",", fp, '.');
    DeleteAppend(sign + Thousands(ip), ",", '.');
    DeleteAppend(sign, Thousands(ip), '.');
    ThousandsDelete(ip);
    DeleteAbsent(fp, '.');
    DeleteAbsent(sign, '.');
    assert Delete(",", '.') == ",";
  }

  lemma CommaBecomesPoint(sign: string, ip: string, fp: string)
    requires AllDigits(ip) && AllDigits(fp) && ',' !in sign
    ensures ReplaceChar(sign + ip + "," + fp, ',', '.') == sign + ip + "." + fp
  {
    ReplaceCharAppend(sign + ip + ",", fp, ',', '.');
    ReplaceCharAppend(sign + ip, ",", ',', '.');
    ReplaceCharAppend(sign, ip, ',', '.');
    ReplaceCharAbsent(fp, ',', '.');
    ReplaceCharAbsent(ip, ',', '.');
    ReplaceCharAbsent(sign, ',', '.');
  }

  lemma SignedPointParse(cents: int)
    ensures var a := if cents < 0 then -cents else cents;
            var t := (if cents < 0 then "-" else "") + NatText(Shift(a, 2)) + "." + LastDigits(a, 2);
            ParseDecimal(t) == Some(Decimal(cents, 2))
  {
    var a := if cents < 0 then -cents else cents;
    PointParse(a);
    var body := NatText(Shift(a, 2)) + "." + LastDigits(a, 2);
    if cents < 0 {
      var t := "-" + body;
      assert t == "-" + NatText(Shift(a, 2)) + "." + LastDigits(a, 2);
      assert t[1..] == body;
    } else {
      assert "" + NatText(Shift(a, 2)) + "." + LastDigits(a, 2) == body;
      assert IsDigit(body[0]);
    }
  }

  lemma PointParse(a: nat)
    ensures ParseUnsigned(NatText(Shift(a, 2)) + "." + LastDigits(a, 2)) == Some(Decimal(a, 2))
  {
    FixedTextParse(a, 2);
  }

  lemma BrlTextThousand()
    ensures BrlText(100000) == "1.000,00"
  {
    assert Shift(100000, 2) == 1000;
    NatText1000();
    LastDigitsZero();
    ThousandsOf1000();
    assert BrlText(100000) == "" + "1.000" + "," + "00";
  }

  lemma NatText1000()
    ensures NatText(1000) == "1000"
  {
    assert NatText(1) == "1";
    assert NatText(10) == NatText(1) + "0";
    assert NatText(100) == NatText(10) + "0";
    assert NatText(1000) == NatText(100) + "0";
  }

  lemma LastDigitsZero()
    ensures LastDigits(100000, 2) == "00"
  {
    assert LastDigits(1000, 1) == LastDigits(100, 0) + "0";
  }

  lemma ThousandsOf1000()
    ensures Thousands("1000") == "1.000"
  {
    assert "1000"[..1] == "1" && "1000"[1..] == "000";
  }

  lemma BrlTextFifty()
    ensures BrlText(5055) == "50,55"
  {
    assert Shift(5055, 2) == 50;
    assert NatText(50) == "50" by { assert NatText(5) == "5"; }
    assert LastDigits(5055, 2) == "55" by {
      assert LastDigits(505, 1) == LastDigits(50, 0) + "5";
    }
  }

  lemma BrlTextZero()
    ensures BrlText(0) == "0,00"
  {
    assert LastDigits(0, 2) == "00" by {
      assert LastDigits(0, 1) == "0";
    }
  }

  /** The amounts of the unit tests of the cleaning step. */
  lemma ExamplesBrl()
    ensures CleanCurrency(Str("1.000,00")) == Num(Decimal(100000, 2))
    ensures CleanCurrency(Str("50,55")) == Num(Decimal(5055, 2))
    ensures CleanCurrency(Str("0,00")) == Num(Decimal(0, 2))
  {
    BrlTextRoundTrip(100000);
    BrlTextThousand();
    BrlTextRoundTrip(5055);
    BrlTextFifty();
    BrlTextRoundTrip(0);
    BrlTextZero();
  }

  /** The empty string does not read as a number and becomes 0.0. */
  lemma ExampleEmpty()
    ensures CleanCurrency(Str("")) == Num(Decimal(0, 0))
  {
    assert Delete("", '.') == "";
  }

  /** Text with two commas never reads as a number: it becomes 0.0. */
  lemma TwoCommasGiveZero(s: string, i: nat, j: nat)
    requires i < j < |s| && s[i] == ',' && s[j] == ','
    ensures CleanCurrency(Str(s)) == Num(Decimal(0, 0))
  {
    DeleteKeeps(s, '.', i, j);
    var d := Delete(s, '.');
    var i': nat, j': nat :| i' < j' < |d| && d[i'] == ',' && d[j'] == ',';
    var t := ReplaceChar(d, ',', '.');
    assert t[i'] == '.' && t[j'] == '.';
    TwoDotsUnparsable(t, i', j');
  }

  /** Deleting a character keeps two other characters in order. */
  lemma {:induction false} DeleteKeeps(s: string, c: char, i: nat, j: nat)
    requires i < j < |s| && s[i] != c && s[j] != c
    ensures exists i': nat, j': nat :: i' < j' < |Delete(s, c)| && Delete(s, c)[i'] == s[i] && Delete(s, c)[j'] == s[j]
  {
    var rest := Delete(s[1..], c);
    var head: string := if s[0] == c then "" else [s[0]];
    assert Delete(s, c) == head + rest;
    if i == 0 {
      DeleteKeepsOne(s[1..], c, j - 1);
      var j': nat :| j' < |rest| && rest[j'] == s[j];
      assert Delete(s, c)[|head| + j'] == s[j];
      assert Delete(s, c)[0] == s[0];
    } else {
      DeleteKeeps(s[1..], c, i - 1, j - 1);
      var i': nat, j': nat :| i' < j' < |rest| && rest[i'] == s[1..][i - 1] && rest[j'] == s[1..][j - 1];
      assert Delete(s, c)[|head| + i'] == s[i];
      assert Delete(s, c)[|head| + j'] == s[j];
    }
  }

  lemma {:induction false} DeleteKeepsOne(s: string, c: char, j: nat)
    requires j < |s| && s[j] != c
    ensures exists j': nat :: j' < |Delete(s, c)| && Delete(s, c)[j'] == s[j]
  {
    var rest := Delete(s[1..], c);
    var head: string := if s[0] == c then "" else [s[0]];
    assert Delete(s, c) == head + rest;
    if j == 0 {
      assert Delete(s, c)[0] == s[0];
    } else {
      DeleteKeepsOne(s[1..], c, j - 1);
      var j': nat :| j' < |rest| && rest[j'] == s[1..][j - 1];
      assert Delete(s, c)[|head| + j'] == s[j];
    }
  }

  /** After the first `.` the fraction holds another `.`, so it is not all digits. */
  lemma TwoDotsUnparsable(t: string, i: nat, j: nat)
    requires i < j < |t| && t[i] == '.' && t[j] == '.'
    ensures ParseDecimal(t) == None
  {
    if t[0] == '-' || t[0] == '+' {
      assert i > 0;
      UnsignedTwoDots(t[1..], i - 1, j - 1);
    } else {
      UnsignedTwoDots(t, i, j);
    }
  }

  lemma UnsignedTwoDots(b: string, i: nat, j: nat)
    requires i < j < |b| && b[i] == '.' && b[j] == '.'
    ensures ParseUnsigned(b) == None
  {
    var dot := FirstMatch(b, 0, IsDot);
    assert IsDot(b, i);
    var k := dot.value;
    assert k <= i;
    var fp := b[k + 1..];
    assert fp[j - k - 1] == '.';
  }

  // ------------------------------------------------------------ schema

  const ColumnMapping: map<string, string> := map[
    "DATA" := "data_referencia", "DT_REGISTRO" := "data_referencia",
    "ANO_TRIMESTRE" := "data_referencia",
    "REG_ANS" := "reg_ans", "REGISTRO_ANS" := "reg_ans", "CD_OPERADORA" := "reg_ans",
    "CD_CONTA_CONTABIL" := "cd_conta_contabil", "CONTA" := "cd_conta_contabil",
    "DESCRICAO" := "descricao", "DS_CONTA" := "descricao",
    "VL_SALDO_FINAL" := "vl_saldo_final", "VALOR" := "vl_saldo_final",
    "SALDO" := "vl_saldo_final"]

  const FinalColumns: seq<string> :=
    ["reg_ans", "cd_conta_contabil", "descricao", "vl_saldo_final", "arquivo_origem"]

  const Account := "cd_conta_contabil"

  /** A header after `upper().strip()` and the alias table. */
  function Header(c: string): string
  {
    Renamed(Strip(Upper(c)), ColumnMapping)
  }

  function Headers(cols: seq<string>): (h: seq<string>)
    ensures |h| == |cols| && forall i | 0 <= i < |cols| :: h[i] == Header(cols[i])
  {
    seq(|cols|, i requires 0 <= i < |cols| => Header(cols[i]))
  }

  lemma UpperOfLower(c: char)
    ensures UpperChar(LowerChar(c)) == UpperChar(c)
  {
  }

  /** Header matching does not depend on the case the file uses. */
  lemma HeaderIgnoresCase(c: string)
    ensures Header(Lower(c)) == Header(c)
  {
    forall i | 0 <= i < |c| ensures Upper(Lower(c))[i] == Upper(c)[i] {
      UpperOfLower(c[i]);
    }
    assert Upper(Lower(c)) == Upper(c);
  }

  /** The three amount aliases all land on `vl_saldo_final`. */
  lemma AmountAliases()
    ensures Header("VL_SALDO_FINAL") == "vl_saldo_final"
    ensures Header("VALOR") == "vl_saldo_final"
    ensures Header("SALDO") == "vl_saldo_final"
  {
    AliasHeader("VL_SALDO_FINAL");
    AliasHeader("VALOR");
    AliasHeader("SALDO");
  }

  lemma AliasHeader(c: string)
    requires c == "VL_SALDO_FINAL" || c == "VALOR" || c == "SALDO"
    ensures Header(c) == "vl_saldo_final"
  {
    assert forall i | 0 <= i < |c| :: 'A' <= c[i] <= 'Z' || c[i] == '_';
    HeaderOf(c);
    assert c in ColumnMapping && ColumnMapping[c] == "vl_saldo_final";
  }

  /**
   * A raw file the model can normalise: rows as wide as the header, and no
   * two headers that end up with the same name (pandas would then hold two
   * columns of that name).
   */
  predicate Loadable(f: Frame)
  {
    (forall r | r in f.rows :: |r| == |f.columns|) && Distinct(Headers(f.columns))
  }

  /** `str.startswith('4', na=False)` on an account code. */
  predicate IsExpenseAccount(v: Value)
  {
    v.Str? && StartsWith(v.s, "4")
  }

  /** The rows that survive the account filter: all of them when there is no account column. */
  function ExpenseRows(cols: seq<string>, rows: seq<Row>): (e: seq<Row>)
    ensures |e| <= |rows| && forall r | r in e :: r in rows
    ensures Account !in cols ==> e == rows
    ensures Account in cols ==> forall r | r in e ::
              IndexOf(cols, Account) < |r| && IsExpenseAccount(r[IndexOf(cols, Account)])
    ensures Account in cols ==> forall r | r in rows ::
              IndexOf(cols, Account) < |r| && IsExpenseAccount(r[IndexOf(cols, Account)]) ==> r in e
  {
    if Account in cols then
      var k := IndexOf(cols, Account);
      Filter(rows, r => k < |r| && IsExpenseAccount(r[k]))
    else rows
  }

  /** A column of the source row, or a missing value when there is no such column. */
  function SourceCell(cols: seq<string>, r: Row, c: string): Value
    requires |r| == |cols|
  {
    if c in cols then Cell(cols, r, c) else Null
  }

  /** The five output cells of one kept row. */
  function OutputRow(cols: seq<string>, r: Row, filename: string): (o: Row)
    requires |r| == |cols|
    ensures |o| == |FinalColumns|
    ensures o[1] == SourceCell(cols, r, Account) && o[4] == Str(filename)
  {
    [SourceCell(cols, r, "reg_ans"), SourceCell(cols, r, Account), SourceCell(cols, r, "descricao"),
     CleanCurrency(SourceCell(cols, r, "vl_saldo_final")), Str(filename)]
  }

  /** The output row of each kept row, in order. */
  function OutputRows(cols: seq<string>, rows: seq<Row>, filename: string): (o: seq<Row>)
    requires forall r | r in rows :: |r| == |cols|
    ensures |o| == |rows| && forall i | 0 <= i < |rows| :: o[i] == OutputRow(cols, rows[i], filename)
  {
    seq(|rows|, i requires 0 <= i < |rows| => OutputRow(cols, rows[i], filename))
  }

  lemma OutputRowsShape(cols: seq<string>, rows: seq<Row>, filename: string)
    requires forall r | r in rows :: |r| == |cols|
    ensures var o := OutputRows(cols, rows, filename);
            (forall r | r in o :: |r| == |FinalColumns| && r[4] == Str(filename)) &&
            (forall i | 0 <= i < |rows| :: o[i][1] == SourceCell(cols, rows[i], Account))
  {
  }

  /**
   * `normalize_dataframe`: nothing for no input or when no row (or no column)
   * is left; otherwise the kept rows in the five output columns.
   */
  function Normalized(df: Option<Frame>, filename: string): (r: Option<Frame>)
    requires df.Some? ==> Loadable(df.value)
    ensures r.Some? ==> r.value.columns == FinalColumns && WellFormed(r.value)
    ensures r.Some? ==> |r.value.rows| >= 1
    ensures r.Some? ==> forall row | row in r.value.rows :: row[4] == Str(filename)
    ensures df.None? ==> r.None?
  {
    if df.None? then None
    else
      var cols := Headers(df.value.columns);
      var rows := ExpenseRows(cols, df.value.rows);
      if |rows| == 0 || |cols| == 0 then None
      else
        FinalPositions();
        OutputRowsShape(cols, rows, filename);
        Some(Frame(FinalColumns, OutputRows(cols, rows, filename)))
  }

  /**
   * With an account column, every row that comes out has an account code
   * starting with '4'; rows with a missing code are gone.
   */
  lemma NormalizedKeepsExpenses(df: Frame, filename: string)
    requires Loadable(df) && Account in Headers(df.columns)
    ensures var r := Normalized(Some(df), filename);
            r.Some? ==> forall i | 0 <= i < |r.value.rows| :: IsExpenseAccount(r.value.rows[i][1])
  {
    var cols := Headers(df.columns);
    NormalizedRows(df, filename);
    ExpenseOutputs(cols, ExpenseRows(cols, df.rows), filename);
  }

  lemma {:induction false} ExpenseOutputs(cols: seq<string>, rows: seq<Row>, filename: string)
    requires Account in cols
    requires forall r | r in rows :: |r| == |cols| && IsExpenseAccount(r[IndexOf(cols, Account)])
    ensures forall i | 0 <= i < |rows| :: IsExpenseAccount(OutputRows(cols, rows, filename)[i][1])
  {
    forall i | 0 <= i < |rows| ensures IsExpenseAccount(OutputRows(cols, rows, filename)[i][1]) {
      assert rows[i] in rows;
      ExpenseOutput(cols, rows[i], filename);
    }
  }

  lemma ExpenseOutput(cols: seq<string>, r: Row, filename: string)
    requires Account in cols && |r| == |cols| && IsExpenseAccount(r[IndexOf(cols, Account)])
    ensures IsExpenseAccount(OutputRow(cols, r, filename)[1])
  { }

  /** The rows `Normalized` produces, one per kept source row, in order. */
  lemma NormalizedRows(df: Frame, filename: string)
    requires Loadable(df)
    ensures var cols := Headers(df.columns);
            var rows := ExpenseRows(cols, df.rows);
            var r := Normalized(Some(df), filename);
            (r.Some? <==> |rows| > 0 && |cols| > 0) &&
            (r.Some? ==> r.value.rows == OutputRows(cols, rows, filename))
  {
  }

  /** A table with the rows `Normalized` describes is its result. */
  lemma NormalizedIs(df: Frame, filename: string, out: Frame)
    requires Loadable(df)
    requires var cols := Headers(df.columns);
             var rows := ExpenseRows(cols, df.rows);
             |rows| > 0 && |cols| > 0 && out.columns == FinalColumns && |out.rows| == |rows| &&
             forall i | 0 <= i < |rows| :: out.rows[i] == OutputRow(cols, rows[i], filename)
    ensures Normalized(Some(df), filename) == Some(out)
  {
    NormalizedRows(df, filename);
    assert out.rows == Normalized(Some(df), filename).value.rows;
  }


  /** Without an account column nothing is filtered: every row comes out. */
  lemma NormalizedWithoutAccount(df: Frame, filename: string)
    requires Loadable(df) && Account !in Headers(df.columns) && |df.columns| > 0
    ensures var r := Normalized(Some(df), filename);
            (r.Some? <==> |df.rows| > 0) && (r.Some? ==> |r.value.rows| == |df.rows|)
  {
    assert ExpenseRows(Headers(df.columns), df.rows) == df.rows;
  }

  /**
   * A file whose account codes are all outside the expense class (none
   * starts with '4') gives nothing at all.
   */
  lemma NonExpenseFileGivesNothing(df: Frame, filename: string)
    requires Loadable(df) && Account in Headers(df.columns)
    requires forall r | r in df.rows :: !IsExpenseAccount(Cell(Headers(df.columns), r, Account))
    ensures Normalized(Some(df), filename) == None
  {
    var cols := Headers(df.columns);
    var e := ExpenseRows(cols, df.rows);
    var k := IndexOf(cols, Account);
    var keep := (r: Row) => k < |r| && IsExpenseAccount(r[k]);
    assert forall r | r in df.rows :: !keep(r);
    FilterNone(df.rows, keep);
    assert e == Filter(df.rows, keep);
  }

  /** An upper-case name without spaces goes straight through the alias table. */
  lemma HeaderOf(c: string)
    requires forall i | 0 <= i < |c| :: 'A' <= c[i] <= 'Z' || c[i] == '_'
    ensures Header(c) == Renamed(c, ColumnMapping)
  {
    UpperUnchanged(c);
    StripNoSpace(c);
  }

  lemma UpperUnchanged(c: string)
    requires forall i | 0 <= i < |c| :: 'A' <= c[i] <= 'Z' || c[i] == '_'
    ensures Upper(c) == c && forall i | 0 <= i < |c| :: !IsSpace(c[i])
  {
    assert forall i | 0 <= i < |c| :: Upper(c)[i] == c[i];
  }

  lemma RowFromCells(cols: seq<string>, r: Row, e: Row)
    requires Distinct(cols) && |r| == |cols| == |e|
    requires forall p | 0 <= p < |cols| :: Cell(cols, r, cols[p]) == e[p]
    ensures r == e
  {
    forall p | 0 <= p < |cols| ensures r[p] == e[p] {
      IndexOfDistinct(cols, p);
    }
  }

  /**
   * `normalize_dataframe` step by step: new headers, the account filter,
   * the empty check, the loop adding missing columns, the projection, the
   * lineage column and the amount clean-up.
   */
  method NormalizeFrame(df: Option<Frame>, filename: string) returns (r: Option<Frame>)
    requires df.Some? ==> Loadable(df.value)
    ensures r == Normalized(df, filename)
  {
    if df.None? {
      return None;
    }
    var cols := Headers(df.value.columns);
    var f := Frame(cols, df.value.rows);
    if Account in f.columns {
      var k := IndexOf(f.columns, Account);
      f := Frame(f.columns, Filter(f.rows, r => k < |r| && IsExpenseAccount(r[k])));
    }
    var rows := f.rows;
    assert rows == ExpenseRows(cols, df.value.rows);
    if |f.rows| == 0 || |f.columns| == 0 {
      return None;
    }
    var out := ProjectOutput(f, filename);
    NormalizedIs(df.value, filename, out);
    r := Some(out);
  }

  /**
   * `g` is `f` with extra columns of missing values: every column of `f` is
   * still there with its cells, and every other column holds only `Null`.
   */
  predicate PaddedWithNulls(f: Frame, g: Frame)
    requires WellFormed(f) && WellFormed(g) && |g.rows| == |f.rows|
  {
    (forall c | c in f.columns :: c in g.columns) &&
    (forall i, c | 0 <= i < |f.rows| && c in f.columns ::
       Cell(g.columns, g.rows[i], c) == Cell(f.columns, f.rows[i], c)) &&
    (forall i, c | 0 <= i < |f.rows| && c in g.columns && c !in f.columns ::
       Cell(g.columns, g.rows[i], c) == Null)
  }

  lemma PadOne(f: Frame, g: Frame, c: string)
    requires WellFormed(f) && WellFormed(g) && |g.rows| == |f.rows| && PaddedWithNulls(f, g)
    requires c !in g.columns
    ensures var h := WithColumn(g, c, Nulls(|g.rows|));
            |h.rows| == |f.rows| && PaddedWithNulls(f, h) && h.columns == g.columns + [c]
  {
    assert forall d | d in f.columns :: d in g.columns && d != c;
  }

  /**
   * The loop of `normalize_dataframe` that adds each wanted column the table
   * lacks, filled with missing values; the columns it has keep their cells.
   */
  method AddMissingColumns(f: Frame, wanted: seq<string>) returns (g: Frame)
    requires WellFormed(f)
    ensures WellFormed(g) && |g.rows| == |f.rows| && PaddedWithNulls(f, g)
    ensures forall c | c in wanted :: c in g.columns
    ensures forall c | c in g.columns :: c in f.columns || c in wanted
  {
    g := f;
    for j := 0 to |wanted|
      invariant WellFormed(g) && |g.rows| == |f.rows| && PaddedWithNulls(f, g)
      invariant forall c | c in wanted[..j] :: c in g.columns
      invariant forall c | c in g.columns :: c in f.columns || c in wanted
    {
      var c := wanted[j];
      assert wanted[..j + 1] == wanted[..j] + [c];
      if c !in g.columns {
        PadOne(f, g, c);
        g := WithColumn(g, c, Nulls(|g.rows|));
      }
    }
    assert wanted[..|wanted|] == wanted;
  }

  /**
   * The rest of `normalize_dataframe` once rows are kept: the missing output
   * columns are added, the five output columns selected, the lineage column
   * set and the amounts cleaned; each row becomes its `OutputRow`.
   */
  method ProjectOutput(f: Frame, filename: string) returns (out: Frame)
    requires WellFormed(f)
    ensures out.columns == FinalColumns && |out.rows| == |f.rows|
    ensures forall i | 0 <= i < |f.rows| :: out.rows[i] == OutputRow(f.columns, f.rows[i], filename)
  {
    FinalPositions();
    var g := AddMissingColumns(f, FinalColumns);
    var selected := Select(g, FinalColumns);
    var lineage := WithColumn(selected, "arquivo_origem", seq(|selected.rows|, _ => Str(filename)));
    var amounts := seq(|lineage.rows|, i requires 0 <= i < |lineage.rows| =>
                         CleanCurrency(Cell(lineage.columns, lineage.rows[i], "vl_saldo_final")));
    out := WithColumn(lineage, "vl_saldo_final", amounts);
    assert lineage.columns == FinalColumns && out.columns == FinalColumns;
    forall i | 0 <= i < |f.rows| ensures out.rows[i] == OutputRow(f.columns, f.rows[i], filename) {
      var src := selected.rows[i];
      SelectedCells(f, g, FinalColumns, i);
      assert lineage.rows[i] == src[4 := Str(filename)];
      assert amounts[i] == CleanCurrency(src[3]);
      OutputRowOf(f.columns, f.rows[i], filename, src);
    }
  }

  lemma OutputRowOf(cols: seq<string>, r: Row, filename: string, src: Row)
    requires |r| == |cols| && |src| == |FinalColumns|
    requires forall p | 0 <= p < |FinalColumns| :: src[p] == SourceCell(cols, r, FinalColumns[p])
    ensures src[4 := Str(filename)][3 := CleanCurrency(src[3])] == OutputRow(cols, r, filename)
  {
  }

  /** After padding, the selected columns of a row hold the source cells or nothing. */
  lemma SelectedCells(f: Frame, g: Frame, wanted: seq<string>, i: nat)
    requires WellFormed(f) && WellFormed(g) && |g.rows| == |f.rows| && PaddedWithNulls(f, g)
    requires forall c | c in wanted :: c in g.columns
    requires i < |f.rows|
    ensures forall p | 0 <= p < |wanted| ::
              Project(g.columns, g.rows[i], wanted)[p] == SourceCell(f.columns, f.rows[i], wanted[p])
  {
    forall p | 0 <= p < |wanted|
      ensures Cell(g.columns, g.rows[i], wanted[p]) == SourceCell(f.columns, f.rows[i], wanted[p])
    {
      var c := wanted[p];
      assert c in wanted;
      if c in f.columns {
        assert Cell(g.columns, g.rows[i], c) == Cell(f.columns, f.rows[i], c);
      } else {
        assert Cell(g.columns, g.rows[i], c) == Null;
      }
    }
  }

  /** Where the lineage and amount columns sit among the output columns. */
  lemma FinalPositions()
    ensures |FinalColumns| == 5 && Distinct(FinalColumns)
    ensures "vl_saldo_final" in FinalColumns && "arquivo_origem" in FinalColumns
    ensures IndexOf(FinalColumns, "vl_saldo_final") == 3
    ensures IndexOf(FinalColumns, "arquivo_origem") == 4
  {
    IndexOfDistinct(FinalColumns, 3);
    IndexOfDistinct(FinalColumns, 4);
  }

  // -------------------------------------------------------- consolidation

  /** One line of the consolidated CSV file. */
  datatype Line = HeaderLine(names: seq<string>) | DataLine(fields: seq<string>)

  /** A cell as `to_csv` writes it: a missing value is an empty field. */
  function CsvField(v: Value): string
  {
    if v.Null? then "" else Text(v)
  }

  function DataLines(rows: seq<Row>): (ls: seq<Line>)
    ensures |ls| == |rows|
  {
    seq(|rows|, i requires 0 <= i < |rows| => DataLine(seq(|rows[i]|, j requires 0 <= j < |rows[i]| => CsvField(rows[i][j]))))
  }

  /** The consolidated output file, `despesas_consolidadas.csv`. */
  class OutputFile {
    var lines: seq<Line>

    constructor(initial: seq<Line>)
      ensures lines == initial
    {
      lines := initial;
    }

    /** `to_csv(mode='w' or 'a', header=...)`: truncate or append, then write. */
    method Write(f: Frame, append: bool, header: bool)
      modifies this
      ensures lines == (if append then old(lines) else [])
                       + (if header then [HeaderLine(f.columns)] else [])
                       + DataLines(f.rows)
    {
      var start := if append then lines else [];
      lines := start + (if header then [HeaderLine(f.columns)] else []) + DataLines(f.rows);
    }
  }

  /** A data or text file found inside the downloaded archives, as loaded. */
  datatype InputFile = InputFile(name: string, content: Option<Frame>)

  predicate IsTableFile(name: string)
  {
    EndsWith(Lower(name), ".csv") || EndsWith(Lower(name), ".txt")
  }

  predicate AllLoadable(files: seq<InputFile>)
  {
    forall f | f in files :: f.content.Some? ==> Loadable(f.content.value)
  }

  /** What one file contributes: its normalised table, if it is a table file and one is left. */
  function Emitted(f: InputFile): (outs: seq<Frame>)
    requires f.content.Some? ==> Loadable(f.content.value)
    ensures |outs| <= 1
  {
    if IsTableFile(f.name) then
      match Normalized(f.content, f.name)
      case Some(o) => [o]
      case None => []
    else []
  }

  /** The normalised tables that get written, in file order. */
  function Outputs(files: seq<InputFile>): (outs: seq<Frame>)
    requires AllLoadable(files)
    ensures forall o | o in outs :: o.columns == FinalColumns && |o.rows| >= 1
  {
    if files == [] then []
    else Outputs(files[..|files| - 1]) + Emitted(files[|files| - 1])
  }

  lemma OutputsSnoc(files: seq<InputFile>, i: nat)
    requires AllLoadable(files) && i < |files|
    ensures Outputs(files[..i + 1]) == Outputs(files[..i]) + Emitted(files[i])
  {
    assert files[..i + 1][..i] == files[..i];
  }

  function AllRows(outs: seq<Frame>): seq<Row>
  {
    if outs == [] then [] else AllRows(outs[..|outs| - 1]) + outs[|outs| - 1].rows
  }

  lemma AllRowsSnoc(outs: seq<Frame>, more: seq<Frame>)
    requires |more| <= 1
    ensures AllRows(outs + more) == AllRows(outs) + (if more == [] then [] else more[0].rows)
  {
    if more == [] {
      assert outs + more == outs;
    } else {
      assert (outs + more)[..|outs|] == outs;
    }
  }

  lemma {:induction false} DataLinesAppend(a: seq<Row>, b: seq<Row>)
    ensures DataLines(a + b) == DataLines(a) + DataLines(b)
  {
    var ab := a + b;
    forall i | 0 <= i < |ab| ensures DataLines(ab)[i] == (DataLines(a) + DataLines(b))[i] {
      if i < |a| { assert ab[i] == a[i]; } else { assert ab[i] == b[i - |a|]; }
    }
  }

  /**
   * What the output file holds once `outs` have been written to it: its
   * earlier contents when nothing was written, else the header and the rows
   * of every written table in order.
   */
  predicate Holds(initial: seq<Line>, lines: seq<Line>, outs: seq<Frame>)
  {
    if outs == [] then lines == initial
    else lines == [HeaderLine(FinalColumns)] + DataLines(AllRows(outs))
  }

  /** One write extends the file by the rows written, the header coming with the first. */
  lemma WriteStep(initial: seq<Line>, prev: seq<Line>, before: seq<Frame>, o: Frame, lines: seq<Line>)
    requires Holds(initial, prev, before) && o.columns == FinalColumns
    requires lines == (if before != [] then prev else [])
                      + (if before == [] then [HeaderLine(FinalColumns)] else []) + DataLines(o.rows)
    ensures Holds(initial, lines, before + [o])
  {
    var header := [HeaderLine(FinalColumns)];
    AllRowsSnoc(before, [o]);
    var all := AllRows(before) + o.rows;
    if before == [] {
      assert AllRows(before) == [];
      assert all == o.rows;
      assert lines == [] + header + DataLines(o.rows);
    } else {
      assert lines == prev + [] + DataLines(o.rows);
      DataLinesAppend(AllRows(before), o.rows);
      assert lines == header + (DataLines(AllRows(before)) + DataLines(o.rows));
    }
  }

  /**
   * The file loop of stage 1.2: each table file is normalised; the first
   * non-empty result truncates the output and writes the header, later ones
   * are appended without it. The count is the number of rows written; when
   * nothing is written the previous file contents are left untouched.
   */
  method ProcessFiles(files: seq<InputFile>, out: OutputFile) returns (processedCount: nat)
    requires AllLoadable(files)
    modifies out
    ensures processedCount == |AllRows(Outputs(files))|
    ensures Holds(old(out.lines), out.lines, Outputs(files))
  {
    var firstWrite := true;
    processedCount := 0;
    ghost var written: seq<Frame> := [];
    for i := 0 to |files|
      invariant written == Outputs(files[..i])
      invariant firstWrite <==> written == []
      invariant processedCount == |AllRows(written)|
      invariant Holds(old(out.lines), out.lines, written)
    {
      var file := files[i];
      OutputsSnoc(files, i);
      if !IsTableFile(file.name) {
        assert Emitted(file) == [];
        assert written + [] == written;
        written := written + [];
        continue;
      }
      var clean := NormalizeFrame(file.content, file.name);
      if clean.Some? && |clean.value.rows| > 0 && |clean.value.columns| > 0 {
        assert Emitted(file) == [clean.value];
        ghost var prev := out.lines;
        out.Write(clean.value, !firstWrite, firstWrite);
        WriteStep(old(out.lines), prev, written, clean.value, out.lines);
        AllRowsSnoc(written, [clean.value]);
        written := written + [clean.value];
        firstWrite := false;
        processedCount := processedCount + |clean.value.rows|;
      } else {
        assert Emitted(file) == [];
        assert written + [] == written;
        written := written + [];
      }
    }
    assert files[..|files|] == files;
  }
}
