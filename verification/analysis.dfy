/**
 * Stage 1.3: the period columns taken from each row's source file name, the
 * join with the operator registry (CADOP) on the ANS registration code, and
 * `analyze_and_clean`: the expense-account filter, one name per CNPJ, the
 * removal of zero amounts and the five output columns.
 */
module Analysis {
  import opened Outcomes
  import opened Strings
  import opened Frames
  import Discovery
  import Processing

  // ------------------------------------------------------ period of a file

  /** `(\d)T`: a digit followed by an upper-case `T` starts at `i`. */
  predicate QuarterAt(s: string, i: nat) { i + 1 < |s| && IsDigit(s[i]) && s[i + 1] == 'T' }

  /** `(\d{4})`: four digits start at `i`. */
  predicate YearAt(s: string, i: nat) { i + 4 <= |s| && AllDigits(s[i..i + 4]) }

  /**
   * `Trimestre`: `str.extract(r'(\d)T')`, then `fillna(0).astype(int)`: the
   * digit in front of the first upper-case `T`, or 0 when there is none or
   * the file name is missing.
   */
  function QuarterOf(v: Value): (q: nat)
    ensures q <= 9
  {
    if v.Str? then
      match FirstMatch(v.s, 0, QuarterAt)
      case Some(i) => DigitValue(v.s[i])
      case None => 0
    else 0
  }

  /** `Ano`: `str.extract(r'(\d{4})')`: the first run of four digits, or 0. */
  function YearOf(v: Value): (y: nat)
    ensures y < 10000
  {
    if v.Str? then
      match FirstMatch(v.s, 0, YearAt)
      case Some(i) =>
        Discovery.DigitsBound(v.s[i..i + 4]);
        assert Pow10(4) == 10000;
        DigitsValue(v.s[i..i + 4])
      case None => 0
    else 0
  }

  /**
   * A file named after its period, `<q>T<yyyy>` followed by anything, gives
   * that quarter and that year.
   */
  lemma PeriodOfCompactFile(q: nat, y: nat, rest: string)
    requires q <= 9 && 1000 <= y <= 9999
    ensures var v := Str([DigitChar(q)] + "T" + NatText(y) + rest);
            QuarterOf(v) == q && YearOf(v) == y
  {
    var s := [DigitChar(q)] + "T" + NatText(y) + rest;
    Discovery.NatTextFourDigits(y);
    NatTextValue(y);
    assert QuarterAt(s, 0);
    assert s[2..6] == NatText(y);
    assert YearAt(s, 2);
    assert !YearAt(s, 0) && !YearAt(s, 1) by {
      assert s[0..4][1] == 'T' && s[1..5][0] == 'T';
    }
  }

  /** Without an upper-case `T` the quarter is 0: `1t2025.csv` gives quarter 0. */
  lemma QuarterNeedsUpperT(s: string)
    requires 'T' !in s
    ensures QuarterOf(Str(s)) == 0
  {
    assert forall j | 1 <= j < |s| :: s[j] != 'T' by {
      forall j | 1 <= j < |s| ensures s[j] != 'T' {
        assert s[j] in s;
      }
    }
  }

  /** Without a run of four digits the year is 0. */
  lemma YearNeedsFourDigits(s: string)
    requires forall i: nat | i < |s| :: !YearAt(s, i)
    ensures YearOf(Str(s)) == 0
  {
  }

  /** A missing file name gives quarter 0 and year 0. */
  lemma PeriodOfMissingName()
    ensures QuarterOf(Null) == 0 && YearOf(Null) == 0
  {
  }

  /**
   * The period columns of the expense table: KeyError when there is no
   * `arquivo_origem` column; otherwise `Trimestre` and `Ano` are set on
   * every row from its file name.
   */
  function WithPeriod(d: Frame): (r: Result<Frame>)
    requires WellFormed(d)
    ensures r.KeyError? <==> "arquivo_origem" !in d.columns
    ensures r.KeyError? ==> r.missing == "arquivo_origem"
    ensures r.Ok? ==> WellFormed(r.value) && |r.value.rows| == |d.rows|
    ensures r.Ok? ==> forall c | c in d.columns :: c in r.value.columns
    ensures r.Ok? ==> forall c | c in r.value.columns :: c in d.columns || c == "Trimestre" || c == "Ano"
  {
    if "arquivo_origem" !in d.columns then KeyError("arquivo_origem")
    else
      var names := FileNames(d);
      var q := WithColumn(d, "Trimestre", Quarters(names));
      WithColumnNames(d, "Trimestre", Quarters(names));
      WithColumnNames(q, "Ano", Years(names));
      Ok(WithColumn(q, "Ano", Years(names)))
  }

  /** The `arquivo_origem` cell of every row. */
  function FileNames(d: Frame): (names: seq<Value>)
    requires WellFormed(d) && "arquivo_origem" in d.columns
    ensures |names| == |d.rows|
    ensures forall i | 0 <= i < |d.rows| :: names[i] == Cell(d.columns, d.rows[i], "arquivo_origem")
  {
    seq(|d.rows|, i requires 0 <= i < |d.rows| => Cell(d.columns, d.rows[i], "arquivo_origem"))
  }

  function Quarters(names: seq<Value>): (q: seq<Value>)
    ensures |q| == |names| && forall i | 0 <= i < |names| :: q[i] == Int(QuarterOf(names[i]))
  {
    seq(|names|, i requires 0 <= i < |names| => Int(QuarterOf(names[i])))
  }

  function Years(names: seq<Value>): (y: seq<Value>)
    ensures |y| == |names| && forall i | 0 <= i < |names| :: y[i] == Int(YearOf(names[i]))
  {
    seq(|names|, i requires 0 <= i < |names| => Int(YearOf(names[i])))
  }

  /**
   * Every row gets `Trimestre` and `Ano` from its own file name, and its
   * other cells are unchanged.
   */
  lemma WithPeriodCells(d: Frame, i: nat)
    requires WellFormed(d) && "arquivo_origem" in d.columns && i < |d.rows|
    ensures var p := WithPeriod(d).value;
            var name := Cell(d.columns, d.rows[i], "arquivo_origem");
            Cell(p.columns, p.rows[i], "Trimestre") == Int(QuarterOf(name)) &&
            Cell(p.columns, p.rows[i], "Ano") == Int(YearOf(name)) &&
            forall c | c in d.columns && c != "Trimestre" && c != "Ano" ::
              Cell(p.columns, p.rows[i], c) == Cell(d.columns, d.rows[i], c)
  {
    var names := FileNames(d);
    TwoColumns(d, "Trimestre", Quarters(names), "Ano", Years(names), i);
  }

  // ------------------------------------------------------------ registry

  /** The registry key columns tried, in this order. */
  const KeyCandidates: seq<string> :=
    ["REGISTRO_OPERADORA", "REGISTRO_ANS", "CD_OPERADORA", "REG_ANS", "REGISTRO ANS"]

  /** The error raised when the registry has none of the key columns. */
  const AnsColumnMissing := "Coluna ANS não encontrada"

  /**
   * The search loop of `load_and_enrich_data`: the first candidate, in list
   * order, that is a registry column, or nothing.
   */
  method FindKeyColumn(cols: seq<string>) returns (target: Option<string>)
    ensures target == FindColumn(cols, KeyCandidates)
  {
    for j := 0 to |KeyCandidates|
      invariant forall i | 0 <= i < j :: KeyCandidates[i] !in cols
    {
      if KeyCandidates[j] in cols {
        FindColumnFirst(cols, KeyCandidates, j);
        return Some(KeyCandidates[j]);
      }
    }
    target := None;
  }

  /** `[c.strip().upper().replace('"', '') for c in df_cadop.columns]`. */
  function RegistryColumns(cols: seq<string>): (h: seq<string>)
    ensures |h| == |cols| && forall i | 0 <= i < |cols| :: h[i] == RegistryHeader(cols[i])
  {
    seq(|cols|, i requires 0 <= i < |cols| => RegistryHeader(cols[i]))
  }

  /**
   * A registry file the model can read: rows as wide as the header, and no
   * two headers that become the same name after clean-up.
   */
  predicate RegistryLoadable(cadop: Frame)
  {
    (forall r | r in cadop.rows :: |r| == |cadop.columns|) && Distinct(RegistryColumns(cadop.columns))
  }

  /** The registry with cleaned-up headers. */
  function CleanRegistry(cadop: Frame): (g: Frame)
    requires RegistryLoadable(cadop)
    ensures WellFormed(g) && g.rows == cadop.rows
    ensures forall c | c in g.columns :: NoLower(c)
  {
    var g := Frame(RegistryColumns(cadop.columns), cadop.rows);
    assert forall c | c in g.columns :: NoLower(c) by {
      forall c | c in g.columns ensures NoLower(c) {
        var i :| 0 <= i < |g.columns| && g.columns[i] == c;
        assert c == RegistryHeader(cadop.columns[i]);
      }
    }
    g
  }

  /** No lower-case ASCII letter: what the registry header clean-up leaves. */
  predicate NoLower(s: string) { forall x | x in s :: !('a' <= x <= 'z') }

  /** `next((c for c in columns if 'SOCIAL' in c), None)`. */
  function FirstSocial(cols: seq<string>): (r: Option<string>)
    ensures r.Some? ==> r.value in cols && Contains(r.value, "SOCIAL")
    ensures r.None? ==> forall c | c in cols :: !Contains(c, "SOCIAL")
  {
    if cols == [] then None
    else if Contains(cols[0], "SOCIAL") then Some(cols[0])
    else
      var r := FirstSocial(cols[1..]);
      assert forall c | c in cols :: c == cols[0] || c in cols[1..];
      r
  }

  /** The renaming of the key column to `reg_ans` and of `RAZAO_SOCIAL` to `RazaoSocial`. */
  function KeyRenames(target: string): map<string, string>
  {
    map[target := "reg_ans", "RAZAO_SOCIAL" := "RazaoSocial"]
  }

  /**
   * The registry after its renames: the key column is `reg_ans`,
   * `RAZAO_SOCIAL` is `RazaoSocial`, and when that leaves no `RazaoSocial`
   * the first column whose name contains `SOCIAL` becomes it.
   */
  function NamedRegistry(f: Frame, target: string): (g: Frame)
    requires target in KeyCandidates
    ensures g.rows == f.rows && |g.columns| == |f.columns|
  {
    SocialRename(Rename(f, KeyRenames(target)))
  }

  /** The fallback rename: the first `SOCIAL` column becomes `RazaoSocial` when there is none. */
  function SocialRename(g: Frame): (h: Frame)
    ensures h.rows == g.rows && |h.columns| == |g.columns|
  {
    if "RazaoSocial" in g.columns then g
    else
      match FirstSocial(g.columns)
      case Some(c) => Rename(g, map[c := "RazaoSocial"])
      case None => g
  }

  /** The fallback rename introduces no name other than `RazaoSocial`. */
  lemma SocialRenameOrigin(g: Frame, n: string)
    requires n in SocialRename(g).columns && n != "RazaoSocial"
    ensures n in g.columns
  {
    if "RazaoSocial" !in g.columns && FirstSocial(g.columns).Some? {
      RenameOrigin(g, map[FirstSocial(g.columns).value := "RazaoSocial"], n);
    }
  }

  lemma NewNamesHaveLower(c: string)
    requires NoLower(c)
    ensures c != "reg_ans" && c != "RazaoSocial"
  {
    assert 'r' in "reg_ans";
    assert 'a' in "RazaoSocial";
  }

  /**
   * Renaming keeps names distinct when distinct old names get distinct new
   * names and no new name is a column that stays.
   */
  lemma RenameKeepsDistinct(f: Frame, ren: map<string, string>)
    requires Distinct(f.columns)
    requires forall c, k | c in f.columns && c !in ren && k in ren :: ren[k] != c
    requires forall k1, k2 | k1 in ren && k2 in ren && k1 != k2 :: ren[k1] != ren[k2]
    ensures Distinct(Rename(f, ren).columns)
  {
    var g := Rename(f, ren);
    forall i, j | 0 <= i < j < |g.columns| ensures g.columns[i] != g.columns[j] {
      assert f.columns[i] in f.columns && f.columns[j] in f.columns;
    }
  }

  /** The key column and the other columns after the first rename. */
  lemma KeyRenamed(f: Frame, target: string)
    requires WellFormed(f) && forall c | c in f.columns :: NoLower(c)
    requires target in f.columns && target in KeyCandidates
    ensures var g := Rename(f, KeyRenames(target));
            WellFormed(g) && "reg_ans" in g.columns &&
            forall c | c in f.columns && c != target && c != "RAZAO_SOCIAL" :: c in g.columns
  {
    var ren := KeyRenames(target);
    var g := Rename(f, ren);
    assert target != "RAZAO_SOCIAL";
    forall c | c in f.columns ensures c != "reg_ans" && c != "RazaoSocial" {
      NewNamesHaveLower(c);
    }
    RenameKeepsDistinct(f, ren);
    RenameMoves(f, ren, target);
    forall c | c in f.columns && c != target && c != "RAZAO_SOCIAL" ensures c in g.columns {
      RenameKeeps(f, ren, c);
    }
  }

  /** The first rename yields `RazaoSocial` exactly when there is a `RAZAO_SOCIAL` column. */
  lemma KeyRenamedName(f: Frame, target: string)
    requires forall c | c in f.columns :: NoLower(c)
    requires target in KeyCandidates
    ensures "RazaoSocial" in Rename(f, KeyRenames(target)).columns <==> "RAZAO_SOCIAL" in f.columns
  {
    var g := Rename(f, KeyRenames(target));
    if "RAZAO_SOCIAL" in f.columns {
      var i :| 0 <= i < |f.columns| && f.columns[i] == "RAZAO_SOCIAL";
      assert g.columns[i] == "RazaoSocial";
    }
    if "RazaoSocial" in g.columns {
      var i :| 0 <= i < |g.columns| && g.columns[i] == "RazaoSocial";
      assert f.columns[i] in f.columns;
      RenamedToName(f.columns[i], target);
    }
  }

  lemma RenamedToName(c: string, target: string)
    requires NoLower(c) && target in KeyCandidates
    requires Renamed(c, KeyRenames(target)) == "RazaoSocial"
    ensures c == "RAZAO_SOCIAL"
  {
    NewNamesHaveLower(c);
  }

  /** Renaming one column to a name not in use keeps the table well formed. */
  lemma RenameOne(g: Frame, c: string, n: string)
    requires WellFormed(g) && c in g.columns && n !in g.columns
    ensures var h := Rename(g, map[c := n]);
            WellFormed(h) && n in h.columns && forall d | d in g.columns && d != c :: d in h.columns
  {
    RenameKeepsDistinct(g, map[c := n]);
    var h := Rename(g, map[c := n]);
    var i :| 0 <= i < |g.columns| && g.columns[i] == c;
    assert h.columns[i] == n;
    forall d | d in g.columns && d != c ensures d in h.columns {
      var j :| 0 <= j < |g.columns| && g.columns[j] == d;
      assert h.columns[j] == d;
    }
  }

  /** `reg_ans` is not a name with `SOCIAL` in it. */
  lemma RegAnsNotSocial()
    ensures !Contains("reg_ans", "SOCIAL")
  {
    LetterMissing("reg_ans", "SOCIAL", 0);
  }

  /** A string lacking one of the letters of `sub` does not contain `sub`. */
  lemma {:induction false} LetterMissing(s: string, sub: string, k: nat)
    requires k < |sub| && sub[k] !in s
    ensures !Contains(s, sub)
    decreases |s|
  {
    if s != [] {
      if |sub| <= |s| { assert s[..|sub|][k] == s[k]; }
      assert forall x | x in s[1..] :: x in s;
      LetterMissing(s[1..], sub, k);
    }
  }

  /** No key-column candidate has `SOCIAL` in its name. */
  lemma CandidateNotSocial(c: string)
    requires c in KeyCandidates
    ensures !Contains(c, "SOCIAL")
  {
    if c == "CD_OPERADORA" {
      assert 'S' !in c;
      LetterMissing(c, "SOCIAL", 0);
    } else {
      assert 'C' !in c;
      LetterMissing(c, "SOCIAL", 2);
    }
  }

  lemma {:induction false} ContainsAt(s: string, sub: string, i: nat)
    requires i <= |s| && StartsWith(s[i..], sub)
    ensures Contains(s, sub)
    decreases i
  {
    if i > 0 {
      assert s[1..][i - 1..] == s[i..];
      ContainsAt(s[1..], sub, i - 1);
    } else {
      assert s[0..] == s;
    }
  }

  lemma RazaoSocialIsSocial()
    ensures Contains("RAZAO_SOCIAL", "SOCIAL")
  {
    ContainsAt("RAZAO_SOCIAL", "SOCIAL", 6);
  }

  /**
   * After the renames the registry is well formed, has a `reg_ans` column
   * and keeps every column that is not renamed.
   */
  lemma NamedRegistryShape(f: Frame, target: string)
    requires WellFormed(f) && forall c | c in f.columns :: NoLower(c)
    requires target in f.columns && target in KeyCandidates
    ensures var g := NamedRegistry(f, target);
            WellFormed(g) && "reg_ans" in g.columns &&
            forall c | c in f.columns && c != target && !Contains(c, "SOCIAL") :: c in g.columns
  {
    var g1 := Rename(f, KeyRenames(target));
    KeyRenamed(f, target);
    RazaoSocialIsSocial();
    if "RazaoSocial" !in g1.columns {
      match FirstSocial(g1.columns)
      case Some(c) =>
        SecondRename(f, target, g1, c);
      case None =>
    }
  }

  lemma SecondRename(f: Frame, target: string, g1: Frame, c: string)
    requires WellFormed(g1) && "reg_ans" in g1.columns && "RazaoSocial" !in g1.columns
    requires forall d | d in f.columns && d != target && d != "RAZAO_SOCIAL" :: d in g1.columns
    requires c in g1.columns && Contains(c, "SOCIAL") && Contains("RAZAO_SOCIAL", "SOCIAL")
    ensures var h := Rename(g1, map[c := "RazaoSocial"]);
            WellFormed(h) && "reg_ans" in h.columns &&
            forall d | d in f.columns && d != target && !Contains(d, "SOCIAL") :: d in h.columns
  {
    RegAnsNotSocial();
    RenameOne(g1, c, "RazaoSocial");
  }

  /**
   * The registry has a `RazaoSocial` column exactly when some column other
   * than the key column has `SOCIAL` in its name.
   */
  lemma NamedRegistryHasName(f: Frame, target: string)
    requires WellFormed(f) && forall c | c in f.columns :: NoLower(c)
    requires target in f.columns && target in KeyCandidates
    ensures "RazaoSocial" in NamedRegistry(f, target).columns
            <==> exists c | c in f.columns && c != target :: Contains(c, "SOCIAL")
  {
    var g1 := Rename(f, KeyRenames(target));
    KeyRenamed(f, target);
    KeyRenamedName(f, target);
    RazaoSocialIsSocial();
    if "RazaoSocial" in g1.columns {
      assert "RAZAO_SOCIAL" in f.columns && "RAZAO_SOCIAL" != target;
    } else {
      match FirstSocial(g1.columns)
      case Some(c) =>
        RenameOne(g1, c, "RazaoSocial");
        SocialFromOriginal(f, target, c);
      case None =>
        forall c | c in f.columns && c != target ensures !Contains(c, "SOCIAL") {
          if c != "RAZAO_SOCIAL" { assert c in g1.columns; }
        }
    }
  }

  /** A column of the first rename that names `SOCIAL` was a registry column other than the key. */
  lemma SocialFromOriginal(f: Frame, target: string, c: string)
    requires c in Rename(f, KeyRenames(target)).columns && Contains(c, "SOCIAL")
    requires "RazaoSocial" !in Rename(f, KeyRenames(target)).columns
    ensures c in f.columns && c != target
  {
    var g1 := Rename(f, KeyRenames(target));
    RegAnsNotSocial();
    var i :| 0 <= i < |g1.columns| && g1.columns[i] == c;
    assert f.columns[i] !in KeyRenames(target);
  }

  // ------------------------------------------------------------------ join

  /** `df[c] = df[c].astype(str)`. */
  function TextColumn(f: Frame, c: string): (g: Frame)
    requires WellFormed(f) && c in f.columns
    ensures WellFormed(g) && g.columns == f.columns && |g.rows| == |f.rows|
    ensures forall i | 0 <= i < |f.rows| :: Cell(g.columns, g.rows[i], c) == Str(Text(Cell(f.columns, f.rows[i], c)))
    ensures forall i, d | 0 <= i < |f.rows| && d in f.columns && d != c ::
              Cell(g.columns, g.rows[i], d) == Cell(f.columns, f.rows[i], d)
  {
    WithColumn(f, c, seq(|f.rows|, i requires 0 <= i < |f.rows| => Str(Text(Cell(f.columns, f.rows[i], c)))))
  }

  /** `cols_to_merge`: the key, the CNPJ and, when present, the name. */
  function MergeColumns(cols: seq<string>): (m: seq<string>)
    ensures Distinct(m) && "reg_ans" in m && "CNPJ" in m
    ensures forall c | c in m :: c == "reg_ans" || c == "CNPJ" || c == "RazaoSocial"
    ensures "RazaoSocial" in m <==> "RazaoSocial" in cols
  {
    ["reg_ans", "CNPJ"] + if "RazaoSocial" in cols then ["RazaoSocial"] else []
  }

  /**
   * An expense table the model can join: well formed, and without the
   * columns the registry brings in (pandas would suffix a clash).
   */
  predicate ExpensesLoadable(d: Frame)
  {
    WellFormed(d) && "CNPJ" !in d.columns && "RazaoSocial" !in d.columns
  }

  /** The expense side of the join: period columns added, `reg_ans` as text. */
  function ExpenseSide(left0: Frame): (l: Frame)
    requires WellFormed(left0) && "reg_ans" in left0.columns
    ensures WellFormed(l) && l.columns == left0.columns && |l.rows| == |left0.rows|
  {
    TextColumn(left0, "reg_ans")
  }

  /** The registry side of the join: the merge columns, `reg_ans` as text. */
  function RegistrySide(reg: Frame): (r: Frame)
    requires WellFormed(reg) && "reg_ans" in reg.columns && "CNPJ" in reg.columns
    ensures WellFormed(r) && r.columns == MergeColumns(reg.columns) && |r.rows| == |reg.rows|
  {
    var t := TextColumn(reg, "reg_ans");
    Select(t, MergeColumns(reg.columns))
  }

  /**
   * `load_and_enrich_data` once the key column is known: KeyError for a
   * missing `arquivo_origem`, a missing key column, a missing `reg_ans` in
   * the expenses or a missing `CNPJ` in the registry, in that order;
   * otherwise the left join of the expenses with the registry on `reg_ans`.
   */
  function EnrichedWith(d: Frame, cadop: Frame, target: Option<string>): (r: Result<Frame>)
    requires ExpensesLoadable(d) && RegistryLoadable(cadop)
    requires target.Some? ==> target.value in CleanRegistry(cadop).columns && target.value in KeyCandidates
    ensures r.Ok? ==> WellFormed(r.value)
  {
    match WithPeriod(d)
    case KeyError(m) => KeyError(m)
    case Ok(left0) =>
      if target.None? then KeyError(AnsColumnMissing)
      else if "reg_ans" !in left0.columns then KeyError("reg_ans")
      else
        var reg := NamedRegistry(CleanRegistry(cadop), target.value);
        NamedRegistryShape(CleanRegistry(cadop), target.value);
        if "CNPJ" !in reg.columns then KeyError("CNPJ")
        else
          Ok(JoinSides(d, left0, reg))
  }

  /** `pd.merge(df_despesas, df_cadop[cols_to_merge], on='reg_ans', how='left')`. */
  function JoinSides(d: Frame, left0: Frame, reg: Frame): (j: Frame)
    requires ExpensesLoadable(d) && WellFormed(left0) && "reg_ans" in left0.columns
    requires forall c | c in left0.columns :: c in d.columns || c == "Trimestre" || c == "Ano"
    requires WellFormed(reg) && "reg_ans" in reg.columns && "CNPJ" in reg.columns
    ensures WellFormed(j)
  {
    var left := ExpenseSide(left0);
    var right := RegistrySide(reg);
    forall c | c in right.columns && c != "reg_ans" ensures c !in left.columns {
      assert c == "CNPJ" || c == "RazaoSocial";
    }
    LeftJoin(left, right, "reg_ans")
  }

  /** `load_and_enrich_data`, given the expense table and the registry file. */
  function Enriched(d: Frame, cadop: Frame): Result<Frame>
    requires ExpensesLoadable(d) && RegistryLoadable(cadop)
  {
    EnrichedWith(d, cadop, FindColumn(CleanRegistry(cadop).columns, KeyCandidates))
  }

  /** `load_and_enrich_data`: the key column found by the search loop, then the join. */
  method LoadAndEnrich(d: Frame, cadop: Frame) returns (r: Result<Frame>)
    requires ExpensesLoadable(d) && RegistryLoadable(cadop)
    ensures r == Enriched(d, cadop)
  {
    var target := FindKeyColumn(CleanRegistry(cadop).columns);
    r := EnrichedWith(d, cadop, target);
  }

  /** The registry keeps its `CNPJ` column through the renames, and gains none. */
  lemma NamedRegistryCnpj(f: Frame, target: string)
    requires WellFormed(f) && forall c | c in f.columns :: NoLower(c)
    requires target in f.columns && target in KeyCandidates
    ensures "CNPJ" in NamedRegistry(f, target).columns <==> "CNPJ" in f.columns
  {
    if "CNPJ" in f.columns {
      LetterMissing("CNPJ", "SOCIAL", 0);
      assert |target| != 4;
      NamedRegistryShape(f, target);
    }
    if "CNPJ" in NamedRegistry(f, target).columns {
      CnpjOrigin(f, target);
    }
  }

  lemma CnpjOrigin(f: Frame, target: string)
    requires target in KeyCandidates && "CNPJ" in NamedRegistry(f, target).columns
    ensures "CNPJ" in f.columns
  {
    var g1 := Rename(f, KeyRenames(target));
    SocialRenameOrigin(g1, "CNPJ");
    RenameOrigin(f, KeyRenames(target), "CNPJ");
  }

  /** The period columns leave every other column where it was. */
  lemma PeriodKeeps(d: Frame, c: string)
    requires WellFormed(d) && "arquivo_origem" in d.columns && c != "Trimestre" && c != "Ano"
    ensures c in WithPeriod(d).value.columns <==> c in d.columns
  {
  }

  /** The outcome of `load_and_enrich_data` once the key column search is done. */
  lemma EnrichedWithOutcome(d: Frame, cadop: Frame, target: Option<string>)
    requires ExpensesLoadable(d) && RegistryLoadable(cadop)
    requires target.Some? ==> target.value in CleanRegistry(cadop).columns && target.value in KeyCandidates
    ensures var r := EnrichedWith(d, cadop, target);
            ("arquivo_origem" !in d.columns ==> r == KeyError("arquivo_origem")) &&
            ("arquivo_origem" in d.columns && target.None? ==> r == KeyError(AnsColumnMissing)) &&
            (r.Ok? <==> "arquivo_origem" in d.columns && "reg_ans" in d.columns && target.Some? &&
                        "CNPJ" in CleanRegistry(cadop).columns)
  {
    if "arquivo_origem" in d.columns && target.Some? {
      PeriodKeeps(d, "reg_ans");
      NamedRegistryCnpj(CleanRegistry(cadop), target.value);
    }
  }

  /**
   * When `load_and_enrich_data` fails: a missing `arquivo_origem` first, then
   * a registry with none of the key-column candidates; and it succeeds
   * exactly when the expenses have `arquivo_origem` and `reg_ans` and the
   * registry has a candidate key column and `CNPJ`.
   */
  lemma EnrichedOutcome(d: Frame, cadop: Frame)
    requires ExpensesLoadable(d) && RegistryLoadable(cadop)
    ensures var r := Enriched(d, cadop);
            var f := CleanRegistry(cadop);
            ("arquivo_origem" !in d.columns ==> r == KeyError("arquivo_origem")) &&
            ("arquivo_origem" in d.columns && (forall c | c in KeyCandidates :: c !in f.columns) ==>
               r == KeyError(AnsColumnMissing)) &&
            (r.Ok? <==> "arquivo_origem" in d.columns && "reg_ans" in d.columns && "CNPJ" in f.columns &&
                        exists c | c in KeyCandidates :: c in f.columns)
  {
    var f := CleanRegistry(cadop);
    var t := FindColumn(f.columns, KeyCandidates);
    EnrichedWithOutcome(d, cadop, t);
    assert t.None? <==> forall c | c in KeyCandidates :: c !in f.columns;
  }

  /** The registry columns the join brings in: `CNPJ`, and the name when the registry has one. */
  function Imported(hasName: bool): seq<string>
  {
    ["CNPJ"] + if hasName then ["RazaoSocial"] else []
  }

  /** The columns and rows of the join, given its two inputs. */
  lemma JoinSidesShape(d: Frame, left0: Frame, reg: Frame)
    requires ExpensesLoadable(d) && WellFormed(left0) && "reg_ans" in left0.columns
    requires forall c | c in left0.columns :: c in d.columns || c == "Trimestre" || c == "Ano"
    requires WellFormed(reg) && "reg_ans" in reg.columns && "CNPJ" in reg.columns
    ensures var j := JoinSides(d, left0, reg);
            j.columns == left0.columns + Imported("RazaoSocial" in reg.columns) &&
            |j.rows| >= |left0.rows|
  {
    var left := ExpenseSide(left0);
    var right := RegistrySide(reg);
    MergeColumnsTail(reg.columns);
    JoinColumnsFirstKey(left.columns, right.columns, "reg_ans");
  }

  lemma MergeColumnsTail(cols: seq<string>)
    ensures MergeColumns(cols)[0] == "reg_ans"
    ensures MergeColumns(cols)[1..] == Imported("RazaoSocial" in cols)
  {
  }

  /** A successful `load_and_enrich_data` is the join of the period-tagged expenses with the renamed registry. */
  lemma EnrichedIsJoin(d: Frame, cadop: Frame, t: string, left0: Frame, reg: Frame)
    requires ExpensesLoadable(d) && RegistryLoadable(cadop) && Enriched(d, cadop).Ok?
    requires FindColumn(CleanRegistry(cadop).columns, KeyCandidates) == Some(t)
    requires WithPeriod(d) == Ok(left0) && reg == NamedRegistry(CleanRegistry(cadop), t)
    ensures "reg_ans" in left0.columns && WellFormed(reg) && "reg_ans" in reg.columns && "CNPJ" in reg.columns
    ensures Enriched(d, cadop) == Ok(JoinSides(d, left0, reg))
  {
    NamedRegistryShape(CleanRegistry(cadop), t);
  }

  /**
   * A successful `load_and_enrich_data` has the expense columns with the
   * period columns, then `CNPJ`, then `RazaoSocial` when some registry
   * header names `SOCIAL`; and at least one row per expense row.
   */
  lemma EnrichedShape(d: Frame, cadop: Frame)
    requires ExpensesLoadable(d) && RegistryLoadable(cadop)
    requires Enriched(d, cadop).Ok?
    ensures var r := Enriched(d, cadop).value;
            r.columns == WithPeriod(d).value.columns +
                         Imported(exists c | c in CleanRegistry(cadop).columns :: Contains(c, "SOCIAL")) &&
            |r.rows| >= |d.rows|
  {
    var f := CleanRegistry(cadop);
    var t := FindColumn(f.columns, KeyCandidates).value;
    var left0 := WithPeriod(d).value;
    var reg := NamedRegistry(f, t);
    EnrichedIsJoin(d, cadop, t, left0, reg);
    NamedRegistryHasName(f, t);
    CandidateNotSocial(t);
    JoinSidesShape(d, left0, reg);
  }
}
