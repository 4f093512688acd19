/**
 * Stage 3: shaping the validated expenses and the enriched table into the
 * two tables loaded into SQLite: `fact_despesas` (CNPJ, reference date,
 * amount) and `dim_operadoras` (one row per CNPJ: name, state, modality).
 */
module DbLoad {
  import opened Outcomes
  import opened Strings
  import opened Frames

  // ------------------------------------------------------------------ dates

  /** The quarter `reconstruir_data` reads from the text: the least of 1..4 whose digit occurs, else 1. */
  function QuarterOf(tri: string): (q: nat)
    ensures 1 <= q <= 4
    ensures forall p | 1 <= p < q :: DigitChar(p) !in tri
    ensures q != 1 ==> DigitChar(q) in tri
  {
    LeastQuarterFrom(tri, 1)
  }

  function LeastQuarterFrom(tri: string, p: nat): (q: nat)
    requires 1 <= p <= 5
    requires forall d | 1 <= d < p :: DigitChar(d) !in tri
    ensures 1 <= q <= 4
    ensures forall d | 1 <= d < q :: DigitChar(d) !in tri
    ensures q != 1 ==> DigitChar(q) in tri
    decreases 5 - p
  {
    if p > 4 then 1
    else if DigitChar(p) in tri then p
    else LeastQuarterFrom(tri, p + 1)
  }

  /** The first month of the quarter found in `tri`, as two digits; January when none is found. */
  function QuarterMonth(tri: string): string
  {
    if '1' in tri then "01"
    else if '2' in tri then "04"
    else if '3' in tri then "07"
    else if '4' in tri then "10"
    else "01"
  }

  /** `reconstruir_data`: the first day of the quarter, as `<Ano>-<MM>-01`. */
  function RebuildDate(ano: string, tri: string): string
  {
    ano + "-" + QuarterMonth(tri) + "-01"
  }

  /**
   * The rebuilt date reads back as the year text, a dash, the quarter's
   * first month and `-01`, whatever the year and quarter texts hold.
   */
  lemma DateFields(ano: string, tri: string)
    ensures var d := RebuildDate(ano, tri);
            |d| == |ano| + 6 && d[..|ano|] == ano && d[|ano|] == '-' && d[|ano| + 3..] == "-01" &&
            d[|ano| + 1..|ano| + 3] == QuarterMonth(tri) && DigitsValue(d[|ano| + 1..|ano| + 3]) == 3 * QuarterOf(tri) - 2
  {
    var d := RebuildDate(ano, tri);
    var m := QuarterMonth(tri);
    assert d == ano + ("-" + m + "-01");
    assert d[|ano| + 1..|ano| + 3] == m;
    QuarterMonthValue(tri);
  }

  /** The month written is the first month of the quarter `QuarterOf` reads: 1, 4, 7 or 10. */
  lemma QuarterMonthValue(tri: string)
    ensures DigitsValue(QuarterMonth(tri)) == 3 * QuarterOf(tri) - 2
  {
    var q := QuarterOf(tri);
    var m := QuarterMonth(tri);
    assert DigitChar(1) == '1' && DigitChar(2) == '2' && DigitChar(3) == '3' && DigitChar(4) == '4';
    assert m == "01" || m == "04" || m == "07" || m == "10";
    assert |m| == 2 && AllDigits(m);
    assert DigitsValue(m) == DigitsValue(m[..1]) * 10 + DigitValue(m[1]);
    assert m[..1] == [m[0]];
    assert DigitsValue(m[..1]) == DigitsValue(m[..1][..0]) * 10 + DigitValue(m[0]);
    assert m[..1][..0] == [];
  }

  /** An integer quarter 1..4, as `str` prints it, becomes the first month of that quarter. */
  lemma IntegerQuarter(q: int)
    requires 1 <= q <= 4
    ensures QuarterOf(IntText(q)) == q
    ensures DigitsValue(QuarterMonth(IntText(q))) == 3 * q - 2
  {
    assert IntText(q) == [DigitChar(q)];
    QuarterMonthValue(IntText(q));
  }

  /** A quarter text with none of the digits 1 to 4 (0, `nan`, ...) silently becomes January. */
  lemma QuarterFallback(tri: string)
    requires forall p | 1 <= p <= 4 :: DigitChar(p) !in tri
    ensures QuarterMonth(tri) == "01"
  {
    assert DigitChar(1) == '1' && DigitChar(2) == '2' && DigitChar(3) == '3' && DigitChar(4) == '4';
  }

  /** `reconstruir_data` on one row, with `Ano` at position `ak` and `Trimestre` at `tk`. */
  function RowDate(r: Row, ak: nat, tk: nat): Value
    requires ak < |r| && tk < |r|
  {
    Str(RebuildDate(Text(r[ak]), Text(r[tk])))
  }

  /** The rebuilt date of a row, found by column name. */
  function NamedRowDate(cols: seq<string>, r: Row): Value
    requires |r| == |cols| && "Ano" in cols && "Trimestre" in cols
  {
    RowDate(r, IndexOf(cols, "Ano"), IndexOf(cols, "Trimestre"))
  }

  /** `g` applied to the first `n` rows, in order. */
  function MapUpTo(rows: seq<Row>, n: nat, g: Row -> Value): (ds: seq<Value>)
    requires n <= |rows|
    ensures |ds| == n
  {
    if n == 0 then [] else MapUpTo(rows, n - 1, g) + [g(rows[n - 1])]
  }

  lemma {:induction false} MapUpToAt(rows: seq<Row>, n: nat, g: Row -> Value, j: nat)
    requires j < n <= |rows|
    ensures MapUpTo(rows, n, g)[j] == g(rows[j])
  {
    if j < n - 1 {
      MapUpToAt(rows, n - 1, g, j);
    }
  }

  /** `RowDate` on rows wide enough to hold both positions. */
  function DateAt(ak: nat, tk: nat): Row -> Value
  {
    r => if ak < |r| && tk < |r| then RowDate(r, ak, tk) else Null
  }

  /** The rebuilt date of every row: `df.apply(reconstruir_data, axis=1)`. */
  method RebuildDates(f: Frame) returns (vals: seq<Value>)
    requires WellFormed(f) && "Ano" in f.columns && "Trimestre" in f.columns
    ensures |vals| == |f.rows|
    ensures forall i | 0 <= i < |f.rows| :: f.rows[i] in f.rows && vals[i] == NamedRowDate(f.columns, f.rows[i])
  {
    var ak, tk := IndexOf(f.columns, "Ano"), IndexOf(f.columns, "Trimestre");
    var g := DateAt(ak, tk);
    vals := [];
    var i := 0;
    while i < |f.rows|
      invariant i <= |f.rows| && vals == MapUpTo(f.rows, i, g)
    {
      vals := vals + [g(f.rows[i])];
      i := i + 1;
    }
    MappedDates(f);
  }

  /** Mapping `DateAt` over all the rows gives each row's rebuilt date. */
  lemma MappedDates(f: Frame)
    requires WellFormed(f) && "Ano" in f.columns && "Trimestre" in f.columns
    ensures var vals := MapUpTo(f.rows, |f.rows|, DateAt(IndexOf(f.columns, "Ano"), IndexOf(f.columns, "Trimestre")));
            forall i | 0 <= i < |f.rows| :: f.rows[i] in f.rows && vals[i] == NamedRowDate(f.columns, f.rows[i])
  {
    var g := DateAt(IndexOf(f.columns, "Ano"), IndexOf(f.columns, "Trimestre"));
    forall j | 0 <= j < |f.rows| ensures f.rows[j] in f.rows && MapUpTo(f.rows, |f.rows|, g)[j] == NamedRowDate(f.columns, f.rows[j]) {
      MapUpToAt(f.rows, |f.rows|, g, j);
      assert f.rows[j] in f.rows;
    }
  }

  // ------------------------------------------------------------ fact table

  const DateCandidates: seq<string> := ["Data", "DATA", "data", "DATA_EVENTO"]
  const AmountCandidates: seq<string> := ["ValorDespesas", "VALOR", "valor"]
  const CnpjCandidates: seq<string> := ["CNPJ", "cnpj"]
  const FactNames: seq<string> := ["cnpj", "data_referencia", "valor_despesa"]

  /** Where the reference date comes from. */
  datatype DateSource = Rebuilt | Column(name: string)

  /** The choice of the date column: rebuilt from `Ano`/`Trimestre`, else the first date column. */
  function DateColumn(cols: seq<string>): (r: Result<DateSource>)
    ensures r.Ok? && r.value.Rebuilt? <==> "Trimestre" in cols && "Ano" in cols
    ensures r.KeyError? <==> !("Trimestre" in cols && "Ano" in cols) && forall c | c in DateCandidates :: c !in cols
    ensures r.Ok? && r.value.Column? ==> r.value.name in cols
    ensures r.Ok? && r.value.Column? ==>
              exists k | 0 <= k < |DateCandidates| ::
                DateCandidates[k] == r.value.name && r.value.name in cols &&
                forall j | 0 <= j < k :: DateCandidates[j] !in cols
  {
    if "Trimestre" in cols && "Ano" in cols then Ok(Rebuilt)
    else match FindColumn(cols, DateCandidates)
      case Some(c) => Ok(Column(c))
      case None => KeyError("Data")
  }

  /** The columns the fact table is built from. */
  datatype FactColumns = FactColumns(cnpj: string, date: DateSource, amount: string)

  /**
   * The columns `create_and_load_db` picks from the expenses: the date
   * first, then the amount and the CNPJ; selecting a column that was not
   * found (`None`) raises KeyError.
   */
  function FactColumnsOf(cols: seq<string>): (r: Result<FactColumns>)
    ensures r.Ok? <==> DateColumn(cols).Ok? && FindColumn(cols, AmountCandidates).Some? && FindColumn(cols, CnpjCandidates).Some?
    ensures r.Ok? ==> r.value.cnpj in cols && r.value.cnpj in CnpjCandidates &&
                      r.value.amount in cols && r.value.amount in AmountCandidates
    ensures r.Ok? ==> r.value.date == DateColumn(cols).value
    ensures r.Ok? && r.value.date.Rebuilt? ==> "Ano" in cols && "Trimestre" in cols
    ensures r.Ok? && r.value.date.Column? ==> r.value.date.name in cols
  {
    match DateColumn(cols)
    case KeyError(m) => KeyError(m)
    case Ok(d) =>
      match FindColumn(cols, AmountCandidates)
      case None => KeyError("None")
      case Some(v) =>
        match FindColumn(cols, CnpjCandidates)
        case None => KeyError("None")
        case Some(c) => Ok(FactColumns(c, d, v))
  }

  /** The fact row built from one expense row: CNPJ, reference date, numeric amount. */
  function FactRow(cols: seq<string>, fc: FactColumns, r: Row): (f: Row)
    requires |r| == |cols| && fc.cnpj in cols && fc.amount in cols
    requires fc.date.Rebuilt? ==> "Ano" in cols && "Trimestre" in cols
    requires fc.date.Column? ==> fc.date.name in cols
    ensures |f| == 3
  {
    var date := match fc.date
      case Rebuilt => NamedRowDate(cols, r)
      case Column(c) => Cell(cols, r, c);
    [Cell(cols, r, fc.cnpj), date, Numeric(Cell(cols, r, fc.amount))]
  }

  /** `df_fact`: one row per expense, renamed to the SQL column names. */
  function Fact(desp: Frame): (r: Result<Frame>)
    requires WellFormed(desp)
    ensures r.Ok? <==> FactColumnsOf(desp.columns).Ok?
    ensures r.KeyError? ==> r == KeyError(FactColumnsOf(desp.columns).missing)
    ensures r.Ok? ==> WellFormed(r.value) && r.value.columns == FactNames && |r.value.rows| == |desp.rows|
  {
    match FactColumnsOf(desp.columns)
    case KeyError(m) => KeyError(m)
    case Ok(fc) =>
      FactNamesDistinct();
      var rows := seq(|desp.rows|, i requires 0 <= i < |desp.rows| =>
        assert desp.rows[i] in desp.rows; FactRow(desp.columns, fc, desp.rows[i]));
      Ok(Frame(FactNames, rows))
  }

  lemma FactNamesDistinct()
    ensures Distinct(FactNames)
  {
    var heads := [FactNames[0][0], FactNames[1][0], FactNames[2][0]];
    assert heads == ['c', 'd', 'v'];
  }

  /**
   * Each fact row carries the expense's CNPJ, its reference date (rebuilt
   * or copied) and its amount as a number, with text that is not a number
   * counted as zero.
   */
  lemma FactRows(desp: Frame, i: nat)
    requires WellFormed(desp) && Fact(desp).Ok? && i < |desp.rows|
    ensures var fc := FactColumnsOf(desp.columns).value;
            var r := desp.rows[i];
            var f := Fact(desp).value.rows[i];
            |f| == 3 && f[0] == Cell(desp.columns, r, fc.cnpj) &&
            (fc.date.Rebuilt? ==> f[1] == Str(RebuildDate(Text(Cell(desp.columns, r, "Ano")), Text(Cell(desp.columns, r, "Trimestre"))))) &&
            (fc.date.Column? ==> f[1] == Cell(desp.columns, r, fc.date.name)) &&
            (f[2].Int? || f[2].Num?) && Amount(f[2]) == Amount(Cell(desp.columns, r, fc.amount))
  {
    assert desp.rows[i] in desp.rows;
  }

  // ------------------------------------------------------- dimension table

  const RazaoCandidates: seq<string> := ["RazaoSocial", "RAZAO_SOCIAL"]
  const UfCandidates: seq<string> := ["UF", "uf"]
  const ModalityCandidates: seq<string> := ["Modalidade", "MODALIDADE"]
  const DimNames: seq<string> := ["cnpj", "razao_social", "uf", "modalidade"]
  /** The modality written when the enriched table has no modality column. */
  const NoModality: string := "N/A"

  /** The columns the dimension table is built from; no modality column means `N/A` everywhere. */
  datatype DimColumns = DimColumns(cnpj: string, razao: string, uf: string, modality: Option<string>)

  /**
   * The enriched table's columns for the dimension. The CNPJ column is the
   * one found in the expenses, looked up again in the enriched table.
   */
  function DimColumnsOf(cols: seq<string>, cnpj: string): (r: Result<DimColumns>)
    ensures r.Ok? <==> cnpj in cols && FindColumn(cols, RazaoCandidates).Some? && FindColumn(cols, UfCandidates).Some?
    ensures r.Ok? ==> r.value.cnpj == cnpj && r.value.razao in cols && r.value.uf in cols
    ensures r.Ok? ==> (r.value.modality.None? <==> forall c | c in ModalityCandidates :: c !in cols)
    ensures r.Ok? && r.value.modality.Some? ==> r.value.modality.value in cols
  {
    match (FindColumn(cols, UfCandidates), FindColumn(cols, RazaoCandidates))
    case (Some(u), Some(z)) =>
      if cnpj in cols then Ok(DimColumns(cnpj, z, u, FindColumn(cols, ModalityCandidates)))
      else KeyError(cnpj)
    case _ => KeyError("None")
  }

  /** The dimension row drawn from one enriched row. */
  function DimRow(cols: seq<string>, dc: DimColumns, r: Row): (d: Row)
    requires |r| == |cols| && dc.cnpj in cols && dc.razao in cols && dc.uf in cols
    requires dc.modality.Some? ==> dc.modality.value in cols
    ensures |d| == 4 && d[0] == Cell(cols, r, dc.cnpj)
  {
    [Cell(cols, r, dc.cnpj), Cell(cols, r, dc.razao), Cell(cols, r, dc.uf),
     match dc.modality case Some(m) => Cell(cols, r, m) case None => Str(NoModality)]
  }

  /** The enriched rows projected onto the dimension's columns, before dedup. */
  function DimRows(full: Frame, dc: DimColumns): (rows: seq<Row>)
    requires WellFormed(full) && dc.cnpj in full.columns && dc.razao in full.columns && dc.uf in full.columns
    requires dc.modality.Some? ==> dc.modality.value in full.columns
    ensures |rows| == |full.rows| && Wide(rows, 0) && forall x | x in rows :: |x| == 4
    ensures forall i | 0 <= i < |full.rows| :: rows[i] == DimRow(full.columns, dc, full.rows[i])
  {
    seq(|full.rows|, i requires 0 <= i < |full.rows| =>
      assert full.rows[i] in full.rows; DimRow(full.columns, dc, full.rows[i]))
  }

  /** `df_dim`: the projected rows with duplicate CNPJs dropped, first kept. */
  function Dim(full: Frame, cnpj: string): (r: Result<Frame>)
    requires WellFormed(full)
    ensures r.Ok? <==> DimColumnsOf(full.columns, cnpj).Ok?
    ensures r.Ok? ==> WellFormed(r.value) && r.value.columns == DimNames && |r.value.rows| <= |full.rows|
  {
    match DimColumnsOf(full.columns, cnpj)
    case KeyError(m) => KeyError(m)
    case Ok(dc) =>
      var rows := DedupFirst(DimRows(full, dc), 0);
      DimNamesDistinct();
      Ok(Frame(DimNames, rows))
  }

  lemma DimNamesDistinct()
    ensures Distinct(DimNames)
  {
    var heads := [DimNames[0][0], DimNames[1][0], DimNames[2][0], DimNames[3][0]];
    assert heads == ['c', 'r', 'u', 'm'];
  }

  /** The CNPJs of the projected rows are those of the enriched rows. */
  lemma DimRowKeys(full: Frame, dc: DimColumns, v: Value)
    requires WellFormed(full) && dc.cnpj in full.columns && dc.razao in full.columns && dc.uf in full.columns
    requires dc.modality.Some? ==> dc.modality.value in full.columns
    ensures v in KeysOf(DimRows(full, dc), 0) <==> exists r | r in full.rows :: Cell(full.columns, r, dc.cnpj) == v
  {
    if v in KeysOf(DimRows(full, dc), 0) {
      DimKeyFrom(full, dc, v);
    }
    if exists r | r in full.rows :: Cell(full.columns, r, dc.cnpj) == v {
      var r :| r in full.rows && Cell(full.columns, r, dc.cnpj) == v;
      DimKeyTo(full, dc, r);
    }
  }

  lemma DimKeyFrom(full: Frame, dc: DimColumns, v: Value)
    requires WellFormed(full) && dc.cnpj in full.columns && dc.razao in full.columns && dc.uf in full.columns
    requires dc.modality.Some? ==> dc.modality.value in full.columns
    requires v in KeysOf(DimRows(full, dc), 0)
    ensures exists r | r in full.rows :: Cell(full.columns, r, dc.cnpj) == v
  {
    var src := DimRows(full, dc);
    var i :| 0 <= i < |src| && src[i][0] == v;
    assert full.rows[i] in full.rows;
  }

  lemma DimKeyTo(full: Frame, dc: DimColumns, r: Row)
    requires WellFormed(full) && dc.cnpj in full.columns && dc.razao in full.columns && dc.uf in full.columns
    requires dc.modality.Some? ==> dc.modality.value in full.columns
    requires r in full.rows
    ensures Cell(full.columns, r, dc.cnpj) in KeysOf(DimRows(full, dc), 0)
  {
    var src := DimRows(full, dc);
    var i :| 0 <= i < |full.rows| && full.rows[i] == r;
    assert src[i] in src;
  }

  /** The projected rows the dimension is deduplicated from. */
  function DimSource(full: Frame, cnpj: string): (src: seq<Row>)
    requires WellFormed(full) && DimColumnsOf(full.columns, cnpj).Ok?
    ensures Wide(src, 0) && |src| == |full.rows|
  {
    DimRows(full, DimColumnsOf(full.columns, cnpj).value)
  }

  /** The dimension table has one row per CNPJ of the enriched table, and no other. */
  lemma DimKeys(full: Frame, cnpj: string, v: Value)
    requires WellFormed(full) && Dim(full, cnpj).Ok?
    ensures var d := Dim(full, cnpj).value.rows;
            Wide(d, 0) && UniqueKeys(d, 0) &&
            (v in KeysOf(d, 0) <==> exists r | r in full.rows :: Cell(full.columns, r, cnpj) == v)
  {
    var dc := DimColumnsOf(full.columns, cnpj).value;
    assert Dim(full, cnpj).value.rows == DedupFirst(DimSource(full, cnpj), 0);
    DimRowKeys(full, dc, v);
  }

  /** Each dimension row is drawn from the first enriched row with its CNPJ. */
  lemma DimFirst(full: Frame, cnpj: string, i: nat)
    requires WellFormed(full) && Dim(full, cnpj).Ok? && i < |Dim(full, cnpj).value.rows|
    ensures var d := Dim(full, cnpj).value.rows;
            var src := DimSource(full, cnpj);
            |d[i]| == 4 && d[i][0] in KeysOf(src, 0) &&
            d[i] == DimRow(full.columns, DimColumnsOf(full.columns, cnpj).value, full.rows[FirstIndex(src, 0, d[i][0])])
  {
    var src := DimSource(full, cnpj);
    var d := Dim(full, cnpj).value.rows;
    assert d == DedupFirst(src, 0);
    assert d[i] in d;
    DedupKeepsFirst(src, 0, i);
  }

  /** The dimension rows keep the order in which their CNPJs first occur. */
  lemma DimOrder(full: Frame, cnpj: string, i: nat, j: nat)
    requires WellFormed(full) && Dim(full, cnpj).Ok? && i < j < |Dim(full, cnpj).value.rows|
    ensures var d := Dim(full, cnpj).value.rows;
            var src := DimSource(full, cnpj);
            |d[i]| == 4 && |d[j]| == 4 && d[i][0] in KeysOf(src, 0) && d[j][0] in KeysOf(src, 0) &&
            FirstIndex(src, 0, d[i][0]) < FirstIndex(src, 0, d[j][0])
  {
    var src := DimSource(full, cnpj);
    var d := Dim(full, cnpj).value.rows;
    assert d == DedupFirst(src, 0);
    assert d[i] in d && d[j] in d;
    DedupKeepsOrder(src, 0, i, j);
  }

  // ------------------------------------------------------------- both tables

  datatype Tables = Tables(dim: Frame, fact: Frame)

  /**
   * The tables `create_and_load_db` loads: the fact table is shaped first,
   * so its KeyError wins; the dimension reuses the expenses' CNPJ column name.
   */
  function LoadTables(desp: Frame, full: Frame): (r: Result<Tables>)
    requires WellFormed(desp) && WellFormed(full)
    ensures r.Ok? <==> Fact(desp).Ok? && Dim(full, FactColumnsOf(desp.columns).value.cnpj).Ok?
    ensures r.Ok? ==> r.value.fact == Fact(desp).value && r.value.dim == Dim(full, FactColumnsOf(desp.columns).value.cnpj).value
  {
    match Fact(desp)
    case KeyError(m) => KeyError(m)
    case Ok(fact) =>
      match Dim(full, FactColumnsOf(desp.columns).value.cnpj)
      case KeyError(m) => KeyError(m)
      case Ok(dim) => Ok(Tables(dim, fact))
  }
}
