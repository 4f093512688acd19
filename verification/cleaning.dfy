/**
 * `analyze_and_clean` of the analysis stage: the account filter, one name
 * per CNPJ (the name of the first row carrying it), removal of zero
 * amounts, and the five output columns with `N/A` for missing identifiers.
 */
module Cleaning {
  import opened Outcomes
  import opened Strings
  import opened Frames
  import Processing

  /** The columns `analyze_and_clean` keeps, before the amount is renamed. */
  const CleanColumns: seq<string> := ["CNPJ", "RazaoSocial", "Trimestre", "Ano", "vl_saldo_final"]

  /** The columns of the cleaned table. */
  const OutputColumns: seq<string> := ["CNPJ", "RazaoSocial", "Trimestre", "Ano", "ValorDespesas"]

  // ------------------------------------------------------- account filter

  /** `astype(str).str.startswith('4')` on an account code; a missing code prints as "nan". */
  predicate AccountKept(v: Value)
  {
    StartsWith(Text(v), "4")
  }

  /** The rows whose account code text starts with `4`, in order. */
  function AccountRows(f: Frame): (g: Frame)
    requires WellFormed(f) && Processing.Account in f.columns
    ensures WellFormed(g) && g.columns == f.columns && |g.rows| <= |f.rows|
    ensures forall r | r in g.rows :: r in f.rows && AccountKept(Cell(f.columns, r, Processing.Account))
    ensures forall r | r in f.rows && AccountKept(Cell(f.columns, r, Processing.Account)) :: r in g.rows
  {
    var k := IndexOf(f.columns, Processing.Account);
    Frame(f.columns, Filter(f.rows, r => k < |r| && AccountKept(r[k])))
  }

  // --------------------------------------------------------- one name per CNPJ

  predicate HasKey(ck: nat, r: Row) { ck < |r| && r[ck] != Null }

  /** `df.dropna(subset=['CNPJ'])`: the rows with a key, in order. */
  function WithKey(rows: seq<Row>, ck: nat): (w: seq<Row>)
    requires Wide(rows, ck)
    ensures Wide(w, ck) && forall r | r in w :: r in rows && r[ck] != Null
  {
    Filter(rows, r => HasKey(ck, r))
  }

  lemma WithKeyCons(rows: seq<Row>, ck: nat)
    requires Wide(rows, ck) && rows != []
    ensures WithKey(rows, ck) == (if HasKey(ck, rows[0]) then [rows[0]] else []) + WithKey(rows[1..], ck)
  {
  }

  /** `drop_duplicates('CNPJ')` of the rows with a key. */
  function MapRows(rows: seq<Row>, ck: nat): (m: seq<Row>)
    requires Wide(rows, ck)
    ensures Wide(m, ck) && forall r | r in m :: r in rows && r[ck] != Null
    ensures forall i, j | 0 <= i < j < |m| :: m[i][ck] != m[j][ck]
  {
    DedupFirst(WithKey(rows, ck), ck)
  }

  /**
   * `set_index('CNPJ')['RazaoSocial'].to_dict()`: each key maps to the name
   * of its row, a later row overwriting an earlier one.
   */
  function NameMap(rows: seq<Row>, ck: nat, nk: nat): (m: map<Value, Value>)
    requires Wide(rows, ck) && Wide(rows, nk)
    ensures m.Keys == KeysOf(rows, ck)
  {
    if rows == [] then map[]
    else
      var init := rows[..|rows| - 1];
      var last := rows[|rows| - 1];
      assert rows == init + [last];
      KeysOfSnoc(init, last, ck);
      NameMap(init, ck, nk)[last[ck] := last[nk]]
  }

  /** With distinct keys, every key maps to the name of its own row. */
  lemma {:induction false} NameMapDistinct(rows: seq<Row>, ck: nat, nk: nat, i: nat)
    requires Wide(rows, ck) && Wide(rows, nk) && i < |rows|
    requires forall a, b | 0 <= a < b < |rows| :: rows[a][ck] != rows[b][ck]
    ensures NameMap(rows, ck, nk)[rows[i][ck]] == rows[i][nk]
  {
    var init := rows[..|rows| - 1];
    var last := rows[|rows| - 1];
    assert rows == init + [last];
    if i < |init| {
      assert rows[i] == init[i];
      NameMapDistinct(init, ck, nk, i);
    }
  }

  /** `.map(cnpj_map).fillna(own)`: the mapped name, or the row's own when there is none. */
  function HarmonisedName(m: map<Value, Value>, cnpj: Value, own: Value): Value
  {
    if cnpj in m && m[cnpj] != Null then m[cnpj] else own
  }

  /** The table with `RazaoSocial` replaced by the harmonised name of each row. */
  function Harmonised(f: Frame): (g: Frame)
    requires WellFormed(f) && "CNPJ" in f.columns && "RazaoSocial" in f.columns
    ensures WellFormed(g) && g.columns == f.columns && |g.rows| == |f.rows|
    ensures forall i, c | 0 <= i < |f.rows| && c in f.columns && c != "RazaoSocial" ::
              Cell(g.columns, g.rows[i], c) == Cell(f.columns, f.rows[i], c)
  {
    var ck := IndexOf(f.columns, "CNPJ");
    var nk := IndexOf(f.columns, "RazaoSocial");
    var m := NameMap(MapRows(f.rows, ck), ck, nk);
    WithColumn(f, "RazaoSocial",
      seq(|f.rows|, i requires 0 <= i < |f.rows| => HarmonisedName(m, f.rows[i][ck], f.rows[i][nk])))
  }

  /** The first row with a given non-missing key is the first such row among those with a key. */
  lemma {:induction false} FilterFirst(rows: seq<Row>, ck: nat, j: nat)
    requires Wide(rows, ck) && j < |rows| && rows[j][ck] != Null
    requires forall k | 0 <= k < j :: rows[k][ck] != rows[j][ck]
    ensures var fr := WithKey(rows, ck);
            rows[j][ck] in KeysOf(fr, ck) && fr[FirstIndex(fr, ck, rows[j][ck])] == rows[j]
  {
    var fr := WithKey(rows, ck);
    var rest := WithKey(rows[1..], ck);
    WithKeyCons(rows, ck);
    if j == 0 {
      assert fr == [rows[0]] + rest;
      FirstIndexHead(fr, ck);
    } else {
      FilterFirst(rows[1..], ck, j - 1);
      assert rows[1..][j - 1] == rows[j];
      if HasKey(ck, rows[0]) {
        assert fr == [rows[0]] + rest;
        FirstIndexCons(rows[0], rest, ck, rows[j][ck]);
      } else {
        assert fr == rest;
      }
    }
  }

  /** The entry of a non-missing key is the name of the first row carrying it. */
  lemma NameMapFirst(rows: seq<Row>, ck: nat, nk: nat, j: nat)
    requires Wide(rows, ck) && Wide(rows, nk) && j < |rows| && rows[j][ck] != Null
    requires forall k | 0 <= k < j :: rows[k][ck] != rows[j][ck]
    ensures var m := NameMap(MapRows(rows, ck), ck, nk);
            rows[j][ck] in m && m[rows[j][ck]] == rows[j][nk]
  {
    var fr := WithKey(rows, ck);
    var d := MapRows(rows, ck);
    var c := rows[j][ck];
    FilterFirst(rows, ck, j);
    assert c in KeysOf(d, ck);
    var x :| x in d && x[ck] == c;
    var t :| 0 <= t < |d| && d[t] == x;
    DedupKeepsFirst(fr, ck, t);
    NameMapDistinct(d, ck, nk, t);
  }

  /** A missing key is never in the name map. */
  lemma NameMapNoNull(rows: seq<Row>, ck: nat, nk: nat)
    requires Wide(rows, ck) && Wide(rows, nk)
    ensures Null !in NameMap(MapRows(rows, ck), ck, nk)
  {
  }

  /**
   * A row with a CNPJ takes the name of the first row with that CNPJ (row
   * `j`), unless that name is missing, in which case it keeps its own.
   */
  lemma HarmonisedFromFirst(f: Frame, i: nat, j: nat)
    requires WellFormed(f) && "CNPJ" in f.columns && "RazaoSocial" in f.columns
    requires j <= i < |f.rows|
    requires Cell(f.columns, f.rows[j], "CNPJ") == Cell(f.columns, f.rows[i], "CNPJ") != Null
    requires forall k | 0 <= k < j :: Cell(f.columns, f.rows[k], "CNPJ") != Cell(f.columns, f.rows[i], "CNPJ")
    ensures var first := Cell(f.columns, f.rows[j], "RazaoSocial");
            Cell(Harmonised(f).columns, Harmonised(f).rows[i], "RazaoSocial")
              == if first != Null then first else Cell(f.columns, f.rows[i], "RazaoSocial")
  {
    var ck := IndexOf(f.columns, "CNPJ");
    var nk := IndexOf(f.columns, "RazaoSocial");
    NameMapFirst(f.rows, ck, nk, j);
  }

  /** A row without a CNPJ keeps its own name. */
  lemma HarmonisedWithoutCnpj(f: Frame, i: nat)
    requires WellFormed(f) && "CNPJ" in f.columns && "RazaoSocial" in f.columns
    requires i < |f.rows| && Cell(f.columns, f.rows[i], "CNPJ") == Null
    ensures Cell(Harmonised(f).columns, Harmonised(f).rows[i], "RazaoSocial")
            == Cell(f.columns, f.rows[i], "RazaoSocial")
  {
    var ck := IndexOf(f.columns, "CNPJ");
    var nk := IndexOf(f.columns, "RazaoSocial");
    NameMapNoNull(f.rows, ck, nk);
  }

  /**
   * One name per CNPJ: when the first row with a CNPJ has a name, every row
   * with that CNPJ carries it.
   */
  lemma OneNamePerCnpj(f: Frame, i1: nat, i2: nat, j: nat)
    requires WellFormed(f) && "CNPJ" in f.columns && "RazaoSocial" in f.columns
    requires j <= i1 < |f.rows| && j <= i2 < |f.rows|
    requires Cell(f.columns, f.rows[j], "CNPJ") != Null
    requires Cell(f.columns, f.rows[i1], "CNPJ") == Cell(f.columns, f.rows[j], "CNPJ")
    requires Cell(f.columns, f.rows[i2], "CNPJ") == Cell(f.columns, f.rows[j], "CNPJ")
    requires forall k | 0 <= k < j :: Cell(f.columns, f.rows[k], "CNPJ") != Cell(f.columns, f.rows[j], "CNPJ")
    requires Cell(f.columns, f.rows[j], "RazaoSocial") != Null
    ensures var g := Harmonised(f);
            Cell(g.columns, g.rows[i1], "RazaoSocial") == Cell(g.columns, g.rows[i2], "RazaoSocial")
                                                      == Cell(f.columns, f.rows[j], "RazaoSocial")
  {
    HarmonisedFromFirst(f, i1, j);
    HarmonisedFromFirst(f, i2, j);
  }

  // ------------------------------------------------------------- zero amounts

  /** `v != 0` is false only for a numeric zero: missing values and text compare unequal. */
  predicate IsZero(v: Value)
  {
    (v.Int? && v.i == 0) || (v.Num? && v.d.units == 0)
  }

  /** `df[df['vl_saldo_final'] != 0]`. */
  function NonZeroRows(f: Frame): (g: Frame)
    requires WellFormed(f) && "vl_saldo_final" in f.columns
    ensures WellFormed(g) && g.columns == f.columns && |g.rows| <= |f.rows|
    ensures forall r | r in g.rows :: r in f.rows && !IsZero(Cell(f.columns, r, "vl_saldo_final"))
    ensures forall r | r in f.rows && !IsZero(Cell(f.columns, r, "vl_saldo_final")) :: r in g.rows
  {
    var k := IndexOf(f.columns, "vl_saldo_final");
    Frame(f.columns, Filter(f.rows, r => !(k < |r| && IsZero(r[k]))))
  }

  /** Negative amounts are adjustments and stay. */
  lemma NegativesKept(f: Frame, r: Row)
    requires WellFormed(f) && "vl_saldo_final" in f.columns && r in f.rows
    requires var v := Cell(f.columns, r, "vl_saldo_final");
             (v.Int? && v.i < 0) || (v.Num? && v.d.units < 0)
    ensures r in NonZeroRows(f).rows
  {
  }

  // ------------------------------------------------------------ output columns

  /** `fillna('N/A')` on one cell. */
  function FillNa(v: Value): (w: Value)
    ensures w != Null
    ensures v != Null ==> w == v
  {
    if v.Null? then Str("N/A") else v
  }

  /**
   * One cleaned row: the five kept columns of the source row, missing ones
   * as missing values, with `N/A` for a missing CNPJ or name.
   */
  function CleanRow(cols: seq<string>, r: Row): (o: Row)
    requires |r| == |cols|
    ensures |o| == |OutputColumns|
  {
    [FillNa(Processing.SourceCell(cols, r, "CNPJ")), FillNa(Processing.SourceCell(cols, r, "RazaoSocial")),
     Processing.SourceCell(cols, r, "Trimestre"), Processing.SourceCell(cols, r, "Ano"),
     Processing.SourceCell(cols, r, "vl_saldo_final")]
  }

  /** The rows left after the account, name and zero steps. */
  function Kept(df: Frame): (z: Frame)
    requires WellFormed(df)
    requires "CNPJ" in df.columns ==> "RazaoSocial" in df.columns
    ensures WellFormed(z) && z.columns == df.columns
  {
    var a := if Processing.Account in df.columns then AccountRows(df) else df;
    var h := if "CNPJ" in a.columns then Harmonised(a) else a;
    if "vl_saldo_final" in h.columns then NonZeroRows(h) else h
  }

  /** The cleaned row of every row, under the output column names. */
  function Output(z: Frame): (o: Frame)
    requires WellFormed(z)
    ensures o.columns == OutputColumns && |o.rows| == |z.rows|
    ensures forall i | 0 <= i < |z.rows| :: o.rows[i] == CleanRow(z.columns, z.rows[i])
  {
    Frame(OutputColumns, seq(|z.rows|, i requires 0 <= i < |z.rows| => CleanRow(z.columns, z.rows[i])))
  }

  /**
   * `analyze_and_clean`: KeyError when there is a `CNPJ` column but no
   * `RazaoSocial`; otherwise the cleaned row of every kept row.
   */
  function Cleaned(df: Frame): (r: Result<Frame>)
    requires WellFormed(df)
  {
    if "CNPJ" in df.columns && "RazaoSocial" !in df.columns then KeyError("RazaoSocial")
    else Ok(Output(Kept(df)))
  }

  lemma OutputPositions()
    ensures Distinct(CleanColumns) && Distinct(OutputColumns)
    ensures IndexOf(OutputColumns, "CNPJ") == 0 && IndexOf(OutputColumns, "RazaoSocial") == 1
  {
  }

  /** The amount column renamed: the output columns. */
  lemma RenamedAmount(f: Frame)
    requires f.columns == CleanColumns
    ensures Rename(f, map["vl_saldo_final" := "ValorDespesas"]).columns == OutputColumns
  {
    var g := Rename(f, map["vl_saldo_final" := "ValorDespesas"]);
    assert g.columns[4] == "ValorDespesas";
    assert forall p | 0 <= p < 4 :: g.columns[p] == CleanColumns[p];
  }

  /** `df[c].fillna('N/A')`. */
  function FilledColumn(f: Frame, c: string): (vals: seq<Value>)
    requires WellFormed(f) && c in f.columns
    ensures |vals| == |f.rows|
    ensures forall k | 0 <= k < |f.rows| :: vals[k] == FillNa(Cell(f.columns, f.rows[k], c))
  {
    seq(|f.rows|, k requires 0 <= k < |f.rows| => FillNa(Cell(f.columns, f.rows[k], c)))
  }

  /** One `fillna('N/A')` column write, on one row. */
  lemma FilledRow(f: Frame, c: string, p: nat, i: nat)
    requires WellFormed(f) && c in f.columns && IndexOf(f.columns, c) == p && i < |f.rows|
    ensures var g := WithColumn(f, c, FilledColumn(f, c));
            g.columns == f.columns && g.rows[i] == f.rows[i][p := FillNa(f.rows[i][p])]
  {
  }

  /** The output cells of a selected row once both identifiers are filled. */
  lemma FilledCleanRow(src: Row, cols: seq<string>, r: Row)
    requires |r| == |cols| && |src| == |CleanColumns|
    requires forall p | 0 <= p < |CleanColumns| :: src[p] == Processing.SourceCell(cols, r, CleanColumns[p])
    ensures src[0 := FillNa(src[0])][1 := FillNa(src[1])] == CleanRow(cols, r)
  {
  }

  /**
   * `df[cols_finais]` after the missing ones are added as missing values,
   * with the amount renamed: each row holds its source cells.
   */
  method SelectColumns(d: Frame) returns (sel: Frame)
    requires WellFormed(d)
    ensures WellFormed(sel) && sel.columns == OutputColumns && |sel.rows| == |d.rows|
    ensures forall i, p | 0 <= i < |d.rows| && 0 <= p < |CleanColumns| ::
              sel.rows[i][p] == Processing.SourceCell(d.columns, d.rows[i], CleanColumns[p])
  {
    OutputPositions();
    var padded := Processing.AddMissingColumns(d, CleanColumns);
    var selected := Select(padded, CleanColumns);
    sel := Rename(selected, map["vl_saldo_final" := "ValorDespesas"]);
    RenamedAmount(selected);
    forall i | 0 <= i < |d.rows|
      ensures forall p | 0 <= p < |CleanColumns| ::
                sel.rows[i][p] == Processing.SourceCell(d.columns, d.rows[i], CleanColumns[p])
    {
      Processing.SelectedCells(d, padded, CleanColumns, i);
    }
  }

  /** `fillna('N/A')` on `CNPJ`, then on `RazaoSocial`. */
  method FillIdentifiers(f: Frame) returns (g: Frame)
    requires WellFormed(f) && f.columns == OutputColumns
    ensures g.columns == OutputColumns && |g.rows| == |f.rows|
    ensures forall i | 0 <= i < |f.rows| :: g.rows[i] == f.rows[i][0 := FillNa(f.rows[i][0])][1 := FillNa(f.rows[i][1])]
  {
    OutputPositions();
    var filled := WithColumn(f, "CNPJ", FilledColumn(f, "CNPJ"));
    g := WithColumn(filled, "RazaoSocial", FilledColumn(filled, "RazaoSocial"));
    forall i | 0 <= i < |f.rows| ensures g.rows[i] == f.rows[i][0 := FillNa(f.rows[i][0])][1 := FillNa(f.rows[i][1])] {
      FilledRow(f, "CNPJ", 0, i);
      FilledRow(filled, "RazaoSocial", 1, i);
    }
  }

  /** The end of `analyze_and_clean`: the output columns, selected and filled. */
  method SelectOutput(d: Frame) returns (out: Frame)
    requires WellFormed(d)
    ensures out == Output(d)
  {
    var sel := SelectColumns(d);
    out := FillIdentifiers(sel);
    forall i | 0 <= i < |d.rows| ensures out.rows[i] == CleanRow(d.columns, d.rows[i]) {
      FilledCleanRow(sel.rows[i], d.columns, d.rows[i]);
    }
    assert out.rows == Output(d).rows;
  }

  /**
   * The step-by-step `analyze_and_clean`: each step reassigns the table,
   * and the output columns are taken from what is left.
   */
  method AnalyzeAndClean(df: Frame) returns (r: Result<Frame>)
    requires WellFormed(df)
    ensures r == Cleaned(df)
  {
    var d := df;
    if Processing.Account in d.columns {
      d := AccountRows(d);
    }
    if "CNPJ" in d.columns {
      if "RazaoSocial" !in d.columns {
        return KeyError("RazaoSocial");
      }
      d := Harmonised(d);
    }
    if "vl_saldo_final" in d.columns {
      d := NonZeroRows(d);
    }
    var out := SelectOutput(d);
    r := Ok(out);
  }

  // ------------------------------------------------------------- the result

  /** Every cleaned row has a CNPJ and a name: `N/A` where the source had none. */
  lemma CleanedHasIdentifiers(df: Frame, i: nat)
    requires WellFormed(df) && Cleaned(df).Ok? && i < |Cleaned(df).value.rows|
    ensures Cleaned(df).value.rows[i][0] != Null && Cleaned(df).value.rows[i][1] != Null
  {
    var z := Kept(df);
    assert Cleaned(df).value.rows[i] == CleanRow(z.columns, z.rows[i]);
  }

  /** No cleaned amount is a numeric zero. */
  lemma CleanedHasNoZeroAmount(df: Frame, i: nat)
    requires WellFormed(df) && Cleaned(df).Ok? && i < |Cleaned(df).value.rows|
    ensures !IsZero(Cleaned(df).value.rows[i][4])
  {
    var z := Kept(df);
    if "vl_saldo_final" in z.columns {
      assert z.rows[i] in z.rows;
    }
  }
}
