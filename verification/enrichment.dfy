/**
 * Stage 2.2: the operator registry (CADOP) cleaned up to at most the
 * columns CNPJ, RegistroANS, Modalidade and UF, one registry record per
 * CNPJ (the first), the left join of the valid expenses with the
 * registry's new columns on CNPJ, and `Não Informado` in place of a
 * missing Modalidade or UF.
 */
module Enrichment {
  import opened Outcomes
  import opened Frames
  import opened Sorting
  import Analysis

  // --------------------------------------------------------- registry cleanup

  /** `col_map`: the renames applied to the cleaned-up headers. */
  const ColMap: map<string, string> :=
    map["CNPJ" := "CNPJ", "UF" := "UF", "MODALIDADE" := "Modalidade",
        "REGISTRO_ANS" := "RegistroANS", "REGISTROANS" := "RegistroANS"]

  /** `possible`: the headers tried, in order, when there is no `RegistroANS`. */
  const KeyFallbacks: seq<string> := ["REG_ANS", "CD_OPERADORA", "REGISTRO_OPERADORA"]

  /** `cols_final`, before the columns that do not exist are dropped. */
  const RegistryFinal: seq<string> := ["CNPJ", "RegistroANS", "Modalidade", "UF"]

  /**
   * A registry file the model can read: the cleaned-up headers are distinct
   * and at most one of the two aliases of `RegistroANS` is among them.
   */
  predicate CadopLoadable(cadop: Frame)
  {
    Analysis.RegistryLoadable(cadop)
    && var h := Analysis.RegistryColumns(cadop.columns);
    !("REGISTRO_ANS" in h && "REGISTROANS" in h)
  }

  /** `df.columns = [...]` followed by `df.rename(columns=col_map)`. */
  function Mapped(cadop: Frame): (g: Frame)
    requires CadopLoadable(cadop)
    ensures WellFormed(g) && g.rows == cadop.rows
  {
    var f := Analysis.CleanRegistry(cadop);
    MappedDistinct(f);
    Rename(f, ColMap)
  }

  /** The fallback rename of the first present of `KeyFallbacks`, when there is no `RegistroANS`. */
  function KeyFallback(f: Frame): (g: Frame)
    requires WellFormed(f)
    ensures WellFormed(g) && g.rows == f.rows
  {
    if "RegistroANS" in f.columns then f
    else
      match FindColumn(f.columns, KeyFallbacks)
      case None => f
      case Some(c) =>
        Analysis.RenameKeepsDistinct(f, map[c := "RegistroANS"]);
        Rename(f, map[c := "RegistroANS"])
  }

  /** The rename loop of `clean_cadop_dataframe`, stopping at the first fallback present. */
  method RenameKeyFallback(f: Frame) returns (g: Frame)
    requires WellFormed(f)
    ensures g == KeyFallback(f)
  {
    g := f;
    if "RegistroANS" !in f.columns {
      for j := 0 to |KeyFallbacks|
        invariant forall i | 0 <= i < j :: KeyFallbacks[i] !in f.columns
        invariant g == f
      {
        if KeyFallbacks[j] in f.columns {
          FindColumnFirst(f.columns, KeyFallbacks, j);
          g := Rename(f, map[KeyFallbacks[j] := "RegistroANS"]);
          break;
        }
      }
    }
  }

  /** `[c for c in cols_final if c in df.columns]`. */
  function Present(cols: seq<string>): (p: seq<string>)
    ensures Distinct(p) && forall c :: c in p <==> c in RegistryFinal && c in cols
  {
    var p := Filter(RegistryFinal, c => c in cols);
    FinalDistinct();
    FilterDistinct(RegistryFinal, c => c in cols);
    p
  }

  /** The four final columns begin with four different letters. */
  lemma FinalDistinct()
    ensures Distinct(RegistryFinal)
  {
    var heads := [RegistryFinal[0][0], RegistryFinal[1][0], RegistryFinal[2][0], RegistryFinal[3][0]];
    assert heads == ['C', 'R', 'M', 'U'];
  }

  /** `clean_cadop_dataframe`. */
  function CleanCadop(cadop: Frame): (g: Frame)
    requires CadopLoadable(cadop)
    ensures WellFormed(g) && |g.rows| == |cadop.rows|
  {
    var f := KeyFallback(Mapped(cadop));
    Select(f, Present(f.columns))
  }

  /** `clean_cadop_dataframe` step by step. */
  method CleanCadopFrame(cadop: Frame) returns (g: Frame)
    requires CadopLoadable(cadop)
    ensures g == CleanCadop(cadop)
  {
    var f := Mapped(cadop);
    f := RenameKeyFallback(f);
    g := Select(f, Present(f.columns));
  }

  /**
   * The cleaned-up header that ends up as column `c` of the cleaned
   * registry: CNPJ, UF and MODALIDADE by name; for RegistroANS one of its
   * two aliases, else the first present of the fallbacks.
   */
  function SourceHeader(h: seq<string>, c: string): Option<string>
  {
    if c == "CNPJ" || c == "UF" then (if c in h then Some(c) else None)
    else if c == "Modalidade" then (if "MODALIDADE" in h then Some("MODALIDADE") else None)
    else if c == "RegistroANS" then
      if "REGISTRO_ANS" in h then Some("REGISTRO_ANS")
      else if "REGISTROANS" in h then Some("REGISTROANS")
      else FindColumn(h, KeyFallbacks)
    else None
  }

  // ---------------------------------------------------- helpers on renaming

  lemma {:induction false} FilterDistinct<T>(s: seq<T>, keep: T -> bool)
    requires Distinct(s)
    ensures Distinct(Filter(s, keep))
  {
    if s != [] {
      assert Distinct(s[1..]) by {
        forall i, j | 0 <= i < j < |s[1..]| ensures s[1..][i] != s[1..][j] {
          assert s[1..][i] == s[i + 1] && s[1..][j] == s[j + 1];
        }
      }
      FilterDistinct(s[1..], keep);
      var rest := Filter(s[1..], keep);
      assert s[0] !in s[1..] by {
        forall k | 0 <= k < |s[1..]| ensures s[1..][k] != s[0] {
          assert s[1..][k] == s[k + 1];
        }
      }
      var r := (if keep(s[0]) then [s[0]] else []) + rest;
      forall i, j | 0 <= i < j < |r| ensures r[i] != r[j] {
        if keep(s[0]) && i == 0 {
          assert r[j] == rest[j - 1];
        }
      }
    }
  }

  /** What `col_map` does to a cleaned-up (upper-case) header. */
  lemma ColMapOf(x: string)
    requires Analysis.NoLower(x)
    ensures x == "MODALIDADE" ==> Renamed(x, ColMap) == "Modalidade"
    ensures x == "REGISTRO_ANS" || x == "REGISTROANS" ==> Renamed(x, ColMap) == "RegistroANS"
    ensures x != "MODALIDADE" && x != "REGISTRO_ANS" && x != "REGISTROANS" ==> Renamed(x, ColMap) == x
    ensures x != "Modalidade" && x != "RegistroANS"
  {
    assert 'o' in "Modalidade";
    assert 'e' in "RegistroANS";
  }

  lemma MappedDistinct(f: Frame)
    requires WellFormed(f) && forall c | c in f.columns :: Analysis.NoLower(c)
    requires !("REGISTRO_ANS" in f.columns && "REGISTROANS" in f.columns)
    ensures Distinct(Rename(f, ColMap).columns)
  {
    var g := Rename(f, ColMap);
    forall i, j | 0 <= i < j < |g.columns| ensures g.columns[i] != g.columns[j] {
      var a, b := f.columns[i], f.columns[j];
      assert a in f.columns && b in f.columns;
      ColMapOf(a);
      ColMapOf(b);
    }
  }

  /** `FindColumn` reads only which candidates are present. */
  lemma {:induction false} FindColumnSame(c1: seq<string>, c2: seq<string>, cands: seq<string>)
    requires forall x | x in cands :: x in c1 <==> x in c2
    ensures FindColumn(c1, cands) == FindColumn(c2, cands)
  {
    if cands != [] {
      FindColumnSame(c1, c2, cands[1..]);
    }
  }

  /** Column `k` after `col_map` is the renamed cleaned-up header `k`. */
  lemma MappedAt(cadop: Frame, k: nat)
    requires CadopLoadable(cadop) && k < |cadop.columns|
    ensures var h := Analysis.RegistryColumns(cadop.columns);
      |Mapped(cadop).columns| == |h| && Analysis.NoLower(h[k])
      && Mapped(cadop).columns[k] == Renamed(h[k], ColMap)
  {
    var f0 := Analysis.CleanRegistry(cadop);
    assert f0.columns == Analysis.RegistryColumns(cadop.columns);
    assert f0.columns[k] in f0.columns;
  }

  /** The headers after `col_map`, position by position. */
  predicate MappedFrom(h: seq<string>, m: seq<string>)
  {
    |m| == |h| && forall k | 0 <= k < |h| :: Analysis.NoLower(h[k]) && m[k] == Renamed(h[k], ColMap)
  }

  lemma MappedFromCadop(cadop: Frame)
    requires CadopLoadable(cadop)
    ensures MappedFrom(Analysis.RegistryColumns(cadop.columns), Mapped(cadop).columns)
  {
    forall k | 0 <= k < |cadop.columns|
      ensures Analysis.NoLower(Analysis.RegistryColumns(cadop.columns)[k])
      ensures Mapped(cadop).columns[k] == Renamed(Analysis.RegistryColumns(cadop.columns)[k], ColMap)
    {
      MappedAt(cadop, k);
    }
  }

  /** `col_map` leaves the fallback headers alone, so the fallback found is the same. */
  lemma MappedFallbacks(h: seq<string>, m: seq<string>)
    requires MappedFrom(h, m)
    ensures FindColumn(m, KeyFallbacks) == FindColumn(h, KeyFallbacks)
  {
    forall x | x in KeyFallbacks ensures x in m <==> x in h {
      if x in h {
        var k :| 0 <= k < |h| && h[k] == x;
        ColMapOf(h[k]);
        assert m[k] == x;
      }
      if x in m {
        var k :| 0 <= k < |m| && m[k] == x;
        ColMapOf(h[k]);
      }
    }
    FindColumnSame(m, h, KeyFallbacks);
  }

  /** After `col_map` there is a `RegistroANS` exactly when one of its aliases was a header. */
  lemma MappedKey(h: seq<string>, m: seq<string>)
    requires MappedFrom(h, m)
    ensures "RegistroANS" in m <==> "REGISTRO_ANS" in h || "REGISTROANS" in h
  {
    if "RegistroANS" in m {
      var k :| 0 <= k < |m| && m[k] == "RegistroANS";
      ColMapOf(h[k]);
    }
    if "REGISTRO_ANS" in h || "REGISTROANS" in h {
      var k :| 0 <= k < |h| && (h[k] == "REGISTRO_ANS" || h[k] == "REGISTROANS");
      ColMapOf(h[k]);
      assert m[k] == "RegistroANS";
    }
  }

  /** Column `k` after the fallback rename. */
  lemma FallbackAt(f: Frame, k: nat)
    requires WellFormed(f) && k < |f.columns|
    ensures |KeyFallback(f).columns| == |f.columns|
    ensures KeyFallback(f).columns[k] ==
      if "RegistroANS" !in f.columns && FindColumn(f.columns, KeyFallbacks) == Some(f.columns[k]) then "RegistroANS"
      else f.columns[k]
  {
  }

  /** The headers after the fallback rename, position by position. */
  predicate FallbackFrom(m: seq<string>, fc: seq<string>)
  {
    |fc| == |m| && forall k | 0 <= k < |m| ::
      fc[k] == if "RegistroANS" !in m && FindColumn(m, KeyFallbacks) == Some(m[k]) then "RegistroANS" else m[k]
  }

  /** The fallback found is one of the three fallback headers. */
  lemma FoundFallback(cols: seq<string>)
    ensures var r := FindColumn(cols, KeyFallbacks);
      r.Some? ==> r.value == "REG_ANS" || r.value == "CD_OPERADORA" || r.value == "REGISTRO_OPERADORA"
  {
  }

  /** The header `SourceHeader` names becomes column `c`. */
  lemma SourceBecomes(h: seq<string>, m: seq<string>, fc: seq<string>, c: string)
    requires MappedFrom(h, m) && FallbackFrom(m, fc) && c in RegistryFinal
    requires SourceHeader(h, c).Some?
    ensures SourceHeader(h, c).value in h && fc[IndexOf(h, SourceHeader(h, c).value)] == c
  {
    var src := SourceHeader(h, c).value;
    MappedFallbacks(h, m);
    MappedKey(h, m);
    FoundFallback(m);
    var k := IndexOf(h, src);
    ColMapOf(h[k]);
    if c == "RegistroANS" && !("REGISTRO_ANS" in h || "REGISTROANS" in h) {
      FoundFallback(h);
      assert FindColumn(m, KeyFallbacks) == Some(m[k]);
    }
  }

  /** A final column present after the renames has a source header. */
  lemma SourceNeeded(h: seq<string>, m: seq<string>, fc: seq<string>, c: string)
    requires MappedFrom(h, m) && FallbackFrom(m, fc) && c in RegistryFinal
    requires c in fc
    ensures SourceHeader(h, c).Some?
  {
    var k :| 0 <= k < |fc| && fc[k] == c;
    ColMapOf(h[k]);
    if fc[k] != m[k] {
      MappedFallbacks(h, m);
      MappedKey(h, m);
    } else if c == "CNPJ" || c == "UF" {
      assert h[k] == c;
    } else if c == "Modalidade" {
      assert h[k] == "MODALIDADE";
    } else {
      assert h[k] == "REGISTRO_ANS" || h[k] == "REGISTROANS";
    }
  }

  /** Each final column comes from the header `SourceHeader` names, and from nowhere else. */
  lemma SourceFound(h: seq<string>, m: seq<string>, fc: seq<string>, c: string)
    requires MappedFrom(h, m) && FallbackFrom(m, fc) && c in RegistryFinal
    ensures c in fc <==> SourceHeader(h, c).Some?
    ensures SourceHeader(h, c).Some? ==>
              SourceHeader(h, c).value in h && fc[IndexOf(h, SourceHeader(h, c).value)] == c
  {
    if SourceHeader(h, c).Some? {
      SourceBecomes(h, m, fc, c);
      assert fc[IndexOf(h, SourceHeader(h, c).value)] in fc;
    }
    if c in fc {
      SourceNeeded(h, m, fc, c);
    }
  }

  lemma {:induction false} FilterSame<T>(s: seq<T>, p: T -> bool, q: T -> bool)
    requires forall x | x in s :: p(x) == q(x)
    ensures Filter(s, p) == Filter(s, q)
  {
    if s != [] {
      FilterSame(s[1..], p, q);
    }
  }

  /** The headers of the registry on its way through `clean_cadop_dataframe`, before the selection. */
  lemma Renamings(cadop: Frame)
    requires CadopLoadable(cadop)
    ensures var h := Analysis.RegistryColumns(cadop.columns);
            var m := Mapped(cadop).columns;
            MappedFrom(h, m) && FallbackFrom(m, KeyFallback(Mapped(cadop)).columns)
  {
    MappedFromCadop(cadop);
    var f := Mapped(cadop);
    forall k | 0 <= k < |f.columns|
      ensures KeyFallback(f).columns[k] ==
        if "RegistroANS" !in f.columns && FindColumn(f.columns, KeyFallbacks) == Some(f.columns[k]) then "RegistroANS"
        else f.columns[k]
    {
      FallbackAt(f, k);
    }
    assert |KeyFallback(f).columns| == |f.columns|;
  }

  /**
   * `clean_cadop_dataframe` keeps, in the order CNPJ, RegistroANS,
   * Modalidade, UF, exactly the final columns some registry header
   * becomes.
   */
  lemma CleanCadopColumns(cadop: Frame)
    requires CadopLoadable(cadop)
    ensures var h := Analysis.RegistryColumns(cadop.columns);
            CleanCadop(cadop).columns == Filter(RegistryFinal, c => SourceHeader(h, c).Some?)
  {
    var h := Analysis.RegistryColumns(cadop.columns);
    var f := KeyFallback(Mapped(cadop));
    Renamings(cadop);
    forall c | c in RegistryFinal ensures (c in f.columns) == SourceHeader(h, c).Some? {
      SourceFound(h, Mapped(cadop).columns, f.columns, c);
    }
    FilterSame(RegistryFinal, c => c in f.columns, c => SourceHeader(h, c).Some?);
  }

  /**
   * Each cell of the cleaned registry is the original cell under the
   * header `SourceHeader` names: the rows are the registry's rows, cut
   * down to the kept columns.
   */
  lemma CleanCadopCell(cadop: Frame, i: nat, c: string)
    requires CadopLoadable(cadop) && i < |cadop.rows| && c in CleanCadop(cadop).columns
    ensures var h := Analysis.RegistryColumns(cadop.columns);
            var g := CleanCadop(cadop);
            var f0 := Analysis.CleanRegistry(cadop);
            SourceHeader(h, c).Some? && SourceHeader(h, c).value in f0.columns &&
            Cell(g.columns, g.rows[i], c) == Cell(f0.columns, f0.rows[i], SourceHeader(h, c).value)
  {
    var h := Analysis.RegistryColumns(cadop.columns);
    var f := KeyFallback(Mapped(cadop));
    var g := CleanCadop(cadop);
    Renamings(cadop);
    SourceFound(h, Mapped(cadop).columns, f.columns, c);
    var k := IndexOf(h, SourceHeader(h, c).value);
    IndexOfDistinct(f.columns, k);
    var p := Present(f.columns);
    assert g == Select(f, p);
    assert f.rows[i] in f.rows;
    assert g.rows[i] == Project(f.columns, f.rows[i], p);
  }

  // --------------------------------------------------------- dedup and join

  /** `drop_duplicates(subset=['CNPJ'], keep='first')`. */
  function Deduped(c: Frame): (g: Frame)
    requires WellFormed(c) && "CNPJ" in c.columns
    ensures WellFormed(g) && g.columns == c.columns && |g.rows| <= |c.rows|
    ensures UniqueKeys(g.rows, IndexOf(g.columns, "CNPJ"))
  {
    Frame(c.columns, DedupFirst(c.rows, IndexOf(c.columns, "CNPJ")))
  }

  /**
   * The rows dedup keeps: every CNPJ of the registry still appears, each
   * kept row is the first registry row with its CNPJ, and kept rows keep
   * the order of those first occurrences.
   */
  lemma DedupedRows(c: Frame)
    requires WellFormed(c) && "CNPJ" in c.columns
    ensures var k := IndexOf(c.columns, "CNPJ");
            var g := Deduped(c);
            KeysOf(g.rows, k) == KeysOf(c.rows, k) &&
            (forall i | 0 <= i < |g.rows| :: g.rows[i] == c.rows[FirstIndex(c.rows, k, g.rows[i][k])]) &&
            (forall i, j | 0 <= i < j < |g.rows| ::
               FirstIndex(c.rows, k, g.rows[i][k]) < FirstIndex(c.rows, k, g.rows[j][k]))
  {
    var k := IndexOf(c.columns, "CNPJ");
    forall i | 0 <= i < |Deduped(c).rows| ensures Deduped(c).rows[i] == c.rows[FirstIndex(c.rows, k, Deduped(c).rows[i][k])] {
      DedupKeepsFirst(c.rows, k, i);
    }
    forall i, j | 0 <= i < j < |Deduped(c).rows|
      ensures FirstIndex(c.rows, k, Deduped(c).rows[i][k]) < FirstIndex(c.rows, k, Deduped(c).rows[j][k])
    {
      DedupKeepsOrder(c.rows, k, i, j);
    }
  }

  /** `df_cadop.columns.difference(df_despesas.columns)`: the registry's new columns, sorted. */
  function NewColumns(reg: seq<string>, desp: seq<string>): (n: seq<string>)
    requires Distinct(reg)
    ensures Distinct(n) && StrSorted(n)
    ensures forall c :: c in n <==> c in reg && c !in desp
  {
    var kept := Filter(reg, c => c !in desp);
    FilterDistinct(reg, c => c !in desp);
    var n := SortStrings(kept);
    SameElements(kept, n);
    n
  }

  /** `cols_to_use`: the new columns, then the key. */
  function Imported(reg: seq<string>, desp: seq<string>): (cs: seq<string>)
    requires Distinct(reg) && "CNPJ" in reg && "CNPJ" in desp
    ensures Distinct(cs) && forall c | c in cs :: c in reg
    ensures cs == NewColumns(reg, desp) + ["CNPJ"] && IndexOf(cs, "CNPJ") == |cs| - 1
  {
    var n := NewColumns(reg, desp);
    var cs := n + ["CNPJ"];
    assert forall i | 0 <= i < |n| :: cs[i] == n[i] && cs[i] in n;
    cs
  }

  /** `pd.merge(df_despesas, df_cadop[cols_to_use], on='CNPJ', how='left')`. */
  function Joined(desp: Frame, reg: Frame): (j: Frame)
    requires WellFormed(desp) && WellFormed(reg) && "CNPJ" in desp.columns && "CNPJ" in reg.columns
    ensures WellFormed(j) && j.columns == desp.columns + NewColumns(reg.columns, desp.columns)
  {
    var n := NewColumns(reg.columns, desp.columns);
    var cs := Imported(reg.columns, desp.columns);
    var right := Select(reg, cs);
    assert DropAt(cs, |cs| - 1) == n;
    assert forall c | c in cs && c != "CNPJ" :: c in n && c !in desp.columns;
    LeftJoin(desp, right, "CNPJ")
  }

  /**
   * The cell `merge` puts in column `c` of expense row `i`: the expense's
   * own cell, or for a new column the cell of the registry row with the
   * same CNPJ, or a missing value when no registry row has that CNPJ.
   */
  function JoinCell(desp: Frame, reg: Frame, i: nat, c: string): Value
    requires WellFormed(desp) && WellFormed(reg) && "CNPJ" in desp.columns && "CNPJ" in reg.columns
    requires i < |desp.rows| && (c in desp.columns || c in reg.columns)
  {
    if c in desp.columns then Cell(desp.columns, desp.rows[i], c)
    else
      var rk := IndexOf(reg.columns, "CNPJ");
      var v := Cell(desp.columns, desp.rows[i], "CNPJ");
      if v in KeysOf(reg.rows, rk) then Cell(reg.columns, reg.rows[FirstIndex(reg.rows, rk, v)], c)
      else Null
  }

  /**
   * With a CNPJ-unique registry the join has exactly one row per expense
   * row, in order, and each cell is `JoinCell`: the expense cells
   * unchanged, the new columns from the matching registry row or missing.
   */
  lemma JoinedCells(desp: Frame, reg: Frame)
    requires WellFormed(desp) && WellFormed(reg) && "CNPJ" in desp.columns && "CNPJ" in reg.columns
    requires UniqueKeys(reg.rows, IndexOf(reg.columns, "CNPJ"))
    ensures var j := Joined(desp, reg);
            |j.rows| == |desp.rows| &&
            forall i, c | 0 <= i < |desp.rows| && c in j.columns ::
              (c in desp.columns || c in reg.columns) && Cell(j.columns, j.rows[i], c) == JoinCell(desp, reg, i, c)
  {
    var j := Joined(desp, reg);
    var cs := Imported(reg.columns, desp.columns);
    var right := Select(reg, cs);
    var lk := IndexOf(desp.columns, "CNPJ");
    var rk := IndexOf(cs, "CNPJ");
    var w := |cs| - 1;
    UniqueSelected(reg, cs);
    LeftJoinOneToOne(desp, right, "CNPJ", lk, rk, w);
    forall i, c | 0 <= i < |desp.rows| && c in j.columns
      ensures (c in desp.columns || c in reg.columns) && Cell(j.columns, j.rows[i], c) == JoinCell(desp, reg, i, c)
    {
      JoinedCell(desp, reg, i, c);
    }
  }

  /** Selecting columns that include the key keeps the key values, so a unique key stays unique. */
  lemma UniqueSelected(reg: Frame, cs: seq<string>)
    requires WellFormed(reg) && Distinct(cs) && "CNPJ" in cs && forall c | c in cs :: c in reg.columns
    requires UniqueKeys(reg.rows, IndexOf(reg.columns, "CNPJ"))
    ensures var r := Select(reg, cs);
            forall m | 0 <= m < |reg.rows| :: r.rows[m][IndexOf(cs, "CNPJ")] == reg.rows[m][IndexOf(reg.columns, "CNPJ")]
    ensures UniqueKeys(Select(reg, cs).rows, IndexOf(cs, "CNPJ"))
  {
  }

  lemma JoinedCell(desp: Frame, reg: Frame, i: nat, c: string)
    requires WellFormed(desp) && WellFormed(reg) && "CNPJ" in desp.columns && "CNPJ" in reg.columns
    requires UniqueKeys(reg.rows, IndexOf(reg.columns, "CNPJ"))
    requires i < |desp.rows| && c in Joined(desp, reg).columns
    ensures (c in desp.columns || c in reg.columns)
    ensures Cell(Joined(desp, reg).columns, Joined(desp, reg).rows[i], c) == JoinCell(desp, reg, i, c)
  {
    var n := NewColumns(reg.columns, desp.columns);
    var rrows := Select(reg, Imported(reg.columns, desp.columns)).rows;
    SelectedRight(desp, reg);
    JoinedRowShape(desp, reg, i);
    JoinedCellFrom(desp, reg, n, rrows, Joined(desp, reg), i, c);
  }

  /** The registry side of the join: one row per registry row, its new cells, then its key. */
  predicate RightFacts(reg: Frame, n: seq<string>, rrows: seq<Row>)
    requires WellFormed(reg) && "CNPJ" in reg.columns
  {
    (forall x | x in n :: x in reg.columns) &&
    |rrows| == |reg.rows| && (forall r | r in rrows :: |r| == |n| + 1) &&
    (forall m | 0 <= m < |rrows| :: rrows[m][|n|] == reg.rows[m][IndexOf(reg.columns, "CNPJ")]) &&
    (forall m, q | 0 <= m < |rrows| && 0 <= q < |n| ::
       DropAt(rrows[m], |n|)[q] == Cell(reg.columns, reg.rows[m], n[q]))
  }

  /** Row `i` of the join: the expense columns and new columns, and the row `JoinedRow` builds. */
  predicate RowFacts(desp: Frame, n: seq<string>, rrows: seq<Row>, j: Frame, i: nat)
    requires WellFormed(desp) && "CNPJ" in desp.columns
  {
    i < |desp.rows| && j.columns == desp.columns + n && Distinct(j.columns) &&
    (forall r | r in rrows :: |r| == |n| + 1) &&
    IndexOf(desp.columns, "CNPJ") < |desp.rows[i]| && i < |j.rows| &&
    j.rows[i] == JoinedRow(desp.rows[i], IndexOf(desp.columns, "CNPJ"), rrows, |n|, |n|)
  }

  lemma SelectedRight(desp: Frame, reg: Frame)
    requires WellFormed(desp) && WellFormed(reg) && "CNPJ" in desp.columns && "CNPJ" in reg.columns
    requires UniqueKeys(reg.rows, IndexOf(reg.columns, "CNPJ"))
    ensures var n := NewColumns(reg.columns, desp.columns);
            var rrows := Select(reg, Imported(reg.columns, desp.columns)).rows;
            RightFacts(reg, n, rrows) && Wide(rrows, |n|) && UniqueKeys(rrows, |n|)
  {
    var cs := Imported(reg.columns, desp.columns);
    var n := NewColumns(reg.columns, desp.columns);
    UniqueSelected(reg, cs);
    forall m, q | 0 <= m < |reg.rows| && 0 <= q < |n|
      ensures DropAt(Select(reg, cs).rows[m], |n|)[q] == Cell(reg.columns, reg.rows[m], n[q])
    {
      SelectedDrop(reg, cs, m, q);
    }
  }

  /** `JoinedCell` over the join's pieces, named. */
  lemma JoinedCellFrom(desp: Frame, reg: Frame, n: seq<string>, rrows: seq<Row>, j: Frame, i: nat, c: string)
    requires WellFormed(desp) && WellFormed(reg) && "CNPJ" in desp.columns && "CNPJ" in reg.columns
    requires RightFacts(reg, n, rrows) && Wide(rrows, |n|) && UniqueKeys(rrows, |n|)
    requires RowFacts(desp, n, rrows, j, i) && c in j.columns
    ensures (c in desp.columns || c in reg.columns)
    ensures Cell(j.columns, j.rows[i], c) == JoinCell(desp, reg, i, c)
  {
    var kreg := IndexOf(reg.columns, "CNPJ");
    var lk := IndexOf(desp.columns, "CNPJ");
    var l := desp.rows[i];
    var L := |desp.columns|;
    assert l in desp.rows;
    MatchedTail(l, lk, rrows, |n|, reg.rows, kreg);
    var tail := j.rows[i][L..];
    assert j.rows[i] == l + tail;
    RowCell(desp.columns, n, l, tail, c);
    if c !in desp.columns {
      var q := IndexOf(n, c);
      var v := l[lk];
      if v in KeysOf(reg.rows, kreg) {
        var m := FirstIndex(reg.rows, kreg, v);
        assert tail == DropAt(rrows[m], |n|);
      }
    }
  }

  /** Row `i` of the join is expense row `i` extended with its match. */
  lemma JoinedRowShape(desp: Frame, reg: Frame, i: nat)
    requires WellFormed(desp) && WellFormed(reg) && "CNPJ" in desp.columns && "CNPJ" in reg.columns
    requires UniqueKeys(reg.rows, IndexOf(reg.columns, "CNPJ"))
    requires i < |desp.rows|
    ensures RowFacts(desp, NewColumns(reg.columns, desp.columns),
                     Select(reg, Imported(reg.columns, desp.columns)).rows, Joined(desp, reg), i)
  {
    var cs := Imported(reg.columns, desp.columns);
    var right := Select(reg, cs);
    var lk := IndexOf(desp.columns, "CNPJ");
    var rk := |cs| - 1;
    assert desp.rows[i] in desp.rows;
    UniqueSelected(reg, cs);
    LeftJoinOneToOne(desp, right, "CNPJ", lk, rk, rk);
    JoinedRowAt(desp.rows, lk, right.rows, rk, rk, i);
  }

  /**
   * A joined row against right-hand rows whose keys are those of `regrows`:
   * the match is the first row of `regrows` with the key, or there is none.
   */
  lemma MatchedTail(l: Row, lk: nat, rrows: seq<Row>, rk: nat, regrows: seq<Row>, kreg: nat)
    requires lk < |l| && Wide(regrows, kreg) && |rrows| == |regrows|
    requires forall r | r in rrows :: |r| == rk + 1
    requires forall m | 0 <= m < |rrows| :: rrows[m][rk] == regrows[m][kreg]
    requires UniqueKeys(rrows, rk)
    ensures var o := JoinedRow(l, lk, rrows, rk, rk);
            |o| == |l| + rk && o[..|l|] == l &&
            (l[lk] in KeysOf(regrows, kreg) ==> o[|l|..] == DropAt(rrows[FirstIndex(regrows, kreg, l[lk])], rk)) &&
            (l[lk] !in KeysOf(regrows, kreg) ==> o[|l|..] == Nulls(rk))
  {
    JoinedRowParts(l, lk, rrows, rk, rk);
    var v := l[lk];
    if v in KeysOf(regrows, kreg) {
      var m := FirstIndex(regrows, kreg, v);
      assert rrows[m][rk] == v;
    }
  }

  /** Dropping the key (last) from a selected row leaves the cells of the other selected columns. */
  lemma SelectedDrop(reg: Frame, cs: seq<string>, m: nat, q: nat)
    requires WellFormed(reg) && Distinct(cs) && forall c | c in cs :: c in reg.columns
    requires m < |reg.rows| && q + 1 < |cs|
    ensures DropAt(Select(reg, cs).rows[m], |cs| - 1)[q] == Cell(reg.columns, reg.rows[m], cs[q])
  {
    assert reg.rows[m] in reg.rows;
  }

  /** A cell of a row made of a left part and a tail, under the left columns followed by new ones. */
  lemma RowCell(dc: seq<string>, n: seq<string>, l: Row, tail: Row, c: string)
    requires Distinct(dc + n) && |l| == |dc| && |tail| == |n| && c in dc + n
    ensures c in dc ==> Cell(dc + n, l + tail, c) == Cell(dc, l, c)
    ensures c !in dc ==> c in n && Cell(dc + n, l + tail, c) == tail[IndexOf(n, c)]
  {
    var cols := dc + n;
    if c in dc {
      var p := IndexOf(dc, c);
      assert cols[p] == c;
      IndexOfDistinct(cols, p);
    } else {
      var q := IndexOf(n, c);
      assert cols[|dc| + q] == c;
      IndexOfDistinct(cols, |dc| + q);
    }
  }

  /**
   * Dedup by CNPJ before the join changes nothing in it: the join takes the
   * first registry row with the expense's CNPJ, and that row is the one
   * dedup keeps.
   */
  lemma DedupedJoinCell(desp: Frame, reg: Frame, i: nat, c: string)
    requires WellFormed(desp) && WellFormed(reg) && "CNPJ" in desp.columns && "CNPJ" in reg.columns
    requires i < |desp.rows| && (c in desp.columns || c in reg.columns)
    ensures JoinCell(desp, Deduped(reg), i, c) == JoinCell(desp, reg, i, c)
  {
    var d := Deduped(reg);
    var k := IndexOf(reg.columns, "CNPJ");
    var v := Cell(desp.columns, desp.rows[i], "CNPJ");
    if c !in desp.columns && v in KeysOf(reg.rows, k) {
      DedupKeepsFirst(reg.rows, k, FirstIndex(d.rows, k, v));
    }
  }

  // ---------------------------------------------------------------- defaults

  /** The text `fillna` puts in a missing Modalidade or UF. */
  const Unknown: string := "Não Informado"

  /** `cols_enrich`. */
  const EnrichCols: seq<string> := ["Modalidade", "UF"]

  /** `fillna('Não Informado')` on one cell. */
  function Informed(v: Value): (w: Value)
    ensures w != Null
    ensures v != Null ==> w == v
  {
    if v == Null then Str(Unknown) else v
  }

  /** `df_final[col] = df_final[col].fillna('Não Informado')` when `col` is a column. */
  function FillUnknown(f: Frame, col: string): (g: Frame)
    requires WellFormed(f)
    ensures WellFormed(g) && g.columns == f.columns && |g.rows| == |f.rows|
  {
    if col in f.columns then
      ReplaceColumn(f, col, seq(|f.rows|, i requires 0 <= i < |f.rows| => Informed(Cell(f.columns, f.rows[i], col))))
    else f
  }

  /** The fill applied to each of `cols` in turn. */
  function FillAll(f: Frame, cols: seq<string>): (g: Frame)
    requires WellFormed(f)
    ensures WellFormed(g) && g.columns == f.columns && |g.rows| == |f.rows|
  {
    if cols == [] then f else FillUnknown(FillAll(f, cols[..|cols| - 1]), cols[|cols| - 1])
  }

  /** The fill loop of `run_enrichment`. */
  method FillDefaults(f: Frame) returns (g: Frame)
    requires WellFormed(f)
    ensures g == FillAll(f, EnrichCols)
  {
    g := f;
    for k := 0 to |EnrichCols|
      invariant g == FillAll(f, EnrichCols[..k])
    {
      assert EnrichCols[..k + 1][..k] == EnrichCols[..k];
      if EnrichCols[k] in g.columns {
        var col := EnrichCols[k];
        g := ReplaceColumn(g, col, seq(|g.rows|, i requires 0 <= i < |g.rows| => Informed(Cell(g.columns, g.rows[i], col))));
      }
    }
    assert EnrichCols[..|EnrichCols|] == EnrichCols;
  }

  /**
   * After the fill every cell of a filled column that was missing holds
   * `Não Informado`, every other cell is unchanged, and nothing else moves.
   */
  lemma FillAllCells(f: Frame, cols: seq<string>)
    requires WellFormed(f)
    ensures var g := FillAll(f, cols);
            forall i, c | 0 <= i < |f.rows| && c in f.columns ::
              Cell(g.columns, g.rows[i], c) ==
                if c in cols then Informed(Cell(f.columns, f.rows[i], c)) else Cell(f.columns, f.rows[i], c)
  {
    forall i, c | 0 <= i < |f.rows| && c in f.columns {
      FillAllCell(f, cols, i, c);
    }
  }

  lemma {:induction false} FillAllCell(f: Frame, cols: seq<string>, i: nat, c: string)
    requires WellFormed(f) && i < |f.rows| && c in f.columns
    ensures var g := FillAll(f, cols);
            Cell(g.columns, g.rows[i], c) ==
              if c in cols then Informed(Cell(f.columns, f.rows[i], c)) else Cell(f.columns, f.rows[i], c)
  {
    if cols != [] {
      var init := cols[..|cols| - 1];
      var last := cols[|cols| - 1];
      var g0 := FillAll(f, init);
      FillAllCell(f, init, i, c);
      FillUnknownCells(g0, last);
      assert cols == init + [last];
    }
  }

  lemma FillUnknownCells(f: Frame, col: string)
    requires WellFormed(f)
    ensures var g := FillUnknown(f, col);
            forall i, c | 0 <= i < |f.rows| && c in f.columns ::
              Cell(g.columns, g.rows[i], c) ==
                if c == col then Informed(Cell(f.columns, f.rows[i], c)) else Cell(f.columns, f.rows[i], c)
  {
  }

  // ------------------------------------------------------------ whole stage

  /**
   * `run_enrichment` from the valid expenses and the registry file: a
   * KeyError when the cleaned registry has no CNPJ (the dedup) or the
   * expenses have none (the merge); otherwise the filled left join.
   */
  function Enriched(desp: Frame, cadop: Frame): (r: Result<Frame>)
    requires WellFormed(desp) && CadopLoadable(cadop)
    ensures r.KeyError? ==> r.missing == "CNPJ"
    ensures r.Ok? ==> WellFormed(r.value) && |r.value.rows| >= |desp.rows|
  {
    var reg := CleanCadop(cadop);
    if "CNPJ" !in reg.columns then KeyError("CNPJ")
    else if "CNPJ" !in desp.columns then KeyError("CNPJ")
    else
      var d := Deduped(reg);
      JoinedCells(desp, d);
      Ok(FillAll(Joined(desp, d), EnrichCols))
  }

  /** `run_enrichment` step by step. */
  method RunEnrichment(desp: Frame, cadop: Frame) returns (r: Result<Frame>)
    requires WellFormed(desp) && CadopLoadable(cadop)
    ensures r == Enriched(desp, cadop)
  {
    var reg := CleanCadopFrame(cadop);
    if "CNPJ" !in reg.columns {
      return KeyError("CNPJ");
    }
    var d := Deduped(reg);
    if "CNPJ" !in desp.columns {
      return KeyError("CNPJ");
    }
    var j := Joined(desp, d);
    var g := FillDefaults(j);
    r := Ok(g);
  }

  /** `run_enrichment` succeeds exactly when the expenses and some registry header both give a CNPJ. */
  lemma EnrichedOutcome(desp: Frame, cadop: Frame)
    requires WellFormed(desp) && CadopLoadable(cadop)
    ensures var h := Analysis.RegistryColumns(cadop.columns);
            Enriched(desp, cadop).Ok? <==> "CNPJ" in desp.columns && "CNPJ" in h
  {
    var h := Analysis.RegistryColumns(cadop.columns);
    CleanCadopColumns(cadop);
    assert "CNPJ" in CleanCadop(cadop).columns <==> SourceHeader(h, "CNPJ").Some?;
  }

  /**
   * A successful `run_enrichment` has the expense columns followed by the
   * registry's new columns in sorted order, one row per expense row, and
   * each cell is the joined cell against the first registry row with the
   * expense's CNPJ, with `Não Informado` for a missing Modalidade or UF.
   */
  lemma EnrichedCells(desp: Frame, cadop: Frame)
    requires WellFormed(desp) && CadopLoadable(cadop) && Enriched(desp, cadop).Ok?
    ensures var r := Enriched(desp, cadop).value;
            var reg := CleanCadop(cadop);
            "CNPJ" in desp.columns && "CNPJ" in reg.columns &&
            r.columns == desp.columns + NewColumns(reg.columns, desp.columns) &&
            |r.rows| == |desp.rows| &&
            forall i, c | 0 <= i < |desp.rows| && c in r.columns ::
              (c in desp.columns || c in reg.columns) &&
              Cell(r.columns, r.rows[i], c) ==
                if c in EnrichCols then Informed(JoinCell(desp, reg, i, c)) else JoinCell(desp, reg, i, c)
  {
    FilledJoin(desp, CleanCadop(cadop));
  }

  /** `EnrichedCells` for a cleaned registry `reg` with a CNPJ column. */
  lemma FilledJoin(desp: Frame, reg: Frame)
    requires WellFormed(desp) && WellFormed(reg) && "CNPJ" in desp.columns && "CNPJ" in reg.columns
    ensures var r := FillAll(Joined(desp, Deduped(reg)), EnrichCols);
            r.columns == desp.columns + NewColumns(reg.columns, desp.columns) &&
            |r.rows| == |desp.rows| &&
            forall i, c | 0 <= i < |desp.rows| && c in r.columns ::
              (c in desp.columns || c in reg.columns) &&
              Cell(r.columns, r.rows[i], c) ==
                if c in EnrichCols then Informed(JoinCell(desp, reg, i, c)) else JoinCell(desp, reg, i, c)
  {
    var d := Deduped(reg);
    var r := FillAll(Joined(desp, d), EnrichCols);
    JoinedCells(desp, d);
    assert forall k | 0 <= k < |r.rows| :: |r.rows[k]| == |r.columns| by {
      forall k | 0 <= k < |r.rows| ensures |r.rows[k]| == |r.columns| {
        assert r.rows[k] in r.rows;
      }
    }
    forall i, c | 0 <= i < |desp.rows| && c in r.columns
      ensures (c in desp.columns || c in reg.columns) &&
              Cell(r.columns, r.rows[i], c) ==
                if c in EnrichCols then Informed(JoinCell(desp, reg, i, c)) else JoinCell(desp, reg, i, c)
    {
      EnrichedCell(desp, reg, i, c);
    }
  }

  lemma EnrichedCell(desp: Frame, reg: Frame, i: nat, c: string)
    requires WellFormed(desp) && WellFormed(reg) && "CNPJ" in desp.columns && "CNPJ" in reg.columns
    requires i < |desp.rows| && c in Joined(desp, Deduped(reg)).columns
    ensures c in desp.columns || c in reg.columns
    ensures var j := Joined(desp, Deduped(reg));
            var r := FillAll(j, EnrichCols);
            Cell(r.columns, r.rows[i], c) ==
              if c in EnrichCols then Informed(JoinCell(desp, reg, i, c)) else JoinCell(desp, reg, i, c)
  {
    var d := Deduped(reg);
    var j := Joined(desp, d);
    JoinedCells(desp, d);
    FillAllCells(j, EnrichCols);
    DedupedJoinCell(desp, reg, i, c);
  }
}
