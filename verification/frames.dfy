/**
 * pandas DataFrames as values: a list of column names and rows of cells.
 * The operations are the DataFrame idioms the pipeline stages use:
 * column selection and assignment, renaming, boolean row filters,
 * `drop_duplicates(keep='first')`, `merge(how='left')` and the
 * first-present-column lookup.
 */
module Frames {
  import opened Outcomes
  import opened Strings
  import opened Numbers

  /**
   * One cell. `Null` is pandas' missing value (NaN or None); `Int` and `Num`
   * are cells of integer and float columns.
   */
  datatype Value = Null | Str(s: string) | Int(i: int) | Num(d: Decimal)

  type Row = seq<Value>

  datatype Frame = Frame(columns: seq<string>, rows: seq<Row>)

  predicate Distinct<T(==)>(s: seq<T>)
  {
    forall i, j | 0 <= i < j < |s| :: s[i] != s[j]
  }

  /** Two sequences with the same multiset have the same elements, and distinctness carries over. */
  lemma SameElements<T>(a: seq<T>, b: seq<T>)
    requires multiset(a) == multiset(b) && Distinct(a)
    ensures Distinct(b) && forall x :: x in a <==> x in b
  {
    forall x ensures x in a <==> x in b {
      assert x in a <==> x in multiset(a);
      assert x in b <==> x in multiset(b);
    }
    forall i, j | 0 <= i < j < |b| ensures b[i] != b[j] {
      if b[i] == b[j] {
        assert multiset(b)[b[i]] >= 2 by {
          assert b == b[..i] + [b[i]] + b[i + 1..j] + [b[j]] + b[j + 1..];
        }
        AtMostOnce(a, b[i]);
        assert false;
      }
    }
  }

  lemma {:induction false} AtMostOnce<T>(a: seq<T>, x: T)
    requires Distinct(a)
    ensures multiset(a)[x] <= 1
  {
    if a != [] {
      assert a == [a[0]] + a[1..];
      assert Distinct(a[1..]) by {
        forall i, j | 0 <= i < j < |a[1..]| ensures a[1..][i] != a[1..][j] {
          assert a[1..][i] == a[i + 1] && a[1..][j] == a[j + 1];
        }
      }
      AtMostOnce(a[1..], x);
      if a[0] == x {
        assert x !in a[1..] by {
          forall k | 0 <= k < |a[1..]| ensures a[1..][k] != x {
            assert a[1..][k] == a[k + 1];
          }
        }
      }
    }
  }

  /** Column names are unique and every row has one cell per column. */
  predicate WellFormed(f: Frame)
  {
    Distinct(f.columns) && forall r | r in f.rows :: |r| == |f.columns|
  }

  /** `str(v)`, or `astype(str)` on the cell: a missing value prints as "nan". */
  function Text(v: Value): string
  {
    match v
    case Null => "nan"
    case Str(s) => s
    case Int(i) => IntText(i)
    case Num(d) => FloatText(d)
  }

  /** `pd.to_numeric(v, errors='coerce')` followed by `fillna(0.0)`, as a number. */
  function Amount(v: Value): real
  {
    match v
    case Null => 0.0
    case Str(s) => (match ParseDecimal(s) case Some(d) => RealOf(d) case None => 0.0)
    case Int(i) => i as real
    case Num(d) => RealOf(d)
  }

  /** The same conversion as a cell: text becomes a float, a missing value 0.0. */
  function Numeric(v: Value): (n: Value)
    ensures n.Int? || n.Num?
    ensures Amount(n) == Amount(v)
  {
    match v
    case Null => Num(Decimal(0, 0))
    case Str(s) => (match ParseDecimal(s) case Some(d) => Num(d) case None => Num(Decimal(0, 0)))
    case Int(_) => v
    case Num(_) => v
  }

  function Nulls(n: nat): (r: Row)
    ensures |r| == n && forall i | 0 <= i < n :: r[i] == Null
  {
    seq(n, _ => Null)
  }

  // ---------------------------------------------------------------- columns

  /** Position of a column name. */
  function IndexOf(cols: seq<string>, c: string): (i: nat)
    requires c in cols
    ensures i < |cols| && cols[i] == c
    ensures forall j | 0 <= j < i :: cols[j] != c
  {
    if cols[0] == c then 0 else 1 + IndexOf(cols[1..], c)
  }

  lemma IndexOfDistinct(cols: seq<string>, i: nat)
    requires Distinct(cols) && i < |cols|
    ensures IndexOf(cols, cols[i]) == i
  {
  }

  /** `row[c]`. */
  function Cell(cols: seq<string>, r: Row, c: string): Value
    requires c in cols && |r| == |cols|
  {
    r[IndexOf(cols, c)]
  }

  function Project(cols: seq<string>, r: Row, cs: seq<string>): (p: Row)
    requires |r| == |cols| && forall c | c in cs :: c in cols
    ensures |p| == |cs| && forall j | 0 <= j < |cs| :: p[j] == Cell(cols, r, cs[j])
  {
    seq(|cs|, j requires 0 <= j < |cs| => Cell(cols, r, cs[j]))
  }

  /** `df[cs]`: the named columns, in the order given. */
  function Select(f: Frame, cs: seq<string>): (g: Frame)
    requires WellFormed(f) && Distinct(cs) && forall c | c in cs :: c in f.columns
    ensures WellFormed(g) && g.columns == cs && |g.rows| == |f.rows|
    ensures forall i | 0 <= i < |f.rows| :: g.rows[i] == Project(f.columns, f.rows[i], cs)
  {
    Frame(cs, seq(|f.rows|, i requires 0 <= i < |f.rows| => Project(f.columns, f.rows[i], cs)))
  }

  /** `df[c] = vals`: overwrite the column if it exists, else append it. */
  function WithColumn(f: Frame, c: string, vals: seq<Value>): (g: Frame)
    requires WellFormed(f) && |vals| == |f.rows|
    ensures WellFormed(g) && |g.rows| == |f.rows|
    ensures g.columns == if c in f.columns then f.columns else f.columns + [c]
    ensures forall i | 0 <= i < |f.rows| :: Cell(g.columns, g.rows[i], c) == vals[i]
    ensures c in f.columns ==>
              forall i | 0 <= i < |f.rows| :: g.rows[i] == f.rows[i][IndexOf(f.columns, c) := vals[i]]
    ensures forall i, d | 0 <= i < |f.rows| && d in f.columns && d != c ::
              Cell(g.columns, g.rows[i], d) == Cell(f.columns, f.rows[i], d)
  {
    if c in f.columns then ReplaceColumn(f, c, vals) else AppendColumn(f, c, vals)
  }

  function ReplaceColumn(f: Frame, c: string, vals: seq<Value>): (g: Frame)
    requires WellFormed(f) && |vals| == |f.rows| && c in f.columns
    ensures WellFormed(g) && g.columns == f.columns && |g.rows| == |f.rows|
    ensures forall i | 0 <= i < |f.rows| :: g.rows[i] == f.rows[i][IndexOf(f.columns, c) := vals[i]]
    ensures forall i | 0 <= i < |f.rows| :: Cell(g.columns, g.rows[i], c) == vals[i]
    ensures forall i, d | 0 <= i < |f.rows| && d in f.columns && d != c ::
              Cell(g.columns, g.rows[i], d) == Cell(f.columns, f.rows[i], d)
  {
    var k := IndexOf(f.columns, c);
    var g := Frame(f.columns, seq(|f.rows|, i requires 0 <= i < |f.rows| => f.rows[i][k := vals[i]]));
    assert forall r | r in g.rows :: |r| == |g.columns|;
    g
  }

  function AppendColumn(f: Frame, c: string, vals: seq<Value>): (g: Frame)
    requires WellFormed(f) && |vals| == |f.rows| && c !in f.columns
    ensures WellFormed(g) && g.columns == f.columns + [c] && |g.rows| == |f.rows|
    ensures forall i | 0 <= i < |f.rows| :: g.rows[i] == f.rows[i] + [vals[i]]
    ensures forall i | 0 <= i < |f.rows| :: Cell(g.columns, g.rows[i], c) == vals[i]
    ensures forall i, d | 0 <= i < |f.rows| && d in f.columns ::
              Cell(g.columns, g.rows[i], d) == Cell(f.columns, f.rows[i], d)
  {
    var cols := f.columns + [c];
    var g := Frame(cols, seq(|f.rows|, i requires 0 <= i < |f.rows| => f.rows[i] + [vals[i]]));
    AppendedIndices(f.columns, c);
    assert forall r | r in g.rows :: |r| == |g.columns|;
    g
  }

  /** The names after `df[c] = vals`: the old ones and `c`. */
  lemma WithColumnNames(f: Frame, c: string, vals: seq<Value>)
    requires WellFormed(f) && |vals| == |f.rows|
    ensures c in WithColumn(f, c, vals).columns
    ensures forall x | x in f.columns :: x in WithColumn(f, c, vals).columns
    ensures forall x | x in WithColumn(f, c, vals).columns :: x in f.columns || x == c
  {
    var g := WithColumn(f, c, vals);
    if c !in f.columns {
      assert g.columns == f.columns + [c];
      assert forall x | x in g.columns :: x in f.columns || x == c;
    }
  }

  /** Two column assignments in a row: each sets its column, the rest is unchanged. */
  lemma TwoColumns(f: Frame, c1: string, v1: seq<Value>, c2: string, v2: seq<Value>, i: nat)
    requires WellFormed(f) && |v1| == |f.rows| && |v2| == |f.rows| && c1 != c2 && i < |f.rows|
    ensures var g := WithColumn(WithColumn(f, c1, v1), c2, v2);
            c1 in g.columns && c2 in g.columns &&
            Cell(g.columns, g.rows[i], c1) == v1[i] && Cell(g.columns, g.rows[i], c2) == v2[i] &&
            forall x | x in f.columns && x != c1 && x != c2 :: x in g.columns &&
              Cell(g.columns, g.rows[i], x) == Cell(f.columns, f.rows[i], x)
  {
    var h := WithColumn(f, c1, v1);
    WithColumnNames(f, c1, v1);
    WithColumnNames(h, c2, v2);
  }

  lemma AppendedIndices(cols: seq<string>, c: string)
    requires Distinct(cols) && c !in cols
    ensures Distinct(cols + [c]) && IndexOf(cols + [c], c) == |cols|
    ensures forall d | d in cols :: IndexOf(cols + [c], d) == IndexOf(cols, d)
  {
    var all := cols + [c];
    forall d | d in cols ensures IndexOf(all, d) == IndexOf(cols, d) {
      IndexOfDistinct(all, IndexOf(cols, d));
    }
    IndexOfDistinct(all, |cols|);
  }

  /** `drop(columns=[c])`: the column goes, the others keep their order and their cells. */
  function DropColumn(f: Frame, c: string): (g: Frame)
    requires WellFormed(f) && c in f.columns
    ensures WellFormed(g) && |g.rows| == |f.rows| && |g.columns| == |f.columns| - 1
    ensures c !in g.columns && forall d :: d in g.columns <==> d in f.columns && d != c
    ensures forall i, d | 0 <= i < |f.rows| && d in f.columns && d != c ::
              Cell(g.columns, g.rows[i], d) == Cell(f.columns, f.rows[i], d)
  {
    var k := IndexOf(f.columns, c);
    var g := Frame(DropAt(f.columns, k),
                   seq(|f.rows|, i requires 0 <= i < |f.rows| => assert f.rows[i] in f.rows; DropAt(f.rows[i], k)));
    DroppedIndices(f.columns, k);
    assert forall r | r in g.rows :: |r| == |g.columns|;
    forall i, d | 0 <= i < |f.rows| && d in f.columns && d != c
      ensures Cell(g.columns, g.rows[i], d) == Cell(f.columns, f.rows[i], d)
    {
      assert f.rows[i] in f.rows;
      DroppedCell(f.columns, f.rows[i], k, d);
    }
    g
  }

  lemma DroppedCell(cols: seq<string>, r: Row, k: nat, d: string)
    requires Distinct(cols) && |r| == |cols| && k < |cols| && d in cols && d != cols[k]
    ensures d in DropAt(cols, k) && Cell(DropAt(cols, k), DropAt(r, k), d) == Cell(cols, r, d)
  {
    DroppedIndices(cols, k);
  }

  /** Where each remaining name sits once the name at `k` is dropped. */
  lemma DroppedIndices(cols: seq<string>, k: nat)
    requires Distinct(cols) && k < |cols|
    ensures Distinct(DropAt(cols, k))
    ensures forall d :: d in DropAt(cols, k) <==> d in cols && d != cols[k]
    ensures forall d | d in cols && d != cols[k] ::
              var j := IndexOf(cols, d); IndexOf(DropAt(cols, k), d) == if j < k then j else j - 1
  {
    DroppedDistinct(cols, k);
    forall d ensures d in DropAt(cols, k) <==> d in cols && d != cols[k] {
      DroppedMember(cols, k, d);
    }
    forall d | d in cols && d != cols[k]
      ensures var j := IndexOf(cols, d); IndexOf(DropAt(cols, k), d) == if j < k then j else j - 1
    {
      var j := IndexOf(cols, d);
      IndexOfDistinct(cols, j);
      IndexOfDistinct(DropAt(cols, k), if j < k then j else j - 1);
    }
  }

  lemma DroppedDistinct(cols: seq<string>, k: nat)
    requires Distinct(cols) && k < |cols|
    ensures Distinct(DropAt(cols, k))
  {
    var r := DropAt(cols, k);
    forall i, j | 0 <= i < j < |r| ensures r[i] != r[j] {
      assert r[i] == cols[if i < k then i else i + 1];
      assert r[j] == cols[if j < k then j else j + 1];
    }
  }

  lemma DroppedMember(cols: seq<string>, k: nat, d: string)
    requires Distinct(cols) && k < |cols|
    ensures d in DropAt(cols, k) <==> d in cols && d != cols[k]
  {
    var r := DropAt(cols, k);
    if d in r {
      var i :| 0 <= i < |r| && r[i] == d;
      assert d == cols[if i < k then i else i + 1];
    }
    if d in cols && d != cols[k] {
      var j := IndexOf(cols, d);
      assert r[if j < k then j else j - 1] == d;
    }
  }

  /** The name a column gets from `rename(columns=ren)`. */
  function Renamed(c: string, ren: map<string, string>): string
  {
    if c in ren then ren[c] else c
  }

  /** `df.rename(columns=ren)`: cells stay where they are. */
  function Rename(f: Frame, ren: map<string, string>): (g: Frame)
    ensures g.rows == f.rows && |g.columns| == |f.columns|
    ensures forall i | 0 <= i < |f.columns| :: g.columns[i] == Renamed(f.columns[i], ren)
  {
    Frame(seq(|f.columns|, i requires 0 <= i < |f.columns| => Renamed(f.columns[i], ren)), f.rows)
  }

  /** A column the renaming does not mention keeps its name. */
  lemma RenameKeeps(f: Frame, ren: map<string, string>, c: string)
    requires c in f.columns && c !in ren
    ensures c in Rename(f, ren).columns
  {
    var i :| 0 <= i < |f.columns| && f.columns[i] == c;
    assert Rename(f, ren).columns[i] == c;
  }

  /** A column the renaming mentions takes its new name. */
  lemma RenameMoves(f: Frame, ren: map<string, string>, c: string)
    requires c in f.columns && c in ren
    ensures ren[c] in Rename(f, ren).columns
  {
    var i :| 0 <= i < |f.columns| && f.columns[i] == c;
    assert Rename(f, ren).columns[i] == ren[c];
  }

  /** A name the renaming never produces is a column afterwards only if it was before. */
  lemma RenameOrigin(f: Frame, ren: map<string, string>, n: string)
    requires n in Rename(f, ren).columns && forall k | k in ren :: ren[k] != n
    ensures n in f.columns
  {
    var g := Rename(f, ren);
    var i :| 0 <= i < |g.columns| && g.columns[i] == n;
    assert f.columns[i] !in ren;
  }

  /** `find_column`: the first candidate, in list order, that is a column. */
  function FindColumn(cols: seq<string>, candidates: seq<string>): (r: Option<string>)
    ensures r.Some? ==> r.value in cols
    ensures r.Some? ==> exists k | 0 <= k < |candidates| ::
              candidates[k] == r.value && forall j | 0 <= j < k :: candidates[j] !in cols
    ensures r.None? <==> forall j | 0 <= j < |candidates| :: candidates[j] !in cols
  {
    if candidates == [] then None
    else if candidates[0] in cols then Some(candidates[0])
    else
      var r := FindColumn(cols, candidates[1..]);
      FindColumnTail(cols, candidates, r);
      r
  }

  lemma FindColumnTail(cols: seq<string>, candidates: seq<string>, r: Option<string>)
    requires candidates != [] && candidates[0] !in cols
    requires r.Some? ==> exists k | 0 <= k < |candidates[1..]| ::
               candidates[1..][k] == r.value && forall j | 0 <= j < k :: candidates[1..][j] !in cols
    requires r.None? <==> forall j | 0 <= j < |candidates[1..]| :: candidates[1..][j] !in cols
    ensures r.Some? ==> exists k | 0 <= k < |candidates| ::
              candidates[k] == r.value && forall j | 0 <= j < k :: candidates[j] !in cols
    ensures r.None? <==> forall j | 0 <= j < |candidates| :: candidates[j] !in cols
  {
    var tail := candidates[1..];
    assert forall j | 1 <= j < |candidates| :: candidates[j] == tail[j - 1];
    if r.Some? {
      var k :| 0 <= k < |tail| && tail[k] == r.value && forall j | 0 <= j < k :: tail[j] !in cols;
      assert candidates[k + 1] == r.value;
    }
  }

  /** The first candidate present, in list order, is the one found. */
  lemma FindColumnFirst(cols: seq<string>, candidates: seq<string>, j: nat)
    requires j < |candidates| && candidates[j] in cols
    requires forall i | 0 <= i < j :: candidates[i] !in cols
    ensures FindColumn(cols, candidates) == Some(candidates[j])
  {
    var r := FindColumn(cols, candidates);
    var k :| 0 <= k < |candidates| && candidates[k] == r.value
             && forall i | 0 <= i < k :: candidates[i] !in cols;
    assert k == j;
  }

  /** Header clean-up applied to registry files: `c.strip().upper().replace('"', '')`. */
  function RegistryHeader(c: string): (h: string)
    ensures '"' !in h
    ensures forall x | x in h :: !('a' <= x <= 'z')
  {
    Delete(Upper(Strip(c)), '"')
  }

  // ------------------------------------------------------------------- rows

  /** Rows for which `keep` holds, in order (boolean indexing `df[mask]`). */
  function Filter<T>(s: seq<T>, keep: T -> bool): (r: seq<T>)
    ensures |r| <= |s|
    ensures forall x | x in r :: x in s && keep(x)
    ensures forall x | x in s && keep(x) :: x in r
  {
    if s == [] then []
    else (if keep(s[0]) then [s[0]] else []) + Filter(s[1..], keep)
  }

  /** Rows for which `keep` fails, in order (`df[~mask]`). */
  function FilterOut<T>(s: seq<T>, keep: T -> bool): (r: seq<T>)
    ensures |r| <= |s|
    ensures forall x | x in r :: x in s && !keep(x)
    ensures forall x | x in s && !keep(x) :: x in r
  {
    Filter(s, x => !keep(x))
  }

  /** A mask splits a table: the two sides together hold every row exactly once. */
  lemma {:induction false} FilterPartition<T>(s: seq<T>, keep: T -> bool)
    ensures |Filter(s, keep)| + |FilterOut(s, keep)| == |s|
    ensures multiset(Filter(s, keep)) + multiset(FilterOut(s, keep)) == multiset(s)
  {
    if s != [] {
      FilterPartition(s[1..], keep);
      assert s == [s[0]] + s[1..];
    }
  }

  /** A mask that holds nowhere leaves nothing. */
  lemma {:induction false} FilterNone<T>(s: seq<T>, keep: T -> bool)
    requires forall x | x in s :: !keep(x)
    ensures Filter(s, keep) == []
  {
    if s != [] {
      assert s[0] in s;
      FilterNone(s[1..], keep);
    }
  }

  /**
   * Filtering a concatenation filters each part in turn: the rows a mask keeps
   * stay in the order they had, which fixes `Filter` with its one-row cases.
   */
  lemma {:induction false} FilterAppend<T>(a: seq<T>, b: seq<T>, keep: T -> bool)
    ensures Filter(a + b, keep) == Filter(a, keep) + Filter(b, keep)
  {
    if a == [] {
      assert a + b == b;
    } else {
      FilterAppend(a[1..], b, keep);
      FilterAppendStep(a, b, keep);
    }
  }

  lemma FilterAppendStep<T>(a: seq<T>, b: seq<T>, keep: T -> bool)
    requires a != [] && Filter(a[1..] + b, keep) == Filter(a[1..], keep) + Filter(b, keep)
    ensures Filter(a + b, keep) == Filter(a, keep) + Filter(b, keep)
  {
    assert (a + b)[0] == a[0] && (a + b)[1..] == a[1..] + b;
    if keep(a[0]) {
      assert Filter(a + b, keep) == [a[0]] + Filter(a[1..] + b, keep);
      AppendAssoc([a[0]], Filter(a[1..], keep), Filter(b, keep));
    } else {
      assert Filter(a + b, keep) == Filter(a[1..] + b, keep) by {
        assert [] + Filter(a[1..] + b, keep) == Filter(a[1..] + b, keep);
      }
      assert Filter(a, keep) == Filter(a[1..], keep) by {
        assert [] + Filter(a[1..], keep) == Filter(a[1..], keep);
      }
    }
  }

  lemma AppendAssoc<T>(x: seq<T>, y: seq<T>, z: seq<T>)
    ensures x + (y + z) == (x + y) + z
  {
  }

  /** Every row is wide enough to hold column position `k`. */
  predicate Wide(rows: seq<Row>, k: nat)
  {
    forall r | r in rows :: k < |r|
  }

  /** The values found at position `k`. */
  function KeysOf(rows: seq<Row>, k: nat): set<Value>
    requires Wide(rows, k)
  {
    set r | r in rows :: r[k]
  }

  /** The first row index whose key is `v`. */
  function FirstIndex(rows: seq<Row>, k: nat, v: Value): (i: nat)
    requires Wide(rows, k) && v in KeysOf(rows, k)
    ensures i < |rows| && rows[i][k] == v
    ensures forall j | 0 <= j < i :: rows[j][k] != v
  {
    if rows[0][k] == v then 0
    else
      assert v in KeysOf(rows[1..], k) by {
        var r :| r in rows && r[k] == v;
        assert r != rows[0];
      }
      1 + FirstIndex(rows[1..], k, v)
  }

  lemma FirstIndexHead(rows: seq<Row>, k: nat)
    requires Wide(rows, k) && rows != []
    ensures rows[0][k] in KeysOf(rows, k) && FirstIndex(rows, k, rows[0][k]) == 0
  {
    assert rows[0] in rows;
  }

  /** Behind a first row with another key, the first index moves up by one. */
  lemma FirstIndexCons(x: Row, rest: seq<Row>, k: nat, v: Value)
    requires Wide([x] + rest, k) && x[k] != v && v in KeysOf(rest, k)
    ensures Wide(rest, k) && v in KeysOf([x] + rest, k)
    ensures ([x] + rest)[FirstIndex([x] + rest, k, v)] == rest[FirstIndex(rest, k, v)]
  {
    var rows := [x] + rest;
    assert rows[1..] == rest;
    assert forall r | r in rest :: r in rows;
  }

  /** `drop_duplicates(subset=[col], keep='first')` on key position `k`. */
  function DedupFirst(rows: seq<Row>, k: nat): (d: seq<Row>)
    requires Wide(rows, k)
    ensures Wide(d, k) && |d| <= |rows|
    ensures forall x | x in d :: x in rows
    ensures KeysOf(d, k) == KeysOf(rows, k)
    ensures forall i, j | 0 <= i < j < |d| :: d[i][k] != d[j][k]
  {
    if rows == [] then []
    else
      var init := rows[..|rows| - 1];
      var last := rows[|rows| - 1];
      assert rows == init + [last];
      var d := DedupFirst(init, k);
      KeysOfSnoc(init, last, k);
      if last[k] in KeysOf(init, k) then d
      else
        assert forall i | 0 <= i < |d| :: d[i] in d && d[i][k] in KeysOf(d, k);
        d + [last]
  }

  lemma DedupSnoc(init: seq<Row>, last: Row, k: nat)
    requires Wide(init + [last], k)
    ensures Wide(init, k)
    ensures DedupFirst(init + [last], k)
         == if last[k] in KeysOf(init, k) then DedupFirst(init, k) else DedupFirst(init, k) + [last]
  {
    assert (init + [last])[..|init|] == init;
  }

  lemma KeysOfSnoc(init: seq<Row>, last: Row, k: nat)
    requires Wide(init + [last], k)
    ensures Wide(init, k) && KeysOf(init + [last], k) == KeysOf(init, k) + {last[k]}
  {
    assert forall r | r in init + [last] :: r in init || r == last;
  }

  /** The row kept for each key is the first row carrying that key. */
  lemma {:induction false} DedupKeepsFirst(rows: seq<Row>, k: nat, i: nat)
    requires Wide(rows, k) && i < |DedupFirst(rows, k)|
    ensures var x := DedupFirst(rows, k)[i]; x == rows[FirstIndex(rows, k, x[k])]
  {
    var init := rows[..|rows| - 1];
    var last := rows[|rows| - 1];
    assert rows == init + [last];
    var d := DedupFirst(init, k);
    var x := DedupFirst(rows, k)[i];
    if i < |d| {
      DedupKeepsFirst(init, k, i);
      assert x == d[i];
      FirstIndexPrefix(init, last, k, x[k]);
    } else {
      assert x == last && last[k] !in KeysOf(init, k);
      FirstIndexLast(init, last, k);
    }
  }

  lemma FirstIndexPrefix(init: seq<Row>, last: Row, k: nat, v: Value)
    requires Wide(init + [last], k) && v in KeysOf(init, k)
    ensures FirstIndex(init + [last], k, v) == FirstIndex(init, k, v)
  {
    var rows := init + [last];
    var i := FirstIndex(init, k, v);
    assert forall j | 0 <= j <= i :: rows[j] == init[j];
  }

  lemma FirstIndexLast(init: seq<Row>, last: Row, k: nat)
    requires Wide(init + [last], k) && last[k] !in KeysOf(init, k)
    ensures FirstIndex(init + [last], k, last[k]) == |init|
  {
    var rows := init + [last];
    forall j | 0 <= j < |init| ensures rows[j][k] != last[k] {
      assert rows[j] == init[j] && init[j] in init;
    }
  }

  /** Kept rows stay in the order of their first occurrence. */
  lemma {:induction false} DedupKeepsOrder(rows: seq<Row>, k: nat, i: nat, j: nat)
    requires Wide(rows, k) && i < j < |DedupFirst(rows, k)|
    ensures var d := DedupFirst(rows, k);
            FirstIndex(rows, k, d[i][k]) < FirstIndex(rows, k, d[j][k])
  {
    var init := rows[..|rows| - 1];
    var last := rows[|rows| - 1];
    assert rows == init + [last];
    DedupSnoc(init, last, k);
    var d := DedupFirst(init, k);
    var dr := DedupFirst(rows, k);
    assert dr[i] == d[i] && d[i] in d;
    if j < |d| {
      DedupKeepsOrder(init, k, i, j);
      assert dr[j] == d[j] && d[j] in d;
      FirstIndicesPrefix(init, last, k, d[i][k], d[j][k]);
    } else {
      assert dr[j] == last;
      FirstIndicesLast(init, last, k, d[i][k]);
    }
  }

  lemma FirstIndicesPrefix(init: seq<Row>, last: Row, k: nat, a: Value, b: Value)
    requires Wide(init + [last], k) && a in KeysOf(init, k) && b in KeysOf(init, k)
    requires FirstIndex(init, k, a) < FirstIndex(init, k, b)
    ensures FirstIndex(init + [last], k, a) < FirstIndex(init + [last], k, b)
  {
    FirstIndexPrefix(init, last, k, a);
    FirstIndexPrefix(init, last, k, b);
  }

  lemma FirstIndicesLast(init: seq<Row>, last: Row, k: nat, a: Value)
    requires Wide(init + [last], k) && a in KeysOf(init, k) && last[k] !in KeysOf(init, k)
    ensures FirstIndex(init + [last], k, a) < FirstIndex(init + [last], k, last[k])
  {
    FirstIndexPrefix(init, last, k, a);
    FirstIndexLast(init, last, k);
  }

  // -------------------------------------------------------------- left join

  function DropAt<T>(s: seq<T>, k: nat): (r: seq<T>)
    requires k < |s|
    ensures |r| == |s| - 1
    ensures forall i | 0 <= i < k :: r[i] == s[i]
    ensures forall i | k <= i < |r| :: r[i] == s[i + 1]
  {
    s[..k] + s[k + 1..]
  }

  predicate KeyIs(rk: nat, v: Value, r: Row) { rk < |r| && r[rk] == v }

  /** The right-hand rows whose key equals `v`, in their order. */
  function Matches(rrows: seq<Row>, rk: nat, v: Value): seq<Row>
  {
    Filter(rrows, r => KeyIs(rk, v, r))
  }

  /** The rows one left row contributes to `merge(how='left')`. */
  function JoinOne(l: Row, lk: nat, rrows: seq<Row>, rk: nat, w: nat): (out: seq<Row>)
    requires lk < |l| && forall r | r in rrows :: |r| == w + 1 && rk <= w
    ensures |out| >= 1
    ensures forall o | o in out :: |o| == |l| + w && o[..|l|] == l
  {
    var ms := Matches(rrows, rk, l[lk]);
    if ms == [] then [l + Nulls(w)]
    else seq(|ms|, i requires 0 <= i < |ms| => l + DropAt(ms[i], rk))
  }

  function JoinRows(lrows: seq<Row>, lk: nat, rrows: seq<Row>, rk: nat, w: nat): (out: seq<Row>)
    requires forall l | l in lrows :: lk < |l|
    requires forall r | r in rrows :: |r| == w + 1 && rk <= w
    ensures |out| >= |lrows|
  {
    if lrows == [] then []
    else JoinOne(lrows[0], lk, rrows, rk, w) + JoinRows(lrows[1..], lk, rrows, rk, w)
  }

  /** The columns `merge(how='left', on=key)` produces when no name collides. */
  function JoinColumns(left: seq<string>, right: seq<string>, key: string): seq<string>
    requires key in right
  {
    left + DropAt(right, IndexOf(right, key))
  }

  lemma JoinColumnsFirstKey(left: seq<string>, right: seq<string>, key: string)
    requires right != [] && right[0] == key
    ensures JoinColumns(left, right, key) == left + right[1..]
  {
    assert IndexOf(right, key) == 0;
  }

  /**
   * `pd.merge(left, right, on=key, how='left')`: each left row, in order,
   * once per matching right row (in right order), or once padded with
   * missing values when nothing matches. Missing keys match missing keys.
   */
  function LeftJoin(left: Frame, right: Frame, key: string): (j: Frame)
    requires WellFormed(left) && WellFormed(right)
    requires key in left.columns && key in right.columns
    requires forall c | c in right.columns && c != key :: c !in left.columns
    ensures j.columns == JoinColumns(left.columns, right.columns, key)
    ensures WellFormed(j) && |j.rows| >= |left.rows|
  {
    var lk := IndexOf(left.columns, key);
    var rk := IndexOf(right.columns, key);
    var w := |right.columns| - 1;
    var cols := JoinColumns(left.columns, right.columns, key);
    var rows := JoinRows(left.rows, lk, right.rows, rk, w);
    JoinRowsWidth(left.rows, lk, right.rows, rk, w);
    JoinColumnsDistinct(left.columns, right.columns, key);
    Frame(cols, rows)
  }

  lemma {:induction false} JoinRowsWidth(lrows: seq<Row>, lk: nat, rrows: seq<Row>, rk: nat, w: nat)
    requires forall l | l in lrows :: lk < |l|
    requires forall r | r in rrows :: |r| == w + 1 && rk <= w
    requires forall l | l in lrows :: |l| == |lrows[0]|
    ensures forall o | o in JoinRows(lrows, lk, rrows, rk, w) :: |o| == |lrows[0]| + w
  {
    if lrows != [] {
      if lrows[1..] != [] {
        JoinRowsWidth(lrows[1..], lk, rrows, rk, w);
        assert lrows[1..][0] == lrows[1];
      }
    }
  }

  lemma JoinColumnsDistinct(left: seq<string>, right: seq<string>, key: string)
    requires Distinct(left) && Distinct(right) && key in right
    requires forall c | c in right && c != key :: c !in left
    ensures Distinct(JoinColumns(left, right, key))
  {
    var k := IndexOf(right, key);
    var d := DropAt(right, k);
    var cols := left + d;
    forall i, j | 0 <= i < j < |cols| ensures cols[i] != cols[j] {
      if j >= |left| {
        var j' := j - |left|;
        var rj := if j' < k then j' else j' + 1;
        assert cols[j] == right[rj] && rj != k;
        if i >= |left| {
          var i' := i - |left|;
          var ri := if i' < k then i' else i' + 1;
          assert cols[i] == right[ri] && ri < rj;
        } else {
          assert right[rj] != key;
          assert right[rj] in right;
        }
      }
    }
  }

  /** Every left row survives the join: its rows all begin with it. */
  lemma {:induction false} JoinKeepsLeftRows(lrows: seq<Row>, lk: nat, rrows: seq<Row>, rk: nat, w: nat)
    requires forall l | l in lrows :: lk < |l|
    requires forall r | r in rrows :: |r| == w + 1 && rk <= w
    ensures |JoinRows(lrows, lk, rrows, rk, w)|
            == |lrows| + SurplusMatches(lrows, lk, rrows, rk)
  {
    if lrows != [] {
      JoinKeepsLeftRows(lrows[1..], lk, rrows, rk, w);
    }
  }

  /** How many rows a join adds beyond one per left row: matches past the first. */
  function SurplusMatches(lrows: seq<Row>, lk: nat, rrows: seq<Row>, rk: nat): nat
    requires forall l | l in lrows :: lk < |l|
  {
    if lrows == [] then 0
    else
      var m := |Matches(rrows, rk, lrows[0][lk])|;
      (if m == 0 then 0 else m - 1) + SurplusMatches(lrows[1..], lk, rrows, rk)
  }

  /** At most one right-hand row per key value. */
  predicate UniqueKeys(rrows: seq<Row>, rk: nat)
    requires Wide(rrows, rk)
  {
    forall i, j | 0 <= i < j < |rrows| :: rrows[i][rk] != rrows[j][rk]
  }

  lemma {:induction false} UniqueMatches(rrows: seq<Row>, rk: nat, v: Value)
    requires Wide(rrows, rk) && UniqueKeys(rrows, rk)
    ensures |Matches(rrows, rk, v)| <= 1
    ensures v in KeysOf(rrows, rk) ==> Matches(rrows, rk, v) == [rrows[FirstIndex(rrows, rk, v)]]
    ensures v !in KeysOf(rrows, rk) ==> Matches(rrows, rk, v) == []
  {
    if rrows != [] {
      var tail := rrows[1..];
      UniqueMatches(tail, rk, v);
      assert Matches(rrows, rk, v)
          == (if KeyIs(rk, v, rrows[0]) then [rrows[0]] else []) + Matches(tail, rk, v);
      if rrows[0][rk] == v {
        forall j | 0 <= j < |tail| ensures tail[j][rk] != v {
          assert tail[j] == rrows[j + 1];
        }
        assert v !in KeysOf(tail, rk);
      } else if v in KeysOf(rrows, rk) {
        assert v in KeysOf(tail, rk) by {
          var r :| r in rrows && r[rk] == v;
          assert r != rrows[0];
        }
      } else {
        assert v !in KeysOf(tail, rk);
      }
    }
  }

  /** The row a left row becomes when the right side has unique keys. */
  function JoinedRow(l: Row, lk: nat, rrows: seq<Row>, rk: nat, w: nat): Row
    requires lk < |l| && Wide(rrows, rk) && forall r | r in rrows :: |r| == w + 1
  {
    if l[lk] in KeysOf(rrows, rk) then l + DropAt(rrows[FirstIndex(rrows, rk, l[lk])], rk)
    else l + Nulls(w)
  }

  /** Each left row extended as `JoinedRow` says, in order. */
  function JoinedRows(lrows: seq<Row>, lk: nat, rrows: seq<Row>, rk: nat, w: nat): (o: seq<Row>)
    requires forall l | l in lrows :: lk < |l|
    requires Wide(rrows, rk) && forall r | r in rrows :: |r| == w + 1
    ensures |o| == |lrows|
  {
    if lrows == [] then []
    else [JoinedRow(lrows[0], lk, rrows, rk, w)] + JoinedRows(lrows[1..], lk, rrows, rk, w)
  }

  lemma {:induction false} JoinedRowAt(lrows: seq<Row>, lk: nat, rrows: seq<Row>, rk: nat, w: nat, i: nat)
    requires forall l | l in lrows :: lk < |l|
    requires Wide(rrows, rk) && forall r | r in rrows :: |r| == w + 1
    requires i < |lrows|
    ensures JoinedRows(lrows, lk, rrows, rk, w)[i] == JoinedRow(lrows[i], lk, rrows, rk, w)
  {
    if i > 0 {
      JoinedRowAt(lrows[1..], lk, rrows, rk, w, i - 1);
      assert lrows[1..][i - 1] == lrows[i];
    }
  }

  /**
   * With a key-unique right side the join is one-to-one: row `i` of the
   * result is left row `i` extended with its match, or with missing values.
   */
  lemma {:induction false} JoinOneToOne(lrows: seq<Row>, lk: nat, rrows: seq<Row>, rk: nat, w: nat)
    requires forall l | l in lrows :: lk < |l|
    requires forall r | r in rrows :: |r| == w + 1 && rk <= w
    requires UniqueKeys(rrows, rk)
    ensures JoinRows(lrows, lk, rrows, rk, w) == JoinedRows(lrows, lk, rrows, rk, w)
  {
    if lrows != [] {
      JoinOneToOne(lrows[1..], lk, rrows, rk, w);
      JoinOneUnique(lrows[0], lk, rrows, rk, w);
    }
  }

  /** A left row meets at most one right row when the right keys are unique. */
  lemma JoinOneUnique(l: Row, lk: nat, rrows: seq<Row>, rk: nat, w: nat)
    requires lk < |l|
    requires forall r | r in rrows :: |r| == w + 1 && rk <= w
    requires UniqueKeys(rrows, rk)
    ensures JoinOne(l, lk, rrows, rk, w) == [JoinedRow(l, lk, rrows, rk, w)]
  {
    UniqueMatches(rrows, rk, l[lk]);
  }

  /** The rows of a left join, with the key positions and the right width named. */
  lemma LeftJoinIs(left: Frame, right: Frame, key: string, lk: nat, rk: nat, w: nat)
    requires WellFormed(left) && WellFormed(right)
    requires key in left.columns && key in right.columns
    requires forall c | c in right.columns && c != key :: c !in left.columns
    requires lk == IndexOf(left.columns, key) && rk == IndexOf(right.columns, key)
    requires w == |right.columns| - 1
    ensures LeftJoin(left, right, key).rows == JoinRows(left.rows, lk, right.rows, rk, w)
  {
    var j := LeftJoin(left, right, key);
    assert j.rows == JoinRows(left.rows, lk, right.rows, rk, w);
  }

  /**
   * `merge(how='left')` with a key-unique right side: one row per left row,
   * in order, each the left row extended as `JoinedRow` says.
   */
  lemma LeftJoinOneToOne(left: Frame, right: Frame, key: string, lk: nat, rk: nat, w: nat)
    requires WellFormed(left) && WellFormed(right)
    requires key in left.columns && key in right.columns
    requires forall c | c in right.columns && c != key :: c !in left.columns
    requires lk == IndexOf(left.columns, key) && rk == IndexOf(right.columns, key)
    requires w == |right.columns| - 1
    requires UniqueKeys(right.rows, rk)
    ensures LeftJoin(left, right, key).rows == JoinedRows(left.rows, lk, right.rows, rk, w)
    ensures |LeftJoin(left, right, key).rows| == |left.rows|
  {
    JoinOneToOne(left.rows, lk, right.rows, rk, w);
  }

  /** The row a left row becomes: itself, then its match's other cells or missing values. */
  lemma JoinedRowParts(l: Row, lk: nat, rrows: seq<Row>, rk: nat, w: nat)
    requires lk < |l| && Wide(rrows, rk) && forall r | r in rrows :: |r| == w + 1
    requires UniqueKeys(rrows, rk)
    ensures |JoinedRow(l, lk, rrows, rk, w)| == |l| + w
    ensures JoinedRow(l, lk, rrows, rk, w)[..|l|] == l
    ensures forall m | 0 <= m < |rrows| && rrows[m][rk] == l[lk] ::
              JoinedRow(l, lk, rrows, rk, w)[|l|..] == DropAt(rrows[m], rk)
    ensures l[lk] !in KeysOf(rrows, rk) ==> JoinedRow(l, lk, rrows, rk, w)[|l|..] == Nulls(w)
  {
    var o := JoinedRow(l, lk, rrows, rk, w);
    if l[lk] in KeysOf(rrows, rk) {
      var f := FirstIndex(rrows, rk, l[lk]);
      assert rrows[f] in rrows;
      assert o[|l|..] == DropAt(rrows[f], rk);
    } else {
      assert o[|l|..] == Nulls(w);
    }
  }
}
