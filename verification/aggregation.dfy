/**
 * Stage 2.3: the enriched expenses grouped by operator name and state
 * (UF), with the total, the row count, the mean and the sample standard
 * deviation of each group, rounded to cents and sorted by total,
 * largest first.
 */
module Aggregation {
  import opened Outcomes
  import opened Numbers
  import opened Frames
  import opened Sorting

  // ------------------------------------------------------------------ entries

  /** A group key: the `RazaoSocial` and `UF` cells. */
  datatype GroupKey = GroupKey(name: Value, uf: Value)

  /** One expense row that takes part in the grouping: its key and its amount. */
  datatype Entry = Entry(key: GroupKey, amount: real)

  /** `groupby` drops a row whose name or state is missing. */
  predicate Keyed(nk: nat, uk: nat, r: Row)
  {
    nk < |r| && uk < |r| && r[nk] != Null && r[uk] != Null
  }

  /**
   * The rows `groupby(['RazaoSocial', 'UF'])` keeps, as entries, in order:
   * the amount is the `to_numeric(errors='coerce').fillna(0.0)` value.
   */
  function Entries(rows: seq<Row>, nk: nat, uk: nat, vk: nat): (es: seq<Entry>)
    requires forall r | r in rows :: vk < |r|
    ensures |es| <= |rows|
  {
    if rows == [] then []
    else
      var r := rows[0];
      (if Keyed(nk, uk, r) then [Entry(GroupKey(r[nk], r[uk]), Amount(r[vk]))] else [])
      + Entries(rows[1..], nk, uk, vk)
  }

  lemma {:induction false} EntriesMembers(rows: seq<Row>, nk: nat, uk: nat, vk: nat)
    requires forall r | r in rows :: vk < |r|
    ensures forall e | e in Entries(rows, nk, uk, vk) ::
              exists r | r in rows :: Keyed(nk, uk, r) && e == Entry(GroupKey(r[nk], r[uk]), Amount(r[vk]))
    ensures forall r | r in rows && Keyed(nk, uk, r) ::
              Entry(GroupKey(r[nk], r[uk]), Amount(r[vk])) in Entries(rows, nk, uk, vk)
  {
    if rows != [] {
      EntriesMembers(rows[1..], nk, uk, vk);
      forall r | r in rows && Keyed(nk, uk, r)
        ensures Entry(GroupKey(r[nk], r[uk]), Amount(r[vk])) in Entries(rows, nk, uk, vk)
      {
        if r != rows[0] {
          assert r in rows[1..];
        }
      }
    }
  }

  // ------------------------------------------------------------------ groups

  /** The amounts of the entries with key `k`, in order. */
  function GroupAmounts(es: seq<Entry>, k: GroupKey): (xs: seq<real>)
    ensures |xs| <= |es|
  {
    if es == [] then []
    else (if es[0].key == k then [es[0].amount] else []) + GroupAmounts(es[1..], k)
  }

  function Sum(xs: seq<real>): real
  {
    if xs == [] then 0.0 else xs[0] + Sum(xs[1..])
  }

  lemma {:induction false} SumAppend(a: seq<real>, b: seq<real>)
    ensures Sum(a + b) == Sum(a) + Sum(b)
  {
    if a != [] {
      SumAppend(a[1..], b);
      assert (a + b)[0] == a[0] && (a + b)[1..] == a[1..] + b;
    } else {
      assert a + b == b;
    }
  }

  /** The sum of the squared distances from `m`. */
  function SquaredDeviation(xs: seq<real>, m: real): (d: real)
    ensures d >= 0.0
  {
    if xs == [] then 0.0
    else
      var t := xs[0] - m;
      Square(t);
      t * t + SquaredDeviation(xs[1..], m)
  }

  lemma Square(t: real)
    ensures t * t >= 0.0
  {
    if t < 0.0 {
      assert t * t == (-t) * (-t);
    }
  }

  /**
   * pandas' `std` (sample, one degree of freedom) before the square root:
   * undefined (NaN) for fewer than two values.
   */
  function SampleVariance(xs: seq<real>): (v: Option<real>)
    ensures v.None? <==> |xs| < 2
    ensures v.Some? ==> v.value >= 0.0
  {
    if |xs| < 2 then None
    else Some(SquaredDeviation(xs, Sum(xs) / (|xs| as real)) / ((|xs| - 1) as real))
  }

  /** `fillna(0.0)` on the deviation column. */
  function Filled(v: Option<real>): real
  {
    match v
    case None => 0.0
    case Some(x) => x
  }

  /** One row of the `agg` result, exact: `sum`, `count`, `mean` and the variance behind `std`. */
  datatype Summary = Summary(key: GroupKey, total: real, count: nat, mean: real, variance: real)

  function SummaryOf(es: seq<Entry>, k: GroupKey): (s: Summary)
  {
    var xs := GroupAmounts(es, k);
    var n := |xs|;
    Summary(k, Sum(xs), n, if n == 0 then 0.0 else Sum(xs) / (n as real), Filled(SampleVariance(xs)))
  }

  /** The distinct keys of the entries, in order of first appearance. */
  function GroupKeys(es: seq<Entry>): (ks: seq<GroupKey>)
    ensures Distinct(ks)
    ensures forall k :: k in ks <==> HasKey(es, k)
  {
    if es == [] then []
    else
      var init := es[..|es| - 1];
      var last := es[|es| - 1];
      var u := GroupKeys(init);
      assert forall e | e in init :: e in es;
      assert forall e | e in es :: e in init || e == last;
      if last.key in u then u else u + [last.key]
  }

  function Summaries(es: seq<Entry>, ks: seq<GroupKey>): (ss: seq<Summary>)
    ensures |ss| == |ks| && forall i | 0 <= i < |ks| :: ss[i] == SummaryOf(es, ks[i])
  {
    if ks == [] then [] else [SummaryOf(es, ks[0])] + Summaries(es, ks[1..])
  }

  // ---------------------------------------------------------------- rounding

  /**
   * One row of `df_agg` after `fillna` and `round(2)`: the total and the
   * mean in whole cents; the deviation is the square root of `variance`.
   */
  datatype Aggregate = Aggregate(name: Value, uf: Value, total: int, mean: int, variance: real, count: nat)

  function Rounded(s: Summary): (a: Aggregate)
  {
    Aggregate(s.key.name, s.key.uf, RoundCents(s.total), RoundCents(s.mean), s.variance, s.count)
  }

  function RoundedAll(ss: seq<Summary>): (r: seq<Aggregate>)
    ensures |r| == |ss| && forall i | 0 <= i < |ss| :: r[i] == Rounded(ss[i])
  {
    if ss == [] then [] else [Rounded(ss[0])] + RoundedAll(ss[1..])
  }

  /** The sort key of `sort_values(by='Total_Despesas', ascending=False)`. */
  function Descending(a: Aggregate): int { -a.total }

  /** The aggregation of the grouped entries: one rounded row per group, largest total first. */
  function Aggregated(es: seq<Entry>): seq<Aggregate>
  {
    SortBy(RoundedAll(Summaries(es, GroupKeys(es))), Descending)
  }

  /**
   * `run_aggregation` from the enriched table: KeyError for a missing
   * `ValorDespesas`, `RazaoSocial` or `UF`, in that order.
   */
  function AggregateFrame(df: Frame): (r: Result<seq<Aggregate>>)
    requires WellFormed(df)
    ensures r.KeyError? <==> !("ValorDespesas" in df.columns && "RazaoSocial" in df.columns && "UF" in df.columns)
  {
    if "ValorDespesas" !in df.columns then KeyError("ValorDespesas")
    else if "RazaoSocial" !in df.columns then KeyError("RazaoSocial")
    else if "UF" !in df.columns then KeyError("UF")
    else
      var vk := IndexOf(df.columns, "ValorDespesas");
      assert forall r | r in df.rows :: vk < |r|;
      Ok(Aggregated(Entries(df.rows, IndexOf(df.columns, "RazaoSocial"), IndexOf(df.columns, "UF"), vk)))
  }

  // ------------------------------------------------------------- properties

  /** Some grouped row has key `k`. */
  predicate HasKey(es: seq<Entry>, k: GroupKey)
  {
    exists e | e in es :: e.key == k
  }

  /** A group's summary: its rows' count and total, the mean as total over count, and a zero deviation for one row. */
  lemma SummaryFacts(es: seq<Entry>, k: GroupKey)
    requires HasKey(es, k)
    ensures var s := SummaryOf(es, k);
            s.count >= 1 && s.count == CountKey(es, k) && s.total == Sum(GroupAmounts(es, k)) &&
            s.mean == s.total / (s.count as real) &&
            (s.count == 1 ==> s.variance == 0.0) && s.variance >= 0.0
  {
    GroupNonEmpty(es, k);
    GroupCount(es, k);
  }

  lemma {:induction false} GroupNonEmpty(es: seq<Entry>, k: GroupKey)
    requires HasKey(es, k)
    ensures |GroupAmounts(es, k)| >= 1
  {
    if es[0].key != k {
      var e :| e in es && e.key == k;
      assert e in es[1..];
      GroupNonEmpty(es[1..], k);
    }
  }

  /** The number of entries with key `k`. */
  function CountKey(es: seq<Entry>, k: GroupKey): nat
  {
    if es == [] then 0 else (if es[0].key == k then 1 else 0) + CountKey(es[1..], k)
  }

  lemma {:induction false} GroupCount(es: seq<Entry>, k: GroupKey)
    ensures |GroupAmounts(es, k)| == CountKey(es, k)
  {
    if es != [] {
      GroupCount(es[1..], k);
    }
  }

  /** The sum of all the amounts. */
  function TotalOf(es: seq<Entry>): real
  {
    if es == [] then 0.0 else es[0].amount + TotalOf(es[1..])
  }

  /** The sum of the groups' exact totals. */
  function SummaryTotal(ss: seq<Summary>): real
  {
    if ss == [] then 0.0 else ss[0].total + SummaryTotal(ss[1..])
  }

  /** What one entry adds to the totals of the keys `ks`. */
  function Hits(e: Entry, ks: seq<GroupKey>): real
  {
    if ks == [] then 0.0 else (if ks[0] == e.key then e.amount else 0.0) + Hits(e, ks[1..])
  }

  lemma {:induction false} HitsOnce(e: Entry, ks: seq<GroupKey>)
    requires Distinct(ks)
    ensures Hits(e, ks) == if e.key in ks then e.amount else 0.0
  {
    if ks != [] {
      assert Distinct(ks[1..]) by {
        forall i, j | 0 <= i < j < |ks[1..]| ensures ks[1..][i] != ks[1..][j] {
          assert ks[1..][i] == ks[i + 1] && ks[1..][j] == ks[j + 1];
        }
      }
      HitsOnce(e, ks[1..]);
      if ks[0] == e.key {
        assert e.key !in ks[1..] by {
          forall m | 0 <= m < |ks[1..]| ensures ks[1..][m] != e.key {
            assert ks[1..][m] == ks[m + 1];
          }
        }
      }
      assert e.key in ks <==> ks[0] == e.key || e.key in ks[1..];
    }
  }

  lemma {:induction false} SummaryTotalCons(e: Entry, rest: seq<Entry>, ks: seq<GroupKey>)
    ensures SummaryTotal(Summaries([e] + rest, ks)) == Hits(e, ks) + SummaryTotal(Summaries(rest, ks))
  {
    if ks != [] {
      SummaryTotalCons(e, rest, ks[1..]);
      var es := [e] + rest;
      assert es[1..] == rest;
      var xs := GroupAmounts(es, ks[0]);
      SumAppend(if e.key == ks[0] then [e.amount] else [], GroupAmounts(rest, ks[0]));
      assert Summaries(es, ks)[1..] == Summaries(es, ks[1..]);
      assert Summaries(rest, ks)[1..] == Summaries(rest, ks[1..]);
    }
  }

  /**
   * The groups partition the grouped rows, so their exact totals add up to
   * the total of all the grouped amounts.
   */
  lemma {:induction false} PartitionTotal(es: seq<Entry>, ks: seq<GroupKey>)
    requires Distinct(ks) && forall e | e in es :: e.key in ks
    ensures SummaryTotal(Summaries(es, ks)) == TotalOf(es)
  {
    if es == [] {
      EmptyTotals(ks);
    } else {
      PartitionTotal(es[1..], ks);
      assert es == [es[0]] + es[1..];
      SummaryTotalCons(es[0], es[1..], ks);
      HitsOnce(es[0], ks);
    }
  }

  lemma {:induction false} EmptyTotals(ks: seq<GroupKey>)
    ensures SummaryTotal(Summaries([], ks)) == 0.0
  {
    if ks != [] {
      EmptyTotals(ks[1..]);
      assert Summaries([], ks)[1..] == Summaries([], ks[1..]);
    }
  }

  /** The exact group totals add up to the grand total of the grouped rows. */
  lemma GroupTotals(es: seq<Entry>)
    ensures SummaryTotal(Summaries(es, GroupKeys(es))) == TotalOf(es)
  {
    PartitionTotal(es, GroupKeys(es));
  }

  /** The (name, UF) pair of an output row. */
  function KeyOf(a: Aggregate): GroupKey
  {
    GroupKey(a.name, a.uf)
  }

  /** Some output row carries key `k`. */
  predicate Reported(out: seq<Aggregate>, k: GroupKey)
  {
    exists a | a in out :: KeyOf(a) == k
  }

  /** The rounded summaries of the keys `ks`, one per key, in order. */
  lemma RoundedRows(es: seq<Entry>, ks: seq<GroupKey>)
    ensures var rs := RoundedAll(Summaries(es, ks));
            |rs| == |ks| && forall i | 0 <= i < |ks| :: rs[i] == Rounded(SummaryOf(es, ks[i])) && KeyOf(rs[i]) == ks[i]
  {
  }

  /**
   * A reordering of rows whose keys are the distinct `ks`, in order: every
   * row keeps its key, the keys stay distinct and are exactly `ks`.
   */
  lemma {:induction false} PermutedKeys(rs: seq<Aggregate>, out: seq<Aggregate>, ks: seq<GroupKey>)
    requires |rs| == |ks| && forall i | 0 <= i < |rs| :: KeyOf(rs[i]) == ks[i]
    requires Distinct(ks) && multiset(out) == multiset(rs)
    ensures forall i, j | 0 <= i < j < |out| :: KeyOf(out[i]) != KeyOf(out[j])
    ensures forall k :: k in ks <==> Reported(out, k)
    ensures forall a | a in out :: exists m | 0 <= m < |rs| :: rs[m] == a && ks[m] == KeyOf(a)
  {
    assert Distinct(rs) by {
      forall i, j | 0 <= i < j < |rs| ensures rs[i] != rs[j] {
        assert KeyOf(rs[i]) == ks[i] && KeyOf(rs[j]) == ks[j];
      }
    }
    SameElements(rs, out);
    forall a | a in out ensures exists m | 0 <= m < |rs| :: rs[m] == a && ks[m] == KeyOf(a) {
      assert a in rs;
      var m :| 0 <= m < |rs| && rs[m] == a;
      assert ks[m] == KeyOf(a);
    }
    forall i, j | 0 <= i < j < |out| ensures KeyOf(out[i]) != KeyOf(out[j]) {
      assert out[i] in out && out[j] in out;
      var p :| 0 <= p < |rs| && rs[p] == out[i] && ks[p] == KeyOf(out[i]);
      var q :| 0 <= q < |rs| && rs[q] == out[j] && ks[q] == KeyOf(out[j]);
      assert out[i] != out[j];
    }
    forall k ensures k in ks <==> Reported(out, k) {
      if k in ks {
        var m :| 0 <= m < |ks| && ks[m] == k;
        assert rs[m] in rs;
        assert rs[m] in out;
      }
    }
  }

  /** The output rows are in non-increasing order of rounded total. */
  lemma AggregatedOrder(es: seq<Entry>)
    ensures var out := Aggregated(es);
            forall i, j | 0 <= i < j < |out| :: out[i].total >= out[j].total
  {
    var out := Aggregated(es);
    forall i, j | 0 <= i < j < |out| ensures out[i].total >= out[j].total {
      assert Descending(out[i]) <= Descending(out[j]);
    }
  }

  /**
   * There is one output row for every (name, UF) pair of the grouped rows,
   * and no other; no pair is reported twice.
   */
  lemma AggregatedKeys(es: seq<Entry>)
    ensures var out := Aggregated(es);
            (forall i, j | 0 <= i < j < |out| :: KeyOf(out[i]) != KeyOf(out[j])) &&
            forall k :: HasKey(es, k) <==> Reported(out, k)
  {
    var ks := GroupKeys(es);
    RoundedRows(es, ks);
    PermutedKeys(RoundedAll(Summaries(es, ks)), Aggregated(es), ks);
  }

  /** Each output row is its own group's rounded summary. */
  lemma AggregatedSummary(es: seq<Entry>, a: Aggregate)
    requires a in Aggregated(es)
    ensures HasKey(es, KeyOf(a)) && a == Rounded(SummaryOf(es, KeyOf(a)))
  {
    var ks := GroupKeys(es);
    var rs := RoundedAll(Summaries(es, ks));
    RoundedRows(es, ks);
    PermutedKeys(rs, Aggregated(es), ks);
    var m :| 0 <= m < |rs| && rs[m] == a && ks[m] == KeyOf(a);
    assert ks[m] in ks;
  }

  /**
   * Each output row holds its group's row count, its total and its mean
   * rounded to cents, and a zero deviation when the group has one row.
   */
  lemma AggregatedRow(es: seq<Entry>, a: Aggregate)
    requires a in Aggregated(es)
    ensures var k := KeyOf(a);
            var xs := GroupAmounts(es, k);
            a.count == CountKey(es, k) && a.count >= 1 &&
            a.total == RoundCents(Sum(xs)) &&
            a.mean == RoundCents(Sum(xs) / (a.count as real)) &&
            (a.count == 1 ==> a.variance == 0.0)
  {
    AggregatedSummary(es, a);
    SummaryFacts(es, KeyOf(a));
  }
}
