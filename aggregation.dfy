/** Grouping the scored table: `groupby(col)['punten'].sum()` and
    `groupby(col).size()`, each sorted descending by its value. */
module Aggregation {
  import opened Events

  /** A grouped result: one (key, value) entry per group. */
  type Table = seq<(string, int)>

  /** What a group-by computes per group: the sum of points, or the row count. */
  datatype Agg = Sum | Size

  /** The keys that occur in a table. */
  function Keys(t: Table): set<string>
  {
    if t == [] then {} else {t[0].0} + Keys(t[1..])
  }

  /** No key occurs twice: the first key does not come back, and so on. */
  predicate DistinctKeys(t: Table)
  {
    t == [] || (t[0].0 !in Keys(t[1..]) && DistinctKeys(t[1..]))
  }

  /** Non-increasing by value; the order among equal values is left open. */
  predicate SortedDesc(t: Table)
  {
    forall i, j :: 0 <= i < j < |t| ==> t[i].1 >= t[j].1
  }

  /** The sum of all values. */
  function Total(t: Table): int
  {
    if t == [] then 0 else t[0].1 + Total(t[1..])
  }

  /** The sum of the values filed under key `k`. */
  function SumFor(t: Table, k: string): int
  {
    if t == [] then 0 else (if t[0].0 == k then t[0].1 else 0) + SumFor(t[1..], k)
  }

  /** The (key, value) pairs a group-by on column `c` aggregates: each row's points,
      or 1 per row for `size()`. Rows whose key is missing are dropped, as a
      pandas group-by drops missing keys. */
  function Keyed(rows: seq<Scored>, c: Column, agg: Agg): Table
  {
    if rows == [] then []
    else
      var rest := Keyed(rows[1..], c, agg);
      match Field(rows[0].event, c)
      case None => rest
      case Some(k) => [(k, if agg == Sum then rows[0].points else 1)] + rest
  }

  /** Adds `v` to the group of `k`, opening that group at the end when it is new. */
  function AddTo(t: Table, k: string, v: int): Table
  {
    if t == [] then [(k, v)]
    else if t[0].0 == k then [(k, t[0].1 + v)] + t[1..]
    else [t[0]] + AddTo(t[1..], k, v)
  }

  /** The group-by itself: one entry per key, holding the sum of that key's values. */
  function GroupSum(pairs: Table): Table
  {
    if pairs == [] then [] else AddTo(GroupSum(pairs[1..]), pairs[0].0, pairs[0].1)
  }

  /** Places `x` into a table sorted descending, before the first smaller-or-equal entry. */
  function Insert(x: (string, int), t: Table): (r: Table)
    ensures multiset(r) == multiset(t) + multiset{x}
  {
    if t == [] then [x]
    else if x.1 >= t[0].1 then [x] + t
    else
      assert t == [t[0]] + t[1..];
      [t[0]] + Insert(x, t[1..])
  }

  /** `sort_values(ascending=False)`, as an insertion sort: one non-increasing
      arrangement of the same entries (pandas promises no order among ties). */
  function SortDesc(t: Table): (r: Table)
    ensures multiset(r) == multiset(t)
  {
    if t == [] then []
    else
      assert t == [t[0]] + t[1..];
      Insert(t[0], SortDesc(t[1..]))
  }

  /** A group-by on column `c` followed by a descending sort. */
  function GroupBy(rows: seq<Scored>, c: Column, agg: Agg): Table
  {
    SortDesc(GroupSum(Keyed(rows, c, agg)))
  }

  /** `total_points`: the points of each person, highest first. */
  function PersonPoints(rows: seq<Scored>): Table
  {
    GroupBy(rows, Person, Sum)
  }

  /** `company_points`: the points of each company, highest first, or None when
      the table has no `Bedrijven` column at all. */
  function CompanyPoints(rows: seq<Scored>, hasCompanyColumn: bool): Option<Table>
  {
    if hasCompanyColumn then Some(GroupBy(rows, Company, Sum)) else None
  }

  // ---------------------------------------------------------------------------
  // Tables

  lemma {:induction false} KeyOfEntry(t: Table, e: (string, int))
    requires e in t
    ensures e.0 in Keys(t)
  {
    if t[0] != e {
      KeyOfEntry(t[1..], e);
    }
  }

  lemma {:induction false} TotalCons(x: (string, int), t: Table)
    ensures Total([x] + t) == x.1 + Total(t)
    ensures SumFor([x] + t, x.0) == x.1 + SumFor(t, x.0)
    ensures Keys([x] + t) == {x.0} + Keys(t)
  {
    assert ([x] + t)[0] == x;
    assert ([x] + t)[1..] == t;
  }

  lemma SortedCons(x: (string, int), t: Table)
    ensures SortedDesc([x] + t) <==> SortedDesc(t) && forall e :: e in t ==> e.1 <= x.1
  {
    var r := [x] + t;
    assert r[1..] == t;
    if SortedDesc(r) {
      forall i, j | 0 <= i < j < |t| ensures t[i].1 >= t[j].1 {
        assert t[i] == r[i + 1] && t[j] == r[j + 1];
      }
      forall e | e in t ensures e.1 <= x.1 {
        var m :| 0 <= m < |t| && t[m] == e;
        assert r[0] == x && r[m + 1] == e;
      }
    }
    if SortedDesc(t) && forall e :: e in t ==> e.1 <= x.1 {
      forall i, j | 0 <= i < j < |r| ensures r[i].1 >= r[j].1 {
        assert r[j] == t[j - 1];
        if i > 0 {
          assert r[i] == t[i - 1];
        }
      }
    }
  }

  /** A distinct-keyed table files each entry's value under its key. */
  lemma {:induction false} SumForEntry(t: Table, e: (string, int))
    requires DistinctKeys(t) && e in t
    ensures SumFor(t, e.0) == e.1
  {
    if t[0] == e {
      SumForAbsent(t[1..], e.0);
    } else {
      assert e in t[1..];
      KeyOfEntry(t[1..], e);
      SumForEntry(t[1..], e);
    }
  }

  lemma {:induction false} SumForAbsent(t: Table, k: string)
    requires k !in Keys(t)
    ensures SumFor(t, k) == 0
  {
    if t != [] {
      SumForAbsent(t[1..], k);
    }
  }

  // ---------------------------------------------------------------------------
  // Grouping

  /** Adding to a group keeps one entry per key and moves exactly `v` into group `k`. */
  lemma {:induction false} AddToSpec(t: Table, k: string, v: int)
    ensures Keys(AddTo(t, k, v)) == Keys(t) + {k}
    ensures Total(AddTo(t, k, v)) == Total(t) + v
    ensures forall k' :: SumFor(AddTo(t, k, v), k') == SumFor(t, k') + (if k' == k then v else 0)
    ensures DistinctKeys(t) ==> DistinctKeys(AddTo(t, k, v))
  {
    if t == [] {
      TotalCons((k, v), []);
      assert forall k' :: SumFor([(k, v)], k') == SumFor([], k') + (if k' == k then v else 0) by {
        assert [(k, v)][1..] == [];
      }
    } else {
      var r := AddTo(t, k, v);
      if t[0].0 == k {
        assert r[0] == (k, t[0].1 + v) && r[1..] == t[1..];
      } else {
        AddToSpec(t[1..], k, v);
        assert r[0] == t[0] && r[1..] == AddTo(t[1..], k, v);
      }
    }
  }

  /** The group-by (app.py:69-70, 82, 95): one entry per key, the sum of that
      key's values in each, and nothing added or lost overall. */
  lemma {:induction false} GroupSumSpec(pairs: Table)
    ensures DistinctKeys(GroupSum(pairs))
    ensures Keys(GroupSum(pairs)) == Keys(pairs)
    ensures Total(GroupSum(pairs)) == Total(pairs)
    ensures forall k :: SumFor(GroupSum(pairs), k) == SumFor(pairs, k)
  {
    if pairs != [] {
      GroupSumSpec(pairs[1..]);
      AddToSpec(GroupSum(pairs[1..]), pairs[0].0, pairs[0].1);
    }
  }

  // ---------------------------------------------------------------------------
  // Sorting

  lemma {:induction false} InsertSorted(x: (string, int), t: Table)
    requires SortedDesc(t)
    ensures SortedDesc(Insert(x, t))
  {
    if t != [] {
      assert t == [t[0]] + t[1..];
      SortedCons(t[0], t[1..]);
      if x.1 >= t[0].1 {
        assert t[0] in t;
        SortedCons(x, t);
      } else {
        var rest := Insert(x, t[1..]);
        InsertSorted(x, t[1..]);
        forall e | e in rest ensures e.1 <= t[0].1 {
          assert e in multiset(rest);
        }
        SortedCons(t[0], rest);
      }
    }
  }

  lemma {:induction false} InsertKeys(x: (string, int), t: Table)
    ensures Keys(Insert(x, t)) == Keys(t) + {x.0}
    ensures Total(Insert(x, t)) == Total(t) + x.1
    ensures x.0 !in Keys(t) && DistinctKeys(t) ==> DistinctKeys(Insert(x, t))
  {
    if t == [] {
      TotalCons(x, []);
    } else if x.1 >= t[0].1 {
      TotalCons(x, t);
    } else {
      assert t == [t[0]] + t[1..];
      InsertKeys(x, t[1..]);
      TotalCons(t[0], Insert(x, t[1..]));
      TotalCons(t[0], t[1..]);
    }
  }

  /** The descending sort: non-increasing, same keys, same total, still one entry per key. */
  lemma {:induction false} SortDescSpec(t: Table)
    ensures SortedDesc(SortDesc(t))
    ensures Keys(SortDesc(t)) == Keys(t)
    ensures Total(SortDesc(t)) == Total(t)
    ensures DistinctKeys(t) ==> DistinctKeys(SortDesc(t))
  {
    if t != [] {
      assert t == [t[0]] + t[1..];
      SortDescSpec(t[1..]);
      InsertSorted(t[0], SortDesc(t[1..]));
      InsertKeys(t[0], SortDesc(t[1..]));
      TotalCons(t[0], t[1..]);
    }
  }

  // ---------------------------------------------------------------------------
  // Group-by on a column of the scored table

  lemma {:induction false} KeyedKeys(rows: seq<Scored>, c: Column, agg: Agg)
    ensures Keys(Keyed(rows, c, agg)) == FieldValues(rows, c)
  {
    if rows != [] {
      assert rows == [rows[0]] + rows[1..];
      KeyedKeys(rows[1..], c, agg);
      match Field(rows[0].event, c)
      case None =>
        assert FieldValues(rows, c) == FieldValues(rows[1..], c);
      case Some(k) =>
        TotalCons((k, if agg == Sum then rows[0].points else 1), Keyed(rows[1..], c, agg));
        assert FieldValues(rows, c) == FieldValues(rows[1..], c) + {k};
    }
  }

  lemma {:induction false} KeyedSumFor(rows: seq<Scored>, c: Column, agg: Agg, k: string)
    ensures SumFor(Keyed(rows, c, agg), k) ==
              if agg == Sum then Points(Where(rows, c, {k})) else |Where(rows, c, {k})|
  {
    if rows != [] {
      KeyedSumFor(rows[1..], c, agg, k);
      var w := Where(rows[1..], c, {k});
      if Matches(rows[0], c, {k}) {
        assert Where(rows, c, {k}) == [rows[0]] + w;
        assert ([rows[0]] + w)[1..] == w;
      } else {
        assert Where(rows, c, {k}) == w;
      }
      match Field(rows[0].event, c)
      case None =>
      case Some(k0) =>
        var p := (k0, if agg == Sum then rows[0].points else 1);
        assert ([p] + Keyed(rows[1..], c, agg))[1..] == Keyed(rows[1..], c, agg);
    }
  }

  lemma {:induction false} KeyedTotal(rows: seq<Scored>, c: Column, agg: Agg, vs: set<string>)
    requires FieldValues(rows, c) <= vs
    ensures Total(Keyed(rows, c, agg)) ==
              if agg == Sum then Points(Where(rows, c, vs)) else |Where(rows, c, vs)|
  {
    if rows != [] {
      assert rows == [rows[0]] + rows[1..];
      assert FieldValues(rows[1..], c) <= FieldValues(rows, c);
      KeyedTotal(rows[1..], c, agg, vs);
      var w := Where(rows[1..], c, vs);
      match Field(rows[0].event, c)
      case None =>
        assert Where(rows, c, vs) == w;
      case Some(k) =>
        assert k in FieldValues(rows, c);
        assert Where(rows, c, vs) == [rows[0]] + w;
        assert ([rows[0]] + w)[1..] == w;
        TotalCons((k, if agg == Sum then rows[0].points else 1), Keyed(rows[1..], c, agg));
    }
  }

  /** One group-by with its sort on column `c`: sorted non-increasing, one entry
      per value the column takes, each entry holding the points (or the number)
      of the rows with that value, and all entries adding up to the points (or
      the number) of the rows that have a value. */
  lemma GroupBySpec(rows: seq<Scored>, c: Column, agg: Agg)
    ensures SortedDesc(GroupBy(rows, c, agg))
    ensures DistinctKeys(GroupBy(rows, c, agg))
    ensures Keys(GroupBy(rows, c, agg)) == FieldValues(rows, c)
    ensures forall e :: e in GroupBy(rows, c, agg) ==>
              e.1 == if agg == Sum then Points(Where(rows, c, {e.0})) else |Where(rows, c, {e.0})|
    ensures Total(GroupBy(rows, c, agg)) ==
              if agg == Sum then Points(Where(rows, c, FieldValues(rows, c)))
              else |Where(rows, c, FieldValues(rows, c))|
  {
    var pairs := Keyed(rows, c, agg);
    var g := GroupSum(pairs);
    KeyedKeys(rows, c, agg);
    KeyedTotal(rows, c, agg, FieldValues(rows, c));
    GroupSumSpec(pairs);
    SortDescSpec(g);
    forall e | e in GroupBy(rows, c, agg)
      ensures e.1 == if agg == Sum then Points(Where(rows, c, {e.0})) else |Where(rows, c, {e.0})|
    {
      assert e in multiset(SortDesc(g));
      SumForEntry(g, e);
      KeyedSumFor(rows, c, agg, e.0);
    }
  }

  /** The per-person table (app.py:68-76): one entry per person, holding that
      person's points, sorted non-increasing, and adding up to all points scored. */
  lemma PersonPointsSpec(rows: seq<Scored>)
    ensures SortedDesc(PersonPoints(rows))
    ensures DistinctKeys(PersonPoints(rows))
    ensures Keys(PersonPoints(rows)) == FieldValues(rows, Person)
    ensures forall e :: e in PersonPoints(rows) ==> e.1 == Points(Where(rows, Person, {e.0}))
    ensures Total(PersonPoints(rows)) == Points(rows)
  {
    GroupBySpec(rows, Person, Sum);
    WhereAllValues(rows, Person, FieldValues(rows, Person));
  }

  /** The per-company table (app.py:81-82): absent when there is no company column;
      otherwise one entry per company, holding that company's points, sorted
      non-increasing, adding up to the points of the rows that name a company. */
  lemma CompanyPointsSpec(rows: seq<Scored>, hasCompanyColumn: bool)
    ensures CompanyPoints(rows, hasCompanyColumn).None? <==> !hasCompanyColumn
    ensures hasCompanyColumn ==>
              var t := CompanyPoints(rows, hasCompanyColumn).value;
              && SortedDesc(t)
              && DistinctKeys(t)
              && Keys(t) == FieldValues(rows, Company)
              && (forall e :: e in t ==> e.1 == Points(Where(rows, Company, {e.0})))
              && Total(t) == Points(Where(rows, Company, FieldValues(rows, Company)))
  {
    GroupBySpec(rows, Company, Sum);
  }
}
