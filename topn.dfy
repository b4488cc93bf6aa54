/** `top_n_by_action`: the most frequent `Details` values among the rows of one action. */
module TopN {
  import opened Events
  import opened Aggregation

  /** "No data for <action>", or the counts shown. */
  datatype TopResult = NoData | Top(counts: Table)

  /** `s.head(n)`: the first `n` entries; a negative `n` drops the last `-n`. */
  function Head<T>(s: seq<T>, n: int): (r: seq<T>)
    ensures |r| <= |s| && r == s[..|r|]
    ensures n >= 0 ==> |r| == if n < |s| then n else |s|
    ensures n < 0 ==> |r| == if |s| + n > 0 then |s| + n else 0
  {
    if n >= 0 then (if n < |s| then s[..n] else s)
    else if |s| + n > 0 then s[..|s| + n] else []
  }

  /** `top_n_by_action(action, 'Details', n)`. */
  function TopNByAction(rows: seq<Scored>, action: string, n: int): TopResult
  {
    var temp := Where(rows, Action, {action});
    if temp == [] then NoData
    else Top(Head(GroupBy(temp, Detail, Size), n))
  }

  lemma {:induction false} PrefixProperties(t: Table, p: Table)
    requires SortedDesc(t) && DistinctKeys(t) && |p| <= |t| && p == t[..|p|]
    ensures SortedDesc(p) && DistinctKeys(p)
    ensures forall e :: e in p ==> e in t
  {
    if p != [] {
      assert t == [t[0]] + t[1..];
      assert p == [p[0]] + p[1..];
      assert p[0] == t[0];
      SortedCons(t[0], t[1..]);
      assert t[1..][..|p[1..]|] == p[1..];
      PrefixProperties(t[1..], p[1..]);
      forall e | e in p[1..] ensures e in t[1..] {
      }
      PrefixKeys(t[1..], p[1..]);
      SortedCons(p[0], p[1..]);
    }
  }

  lemma {:induction false} PrefixKeys(t: Table, p: Table)
    requires forall e :: e in p ==> e in t
    ensures Keys(p) <= Keys(t)
  {
    forall k | k in Keys(p) ensures k in Keys(t) {
      var e := EntryOfKey(p, k);
      KeyOfEntry(t, e);
    }
  }

  lemma {:induction false} EntryOfKey(t: Table, k: string) returns (e: (string, int))
    requires k in Keys(t)
    ensures e in t && e.0 == k
  {
    if t[0].0 == k {
      e := t[0];
    } else {
      e := EntryOfKey(t[1..], k);
    }
  }

  /** The value of `top_n_by_action` (app.py:90-98): nothing when no row has the
      action; otherwise at most `n` entries (for `n` >= 0), one per detail value,
      each counting the rows of the action with that detail, so between 1 and the
      number of rows of the action, and the counts non-increasing. */
  lemma TopNSpec(rows: seq<Scored>, action: string, n: int)
    ensures TopNByAction(rows, action, n).NoData? <==> |Where(rows, Action, {action})| == 0
    ensures TopNByAction(rows, action, n).Top? ==>
              var counts := TopNByAction(rows, action, n).counts;
              var temp := Where(rows, Action, {action});
              && (n >= 0 ==> |counts| <= n)
              && SortedDesc(counts)
              && DistinctKeys(counts)
              && (forall e :: e in counts ==> e.1 == |Where(temp, Detail, {e.0})|)
              && (forall e :: e in counts ==> 1 <= e.1 <= |temp|)
              && (forall e :: e in counts ==> e.0 in FieldValues(temp, Detail))
  {
    var temp := Where(rows, Action, {action});
    if temp != [] {
      var all := GroupBy(temp, Detail, Size);
      var counts := Head(all, n);
      GroupBySpec(temp, Detail, Size);
      PrefixProperties(all, counts);
      forall e | e in counts ensures 1 <= e.1 <= |temp| && e.0 in FieldValues(temp, Detail) {
        KeyOfEntry(all, e);
        var r :| r in temp && Field(r.event, Detail).Some? && Field(r.event, Detail).value == e.0;
        assert r in Where(temp, Detail, {e.0});
      }
    }
  }

  /** When `n` covers every detail value, the counts list every one of them. */
  lemma TopNComplete(rows: seq<Scored>, action: string, n: int)
    requires n >= |FieldValues(Where(rows, Action, {action}), Detail)|
    ensures TopNByAction(rows, action, n).Top? ==>
              Keys(TopNByAction(rows, action, n).counts) == FieldValues(Where(rows, Action, {action}), Detail)
  {
    var temp := Where(rows, Action, {action});
    if temp != [] {
      var all := GroupBy(temp, Detail, Size);
      GroupBySpec(temp, Detail, Size);
      DistinctKeysCount(all);
      assert Head(all, n) == all;
    }
  }

  /** `top_n_by_action` keeps the most frequent details (app.py:95-98): as many as
      `n` allows, and every detail left out occurs no more often than any kept. */
  lemma TopNMostFrequent(rows: seq<Scored>, action: string, n: int)
    ensures TopNByAction(rows, action, n).Top? ==>
              var counts := TopNByAction(rows, action, n).counts;
              var temp := Where(rows, Action, {action});
              var details := FieldValues(temp, Detail);
              && (n >= 0 ==> |counts| == if n < |details| then n else |details|)
              && (forall d, e :: d in details && d !in Keys(counts) && e in counts ==>
                    |Where(temp, Detail, {d})| <= e.1)
  {
    var temp := Where(rows, Action, {action});
    if temp != [] {
      var all := GroupBy(temp, Detail, Size);
      var counts := Head(all, n);
      GroupBySpec(temp, Detail, Size);
      DistinctKeysCount(all);
      forall y | y in counts ensures y.0 in Keys(counts) {
        KeyOfEntry(counts, y);
      }
      forall d, e | d in FieldValues(temp, Detail) && d !in Keys(counts) && e in counts
        ensures |Where(temp, Detail, {d})| <= e.1
      {
        var x := EntryOfKey(all, d);
        PrefixDominates(all, |counts|, x, e);
      }
    }
  }

  /** In a non-increasing table, an entry outside a prefix is no larger than any entry in it. */
  lemma PrefixDominates(t: Table, k: nat, x: (string, int), e: (string, int))
    requires SortedDesc(t) && k <= |t| && x in t && x !in t[..k] && e in t[..k]
    ensures x.1 <= e.1
  {
    var j :| 0 <= j < |t| && t[j] == x;
    var i :| 0 <= i < k && t[..k][i] == e;
    assert forall m :: 0 <= m < k ==> t[m] in t[..k];
    assert t[i] == e;
  }

  /** A table with distinct keys has as many entries as keys. */
  lemma {:induction false} DistinctKeysCount(t: Table)
    requires DistinctKeys(t)
    ensures |Keys(t)| == |t|
  {
    if t != [] {
      DistinctKeysCount(t[1..]);
    }
  }
}
