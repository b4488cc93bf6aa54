/** The longest run of consecutive days on which a person opened the app. */
module Streak {
  import opened Events

  /** Strictly increasing: sorted, with no day twice. */
  predicate Increasing(s: seq<int>)
  {
    forall i, j :: 0 <= i < j < |s| ==> s[i] < s[j]
  }

  /** Places day `d` into an increasing sequence, unless it is already there. */
  function InsertDay(d: int, s: seq<int>): (r: seq<int>)
    requires Increasing(s)
    ensures Increasing(r)
    ensures forall x :: x in r <==> x == d || x in s
  {
    if s == [] then [d]
    else if d < s[0] then
      assert forall x :: x in s ==> s[0] <= x;
      [d] + s
    else if d == s[0] then s
    else
      var rest := InsertDay(d, s[1..]);
      assert forall x :: x in rest ==> s[0] < x by {
        forall x | x in rest ensures s[0] < x {
          if x != d {
            var m :| 0 <= m < |s[1..]| && s[1..][m] == x;
            assert s[m + 1] == x;
          }
        }
      }
      assert s == [s[0]] + s[1..];
      var r := [s[0]] + rest;
      assert forall i, j :: 0 < i < j < |r| ==> r[i] == rest[i - 1] && r[j] == rest[j - 1];
      assert forall j :: 0 < j < |r| ==> r[j] in rest;
      r
  }

  /** `.drop_duplicates().sort_values()`: the distinct days, ascending. */
  function SortedDistinct(days: seq<int>): (r: seq<int>)
    ensures Increasing(r)
    ensures forall x :: x in r <==> x in days
  {
    if days == [] then []
    else
      assert days == [days[0]] + days[1..];
      InsertDay(days[0], SortedDistinct(days[1..]))
  }

  /** `d[i..j]` is a run: each day in it is exactly one after the day before. */
  ghost predicate IsRun(d: seq<int>, i: int, j: int)
  {
    0 <= i < j <= |d| && forall k :: i < k < j ==> d[k] == d[k - 1] + 1
  }

  /** `m` is the length of the longest run, 0 for no days at all. */
  ghost predicate IsLongestRun(d: seq<int>, m: nat)
  {
    && (forall i, j :: IsRun(d, i, j) ==> j - i <= m)
    && (if |d| == 0 then m == 0 else exists i, j :: IsRun(d, i, j) && j - i == m)
  }

  /** The streak loop (app.py:121-130). `prev_day` is a date once set, so its
      truth test only tells the first iteration apart. */
  method LongestStreak(days: seq<int>) returns (maxStreak: nat)
    ensures IsLongestRun(days, maxStreak)
    ensures maxStreak == 0 <==> |days| == 0
    ensures |days| > 0 ==> 1 <= maxStreak <= |days|
  {
    var streak: nat := 0;
    maxStreak := 0;
    var prevDay: Option<int> := None;
    for i := 0 to |days|
      invariant prevDay == if i == 0 then None else Some(days[i - 1])
      invariant i == 0 ==> streak == 0 && maxStreak == 0
      invariant i > 0 ==> 1 <= streak <= i && IsRun(days, i - streak, i)
      invariant i > 0 && i - streak > 0 ==> days[i - streak] != days[i - streak - 1] + 1
      invariant streak <= maxStreak <= i
      invariant forall a, b :: IsRun(days, a, b) && b <= i ==> b - a <= maxStreak
      invariant i > 0 ==> exists a, b :: IsRun(days, a, b) && b <= i && b - a == maxStreak
    {
      var day := days[i];
      if prevDay.Some? && day - prevDay.value == 1 {
        streak := streak + 1;
      } else {
        streak := 1;
      }
      assert IsRun(days, i + 1 - streak, i + 1);
      if maxStreak < streak {
        maxStreak := streak;
      }
      prevDay := Some(day);
      forall a, b | IsRun(days, a, b) && b <= i + 1 ensures b - a <= maxStreak {
        if b == i + 1 {
          RunStartsAtBoundary(days, a, b, streak);
        }
      }
    }
  }

  /** A run that ends where a maximal run of length `s` ends starts no earlier. */
  lemma RunStartsAtBoundary(d: seq<int>, a: int, b: int, s: int)
    requires IsRun(d, a, b) && IsRun(d, b - s, b)
    requires b - s == 0 || d[b - s] != d[b - s - 1] + 1
    ensures b - a <= s
  {
  }

  /** On increasing days a run is a stretch of consecutive calendar days: it
      spans exactly as many days as it has entries. */
  lemma {:induction false} RunIsConsecutive(d: seq<int>, i: int, j: int)
    requires Increasing(d) && 0 <= i < j <= |d|
    ensures IsRun(d, i, j) <==> d[j - 1] - d[i] == j - 1 - i
  {
    if j - i > 1 {
      RunIsConsecutive(d, i, j - 1);
      if d[j - 1] - d[i] == j - 1 - i {
        assert d[j - 2] - d[i] >= j - 2 - i by {
          SpanAtLeast(d, i, j - 1);
        }
        assert d[j - 1] > d[j - 2];
      }
    }
  }

  lemma {:induction false} SpanAtLeast(d: seq<int>, i: int, j: int)
    requires Increasing(d) && 0 <= i < j <= |d|
    ensures d[j - 1] - d[i] >= j - 1 - i
  {
    if j - i > 1 {
      SpanAtLeast(d, i, j - 1);
      assert d[j - 1] > d[j - 2];
    }
  }

  /** The examples of a streak a person can have: three days in a row then a
      gap, no days, one day, two days far apart. */
  lemma StreakExamples()
    ensures IsLongestRun([1, 2, 3, 5], 3)
    ensures IsLongestRun([], 0)
    ensures IsLongestRun([1], 1)
    ensures IsLongestRun([1, 10], 1)
  {
    var d := [1, 2, 3, 5];
    assert IsRun(d, 0, 3);
    assert d[3] != d[2] + 1;
    assert IsRun([1], 0, 1);
    var e := [1, 10];
    assert IsRun(e, 0, 1);
    assert e[1] != e[0] + 1;
  }
}
