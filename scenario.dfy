/** A worked log: the points one person collects end to end. */
module Scenario {
  import opened Events
  import opened Rules
  import opened Scoring
  import opened Aggregation
  import opened TopN

  function OpenOn(p: string, d: int): Event
  {
    Event(p, OpenApp, d, "", None)
  }

  function CheckInOn(p: string, d: int, activity: string): Event
  {
    Event(p, "event-checkin", d, activity, None)
  }

  function LikeOn(p: string, d: int, item: string): Event
  {
    Event(p, "news_item like", d, item, None)
  }

  /** Person `p` opens the app twice on day `d1`, checks in at an activity, opens
      the app on day `d2` and likes a news item. */
  function TwoDayLog(p: string, d1: int, d2: int, activity: string, item: string): seq<Event>
  {
    [OpenOn(p, d1), OpenOn(p, d1), CheckInOn(p, d1, activity), OpenOn(p, d2), LikeOn(p, d2, item)]
  }

  /** One step of the action filter. */
  lemma WithActionCons(e: Event, s: seq<Event>, a: string, matching: bool)
    ensures WithAction([e] + s, a, matching) ==
            (if (e.action == a) == matching then [e] else []) + WithAction(s, a, matching)
  {
    assert ([e] + s)[1..] == s;
  }

  lemma SplitFrom(full: seq<Event>, e: Event, s: seq<Event>, opens: seq<Event>, others: seq<Event>)
    requires full == [e] + s
    requires WithAction(s, OpenApp, true) == opens && WithAction(s, OpenApp, false) == others
    ensures WithAction(full, OpenApp, true) == if e.action == OpenApp then [e] + opens else opens
    ensures WithAction(full, OpenApp, false) == if e.action == OpenApp then others else [e] + others
  {
    WithActionCons(e, s, OpenApp, true);
    WithActionCons(e, s, OpenApp, false);
  }

  lemma SplitTail(p: string, d2: int, item: string)
    ensures WithAction([OpenOn(p, d2), LikeOn(p, d2, item)], OpenApp, true) == [OpenOn(p, d2)]
    ensures WithAction([OpenOn(p, d2), LikeOn(p, d2, item)], OpenApp, false) == [LikeOn(p, d2, item)]
  {
    var l := LikeOn(p, d2, item);
    assert l.action != OpenApp;
    SplitFrom([l], l, [], [], []);
    SplitFrom([OpenOn(p, d2), l], OpenOn(p, d2), [l], [], [l]);
  }

  lemma SplitMiddle(p: string, d1: int, d2: int, activity: string, item: string)
    ensures WithAction([CheckInOn(p, d1, activity), OpenOn(p, d2), LikeOn(p, d2, item)], OpenApp, true) ==
            [OpenOn(p, d2)]
    ensures WithAction([CheckInOn(p, d1, activity), OpenOn(p, d2), LikeOn(p, d2, item)], OpenApp, false) ==
            [CheckInOn(p, d1, activity), LikeOn(p, d2, item)]
  {
    var c, t := CheckInOn(p, d1, activity), [OpenOn(p, d2), LikeOn(p, d2, item)];
    assert c.action != OpenApp;
    SplitTail(p, d2, item);
    SplitFrom([CheckInOn(p, d1, activity), OpenOn(p, d2), LikeOn(p, d2, item)], c, t, [OpenOn(p, d2)], [LikeOn(p, d2, item)]);
  }

  lemma SplitFour(p: string, d1: int, d2: int, activity: string, item: string)
    ensures WithAction([OpenOn(p, d1), CheckInOn(p, d1, activity), OpenOn(p, d2), LikeOn(p, d2, item)], OpenApp, true) ==
            [OpenOn(p, d1), OpenOn(p, d2)]
    ensures WithAction([OpenOn(p, d1), CheckInOn(p, d1, activity), OpenOn(p, d2), LikeOn(p, d2, item)], OpenApp, false) ==
            [CheckInOn(p, d1, activity), LikeOn(p, d2, item)]
  {
    var o1, o2 := OpenOn(p, d1), OpenOn(p, d2);
    var c, l := CheckInOn(p, d1, activity), LikeOn(p, d2, item);
    SplitMiddle(p, d1, d2, activity, item);
    SplitFrom([o1, c, o2, l], o1, [c, o2, l], [o2], [c, l]);
    assert [o1] + [o2] == [o1, o2];
  }

  lemma SplitTwoDayLog(p: string, d1: int, d2: int, activity: string, item: string)
    ensures WithAction(TwoDayLog(p, d1, d2, activity, item), OpenApp, true) ==
            [OpenOn(p, d1), OpenOn(p, d1), OpenOn(p, d2)]
    ensures WithAction(TwoDayLog(p, d1, d2, activity, item), OpenApp, false) ==
            [CheckInOn(p, d1, activity), LikeOn(p, d2, item)]
  {
    var o1, o2 := OpenOn(p, d1), OpenOn(p, d2);
    var c, l := CheckInOn(p, d1, activity), LikeOn(p, d2, item);
    SplitFour(p, d1, d2, activity, item);
    SplitFrom(TwoDayLog(p, d1, d2, activity, item), o1, [o1, c, o2, l], [o1, o2], [c, l]);
    assert [o1] + [o1, o2] == [o1, o1, o2];
  }

  /** The second app open on day `d1` is dropped. */
  lemma DeduplicateTwoDays(p: string, d1: int, d2: int)
    requires d1 != d2
    ensures DropDuplicates([OpenOn(p, d1), OpenOn(p, d1), OpenOn(p, d2)]) == [OpenOn(p, d1), OpenOn(p, d2)]
  {
    var o1, o2 := OpenOn(p, d1), OpenOn(p, d2);
    var seen := {(p, d1)};
    assert DayKey(o1) == (p, d1) && DayKey(o2) == (p, d2);
    assert DayKey(o2) !in seen;
    assert [o2][1..] == [];
    assert DropDuplicatesFrom([o2], seen) == [o2];
    assert [o1, o2][1..] == [o2];
    assert DropDuplicatesFrom([o1, o2], seen) == [o2];
    assert {} + {DayKey(o1)} == seen;
    assert [o1, o1, o2][1..] == [o1, o2];
  }

  lemma AwardTwoOpens(p: string, d1: int, d2: int)
    ensures AwardOne([OpenOn(p, d1), OpenOn(p, d2)]) == [Scored(OpenOn(p, d1), 1), Scored(OpenOn(p, d2), 1)]
  {
    assert [OpenOn(p, d1), OpenOn(p, d2)][1..] == [OpenOn(p, d2)];
    assert [OpenOn(p, d2)][1..] == [];
  }

  lemma AwardCheckInAndLike(p: string, d1: int, d2: int, activity: string, item: string)
    ensures AwardByRule([CheckInOn(p, d1, activity), LikeOn(p, d2, item)]) ==
            [Scored(CheckInOn(p, d1, activity), 5), Scored(LikeOn(p, d2, item), 2)]
  {
    RulePointsExamples();
    assert [CheckInOn(p, d1, activity), LikeOn(p, d2, item)][1..] == [LikeOn(p, d2, item)];
    assert [LikeOn(p, d2, item)][1..] == [];
  }

  /** The scored rows of the log: the two distinct app opens, then the others. */
  lemma ScoreTwoDayLog(p: string, d1: int, d2: int, activity: string, item: string)
    requires d1 != d2
    ensures Score(TwoDayLog(p, d1, d2, activity, item)) ==
            [Scored(OpenOn(p, d1), 1), Scored(OpenOn(p, d2), 1),
             Scored(CheckInOn(p, d1, activity), 5), Scored(LikeOn(p, d2, item), 2)]
  {
    var log := TwoDayLog(p, d1, d2, activity, item);
    var opens := WithAction(log, OpenApp, true);
    var others := WithAction(log, OpenApp, false);
    assert Score(log) == AwardOne(DropDuplicates(opens)) + AwardByRule(others);
    SplitTwoDayLog(p, d1, d2, activity, item);
    DeduplicateTwoDays(p, d1, d2);
    AwardTwoOpens(p, d1, d2);
    AwardCheckInAndLike(p, d1, d2, activity, item);
  }

  /** A log of one person only yields one entry, holding all the points. */
  lemma OnePerson(rows: seq<Scored>, p: string)
    requires rows != []
    requires forall r :: r in rows ==> r.event.person == p
    ensures PersonPoints(rows) == [(p, Points(rows))]
  {
    PersonPointsSpec(rows);
    var t := PersonPoints(rows);
    DistinctKeysCount(t);
    assert FieldValues(rows, Person) == {p} by {
      assert rows[0] in rows;
    }
    assert |t| == 1;
    assert t == [t[0]];
    assert Keys(t) == {t[0].0};
  }

  lemma PointsOfFour(rows: seq<Scored>)
    requires |rows| == 4
    ensures Points(rows) == rows[0].points + rows[1].points + rows[2].points + rows[3].points
  {
    assert rows[3..][1..] == [];
    assert Points(rows[3..]) == rows[3].points;
    assert rows[2..][1..] == rows[3..];
    assert Points(rows[2..]) == rows[2].points + rows[3].points;
    assert rows[1..][1..] == rows[2..];
    assert Points(rows[1..]) == rows[1].points + rows[2].points + rows[3].points;
  }

  /** Two app opens on different days, a check-in and a like earn
      1 + 1 + 5 + 2 = 9 points; the second app open on the first day adds nothing. */
  lemma ScoresNine(p: string, d1: int, d2: int, activity: string, item: string)
    requires d1 != d2
    ensures PersonPoints(Score(TwoDayLog(p, d1, d2, activity, item))) == [(p, 9)]
  {
    var rows := Score(TwoDayLog(p, d1, d2, activity, item));
    ScoreTwoDayLog(p, d1, d2, activity, item);
    PointsOfFour(rows);
    assert forall r :: r in rows ==> r.event.person == p;
    OnePerson(rows, p);
  }
}
