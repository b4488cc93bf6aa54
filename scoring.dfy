/** Turning the log into the scored table `df_points`: app opens are kept once
    per person and calendar day and earn one point each; every other event
    earns what the points table says. */
module Scoring {
  import opened Events
  import opened Rules

  /** The `drop_duplicates` key of an app open: person and calendar day. */
  function DayKey(e: Event): (string, int)
  {
    (e.person, e.day)
  }

  /** The keys that occur in a sequence of events. */
  function DayKeys(s: seq<Event>): set<(string, int)>
  {
    set e | e in s :: DayKey(e)
  }

  /** No two events share a person and day. */
  predicate UniqueDays(s: seq<Event>)
  {
    forall i, j :: 0 <= i < j < |s| ==> DayKey(s[i]) != DayKey(s[j])
  }

  /** The first event in `s` with key `k`, if any. */
  function FirstOn(s: seq<Event>, k: (string, int)): Option<Event>
  {
    if s == [] then None
    else if DayKey(s[0]) == k then Some(s[0])
    else FirstOn(s[1..], k)
  }

  /** `r` is `s` with some elements left out, the rest in their order. */
  predicate IsSubsequence(r: seq<Event>, s: seq<Event>)
  {
    if r == [] then true
    else if s == [] then false
    else if r[0] == s[0] then IsSubsequence(r[1..], s[1..])
    else IsSubsequence(r, s[1..])
  }

  /** `df[df['Actie'] == a]` when `matching`, `df[df['Actie'] != a]` otherwise. */
  function WithAction(s: seq<Event>, a: string, matching: bool): seq<Event>
  {
    if s == [] then []
    else (if (s[0].action == a) == matching then [s[0]] else []) + WithAction(s[1..], a, matching)
  }

  /** The filter keeps exactly the events whose action does (or does not) equal `a`. */
  lemma {:induction false} WithActionMembers(s: seq<Event>, a: string, matching: bool)
    ensures forall e :: e in WithAction(s, a, matching) <==> e in s && (e.action == a) == matching
  {
    if s != [] {
      WithActionMembers(s[1..], a, matching);
      assert s == [s[0]] + s[1..];
    }
  }

  /** `drop_duplicates(subset=['Persoon', 'date'])`, scanning left to right;
      `seen` holds the keys already kept. */
  function DropDuplicatesFrom(s: seq<Event>, seen: set<(string, int)>): seq<Event>
  {
    if s == [] then []
    else if DayKey(s[0]) in seen then DropDuplicatesFrom(s[1..], seen)
    else [s[0]] + DropDuplicatesFrom(s[1..], seen + {DayKey(s[0])})
  }

  /** Keeps the first event of each person and day. */
  function DropDuplicates(s: seq<Event>): seq<Event>
  {
    DropDuplicatesFrom(s, {})
  }

  /** `df_open_app['punten'] = 1`. */
  function AwardOne(s: seq<Event>): (r: seq<Scored>)
    ensures EventsOf(r) == s
    ensures forall x :: x in r ==> x.points == 1
  {
    if s == [] then [] else [Scored(s[0], 1)] + AwardOne(s[1..])
  }

  /** `other_actions['punten'] = other_actions['Actie'].map(POINTS_RULES).fillna(0)`. */
  function AwardByRule(s: seq<Event>): (r: seq<Scored>)
    ensures EventsOf(r) == s
    ensures forall x :: x in r ==> x.points == RulePoints(x.event.action)
  {
    if s == [] then [] else [Scored(s[0], RulePoints(s[0].action))] + AwardByRule(s[1..])
  }

  /** The events of a scored table, without their points. */
  function EventsOf(rows: seq<Scored>): seq<Event>
  {
    if rows == [] then [] else [rows[0].event] + EventsOf(rows[1..])
  }

  /** `df_points`: the deduplicated app opens, then every other event. */
  function Score(log: seq<Event>): seq<Scored>
  {
    AwardOne(DropDuplicates(WithAction(log, OpenApp, true)))
      + AwardByRule(WithAction(log, OpenApp, false))
  }

  /** The points awarded for opening the app to person and day `k`. */
  function OpenAppPointsOn(rows: seq<Scored>, k: (string, int)): int
  {
    if rows == [] then 0
    else
      var here := if rows[0].event.action == OpenApp && DayKey(rows[0].event) == k then rows[0].points else 0;
      here + OpenAppPointsOn(rows[1..], k)
  }

  lemma {:induction false} EventsOfConcat(a: seq<Scored>, b: seq<Scored>)
    ensures EventsOf(a + b) == EventsOf(a) + EventsOf(b)
  {
    if a == [] {
      assert a + b == b;
    } else {
      assert (a + b)[0] == a[0];
      assert (a + b)[1..] == a[1..] + b;
      EventsOfConcat(a[1..], b);
    }
  }

  lemma {:induction false} OpenAppPointsOnConcat(a: seq<Scored>, b: seq<Scored>, k: (string, int))
    ensures OpenAppPointsOn(a + b, k) == OpenAppPointsOn(a, k) + OpenAppPointsOn(b, k)
  {
    if a == [] {
      assert a + b == b;
    } else {
      assert (a + b)[0] == a[0];
      assert (a + b)[1..] == a[1..] + b;
      OpenAppPointsOnConcat(a[1..], b, k);
    }
  }

  /** What deduplication keeps when the keys in `seen` are already taken: one
      event per remaining key, the first of its key, in input order. */
  lemma {:induction false} DropDuplicatesFromSpec(s: seq<Event>, seen: set<(string, int)>)
    ensures DayKeys(DropDuplicatesFrom(s, seen)) == DayKeys(s) - seen
    ensures UniqueDays(DropDuplicatesFrom(s, seen))
    ensures forall e :: e in DropDuplicatesFrom(s, seen) ==> FirstOn(s, DayKey(e)) == Some(e)
    ensures IsSubsequence(DropDuplicatesFrom(s, seen), s)
  {
    if s != [] {
      var k := DayKey(s[0]);
      if k in seen {
        DropDuplicatesFromSpec(s[1..], seen);
        var r := DropDuplicatesFrom(s[1..], seen);
        assert DropDuplicatesFrom(s, seen) == r;
        assert DayKeys(s) == DayKeys(s[1..]) + {k} by {
          assert s == [s[0]] + s[1..];
        }
        SubsequenceSkip(r, s);
      } else {
        var seen' := seen + {k};
        DropDuplicatesFromSpec(s[1..], seen');
        var r := DropDuplicatesFrom(s[1..], seen');
        assert DropDuplicatesFrom(s, seen) == [s[0]] + r;
        assert DayKeys(s) == DayKeys(s[1..]) + {k} by {
          assert s == [s[0]] + s[1..];
        }
        assert DayKeys([s[0]] + r) == DayKeys(r) + {k};
        forall e | e in r ensures DayKey(e) != k {
          assert DayKey(e) in DayKeys(r);
        }
        forall i, j | 0 <= i < j < |[s[0]] + r|
          ensures DayKey(([s[0]] + r)[i]) != DayKey(([s[0]] + r)[j])
        {
          if i == 0 {
            assert ([s[0]] + r)[j] == r[j - 1];
            assert r[j - 1] in r;
          } else {
            assert ([s[0]] + r)[i] == r[i - 1] && ([s[0]] + r)[j] == r[j - 1];
          }
        }
        assert ([s[0]] + r)[1..] == r;
      }
    }
  }

  lemma {:induction false} SubsequenceSkip(r: seq<Event>, s: seq<Event>)
    requires s != [] && IsSubsequence(r, s[1..])
    ensures IsSubsequence(r, s)
    decreases |s|, 0
  {
    if r != [] && r[0] == s[0] {
      SubsequenceTail(r, s[1..]);
    }
  }

  lemma {:induction false} SubsequenceTail(r: seq<Event>, s: seq<Event>)
    requires r != [] && IsSubsequence(r, s)
    ensures IsSubsequence(r[1..], s)
    decreases |s|, 1
  {
    if s != [] {
      if r[0] == s[0] {
        SubsequenceSkip(r[1..], s);
      } else {
        SubsequenceTail(r, s[1..]);
        SubsequenceSkip(r[1..], s);
      }
    }
  }

  /** Deduplicating app opens (app.py:55): every person and day that has an app open
      keeps exactly one, the first in input order, and the kept events stay in
      input order. */
  lemma DropDuplicatesSpec(s: seq<Event>)
    ensures DayKeys(DropDuplicates(s)) == DayKeys(s)
    ensures UniqueDays(DropDuplicates(s))
    ensures forall e :: e in DropDuplicates(s) ==> FirstOn(s, DayKey(e)) == Some(e)
    ensures IsSubsequence(DropDuplicates(s), s)
  {
    DropDuplicatesFromSpec(s, {});
  }

  /** The scored table is the deduplicated app opens followed by the other events,
      untouched and in order; app opens earn 1 point, every other event its
      table entry or 0. With no app opens it is the log itself. */
  lemma ScoreSpec(log: seq<Event>)
    ensures EventsOf(Score(log)) == DropDuplicates(WithAction(log, OpenApp, true)) + WithAction(log, OpenApp, false)
    ensures forall r :: r in Score(log) ==>
              r.points == if r.event.action == OpenApp then 1 else RulePoints(r.event.action)
    ensures WithAction(log, OpenApp, true) == [] ==> EventsOf(Score(log)) == log
  {
    var opens := DropDuplicates(WithAction(log, OpenApp, true));
    var others := WithAction(log, OpenApp, false);
    WithActionMembers(log, OpenApp, true);
    WithActionMembers(log, OpenApp, false);
    EventsOfConcat(AwardOne(opens), AwardByRule(others));
    DropDuplicatesSpec(WithAction(log, OpenApp, true));
    forall r | r in AwardOne(opens) ensures r.event.action == OpenApp {
      EventInEventsOf(AwardOne(opens), r);
      assert r.event in opens;
      assert DayKey(r.event) in DayKeys(opens);
      SubsequenceMember(opens, WithAction(log, OpenApp, true), r.event);
    }
    forall r | r in AwardByRule(others) ensures r.event.action != OpenApp {
      EventInEventsOf(AwardByRule(others), r);
    }
    if WithAction(log, OpenApp, true) == [] {
      WithoutActionAll(log, OpenApp);
      assert DropDuplicates([]) == [];
    }
  }

  lemma {:induction false} EventInEventsOf(rows: seq<Scored>, r: Scored)
    requires r in rows
    ensures r.event in EventsOf(rows)
  {
    if rows[0] != r {
      EventInEventsOf(rows[1..], r);
    }
  }

  lemma {:induction false} SubsequenceMember(r: seq<Event>, s: seq<Event>, e: Event)
    requires IsSubsequence(r, s) && e in r
    ensures e in s
    decreases |s|
  {
    if r[0] == s[0] {
      if e != r[0] {
        SubsequenceMember(r[1..], s[1..], e);
      }
    } else {
      SubsequenceMember(r, s[1..], e);
    }
  }

  lemma {:induction false} WithoutActionAll(s: seq<Event>, a: string)
    requires forall e :: e in s ==> e.action != a
    ensures WithAction(s, a, false) == s
  {
    if s != [] {
      assert s[0] in s;
      assert forall e :: e in s[1..] ==> e in s;
      WithoutActionAll(s[1..], a);
      assert [s[0]] + s[1..] == s;
    }
  }

  lemma {:induction false} AwardOnePointsOn(s: seq<Event>, k: (string, int))
    requires UniqueDays(s)
    requires forall e :: e in s ==> e.action == OpenApp
    ensures OpenAppPointsOn(AwardOne(s), k) == if k in DayKeys(s) then 1 else 0
  {
    if s != [] {
      assert UniqueDays(s[1..]) by {
        forall i, j | 0 <= i < j < |s[1..]| ensures DayKey(s[1..][i]) != DayKey(s[1..][j]) {
          assert s[1..][i] == s[i + 1] && s[1..][j] == s[j + 1];
        }
      }
      AwardOnePointsOn(s[1..], k);
      assert AwardOne(s)[1..] == AwardOne(s[1..]);
      assert DayKeys(s) == DayKeys(s[1..]) + {DayKey(s[0])} by {
        assert s == [s[0]] + s[1..];
      }
      if DayKey(s[0]) == k {
        assert k !in DayKeys(s[1..]);
      }
    }
  }

  lemma {:induction false} AwardByRuleNoOpens(s: seq<Event>, k: (string, int))
    requires forall e :: e in s ==> e.action != OpenApp
    ensures OpenAppPointsOn(AwardByRule(s), k) == 0
  {
    if s != [] {
      assert AwardByRule(s)[1..] == AwardByRule(s[1..]);
      AwardByRuleNoOpens(s[1..], k);
    }
  }

  /** However many times a person opens the app on one day, and in whatever
      order, that day is worth exactly one point for opening the app; a day with
      no app open is worth none. */
  lemma OneOpenAppPointPerDay(log: seq<Event>, person: string, day: int)
    ensures OpenAppPointsOn(Score(log), (person, day)) ==
            if (person, day) in DayKeys(WithAction(log, OpenApp, true)) then 1 else 0
  {
    var opens := WithAction(log, OpenApp, true);
    var kept := DropDuplicates(opens);
    WithActionMembers(log, OpenApp, true);
    WithActionMembers(log, OpenApp, false);
    DropDuplicatesSpec(opens);
    forall e | e in kept ensures e.action == OpenApp {
      SubsequenceMember(kept, opens, e);
    }
    OpenAppPointsOnConcat(AwardOne(kept), AwardByRule(WithAction(log, OpenApp, false)), (person, day));
    AwardOnePointsOn(kept, (person, day));
    AwardByRuleNoOpens(WithAction(log, OpenApp, false), (person, day));
  }

  lemma {:induction false} WithActionConcat(a: seq<Event>, b: seq<Event>, x: string, matching: bool)
    ensures WithAction(a + b, x, matching) == WithAction(a, x, matching) + WithAction(b, x, matching)
  {
    if a == [] {
      assert a + b == b;
    } else {
      assert (a + b)[0] == a[0];
      assert (a + b)[1..] == a[1..] + b;
      WithActionConcat(a[1..], b, x, matching);
    }
  }

  lemma {:induction false} AwardByRuleConcat(a: seq<Event>, b: seq<Event>)
    ensures AwardByRule(a + b) == AwardByRule(a) + AwardByRule(b)
  {
    if a == [] {
      assert a + b == b;
    } else {
      assert (a + b)[0] == a[0];
      assert (a + b)[1..] == a[1..] + b;
      AwardByRuleConcat(a[1..], b);
    }
  }

  /** One more event that is not an app open adds exactly its table value to the
      points scored, and it appears among the scored events (app.py:61-65). */
  lemma OneMoreEvent(log: seq<Event>, e: Event)
    requires e.action != OpenApp
    ensures Points(Score(log + [e])) == Points(Score(log)) + RulePoints(e.action)
    ensures e in EventsOf(Score(log + [e]))
  {
    var opens := AwardOne(DropDuplicates(WithAction(log, OpenApp, true)));
    var others := WithAction(log, OpenApp, false);
    WithActionConcat(log, [e], OpenApp, true);
    WithActionConcat(log, [e], OpenApp, false);
    assert WithAction([e], OpenApp, true) == [];
    assert WithAction([e], OpenApp, false) == [e];
    assert WithAction(log + [e], OpenApp, true) == WithAction(log, OpenApp, true);
    AwardByRuleConcat(others, [e]);
    assert AwardByRule([e]) == [Scored(e, RulePoints(e.action))];
    PointsConcat(opens, AwardByRule(others));
    PointsConcat(opens, AwardByRule(others) + [Scored(e, RulePoints(e.action))]);
    PointsConcat(AwardByRule(others), [Scored(e, RulePoints(e.action))]);
    assert Score(log + [e]) == opens + (AwardByRule(others) + [Scored(e, RulePoints(e.action))]);
    var r := Scored(e, RulePoints(e.action));
    assert r in Score(log + [e]);
    EventInEventsOf(Score(log + [e]), r);
  }

  /** An action the points table does not list adds nothing to the points scored,
      yet its event is still in the scored table (`fillna(0)`, app.py:62). */
  lemma UnknownActionScoresNothing(log: seq<Event>, e: Event)
    requires e.action !in PointsRules && e.action != OpenApp
    ensures Points(Score(log + [e])) == Points(Score(log))
    ensures e in EventsOf(Score(log + [e]))
  {
    OneMoreEvent(log, e);
  }
}
