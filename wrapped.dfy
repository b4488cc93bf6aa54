/** The personal "Wrapped": per-person counts of actions, the longest app streak,
    and the share of all activities a person viewed or attended. */
module Wrapped {
  import opened Events
  import opened Aggregation
  import opened Streak

  /** `count / outOf * 100` percent, kept as the two integers. */
  datatype Share = Share(count: nat, outOf: nat)

  /** What Python's `/` on two counts gives: a quotient, or a raised ZeroDivisionError. */
  datatype Quotient = Quotient(share: Share) | DivisionByZero

  /** Everything the summary reports about one person. */
  datatype Summary = Summary(
    maxStreak: nat,
    profileClicks: nat,
    companyClicks: Table,
    eventsViewed: nat,
    eventsCheckedIn: nat,
    eventTotal: nat,
    viewedShare: Option<Share>,
    visitedShare: Option<Share>,
    calls: nat,
    likes: nat,
    likesRemoved: nat,
    bulletinAdded: nat,
    messages: nat)

  /** "Naam niet gevonden in logbestand", or the person's summary. */
  datatype Lookup = NotFound | Found(summary: Summary)

  /** `user_df`: the scored rows of one person. */
  function UserRows(rows: seq<Scored>, name: string): seq<Scored>
  {
    Where(rows, Person, {name})
  }

  /** `user_df[user_df['Actie'].isin(actions)].shape[0]`. */
  function ActionCount(rows: seq<Scored>, name: string, actions: set<string>): nat
  {
    |Where(UserRows(rows, name), Action, actions)|
  }

  /** The number of rows of person `name` whose action is one of `actions`, counted directly. */
  function CountOf(rows: seq<Scored>, name: string, actions: set<string>): nat
  {
    if rows == [] then 0
    else
      var here := if rows[0].event.person == name && rows[0].event.action in actions then 1 else 0;
      here + CountOf(rows[1..], name, actions)
  }

  /** The `Datum` days of a table, in order. */
  function Days(rows: seq<Scored>): (ds: seq<int>)
    ensures |ds| == |rows|
    ensures forall i :: 0 <= i < |rows| ==> ds[i] == rows[i].event.day
  {
    if rows == [] then [] else [rows[0].event.day] + Days(rows[1..])
  }

  /** `app_days`: the distinct days of a person's app opens, ascending. */
  function OpenAppDays(user: seq<Scored>): seq<int>
  {
    SortedDistinct(Days(Where(user, Action, {OpenApp})))
  }

  /** `nr_events`: how many distinct activities were viewed ("event detail") by anyone. */
  function EventTotal(rows: seq<Scored>): nat
  {
    |FieldValues(Where(rows, Action, {"event detail"}), Detail)|
  }

  /** `company_clicks['Details'].value_counts()`: the companies a person viewed, most viewed first. */
  function CompanyClicks(rows: seq<Scored>, name: string): Table
  {
    GroupBy(Where(UserRows(rows, name), Action, {"Company profile click"}), Detail, Size)
  }

  /** `count / outOf * 100` as app.py:155-156 write it: it raises when `outOf` is 0. */
  function PercentageAsWritten(count: nat, outOf: nat): Quotient
  {
    if outOf == 0 then DivisionByZero else Quotient(Share(count, outOf))
  }

  /** The percentage with the missing denominator reported as "no data" instead. */
  function Percentage(count: nat, outOf: nat): Option<Share>
  {
    if outOf == 0 then None else Some(Share(count, outOf))
  }

  /** The summary of one person (app.py:111-184); app opens decide the streak
      (app.py:119-132), every counter counts that person's rows of its actions. */
  method PersonalWrapped(rows: seq<Scored>, name: string) returns (r: Lookup)
    ensures r.NotFound? <==> UserRows(rows, name) == []
    ensures r.Found? ==>
              var s := r.summary;
              && IsLongestRun(OpenAppDays(UserRows(rows, name)), s.maxStreak)
              && (s.maxStreak == 0 <==> ActionCount(rows, name, {OpenApp}) == 0)
              && s.profileClicks == ActionCount(rows, name, {"User profile click"})
              && s.companyClicks == CompanyClicks(rows, name)
              && s.eventsViewed == ActionCount(rows, name, {"event detail"})
              && s.eventsCheckedIn == ActionCount(rows, name, {"event-checkin"})
              && s.eventTotal == EventTotal(rows)
              && s.viewedShare == Percentage(s.eventsViewed, s.eventTotal)
              && s.visitedShare == Percentage(s.eventsCheckedIn, s.eventTotal)
              && s.calls == ActionCount(rows, name, {"call", "call mobile"})
              && s.likes == ActionCount(rows, name, {"news_item like"})
              && s.likesRemoved == ActionCount(rows, name, {"news_item like removed"})
              && s.bulletinAdded == ActionCount(rows, name, {"bulletin board item added"})
              && s.messages == ActionCount(rows, name, {"Message"})
  {
    var user := UserRows(rows, name);
    if user == [] {
      return NotFound;
    }
    var opens := Where(user, Action, {OpenApp});
    var maxStreak: nat := 0;
    if opens != [] {
      maxStreak := LongestStreak(OpenAppDays(user));
      assert Days(opens)[0] in Days(opens);
    } else {
      assert OpenAppDays(user) == [];
      assert IsLongestRun([], 0);
    }
    var viewed := |Where(user, Action, {"event detail"})|;
    var visited := |Where(user, Action, {"event-checkin"})|;
    var total := EventTotal(rows);
    r := Found(Summary(
      maxStreak := maxStreak,
      profileClicks := |Where(user, Action, {"User profile click"})|,
      companyClicks := CompanyClicks(rows, name),
      eventsViewed := viewed,
      eventsCheckedIn := visited,
      eventTotal := total,
      viewedShare := Percentage(viewed, total),
      visitedShare := Percentage(visited, total),
      calls := |Where(user, Action, {"call", "call mobile"})|,
      likes := |Where(user, Action, {"news_item like"})|,
      likesRemoved := |Where(user, Action, {"news_item like removed"})|,
      bulletinAdded := |Where(user, Action, {"bulletin board item added"})|,
      messages := |Where(user, Action, {"Message"})|));
  }

  /** A person's count of some actions is the number of their rows with one of
      those actions (app.py:111, 138, 152-153, 168, 172-184). */
  lemma {:induction false} ActionCountIsCount(rows: seq<Scored>, name: string, actions: set<string>)
    ensures ActionCount(rows, name, actions) == CountOf(rows, name, actions)
  {
    if rows != [] {
      ActionCountIsCount(rows[1..], name, actions);
      var u := UserRows(rows[1..], name);
      if rows[0].event.person == name {
        assert UserRows(rows, name) == [rows[0]] + u;
        WhereConcat([rows[0]], u, Action, actions);
        assert Where([rows[0]], Action, actions) == if rows[0].event.action in actions then [rows[0]] else [];
      } else {
        assert UserRows(rows, name) == u;
      }
    }
  }

  /** Calls count both "call" and "call mobile" (app.py:168). */
  lemma CallsCountBoth(rows: seq<Scored>, name: string)
    ensures ActionCount(rows, name, {"call", "call mobile"}) ==
            ActionCount(rows, name, {"call"}) + ActionCount(rows, name, {"call mobile"})
  {
    assert {"call", "call mobile"} == {"call"} + {"call mobile"};
    WhereUnionCount(UserRows(rows, name), Action, {"call"}, {"call mobile"});
  }

  /** A name that occurs in no row finds no rows, and a name that occurs finds some. */
  lemma UnknownPerson(rows: seq<Scored>, name: string)
    ensures UserRows(rows, name) == [] <==> name !in FieldValues(rows, Person)
  {
    if UserRows(rows, name) != [] {
      var x := UserRows(rows, name)[0];
      assert x in UserRows(rows, name);
      assert x in rows && Field(x.event, Person).value in FieldValues(rows, Person);
    }
    if name in FieldValues(rows, Person) {
      var x :| x in rows && Field(x.event, Person).Some? && Field(x.event, Person).value == name;
      assert x in UserRows(rows, name);
    }
  }

  /** A person's count summed over the rows of a table of persons. */
  function SumCounts(t: Table, rows: seq<Scored>, actions: set<string>): int
  {
    if t == [] then 0 else CountOf(rows, t[0].0, actions) + SumCounts(t[1..], rows, actions)
  }

  /** How many entries of a table carry key `k`. */
  function Occurrences(t: Table, k: string): nat
  {
    if t == [] then 0 else (if t[0].0 == k then 1 else 0) + Occurrences(t[1..], k)
  }

  lemma {:induction false} OccursOnce(t: Table, k: string)
    requires DistinctKeys(t)
    ensures Occurrences(t, k) == if k in Keys(t) then 1 else 0
  {
    if t != [] {
      OccursOnce(t[1..], k);
    }
  }

  lemma {:induction false} SumCountsStep(t: Table, rows: seq<Scored>, actions: set<string>)
    requires rows != []
    ensures SumCounts(t, rows, actions) ==
            (if rows[0].event.action in actions then Occurrences(t, rows[0].event.person) else 0)
              + SumCounts(t, rows[1..], actions)
  {
    if t != [] {
      SumCountsStep(t[1..], rows, actions);
    }
  }

  lemma {:induction false} SumCountsCover(t: Table, rows: seq<Scored>, actions: set<string>)
    requires DistinctKeys(t)
    requires FieldValues(rows, Person) <= Keys(t)
    ensures SumCounts(t, rows, actions) == |Where(rows, Action, actions)|
  {
    if rows == [] {
      SumCountsNone(t, actions);
    } else {
      assert rows == [rows[0]] + rows[1..];
      assert FieldValues(rows[1..], Person) <= FieldValues(rows, Person);
      assert rows[0].event.person in FieldValues(rows, Person);
      SumCountsCover(t, rows[1..], actions);
      SumCountsStep(t, rows, actions);
      OccursOnce(t, rows[0].event.person);
    }
  }

  lemma {:induction false} SumCountsNone(t: Table, actions: set<string>)
    ensures SumCounts(t, [], actions) == 0
  {
    if t != [] {
      SumCountsNone(t[1..], actions);
    }
  }

  /** Summed over every person of the points table, a person's count of some
      actions is the number of rows with those actions in the whole table. */
  lemma CountsAddUp(rows: seq<Scored>, actions: set<string>)
    ensures SumCounts(PersonPoints(rows), rows, actions) == |Where(rows, Action, actions)|
  {
    PersonPointsSpec(rows);
    SumCountsCover(PersonPoints(rows), rows, actions);
  }

  /** The division on app.py:155-156 raises for every person who is found,
      whenever nobody ever viewed an activity. */
  lemma DivisionByZeroWithoutEventDetails(rows: seq<Scored>, name: string)
    requires UserRows(rows, name) != []
    requires forall r :: r in rows ==> r.event.action != "event detail"
    ensures EventTotal(rows) == 0
    ensures PercentageAsWritten(ActionCount(rows, name, {"event detail"}), EventTotal(rows)) == DivisionByZero
    ensures PercentageAsWritten(ActionCount(rows, name, {"event-checkin"}), EventTotal(rows)) == DivisionByZero
  {
    WhereNone(rows, Action, {"event detail"});
  }

  /** Such logs exist: one person who only opened the app once. */
  lemma DivisionByZeroExample()
    ensures var rows := [Scored(Event("Anna", OpenApp, 1, "", None), 1)];
            UserRows(rows, "Anna") != [] && EventTotal(rows) == 0
  {
    var rows := [Scored(Event("Anna", OpenApp, 1, "", None), 1)];
    assert rows[0] in UserRows(rows, "Anna");
    DivisionByZeroWithoutEventDetails(rows, "Anna");
  }

  /** The corrected percentage never fails: it reports "no data" exactly where the
      division raises and agrees with the division everywhere else. */
  lemma PercentageCorrected(count: nat, outOf: nat)
    ensures Percentage(count, outOf).None? <==> PercentageAsWritten(count, outOf).DivisionByZero?
    ensures PercentageAsWritten(count, outOf).Quotient? ==>
              Percentage(count, outOf) == Some(PercentageAsWritten(count, outOf).share)
    ensures Percentage(count, outOf).Some? ==> Percentage(count, outOf).value.outOf > 0
  {
  }
}
