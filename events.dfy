/** The activity log as the scoring engine sees it once the spreadsheet is parsed,
    and the row selections (`df[df[col].isin(values)]`) every later stage uses. */
module Events {

  datatype Option<T> = None | Some(value: T)

  /** One row of the log: `Persoon`, `Actie`, the calendar date of `Datum` as a
      day number, `Details`, and `Bedrijven`, which a row may lack. */
  datatype Event = Event(person: string, action: string, day: int, detail: string, company: Option<string>)

  /** A row of the scored table `df_points`: the event with its `punten`. */
  datatype Scored = Scored(event: Event, points: int)

  /** The columns the engine selects on and groups by. */
  datatype Column = Person | Action | Detail | Company

  const OpenApp: string := "open app"

  /** The value of column `c` in a row; only the company can be missing. */
  function Field(e: Event, c: Column): Option<string>
  {
    match c
    case Person => Some(e.person)
    case Action => Some(e.action)
    case Detail => Some(e.detail)
    case Company => e.company
  }

  /** Row `r` has one of `vs` in column `c` (a missing value matches nothing). */
  predicate Matches(r: Scored, c: Column, vs: set<string>)
  {
    Field(r.event, c).Some? && Field(r.event, c).value in vs
  }

  /** `df[df[c].isin(vs)]`: the rows that match, in their original order. */
  function Where(rows: seq<Scored>, c: Column, vs: set<string>): (r: seq<Scored>)
    ensures |r| <= |rows|
    ensures forall x :: x in r <==> x in rows && Matches(x, c, vs)
  {
    if rows == [] then []
    else (if Matches(rows[0], c, vs) then [rows[0]] else []) + Where(rows[1..], c, vs)
  }

  /** The sum of `punten` over a table. */
  function Points(rows: seq<Scored>): int
  {
    if rows == [] then 0 else rows[0].points + Points(rows[1..])
  }

  /** The values column `c` takes in a table (missing values left out). */
  function FieldValues(rows: seq<Scored>, c: Column): set<string>
  {
    set r | r in rows && Field(r.event, c).Some? :: Field(r.event, c).value
  }

  /** Selecting rows commutes with concatenating tables. */
  lemma {:induction false} WhereConcat(a: seq<Scored>, b: seq<Scored>, c: Column, vs: set<string>)
    ensures Where(a + b, c, vs) == Where(a, c, vs) + Where(b, c, vs)
  {
    if a == [] {
      assert a + b == b;
    } else {
      assert (a + b)[0] == a[0];
      assert (a + b)[1..] == a[1..] + b;
      WhereConcat(a[1..], b, c, vs);
    }
  }

  /** Points add up over a concatenation of tables. */
  lemma {:induction false} PointsConcat(a: seq<Scored>, b: seq<Scored>)
    ensures Points(a + b) == Points(a) + Points(b)
  {
    if a == [] {
      assert a + b == b;
    } else {
      assert (a + b)[0] == a[0];
      assert (a + b)[1..] == a[1..] + b;
      PointsConcat(a[1..], b);
    }
  }

  /** `isin` over a union of disjoint value sets counts each part once. */
  lemma {:induction false} WhereUnionCount(rows: seq<Scored>, c: Column, vs: set<string>, ws: set<string>)
    requires vs !! ws
    ensures |Where(rows, c, vs + ws)| == |Where(rows, c, vs)| + |Where(rows, c, ws)|
  {
    if rows != [] {
      WhereUnionCount(rows[1..], c, vs, ws);
    }
  }

  /** Selecting on every value a column takes keeps exactly the rows that have one. */
  lemma {:induction false} WhereAllValues(rows: seq<Scored>, c: Column, vs: set<string>)
    requires forall r :: r in rows ==> Field(r.event, c).Some? && Field(r.event, c).value in vs
    ensures Where(rows, c, vs) == rows
  {
    if rows != [] {
      assert rows[0] in rows;
      assert forall r :: r in rows[1..] ==> r in rows;
      WhereAllValues(rows[1..], c, vs);
      assert [rows[0]] + rows[1..] == rows;
    }
  }

  /** No row matching means nothing is selected. */
  lemma {:induction false} WhereNone(rows: seq<Scored>, c: Column, vs: set<string>)
    requires forall r :: r in rows ==> !Matches(r, c, vs)
    ensures Where(rows, c, vs) == []
  {
    if rows != [] {
      assert rows[0] in rows;
      assert forall r :: r in rows[1..] ==> r in rows;
      WhereNone(rows[1..], c, vs);
    }
  }
}
