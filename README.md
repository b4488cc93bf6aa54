# Employee points and personal "Wrapped": a Dafny model

The application reads an activity log: one row per action an employee took in
the company app, with the person (`Persoon`), the action (`Actie`), the
timestamp (`Datum`), a free-text detail (`Details`) and, optionally, a company
(`Bedrijven`). This project models the scoring engine in `app.py`:

- **Scoring.** Every row earns points, except a repeated app open by the same
  person on the same day, which is dropped. Opening the app earns 1 point per
  person per calendar day, however often it happens that day. Every other action earns
  what the points table `POINTS_RULES` lists for it, and an unlisted action
  earns 0.
- **Leaderboards.** Points are summed per person and per company, with the
  largest totals first.
- **Top lists.** For one action, the most frequent `Details` values are counted,
  most frequent first, and the first `n` are shown.
- **Personal Wrapped.** For one person, the model computes:
  - the longest run of consecutive days on which they opened the app;
  - counters for profile clicks, companies viewed, activities viewed and
    visited, calls, likes, likes removed, bulletin items added and messages;
  - the share of all activities they viewed or visited.

  A name that is not in the log gives "not found".

The log is modelled after it has been read from the spreadsheet:
- a row is an `Events.Event`;
- the date is an integer day number;
- a missing company is `None`.

Row selections are first-order recursive filters. Two filters exist:
- `Scoring.WithAction` selects unscored events by whether their action is
  "open app" (app.py:52, 61);
- `Events.Where` selects scored rows whose column value is one of a set of values
  (`df[df[c].isin(vs)]`, app.py:91-184).

The model is organised as follows:

- `Events`, `Rules` and `Scoring` build the scored table `df_points`.
- `Aggregation` models `groupby(...).sum()` and `groupby(...).size()` followed by
  a descending sort. It is used for the person and company tables, the top lists
  and `value_counts`.
- `TopN` models `top_n_by_action`.
- `Streak` models the streak loop as an imperative method with loop invariants.
- `Wrapped` models the personal summary.
- `Scenario` follows one small log through scoring and the person table.

## Model

| member | source | states |
|---|---|---|
| Events.Where | app.py:91-184 | the selected rows are exactly the input rows whose column value is one of the values, and there are no more of them than input rows; these are the selections at app.py:91, 111, 120, 138, 143, 152-154, 168 and 172-184 |
| Rules.RulePointsBounds | app.py:10-34 | every action, listed or not, scores between -2 and 5 points |
| Rules.RulePointsExamples | app.py:15-33 | logging in scores 0, removing a like -2, a check-in 5, a like 2, an unknown action 0 |
| Scoring.WithActionMembers | app.py:52-61 | the `Actie == 'open app'` and `Actie != 'open app'` selections keep exactly the events with and without that action |
| Scoring.AwardOne | app.py:56 | the deduplicated app opens keep their events in order, and each one earns exactly 1 point |
| Scoring.AwardByRule | app.py:61-62 | the other events keep their order, and each one earns its points-table value, or 0 when unlisted |
| Scoring.DropDuplicatesSpec | app.py:55 | deduplication keeps every (person, day) key and no key twice; each kept event is the first one of its key in the log; the kept events are a subsequence of the input |
| Scoring.ScoreSpec | app.py:52-65 | the scored table holds the deduplicated app opens followed by every other event, unchanged and in order; an app open earns 1 point and any other event its table value or 0; with no app opens the scored table holds the log itself |
| Scoring.OneMoreEvent | app.py:61-65 | appending an event that is not an app open adds exactly its points-table value (0 when unlisted) to the points scored, and the event appears in the scored table |
| Scoring.UnknownActionScoresNothing | app.py:62 | an action the points table does not list adds nothing to the points scored, yet its event is still in the scored table |
| Scoring.OneOpenAppPointPerDay | app.py:50-56 | for every person and day, app opens earn exactly 1 point when that person opened the app that day, and otherwise 0 |
| Aggregation.Insert | app.py:76 | inserting an entry gives the old entries plus that one, as a multiset |
| Aggregation.InsertSorted | app.py:76 | inserting into a non-increasing table keeps it non-increasing |
| Aggregation.SortDesc | app.py:76 | sorting gives a permutation of the table |
| Aggregation.GroupSumSpec | app.py:69-70 | the grouped sum has one entry per key, holding the sum of the values for that key, and its total equals the total of the input |
| Aggregation.SortDescSpec | app.py:76 | the sorted table is non-increasing in its values, keeps the same keys and total, and keeps distinct keys distinct |
| Aggregation.GroupBySpec | app.py:68-82 | the grouped table has one entry per value present in the column; each entry holds the points (for a sum) or the number of rows (for a size) with that value; the entries are non-increasing; the total covers exactly the rows that have a value; the size form is the count used by `top_n_by_action` and `value_counts` |
| Aggregation.PersonPointsSpec | app.py:68-76 | the person table has one entry per person, holding that person's points, largest first; all entries add up to every point scored |
| Aggregation.CompanyPointsSpec | app.py:80-83 | there is no company table exactly when the column is absent; otherwise it has one entry per company named, holding that company's points, largest first, and adding up to the points of rows that name a company |
| TopN.Head | app.py:98 | `head(n)` is a prefix with `min(n, len)` entries for `n >= 0`; for negative `n` it drops the last `-n` entries |
| TopN.TopNSpec | app.py:90-98 | "no data" exactly when no row has the action; otherwise at most `n` entries (for `n >= 0`), one per detail value; each entry counts that detail's rows of the action and lies between 1 and the number of those rows; counts are non-increasing |
| TopN.TopNMostFrequent | app.py:95-98 | the list keeps `min(n, number of details)` entries for `n >= 0`, and every detail of the action left out occurs no more often than any detail kept |
| TopN.PrefixDominates | app.py:95-98 | in a non-increasing table, an entry outside a prefix is no larger than any entry inside it |
| TopN.TopNComplete | app.py:95-98 | when `n` is at least the number of distinct details, the list names every detail of the action |
| Streak.SortedDistinct | app.py:120 | the app-open days become strictly increasing and hold exactly the same days |
| Streak.InsertDay | app.py:120 | adding one day keeps the sequence strictly increasing and adds exactly that day |
| Streak.LongestStreak | app.py:121-130 | the result is the length of the longest stretch where each day is one after the previous one; it is 0 exactly for no days, and otherwise between 1 and the number of days |
| Streak.RunStartsAtBoundary | app.py:125-128 | a run that ends where a maximal run ends is no longer than that run |
| Streak.RunIsConsecutive | app.py:120-126 | on increasing days, a run is exactly a stretch whose last day is as many days after its first as it has further entries |
| Streak.StreakExamples | app.py:119-132 | days 1, 2, 3, 5 give a streak of 3; no days give 0; one day gives 1; days 1 and 10 give 1 |
| Wrapped.Days | app.py:120 | the dates of a table: one per row, each the day of that row, in order |
| Wrapped.PersonalWrapped | app.py:110-184 | "not found" exactly when the person has no row. Otherwise: the streak is the longest run of their distinct app-open days, 0 exactly when they never opened the app; every counter is the number of their rows with its actions; the activity total is the number of distinct activities anyone viewed; the shares are `count / total`, or none when the total is 0 |
| Wrapped.ActionCountIsCount | app.py:138-184 | each counter equals a direct count of the person's rows whose action is one of its actions |
| Wrapped.CallsCountBoth | app.py:168 | the calls counter is the sum of the "call" and "call mobile" counts |
| Wrapped.UnknownPerson | app.py:111-114 | a name finds no rows exactly when it is no person in the log |
| Wrapped.OccursOnce | app.py:68-70 | in a table with distinct keys, a key occurs once if present and never otherwise |
| Wrapped.SumCountsCover | app.py:111 | summed over a table that names every person once, the persons' counts of some actions add up to the number of rows with those actions |
| Wrapped.CountsAddUp | app.py:68-76 | summed over every person in the points table, the personal counts of some actions equal the count of those actions in the whole table |
| Wrapped.DivisionByZeroWithoutEventDetails | app.py:154-156 | for every log with no "event detail" row and every person found in it, the activity total is 0, so both divisions as written fail |
| Wrapped.DivisionByZeroExample | app.py:154-156 | such a log exists: one person who opened the app once |
| Wrapped.PercentageCorrected | app.py:155-156 | the corrected share is "no data" exactly where the division fails, and equals the quotient everywhere else |
| Scenario.ScoreTwoDayLog | app.py:52-65 | a log of two app opens on one day, a check-in, an app open on another day and a like scores 1, 1, 5 and 2, with the second open dropped |
| Scenario.OnePerson | app.py:68-76 | a non-empty log of one person gives one table entry holding all the points |
| Scenario.ScoresNine | app.py:50-76 | that log gives its person exactly 9 points |

## Left out

- The Streamlit user interface is not modelled: page layout, headers, text input, the file uploader and every message shown. The model returns the values those messages display, and for a missing name it returns `Wrapped.Lookup.NotFound`.
- Reading the Excel file (`pd.read_excel`) and parsing dates (`pd.to_datetime`, `.dt.date`) are not modelled: a row's date is an integer day number, and date differences are differences of those numbers.
- The check at app.py:46 is not modelled: every row here has a day. In the source, a log without a `Datum` column fails at app.py:54 only when it has an "open app" row; without one, no line reads the column.
- Missing person, action or detail values are not modelled: only the company may be missing, as `None`, and grouping leaves those rows out just as pandas drops missing keys.
- Whether the `Bedrijven` column exists is a boolean parameter of `Aggregation.CompanyPoints`.
- Floating-point percentages and their rounding to whole percent are not modelled: `Wrapped.Share` keeps the count and the total as two integers.
- The order of entries with equal totals is not modelled: the sort is proved non-increasing and a permutation, but pandas' order among ties is not fixed.
- The index of `df_points` (`ignore_index=True`) is not modelled: tables are sequences.
- `top_n_by_action`'s `col_detail` and `title` arguments are not modelled: every call uses the `Details` column, and the title only affects display.
- `Streak.LongestStreak`: for the first day the source tests whether `prev_day` is truthy. A date object is always truthy, so the model treats that test as "is there a previous day".
- Scoring awards 1 point per app-open day, as app.py:56 does. The `"open app": 2` entry in the points table is kept but never used for app opens.
- The statement at app.py:68-76 is missing its closing parenthesis, so the file as written does not parse. The model takes the evident intent, a sorted person table.
- Wrapped.PersonalWrapped: uses the corrected share. When no activity was ever viewed (`nr_events == 0`), the source raises at app.py:155 for every found person and shows none of the later counters. The model returns `Found` with both shares `None` and every counter filled in.

## Findings

| source | as written | input that shows it | evidently intended | confidence | as-written member | corrected member |
|---|---|---|---|---|---|---|
| app.py:154-156 | both percentages divide by `nr_events`, the number of distinct viewed activities, before checking that it is non-zero | any person found in a log with no "event detail" row, e.g. one person who only opened the app once | report the share only when there were activities to view, and show the other counters regardless; the personal summary uses this corrected share | not executed | Wrapped.PercentageAsWritten, Wrapped.DivisionByZeroWithoutEventDetails | Wrapped.Percentage, Wrapped.PercentageCorrected |
