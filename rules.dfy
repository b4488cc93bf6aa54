/** The table of points per action. */
module Rules {

  /** `POINTS_RULES`. The "open app" entry is listed but never used: daily
      app opens are scored separately, at one point per day. */
  const PointsRules: map<string, int> := map[
    "open app" := 2,
    "User profile click" := 3,
    "Company profile click" := 3,
    "event detail" := 2,
    "event-checkin" := 5,
    "call" := 3,
    "call mobile" := 3,
    "news_item like" := 2,
    "news_item like removed" := -2,
    "bulletin board item opened" := 2,
    "bulletin board item added" := 4,
    "AppCMS fixed" := 1,
    "AppCMS menu" := 1,
    "AppCMS file" := 1,
    "AppCMS applink" := 1,
    "AppCMS edited" := 1,
    "Message" := 2,
    "email" := 2,
    "visit website" := 3,
    "user added" := 1,
    "user deleted" := 1,
    "user edited" := 1,
    "login" := 0
  ]

  /** `Actie.map(POINTS_RULES).fillna(0)` for one action: its table entry,
      or 0 for an action the table does not list. */
  function RulePoints(action: string): int
  {
    if action in PointsRules then PointsRules[action] else 0
  }

  /** Some entries worth stating: logging in, removing a like, an unknown action. */
  lemma RulePointsExamples()
    ensures RulePoints("login") == 0
    ensures RulePoints("news_item like removed") == -2
    ensures RulePoints("event-checkin") == 5
    ensures RulePoints("news_item like") == 2
    ensures RulePoints("foo") == 0
  {
  }

  /** Every action scores between -2 and 5 points. */
  lemma RulePointsBounds(action: string)
    ensures -2 <= RulePoints(action) <= 5
  {
  }
}
