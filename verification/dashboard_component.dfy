/** The dashboard component: the same rates over its own statistics record, whose
    borrowed count is the field `books_borrowed`, starting from all zeros; and the
    activity display for the older action vocabulary. */
module DashboardComponent {
  import opened Text
  import JsNumber

  /** The component's statistics record, with its own field names. */
  datatype ComponentStats = ComponentStats(total_Books: int, active_Members: int, overdue_Books: int, books_borrowed: int)

  /** The statistics before anything is loaded. */
  const InitialStats: ComponentStats := ComponentStats(0, 0, 0, 0)

  /** The colour classes and status word shown for an activity. */
  datatype ActivityDisplay = ActivityDisplay(bgColor: string, status: string)

  /** `getActivityDisplay`, which compares the lower-cased action. */
  function GetActivityDisplay(action: string): ActivityDisplay
  {
    var a := ToLower(action);
    if a == "borrowed" then ActivityDisplay("bg-blue-100 text-blue-600", "borrowed")
    else if a == "returned" then ActivityDisplay("bg-green-100 text-green-600", "returned")
    else if a == "new_member" then ActivityDisplay("bg-purple-100 text-purple-600", "registered")
    else if a == "overdue" then ActivityDisplay("bg-red-100 text-red-600", "overdue")
    else ActivityDisplay("bg-gray-100 text-gray-600", "unknown")
  }

  /** `utilizationRate`. */
  function UtilizationRate(stats: ComponentStats): int
  {
    if stats.total_Books > 0 then JsNumber.RoundDiv(100 * stats.books_borrowed, stats.total_Books) else 0
  }

  /** `onTimeReturnRate`. */
  function OnTimeReturnRate(stats: ComponentStats): int
  {
    if stats.books_borrowed > 0
    then JsNumber.RoundDiv(100 * (stats.books_borrowed - stats.overdue_Books), stats.books_borrowed)
    else 100
  }

  /** "borrowed", "returned" and "overdue" show as themselves and "new_member" as
      registered, in any letter case; every other action is unknown. */
  lemma ActivityDisplaySpec(action: string)
    ensures GetActivityDisplay(action).status == "borrowed" <==> ToLower(action) == "borrowed"
    ensures GetActivityDisplay(action).status == "returned" <==> ToLower(action) == "returned"
    ensures GetActivityDisplay(action).status == "overdue" <==> ToLower(action) == "overdue"
    ensures GetActivityDisplay(action).status == "registered" <==> ToLower(action) == "new_member"
    ensures GetActivityDisplay(action).status == "unknown" <==>
              ToLower(action) !in {"borrowed", "returned", "overdue", "new_member"}
  {
  }

  /** Upper-case backend statuses are recognised too. */
  lemma UpperCaseActions()
    ensures GetActivityDisplay("BORROWED").status == "borrowed"
    ensures GetActivityDisplay("NEW_MEMBER").status == "registered"
  {
    assert ToLower("BORROWED") == "borrowed";
    assert ToLower("NEW_MEMBER") == "new_member";
  }

  /** Utilization is 0 without books and within 0..100 while the borrowed count is
      between 0 and the total; the on-time rate is 100 without borrowed books and at
      most 100 when the overdue count is not negative. */
  lemma RatesSpec(stats: ComponentStats)
    ensures stats.total_Books <= 0 ==> UtilizationRate(stats) == 0
    ensures 0 <= stats.books_borrowed <= stats.total_Books ==> 0 <= UtilizationRate(stats) <= 100
    ensures stats.books_borrowed <= 0 ==> OnTimeReturnRate(stats) == 100
    ensures stats.overdue_Books >= 0 ==> OnTimeReturnRate(stats) <= 100
  {
    var t, b, o := stats.total_Books, stats.books_borrowed, stats.overdue_Books;
    if t > 0 {
      JsNumber.RoundPercentBounds(b, t);
    }
    if b > 0 {
      JsNumber.RoundPercentBounds(b - o, b);
    }
  }

  /** The zero statistics the component starts from show 0% utilization and 100% on time. */
  lemma InitialRates()
    ensures UtilizationRate(InitialStats) == 0 && OnTimeReturnRate(InitialStats) == 100
  {
  }
}
