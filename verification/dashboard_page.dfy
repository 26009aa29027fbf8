/** The dashboard page: recent activities with shortened titles, the status shown
    for an activity, and the two percentage rates derived from the statistics. The
    statistics are absent until the first load completes. */
module DashboardPage {
  import opened Wrappers
  import opened Text
  import JsNumber

  /** `DashBoardResponseDTO`. */
  datatype DashStats = DashStats(total_Books: int, active_Members: int, books_Borrowed: int, overdue_Books: int)

  /** `RecentActivitiesResponseDTO`; the status is the string the backend sent. */
  datatype Activity = Activity(borrowID: int, borrowStatus: string, userName: string, bookTitle: string, time: string)

  /** The colour classes and status word shown for an activity. */
  datatype ActivityDisplay = ActivityDisplay(bgColor: string, status: string)

  /** The activity mapping after loading: the title is cut at the first `:`. */
  function MapActivity(a: Activity): Activity
  {
    a.(bookTitle := FirstSegment(a.bookTitle, ':'))
  }

  /** `getActivityDisplay`, which compares the lower-cased action. */
  function GetActivityDisplay(action: string): ActivityDisplay
  {
    var actionLower := ToLower(action);
    if actionLower == "active" then ActivityDisplay("bg-blue-100 text-blue-600", "borrowed")
    else if actionLower == "returned" then ActivityDisplay("bg-green-100 text-green-600", "returned")
    else if actionLower == "overdue" then ActivityDisplay("bg-red-100 text-red-600", "overdue")
    else ActivityDisplay("bg-gray-100 text-gray-600", "unknown")
  }

  /** `utilizationRate`: borrowed books as a rounded percentage of all books, 0 without
      statistics or books. */
  function UtilizationRate(stats: Option<DashStats>): int
  {
    if stats.Some? && stats.value.total_Books > 0
    then JsNumber.RoundDiv(100 * stats.value.books_Borrowed, stats.value.total_Books)
    else 0
  }

  /** `onTimeReturnRate`: borrowed books that are not overdue as a rounded percentage
      of borrowed books, 100 without statistics or borrowed books. */
  function OnTimeReturnRate(stats: Option<DashStats>): int
  {
    if stats.Some? && stats.value.books_Borrowed > 0
    then JsNumber.RoundDiv(100 * (stats.value.books_Borrowed - stats.value.overdue_Books), stats.value.books_Borrowed)
    else 100
  }

  // ---------------------------------------------------------------------------
  // Properties
  // ---------------------------------------------------------------------------

  /** The title is cut at the first `:`; every other field is copied. */
  lemma MapActivitySpec(a: Activity)
    ensures var m := MapActivity(a);
      && m.borrowID == a.borrowID && m.borrowStatus == a.borrowStatus
      && m.userName == a.userName && m.time == a.time
      && ':' !in m.bookTitle && m.bookTitle == a.bookTitle[..|m.bookTitle|]
      && (|m.bookTitle| == |a.bookTitle| || a.bookTitle[|m.bookTitle|] == ':')
  {
  }

  /** "active" shows as borrowed, "returned" and "overdue" as themselves, in any letter
      case; every other action is unknown. */
  lemma ActivityDisplaySpec(action: string)
    ensures GetActivityDisplay(action).status == "borrowed" <==> ToLower(action) == "active"
    ensures GetActivityDisplay(action).status == "returned" <==> ToLower(action) == "returned"
    ensures GetActivityDisplay(action).status == "overdue" <==> ToLower(action) == "overdue"
    ensures GetActivityDisplay(action).status == "unknown" <==>
              ToLower(action) !in {"active", "returned", "overdue"}
  {
  }

  /** The backend status BORROWED, one of the declared activity statuses, shows as
      unknown; OVERDUE and RETURNED show as themselves. */
  lemma DeclaredStatusesDisplay()
    ensures GetActivityDisplay("BORROWED").status == "unknown"
    ensures GetActivityDisplay("OVERDUE").status == "overdue"
    ensures GetActivityDisplay("RETURNED").status == "returned"
  {
    assert ToLower("BORROWED") == "borrowed";
    assert ToLower("OVERDUE") == "overdue";
    assert ToLower("RETURNED") == "returned";
  }

  /** Utilization is 0 without books, is the nearest whole percentage (halves up)
      otherwise, and stays within 0..100 while borrowed books are between 0 and the total. */
  lemma UtilizationRateSpec(stats: DashStats)
    ensures stats.total_Books <= 0 ==> UtilizationRate(Some(stats)) == 0
    ensures stats.total_Books > 0 ==>
      var r := UtilizationRate(Some(stats));
      2 * r * stats.total_Books - stats.total_Books <= 200 * stats.books_Borrowed < 2 * r * stats.total_Books + stats.total_Books
    ensures 0 <= stats.books_Borrowed <= stats.total_Books ==> 0 <= UtilizationRate(Some(stats)) <= 100
  {
    var t, b := stats.total_Books, stats.books_Borrowed;
    if t > 0 {
      JsNumber.RoundPercentBounds(b, t);
    }
  }

  /** The on-time rate is 100 without borrowed books or without overdue books, at most
      100 when the overdue count is not negative, and at least 0 when it does not exceed
      the borrowed count. */
  lemma OnTimeReturnRateSpec(stats: DashStats)
    ensures stats.books_Borrowed <= 0 ==> OnTimeReturnRate(Some(stats)) == 100
    ensures stats.overdue_Books == 0 ==> OnTimeReturnRate(Some(stats)) == 100
    ensures stats.overdue_Books >= 0 ==> OnTimeReturnRate(Some(stats)) <= 100
    ensures stats.overdue_Books <= stats.books_Borrowed ==> OnTimeReturnRate(Some(stats)) >= 0
  {
    var b, o := stats.books_Borrowed, stats.overdue_Books;
    if b > 0 {
      JsNumber.RoundPercentBounds(b - o, b);
      if o == 0 { JsNumber.RoundPercentBounds(b, b); }
    }
  }

  /** Before the statistics arrive the page shows 0% utilization and 100% on time. */
  lemma RatesWithoutStats()
    ensures UtilizationRate(None) == 0 && OnTimeReturnRate(None) == 100
  {
  }
}
