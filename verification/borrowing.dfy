/** The borrowing page: each fetched borrow record gets a display status from its
    raw status string, its due date and the current time; records are listed by
    tab; summary counts, tab badges and overdue day counts are derived from the
    list; the new-borrowing form is checked before a request is made.

    Instants are integers (milliseconds). A date string from the backend is a
    `DateText`: the text as sent together with the instant `new Date(text)` gives.
    The local calendar day of an instant is the parameter `dayOf`. */
module Borrowing {
  import opened Wrappers
  import opened Seqs
  import opened Text
  import JsNumber

  /** A date string as received, with the instant it denotes. */
  datatype DateText = DateText(text: string, at: int)

  /** A borrow record as the backend sends it (`BorrowResponseDto`). */
  datatype BorrowRecord = BorrowRecord(
    id: int, bookId: int, userId: int, bookTitle: string,
    borrowDate: DateText, dueDate: DateText, returnDate: Option<DateText>,
    status: string, fineAmount: string)

  /** The status shown on the page. */
  datatype UIStatus = Borrowed | Returned | Overdue
  {
    /** The string the page compares tab ids against. */
    function Name(): string
    {
      match this
      case Borrowed => "borrowed"
      case Returned => "returned"
      case Overdue => "overdue"
    }
  }

  /** A record after `transformRecord`: the backend fields with the display status,
      the shortened title and the member label. */
  datatype BorrowView = BorrowView(
    id: int, bookId: int, userId: int, bookTitle: string,
    borrowDate: DateText, dueDate: DateText, returnDate: Option<DateText>,
    status: UIStatus, fineAmount: string, memberName: string)

  /** Milliseconds in a day, the divisor of the overdue day count. */
  const MsPerDay: int := 1000 * 60 * 60 * 24

  /** JavaScript truthiness of an optional date string: present and not empty. */
  predicate IsPresent(d: Option<DateText>)
  {
    d.Some? && d.value.text != ""
  }

  /** `mapApiStatusToUIStatus`: a status that upper-cases to RETURNED is returned;
      otherwise a due date before `now` is overdue; everything else is borrowed. */
  function MapApiStatusToUIStatus(apiStatus: string, dueAt: int, now: int): UIStatus
  {
    var status := ToUpper(apiStatus);
    if status == "RETURNED" then Returned
    else if dueAt < now then Overdue
    else if status == "BORROWED" || status == "ACTIVE" then Borrowed
    else Borrowed
  }

  /** The title shown for a record: the text before the first `:`, or
      "Unknown Book" when that is empty. */
  function DisplayTitle(bookTitle: string): string
  {
    FirstSegmentOr(bookTitle, ':', "Unknown Book")
  }

  /** `transformRecord`, with the status computed at instant `now`. */
  function TransformRecord(r: BorrowRecord, now: int): BorrowView
  {
    BorrowView(
      r.id, r.bookId, r.userId, DisplayTitle(r.bookTitle),
      r.borrowDate, r.dueDate, if IsPresent(r.returnDate) then r.returnDate else None,
      MapApiStatusToUIStatus(r.status, r.dueDate.at, now), r.fineAmount,
      "User " + IntToDecimal(r.userId))
  }

  /** `records.map(transformRecord)`. */
  function TransformAll(records: seq<BorrowRecord>, now: int): (vs: seq<BorrowView>)
    ensures |vs| == |records|
    ensures forall i :: 0 <= i < |records| ==> vs[i] == TransformRecord(records[i], now)
  {
    seq(|records|, i requires 0 <= i < |records| => TransformRecord(records[i], now))
  }

  /** `filteredRecords`: tab "all" shows everything, any other tab the records whose
      status name equals the tab id. */
  function FilterByTab(records: seq<BorrowView>, tab: string): seq<BorrowView>
  {
    if tab == "all" then records else Filter(records, (v: BorrowView) => v.status.Name() == tab)
  }

  function HasStatus(s: UIStatus): BorrowView -> bool
  {
    (v: BorrowView) => v.status == s
  }

  function IsActive(v: BorrowView): bool
  {
    v.status == Borrowed || v.status == Overdue
  }

  /** The record was returned on the local calendar day of `now`. */
  function IsReturnedToday(v: BorrowView, now: int, dayOf: int -> int): bool
  {
    v.status == Returned && IsPresent(v.returnDate) && dayOf(v.returnDate.value.at) == dayOf(now)
  }

  /** The three lists behind the summary cards. */
  datatype Stats = Stats(activeBorrowings: seq<BorrowView>, overdue: seq<BorrowView>, returnedToday: seq<BorrowView>)

  /** `stats`, evaluated at instant `now`. */
  function ComputeStats(records: seq<BorrowView>, now: int, dayOf: int -> int): Stats
  {
    Stats(
      Filter(records, IsActive),
      Filter(records, HasStatus(Overdue)),
      Filter(records, (v: BorrowView) => IsReturnedToday(v, now, dayOf)))
  }

  /** A tab with the number on its badge. */
  datatype Tab = Tab(id: string, caption: string, count: nat)

  /** `tabs`: the four tabs and their badge counts. */
  function Tabs(records: seq<BorrowView>, now: int, dayOf: int -> int): seq<Tab>
  {
    var stats := ComputeStats(records, now, dayOf);
    [ Tab("all", "All Records", |records|),
      Tab("borrowed", "Active Borrowings", |stats.activeBorrowings|),
      Tab("overdue", "Overdue", |stats.overdue|),
      Tab("returned", "Returned", |Filter(records, HasStatus(Returned))|) ]
  }

  /** `getDaysOverdue`: whole days, rounded up, from the due date to `now`, never negative. */
  function DaysOverdue(dueAt: int, now: int): (days: nat)
    ensures now <= dueAt ==> days == 0
    ensures now > dueAt ==> days > 0 && (days - 1) * MsPerDay < now - dueAt <= days * MsPerDay
  {
    var d := JsNumber.CeilDiv(now - dueAt, MsPerDay);
    if d < 0 then 0 else d
  }

  /** The new-borrowing form: ids are absent until a number is entered. */
  datatype BorrowForm = BorrowForm(bookId: Option<int>, userId: Option<int>, dueDate: string)

  /** The request sent to create a borrow record (`BorrowRequestDto`). */
  datatype BorrowRequest = BorrowRequest(bookId: int, userId: int, dueDate: string)

  const AllFieldsRequired: string := "All fields are required"

  /** JavaScript truthiness of an optional number: present and not zero. */
  predicate IsSetId(id: Option<int>)
  {
    id.Some? && id.value != 0
  }

  /** The guard of `handleNewBorrowing`: every field must be filled in, else the
      page shows "All fields are required" and sends nothing. */
  function ValidateNewBorrowing(form: BorrowForm): (r: Result<BorrowRequest>)
    ensures r.Err? <==> !IsSetId(form.bookId) || !IsSetId(form.userId) || form.dueDate == ""
    ensures r.Err? ==> r.message == AllFieldsRequired
    ensures r.Ok? ==> r.value.bookId == form.bookId.value && r.value.userId == form.userId.value
                      && r.value.dueDate == form.dueDate
                      && r.value.bookId != 0 && r.value.userId != 0 && r.value.dueDate != ""
  {
    if !IsSetId(form.bookId) || !IsSetId(form.userId) || form.dueDate == "" then Err(AllFieldsRequired)
    else Ok(BorrowRequest(form.bookId.value, form.userId.value, form.dueDate))
  }

  /** The id inputs store `parseInt(value) || undefined`: a number that does not
      parse (`None`) and zero both leave the field absent. */
  function IdFieldValue(parsed: Option<int>): (id: Option<int>)
    ensures id.Some? <==> parsed.Some? && parsed.value != 0
    ensures id.Some? ==> id == parsed
  {
    if parsed.Some? && parsed.value != 0 then parsed else None
  }

  /** Where `handleSearch` takes the records from. */
  datatype SearchAction = ReloadAll | KeywordSearch(keyword: string)

  /** `handleSearch`: a blank term reloads the full list; any other term is sent
      to the backend search unchanged (untrimmed). */
  function SearchSource(searchTerm: string): (a: SearchAction)
    ensures a.ReloadAll? <==> forall i :: 0 <= i < |searchTerm| ==> IsJsWhitespace(searchTerm[i])
    ensures a.KeywordSearch? ==> a.keyword == searchTerm && searchTerm != ""
  {
    BlankIffAllWhitespace(searchTerm);
    if IsBlank(searchTerm) then ReloadAll else KeywordSearch(searchTerm)
  }

  // ---------------------------------------------------------------------------
  // Properties
  // ---------------------------------------------------------------------------

  /** The status is decided by the status string first, then by the due date, and is
      always one of the three display values. */
  lemma StatusSpec(apiStatus: string, dueAt: int, now: int)
    ensures MapApiStatusToUIStatus(apiStatus, dueAt, now) == Returned <==> ToUpper(apiStatus) == "RETURNED"
    ensures MapApiStatusToUIStatus(apiStatus, dueAt, now) == Overdue <==> ToUpper(apiStatus) != "RETURNED" && dueAt < now
    ensures MapApiStatusToUIStatus(apiStatus, dueAt, now) == Borrowed <==> ToUpper(apiStatus) != "RETURNED" && now <= dueAt
  {
  }

  /** The status comparison ignores letter case: any spelling of "returned" wins over
      a past due date. */
  lemma {:induction false} ReturnedAnyCase(apiStatus: string, dueAt: int, now: int)
    requires |apiStatus| == 8
    requires forall i :: 0 <= i < 8 ==> UpperChar(apiStatus[i]) == "RETURNED"[i]
    ensures MapApiStatusToUIStatus(apiStatus, dueAt, now) == Returned
  {
    assert ToUpper(apiStatus) == "RETURNED";
  }

  /** A status string outside the backend's vocabulary is shown as borrowed until the
      due date passes. */
  lemma UnknownStatusIsBorrowed(apiStatus: string, dueAt: int, now: int)
    requires ToUpper(apiStatus) != "RETURNED" && ToUpper(apiStatus) != "BORROWED" && ToUpper(apiStatus) != "ACTIVE"
    requires now <= dueAt
    ensures MapApiStatusToUIStatus(apiStatus, dueAt, now) == Borrowed
  {
  }

  /** `transformRecord` replaces the status, the title and the member name, normalises
      an empty return date to null, and copies every other field. */
  lemma TransformSpec(r: BorrowRecord, now: int)
    ensures var v := TransformRecord(r, now);
      && v.id == r.id && v.bookId == r.bookId && v.userId == r.userId
      && v.borrowDate == r.borrowDate && v.dueDate == r.dueDate && v.fineAmount == r.fineAmount
      && v.status == MapApiStatusToUIStatus(r.status, r.dueDate.at, now)
      && (v.returnDate.Some? <==> IsPresent(r.returnDate))
      && (v.returnDate.Some? ==> v.returnDate == r.returnDate)
      && v.memberName == "User " + IntToDecimal(r.userId)
      && v.bookTitle == DisplayTitle(r.bookTitle)
  {
  }

  /** The displayed title is the text up to the first `:` (all of it when there is
      none), and "Unknown Book" when the title is empty or starts with `:`. */
  lemma DisplayTitleSpec(bookTitle: string)
    ensures DisplayTitle(bookTitle) != "" && ':' !in DisplayTitle(bookTitle)
    ensures bookTitle == "" || bookTitle[0] == ':' ==> DisplayTitle(bookTitle) == "Unknown Book"
    ensures bookTitle != "" && bookTitle[0] != ':' ==>
      var t := DisplayTitle(bookTitle);
      |t| <= |bookTitle| && t == bookTitle[..|t|] && (|t| == |bookTitle| || bookTitle[|t|] == ':')
  {
  }

  /** Two records of different members get different member labels. */
  lemma MemberNameInjective(r1: BorrowRecord, r2: BorrowRecord, now: int)
    requires TransformRecord(r1, now).memberName == TransformRecord(r2, now).memberName
    ensures r1.userId == r2.userId
  {
    var a, b := IntToDecimal(r1.userId), IntToDecimal(r2.userId);
    assert "User " + a == "User " + b;
    assert a == ("User " + a)[5..];
    IntToDecimalInjective(r1.userId, r2.userId);
  }

  /** The status of a record never consults its return date. */
  lemma StatusIgnoresReturnDate(r: BorrowRecord, d: Option<DateText>, now: int)
    ensures TransformRecord(r.(returnDate := d), now).status == TransformRecord(r, now).status
  {
  }

  /** The tab list: "all" is the whole list, a status tab is exactly the records with
      that status in their original order, and an id naming no status is empty. */
  lemma {:induction false} FilterByTabSpec(records: seq<BorrowView>, tab: string)
    ensures tab == "all" ==> FilterByTab(records, tab) == records
    ensures tab != "all" ==> IsSubsequence(FilterByTab(records, tab), records)
    ensures tab != "all" ==> forall v :: v in FilterByTab(records, tab) <==> v in records && v.status.Name() == tab
    ensures tab !in {"all", "borrowed", "overdue", "returned"} ==> FilterByTab(records, tab) == []
  {
    if tab != "all" {
      var p := (v: BorrowView) => v.status.Name() == tab;
      FilterIsSubsequence(records, p);
      if tab !in {"borrowed", "overdue", "returned"} {
        FilterNone(records, p);
      }
    }
  }

  /** Every record is in exactly one of the three status tabs. */
  lemma TabsPartition(records: seq<BorrowView>)
    ensures |FilterByTab(records, "borrowed")| + |FilterByTab(records, "overdue")|
            + |FilterByTab(records, "returned")| == |FilterByTab(records, "all")|
  {
    var pb := (v: BorrowView) => v.status.Name() == "borrowed";
    var po := (v: BorrowView) => v.status.Name() == "overdue";
    var pr := (v: BorrowView) => v.status.Name() == "returned";
    var pbo := (v: BorrowView) => pb(v) || po(v);
    var all := (v: BorrowView) => pbo(v) || pr(v);
    FilterLength(records, pb);
    FilterLength(records, po);
    FilterLength(records, pr);
    CountDisjointUnion(records, pb, po, pbo);
    CountDisjointUnion(records, pbo, pr, all);
    FilterAll(records, all);
    FilterLength(records, all);
  }

  /** The summary lists: active = borrowed plus overdue, overdue is the overdue part of
      active, and returned-today holds exactly the returned records with a return date
      on today's date. */
  lemma {:induction false} StatsSpec(records: seq<BorrowView>, now: int, dayOf: int -> int)
    ensures var s := ComputeStats(records, now, dayOf);
      && |s.activeBorrowings| == |Filter(records, HasStatus(Borrowed))| + |Filter(records, HasStatus(Overdue))|
      && IsSubsequence(s.overdue, s.activeBorrowings)
      && IsSubsequence(s.returnedToday, records)
      && (forall v :: v in s.activeBorrowings <==> v in records && (v.status == Borrowed || v.status == Overdue))
      && (forall v :: v in s.overdue <==> v in records && v.status == Overdue)
      && (forall v :: v in s.returnedToday <==>
            v in records && v.status == Returned && IsPresent(v.returnDate) && dayOf(v.returnDate.value.at) == dayOf(now))
  {
    var s := ComputeStats(records, now, dayOf);
    FilterLength(records, IsActive);
    FilterLength(records, HasStatus(Borrowed));
    FilterLength(records, HasStatus(Overdue));
    CountDisjointUnion(records, HasStatus(Borrowed), HasStatus(Overdue), IsActive);
    FilterFilter(records, IsActive, HasStatus(Overdue), HasStatus(Overdue));
    FilterIsSubsequence(s.activeBorrowings, HasStatus(Overdue));
    FilterIsSubsequence(records, (v: BorrowView) => IsReturnedToday(v, now, dayOf));
  }

  /** The badges: "all" counts every record; the "borrowed" badge counts borrowed and
      overdue records although that tab lists only borrowed ones, so it is larger than
      the list exactly when some record is overdue. */
  lemma {:induction false} TabBadgesSpec(records: seq<BorrowView>, now: int, dayOf: int -> int)
    ensures var tabs := Tabs(records, now, dayOf);
      && tabs[0].count == |FilterByTab(records, "all")|
      && tabs[1].count == |FilterByTab(records, "borrowed")| + |FilterByTab(records, "overdue")|
      && tabs[2].count == |FilterByTab(records, "overdue")|
      && tabs[3].count == |FilterByTab(records, "returned")|
      && (tabs[1].count > |FilterByTab(records, "borrowed")| <==> exists v :: v in records && v.status == Overdue)
  {
    StatsSpec(records, now, dayOf);
    FilterByTabNamesStatus(records, Borrowed);
    FilterByTabNamesStatus(records, Overdue);
    FilterByTabNamesStatus(records, Returned);
    SomeOverdue(records);
  }

  /** The overdue list is non-empty exactly when some record is overdue. */
  lemma SomeOverdue(records: seq<BorrowView>)
    ensures |Filter(records, HasStatus(Overdue))| > 0 <==> exists v :: v in records && v.status == Overdue
  {
    if exists v :: v in records && v.status == Overdue {
      var v :| v in records && v.status == Overdue;
      assert v in Filter(records, HasStatus(Overdue));
    } else {
      FilterNone(records, HasStatus(Overdue));
    }
  }

  /** A status tab filters by the same predicate as the summary lists. */
  lemma FilterByTabNamesStatus(records: seq<BorrowView>, s: UIStatus)
    ensures FilterByTab(records, s.Name()) == Filter(records, HasStatus(s))
  {
    FilterFilter(records, (v: BorrowView) => v.status.Name() == s.Name(), HasStatus(s), HasStatus(s));
    FilterAll(records, (v: BorrowView) => true);
    FilterFilter(records, (v: BorrowView) => true, HasStatus(s), HasStatus(s));
    assert forall v: BorrowView :: (v.status.Name() == s.Name()) == (v.status == s);
    FilterExt(records, (v: BorrowView) => v.status.Name() == s.Name(), HasStatus(s));
  }

  /** The overdue day count is zero exactly when `now` is not past the due date, and
      never decreases as time passes. */
  lemma DaysOverdueSpec(dueAt: int, now1: int, now2: int)
    requires now1 <= now2
    ensures DaysOverdue(dueAt, now1) == 0 <==> now1 <= dueAt
    ensures DaysOverdue(dueAt, now1) <= DaysOverdue(dueAt, now2)
  {
    JsNumber.CeilDivMonotonic(now1 - dueAt, now2 - dueAt, MsPerDay);
  }

  /** A record due on 2024-01-10 and looked at on 2024-01-15 is five days overdue;
      one hour past the due instant already counts as a day. */
  lemma DaysOverdueExamples(dueAt: int)
    ensures DaysOverdue(dueAt, dueAt + 5 * MsPerDay) == 5
    ensures DaysOverdue(dueAt, dueAt + 3600000) == 1
  {
  }

  /** The id inputs can never hold zero, so the guard's zero case is only reachable
      through an absent field. */
  lemma IdFieldNeverZero(parsed: Option<int>)
    ensures IdFieldValue(parsed) != Some(0)
  {
  }

  /** A tab lists some of the records, in their order. */
  lemma VisibleSpec(records: seq<BorrowView>, tab: string)
    ensures IsSubsequence(FilterByTab(records, tab), records)
    ensures forall v :: v in FilterByTab(records, tab) ==> v in records
  {
    if tab == "all" {
      SubsequenceRefl(records);
    } else {
      FilterIsSubsequence(records, (v: BorrowView) => v.status.Name() == tab);
    }
  }

  // ---------------------------------------------------------------------------
  // The page's state
  // ---------------------------------------------------------------------------

  /** The state the borrowing page keeps between renders. */
  class BorrowingPage {
    var records: seq<BorrowView>
    var activeTab: string
    var error: Option<string>
    var form: BorrowForm

    /** Every record on the page went through `transformRecord`: its title is not
        empty and contains no `:`, and a return date it carries is not empty. */
    ghost predicate Valid()
      reads this
    {
      forall v :: v in records ==> v.bookTitle != "" && ':' !in v.bookTitle && (v.returnDate.Some? ==> IsPresent(v.returnDate))
    }

    constructor ()
      ensures Valid()
      ensures records == [] && activeTab == "all" && error == None
      ensures form == BorrowForm(None, None, "")
    {
      records := [];
      activeTab := "all";
      error := None;
      form := BorrowForm(None, None, "");
    }

    /** `setBorrowingRecords(fetched.map(transformRecord))` after a successful load or
        search, with statuses computed at `now`. */
    method ReceiveRecords(fetched: seq<BorrowRecord>, now: int)
      requires Valid()
      modifies this`records
      ensures Valid()
      ensures records == TransformAll(fetched, now)
    {
      records := TransformAll(fetched, now);
      forall v | v in records
        ensures v.bookTitle != "" && ':' !in v.bookTitle && (v.returnDate.Some? ==> IsPresent(v.returnDate))
      {
        var i :| 0 <= i < |records| && records[i] == v;
        assert v == TransformRecord(fetched[i], now);
        DisplayTitleSpec(fetched[i].bookTitle);
      }
    }

    /** The user id input: `parseInt(value) || undefined` replaces the form's user id. */
    method SetUserId(parsed: Option<int>)
      requires Valid()
      modifies this`form
      ensures Valid()
      ensures form == old(form).(userId := IdFieldValue(parsed))
      ensures form.userId != Some(0)
    {
      form := form.(userId := IdFieldValue(parsed));
    }

    /** The book id input: `parseInt(value) || undefined` replaces the form's book id. */
    method SetBookId(parsed: Option<int>)
      requires Valid()
      modifies this`form
      ensures Valid()
      ensures form == old(form).(bookId := IdFieldValue(parsed))
      ensures form.bookId != Some(0)
    {
      form := form.(bookId := IdFieldValue(parsed));
    }

    /** The due date input: the entered text replaces the form's due date. */
    method SetDueDate(value: string)
      requires Valid()
      modifies this`form
      ensures Valid()
      ensures form == old(form).(dueDate := value)
    {
      form := form.(dueDate := value);
    }

    /** A click on a tab selects it. */
    method SelectTab(id: string)
      requires Valid()
      modifies this`activeTab
      ensures Valid()
      ensures activeTab == id
    {
      activeTab := id;
    }

    /** The guard of `handleNewBorrowing`: with a field missing, the error is set and no
        request is made; otherwise the request to send is returned and nothing changes yet. */
    method HandleNewBorrowing() returns (request: Option<BorrowRequest>)
      requires Valid()
      modifies this`error
      ensures Valid()
      ensures request.None? <==> !IsSetId(form.bookId) || !IsSetId(form.userId) || form.dueDate == ""
      ensures request.None? ==> error == Some(AllFieldsRequired)
      ensures request.Some? ==> error == old(error) && request.value == BorrowRequest(form.bookId.value, form.userId.value, form.dueDate)
    {
      var checked := ValidateNewBorrowing(form);
      if checked.Err? {
        error := Some(checked.message);
        request := None;
      } else {
        request := Some(checked.value);
      }
    }

    /** The records the selected tab lists: page records, in page order, each with a
        non-empty title free of `:`. */
    function Visible(): (vs: seq<BorrowView>)
      reads this
      requires Valid()
      ensures IsSubsequence(vs, records)
      ensures forall v :: v in vs ==> v in records && v.bookTitle != "" && ':' !in v.bookTitle
    {
      VisibleSpec(records, activeTab);
      FilterByTab(records, activeTab)
    }
  }
}
