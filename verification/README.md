# Library admin console: view logic

This project models the client-side view logic of a library administration console.
The console fetches borrow records, members, books and dashboard statistics from a
backend over HTTP. It then turns them into what the screens show:

- the borrowing page derives a display status (`borrowed`, `returned`, `overdue`) for
  every borrow record, shortens titles, lists records by tab, counts the summary
  cards and tab badges, counts overdue days and checks the new-borrowing form;
- the members page filters members by a case-insensitive search and by role, checks
  the role of a new member and picks a badge colour per role;
- the member service keeps the first ten members and searches them by name;
- the books page maps each fetched book to a view model, builds the category menu,
  filters by category and toggles favourites; the landing-page catalogue does the
  same over six fixed books;
- the dashboard page and the older dashboard component map activity statuses to
  display words and compute the utilization and on-time return percentages.

All of it is pure computation over values, written as Dafny functions over
datatypes and sequences, with lemmas for the properties. The one stateful piece is
`Borrowing.BorrowingPage`, a class holding the page's records, selected tab, error
message and form. Its methods receive a fetched list, select a tab, fill the
new-borrowing form from its inputs and run the guard of the new-borrowing handler.

Modelling choices:

- **Time.** Instants are integers in milliseconds. A date string from the backend is a
  `DateText`: the text as sent, plus the instant `new Date(text)` denotes. "Now" is a
  parameter. The local calendar day of an instant is the function parameter `dayOf`.
- **When the status is computed.** The status is computed once, when the records are
  loaded (`transformRecord` reads the clock). The summary lists and the overdue day
  count read the clock again at render time. So the model takes two separate instants.
- **Return date.** The status ignores the return date (`StatusIgnoresReturnDate`). A
  record is `returned` only when its status string upper-cases to `RETURNED`.
- **Truthiness.** JavaScript truthiness is written out. `returnDate || null` turns an
  empty date string into null (`IsPresent`). `parseInt(v) || undefined` turns zero
  and unparsable input into an absent id (`IdFieldValue`).
- **Rounding.** `Math.round(x)` is `floor(x + 1/2)` on exact rationals
  (`JsNumber.RoundDiv`), and `Math.ceil` is exact ceiling division
  (`JsNumber.CeilDiv`).
- **Remainder.** JavaScript `%` keeps the sign of the dividend (`JsNumber.TruncRem`).
  So a negative book id picks no cover colour. A negative multiple of five
  gives `-0` and picks the first colour.
- **Shared toggle.** `toggleFavorite` is the same code on the books page and in the
  catalogue. It is defined once, in `Favorites`.
- **Dashboard component fields.** `components/Dashboard.tsx` reads a field
  `books_borrowed`, while the DTO declares `books_Borrowed`. The component is modelled
  over its own field names (`DashboardComponent.ComponentStats`).

## Model

| member | source | states |
|---|---|---|
| `Borrowing.StatusSpec` | frontend/src/pages/Borrowing.tsx:85-97 | the status is `returned` iff the upper-cased status string is RETURNED; otherwise `overdue` iff the due instant is before now; otherwise `borrowed` (unknown strings included), so it is always one of the three |
| `Borrowing.ReturnedAnyCase` | frontend/src/pages/Borrowing.tsx:86-89 | any letter-case spelling of "returned" yields `returned`, whatever the due date |
| `Borrowing.UnknownStatusIsBorrowed` | frontend/src/pages/Borrowing.tsx:93-96 | any status string whose upper-cased form is not RETURNED, BORROWED or ACTIVE falls back to `borrowed` while not past due |
| `Text.FirstSegmentOr` | frontend/src/pages/Borrowing.tsx:79 | `split(sep)[0] || fallback` is the fallback when the text is empty or starts with the separator; otherwise it is the non-empty prefix of the text up to the first separator (all of it without one), containing no separator |
| `Borrowing.DisplayTitleSpec` | frontend/src/pages/Borrowing.tsx:79 | the shown title is never empty and contains no `:`; it is the text before the first `:` (all of it without one), or "Unknown Book" when that text is empty |
| `Borrowing.TransformSpec` | frontend/src/pages/Borrowing.tsx:76-83 | `transformRecord` copies id, bookId, userId, borrowDate, dueDate and fineAmount; sets the derived status, the shortened title and "User " + userId; a missing or empty return date becomes null, a present one is kept |
| `Borrowing.TransformAll` | frontend/src/pages/Borrowing.tsx:53 | the page list has one transformed record per fetched record, in the same order |
| `Borrowing.MemberNameInjective` | frontend/src/pages/Borrowing.tsx:80 | two records get the same member label only if they have the same userId (decimal rendering is reversible) |
| `Borrowing.StatusIgnoresReturnDate` | frontend/src/pages/Borrowing.tsx:78 | changing a record's return date never changes its status |
| `Borrowing.FilterByTabSpec` | frontend/src/pages/Borrowing.tsx:117-122 | tab "all" returns the list unchanged; any other tab returns, in original order, exactly the records whose status name is the tab id; an id naming no status gives nothing |
| `Borrowing.TabsPartition` | frontend/src/pages/Borrowing.tsx:117-122 | the borrowed, overdue and returned tab lists together have as many records as the whole list |
| `Borrowing.StatsSpec` | frontend/src/pages/Borrowing.tsx:124-137 | active = records borrowed or overdue, with count(borrowed) + count(overdue) entries; the overdue list is an ordered sublist of the active list; the overdue list holds exactly the overdue records; returned-today holds exactly the returned records whose return date is present and lies on today's local day |
| `Borrowing.TabBadgesSpec` | frontend/src/pages/Borrowing.tsx:210-215 | the "all" badge is the full length; the "borrowed" badge counts borrowed plus overdue records while its tab lists only borrowed ones, so it exceeds the list exactly when an overdue record exists; the other badges equal their tab's length |
| `Borrowing.DaysOverdue` | frontend/src/pages/Borrowing.tsx:196-201 | 0 when now is not after the due instant; otherwise the least positive number of whole days covering the elapsed time |
| `Borrowing.DaysOverdueSpec` | frontend/src/pages/Borrowing.tsx:196-201 | the day count is 0 iff now is not after the due instant, and never decreases as now grows |
| `Borrowing.DaysOverdueExamples` | frontend/src/pages/Borrowing.tsx:196-201 | five days after the due instant gives 5; one hour after gives 1 |
| `Borrowing.ValidateNewBorrowing` | frontend/src/pages/Borrowing.tsx:141-150 | the form is refused with "All fields are required" iff the book id or user id is missing or 0, or the due date is empty; otherwise the request carries the three fields |
| `Borrowing.IdFieldValue` | frontend/src/pages/Borrowing.tsx:255 | an id input holds a number iff it parsed to a non-zero number, and then holds that number |
| `Borrowing.IdFieldNeverZero` | frontend/src/pages/Borrowing.tsx:265 | an id field filled from its input never holds 0 |
| `Borrowing.SearchSource` | frontend/src/pages/Borrowing.tsx:99-108 | a blank or whitespace-only term reloads the full list; any other term goes to the server search unchanged |
| `Borrowing.BorrowingPage.constructor` | frontend/src/pages/Borrowing.tsx:16-29 | the page starts with no records, tab "all", no error and an empty form |
| `Borrowing.BorrowingPage.ReceiveRecords` | frontend/src/pages/Borrowing.tsx:52-55 | the stored list becomes the transformed fetched list, and every stored title stays non-empty and free of `:` |
| `Borrowing.BorrowingPage.Visible` | frontend/src/pages/Borrowing.tsx:117-122 | the selected tab lists page records only, in page order, and each of them shows a non-empty title free of `:` |
| `Borrowing.BorrowingPage.SetUserId` | frontend/src/pages/Borrowing.tsx:255 | typing in the user id input replaces only the form's user id, with the parsed number or nothing when it parsed to 0 or failed, so the field never holds 0 |
| `Borrowing.BorrowingPage.SetBookId` | frontend/src/pages/Borrowing.tsx:265 | typing in the book id input replaces only the form's book id, in the same way, so the field never holds 0 |
| `Borrowing.BorrowingPage.SetDueDate` | frontend/src/pages/Borrowing.tsx:275 | typing in the due date input replaces only the form's due date with the entered text |
| `Borrowing.BorrowingPage.SelectTab` | frontend/src/pages/Borrowing.tsx:343 | a tab click makes the clicked tab the selected one and keeps the page invariant |
| `Borrowing.BorrowingPage.HandleNewBorrowing` | frontend/src/pages/Borrowing.tsx:139-150 | with a field missing the error becomes "All fields are required" and no request is made; otherwise the request is made from the form and the error is untouched |
| `Members.FilteredMembersSpec` | frontend/src/pages/Members.tsx:52-67 | the list is an ordered sublist of all members; a member is in it iff it passes both the search and the role filter; applying the filters in the other order gives the same list |
| `Members.FilteredMembersMatch` | frontend/src/pages/Members.tsx:54-65 | each listed member has the lower-cased term in its lower-cased first name, last name or e-mail, and has the selected role unless the filter is "all" |
| `Members.EmptySearchKeepsAll` | frontend/src/pages/Members.tsx:56-65 | an empty term with role filter "all" lists every member |
| `Members.AddMemberRoleSpec` | frontend/src/pages/Members.tsx:74-91 | a new member is refused with "Invalid role selected." iff its role is missing or not ADMIN, LIBRARIAN or MEMBER; an accepted role is sent unchanged, and the second enumeration check never refuses it |
| `Members.LowerCaseRoleRefused` | frontend/src/pages/Members.tsx:75-78 | the role check is case-sensitive: "admin" is refused |
| `Members.RoleBadgeSpec` | frontend/src/pages/Members.tsx:146-153 | ADMIN gets the purple badge, LIBRARIAN the blue one, every other role the gray one |
| `MemberService.GetAllMembersSpec` | frontend/src/services/MemberService.ts:18-21 | the list is the first min(10, n) fetched members, in order |
| `MemberService.BlankSearchIsList` | frontend/src/services/MemberService.ts:42-45 | a blank or whitespace-only query returns the ten-member list |
| `MemberService.SearchSpec` | frontend/src/services/MemberService.ts:47-55 | a search returns at most 10 members, as an ordered sublist of the ten-member list; for a non-blank query a member is returned iff it is among those ten and its first or last name contains the query, ignoring case |
| `MemberService.BeyondTenthNeverFound` | frontend/src/services/MemberService.ts:40-55 | a member not among the first ten the server lists is never returned |
| `MemberService.EmailNotSearched` | frontend/src/services/MemberService.ts:50-53 | for any non-blank query, a member whose first and last names miss the query but whose e-mail contains it is never returned by the service; the members page filter, which runs over the ten members the page loads, lists it exactly when it is among those ten |
| `Favorites.ToggleFavoriteSpec` | frontend/src/pages/Books.tsx:180-186 | after a toggle the id is a favourite iff it was not before; an absent id is appended at the end; the other ids keep their order |
| `Favorites.ToggleTwiceRestores` | frontend/src/pages/Books.tsx:180-186 | toggling an absent id twice restores the list |
| `Favorites.ToggleTwiceReorders` | frontend/src/components/BookCatalog.tsx:115-121 | toggling a present id twice moves it to the end: [1, 2] becomes [2, 1] |
| `Books.CategoryOfSpec` | frontend/src/pages/Books.tsx:46 | the category is never empty and contains no comma; it is the genre text before the first comma (all of it without one), or "General" when that text is empty |
| `Books.MapDtoToBookSpec` | frontend/src/pages/Books.tsx:40-56 | a book is available iff it has an available copy; it carries the first genre, the default rating 4.5, the placeholder cover image, the cover colour its id picks, and the fetched id, title, author, isbn, description and copy counts |
| `Books.CoverColorSpec` | frontend/src/pages/Books.tsx:41-51 | a non-negative id picks colour id mod 5; a negative id not divisible by 5 picks none; a negative multiple of 5 picks the first colour |
| `Books.CategoriesSpec` | frontend/src/pages/Books.tsx:74-77 | the menu is "all" followed by every book category exactly once, in order of first appearance |
| `Books.FilteredBooksSpec` | frontend/src/pages/Books.tsx:103-107 | "all" shows every book; another category shows, in order, exactly the books of that category |
| `BookCatalog.FilteredBooksSpec` | frontend/src/components/BookCatalog.tsx:111-113 | "all" shows the six books unchanged; another pill shows, in catalogue order, exactly the books of that category |
| `BookCatalog.EmptyPills` | frontend/src/components/BookCatalog.tsx:27-109 | the second and last pills, "Fiction" and "Biography", show nothing, since no catalogue book has those categories |
| `BookCatalog.TechnologyPill` | frontend/src/components/BookCatalog.tsx:27-113 | the sixth pill, "Technology", shows the first and fifth catalogue books |
| `BookCatalog.CatalogCategoriesHavePills` | frontend/src/components/BookCatalog.tsx:27-109 | every catalogue book's category has a pill other than "all" |
| `DashboardPage.MapActivitySpec` | frontend/src/pages/Dashboard.tsx:31-37 | an activity's title is cut before the first `:`; its other fields are copied |
| `DashboardPage.ActivityDisplaySpec` | frontend/src/pages/Dashboard.tsx:93-121 | ignoring case, "active" shows as borrowed, "returned" and "overdue" as themselves, anything else as unknown |
| `DashboardPage.DeclaredStatusesDisplay` | frontend/src/pages/Dashboard.tsx:93-121 | the declared activity status BORROWED shows as unknown; OVERDUE and RETURNED show as themselves |
| `DashboardPage.UtilizationRateSpec` | frontend/src/pages/Dashboard.tsx:123-125 | utilization is 0 without books; otherwise it is 100·borrowed/total rounded to the nearest integer, halves up; it lies in 0..100 when 0 ≤ borrowed ≤ total |
| `DashboardPage.OnTimeReturnRateSpec` | frontend/src/pages/Dashboard.tsx:127-129 | the on-time rate is 100 without borrowed books or without overdue books; it is at most 100 when overdue ≥ 0 and at least 0 when overdue ≤ borrowed |
| `DashboardPage.RatesWithoutStats` | frontend/src/pages/Dashboard.tsx:123-129 | before the statistics load, utilization is 0 and the on-time rate is 100 |
| `DashboardComponent.ActivityDisplaySpec` | frontend/src/components/Dashboard.tsx:92-124 | ignoring case, borrowed, returned and overdue show as themselves, new_member as registered, anything else as unknown |
| `DashboardComponent.UpperCaseActions` | frontend/src/components/Dashboard.tsx:92-93 | upper-case actions such as BORROWED and NEW_MEMBER are recognised |
| `DashboardComponent.RatesSpec` | frontend/src/components/Dashboard.tsx:128-134 | utilization is 0 without books and lies in 0..100 when 0 ≤ borrowed ≤ total; the on-time rate is 100 without borrowed books and at most 100 when overdue ≥ 0 |
| `DashboardComponent.InitialRates` | frontend/src/components/Dashboard.tsx:14-19 | the zero statistics the component starts from give 0% utilization and 100% on time |
| `JsNumber.RoundDiv` | frontend/src/pages/Dashboard.tsx:124 | `Math.round(n / d)` is the integer nearest n/d, halves rounded up |
| `JsNumber.CeilDiv` | frontend/src/pages/Borrowing.tsx:200 | `Math.ceil(n / d)` is the least integer r with n ≤ r·d |

## Left out

- HTTP calls and their services (books, borrowing, dashboard, chat assistant) are left out. Fetched data enters the model as parameters: the fetched member list of `MemberService`, the fetched records of `BorrowingPage.ReceiveRecords`.
- Asynchronous orchestration and React state plumbing are left out: loading flags, `Promise.all`, refetching after a mutation, error toasts of failed requests, and overlapping requests racing each other. Only the decisions inside the handlers are modelled.
- Borrowing.BorrowingPage.SelectTab: clicking "all" while a search term is set also clears the term and reloads the list; that reload is asynchronous orchestration and is left out.
- Date parsing and formatting (`new Date`, `toDateString`, `getFullYear`, invalid dates) are left out. Instants are abstract integers; the local day is the parameter `dayOf`. The book view model has no publication year for this reason.
- Books.MapDtoToBookSpec: says nothing about the publication year, which comes from date parsing.
- Floating point is left out. Rates are computed exactly, so rounding at exact .5 boundaries and intermediate float error in `(b / t) * 100` are not captured. `toFixed(2)` for fines is presentation.
- Case mapping covers ASCII letters only. Unicode case mappings, including ones that change a string's length, are not modelled.
- JSX rendering, icons, layout, routing, the static report charts and the chat panel are presentation or static data and are left out. So is the FormData parsing of the book and member edit forms.
- The book type the books page imports (`BookResponseDTO`) is not declared in the DTO file. `Books.BookDto` holds the fields `mapDtoToBook` reads.
- DashboardComponent.RatesSpec: the component reads `books_borrowed`, but the backend DTO declares `books_Borrowed`. If the backend sends only the latter, the field is undefined at run time; the model takes the component's own field as an integer.
