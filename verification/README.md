# codeprogress: a Dafny model of the project list, the log calendar and the session store

codeprogress is a Next.js app. Signed-in developers create projects (a title,
up to five tags, a GitHub link and a live-demo link) and write dated progress
logs against them. The hosted backend holds the rows. This project models the
client-side logic that decides what the user sees and what is sent. The
backend's answers are inputs to the model.

- **Project list** (`src/app/page.tsx`):
  - the search box and the "my projects" switch;
  - the tag editor of the create and edit forms;
  - URL normalisation (`url.trim() || null`);
  - the ownership test that shows the Edit/Save and Delete buttons;
  - the in-memory list after `createProject`, `updateProject` and `deleteProject` get their answers.
- **Calendar** (`src/app/calendar/page.tsx`):
  - month navigation;
  - bucketing logs by local day;
  - the 7-column month grid with its per-day counts and "N log(s)" labels;
  - the highlighted cell;
  - the logs list that `fetchLogs` builds, including the 'Untitled Project' fallback.
- **Session store** (`src/contexts/AuthContext.tsx`):
  - the `(user, loading)` pair and its reaction to the session check and to auth events;
  - the rule that a profile row is created on sign-in when none exists;
  - the outcomes of `signIn`, `signUp`, `signOut` and `useAuth`.

Modules, one concept each:

| file | module | what it holds |
|---|---|---|
| wrappers.dfy | Wrappers | `Option` (null/undefined), `Reply` (a backend answer: rows, an error object, or a throw), `Outcome` (returned or raised) |
| text.dfy | Text | JavaScript `trim` over the ECMAScript white-space set, ASCII `toLowerCase`, `includes`, decimal rendering of counts |
| seqs.dfy | Seqs | `Array.prototype.filter` with its order, membership and multiplicity facts |
| tags.dfy | Tags | the "Add tag..." input and the chip remove button |
| projects.dfy | ProjectList | the project list page |
| gregorian.dfy | Gregorian | month lengths, the day count since 1970-01-01, the weekday, month overflow |
| calendar.dfy | CalendarView | the calendar page |
| auth.dfy | Auth | the session store |

Conventions:

- Months are numbered from 0, as `getMonth()` numbers them.
- A log's `created_at` is given as local calendar fields. The Gregorian arithmetic is exact for every integer year.
- A backend answer is `Ok(data)`, `Failed(message)` (the client library's `error` object) or `Threw(message?)` (the awaited call threw).

The comment above the project filter (src/app/page.tsx:176) mentions "selected tags", and the page keeps an empty "Tags Filter" slot in its markup (src/app/page.tsx:324). No tag filter is implemented: the filter at src/app/page.tsx:177-181 checks only the search text and the owner. The model follows the code.

The profile check on sign-in relies on one property of the backend that the app's code does not show: the `profiles` table's `id` column is its primary key, so an insert of an id already present is refused. Auth.InsertProfile states this assumption, and it is the only place that does.

## Model

| member | source | states |
|---|---|---|
| Text.Trim | src/app/page.tsx:92 | the result is no longer than the input, starts and ends with a non-space character, and is empty exactly when the input is all white space |
| Text.TrimRemovesOnlySpace | src/app/page.tsx:102-103 | trimming removes only white space, and only at the two ends: the input is white space + result + white space |
| Text.TrimIdempotent | src/app/page.tsx:151-152 | trimming twice gives the same result as trimming once |
| Text.Lower | src/app/page.tsx:178 | lower-casing keeps the length, maps each upper-case ASCII letter to the lower-case letter 32 code points on, leaves no upper-case ASCII letter and leaves every other character alone |
| Text.LowerIdempotent | src/app/page.tsx:178 | lower-casing twice gives the same result as lower-casing once |
| Text.Includes | src/app/page.tsx:178 | `includes` is true exactly when the needle occurs at some position of the haystack |
| Text.IncludesEmpty | src/app/page.tsx:178 | every title includes the empty query |
| Text.NatToString | src/app/calendar/page.tsx:153 | a count renders as a non-empty run of digits, without a leading zero, that denotes the count |
| Seqs.Filter | src/app/page.tsx:177-181 | `filter` keeps exactly the elements the predicate accepts and never lengthens the list |
| Seqs.FilterIsSubsequence | src/app/page.tsx:139 | `filter` keeps the accepted elements in their original order |
| Seqs.FilterCounts | src/app/page.tsx:177-181 | `filter` keeps each accepted element as many times as it occurs and drops the others entirely |
| Seqs.FilterAppend | src/app/page.tsx:114 | filtering a concatenation is the concatenation of the filtered parts |
| Seqs.FilterSplitLength | src/app/calendar/page.tsx:134-136 | when a predicate accepts exactly what one of two disjoint predicates accepts, its selection is as long as theirs together |
| Seqs.FilterNoDuplicates | src/app/page.tsx:242 | filtering a list without duplicates yields a list without duplicates |
| Tags.KeyDown | src/app/page.tsx:249-263 | a non-Enter key, a blank draft or a full list (5 tags, no input rendered) changes nothing; a committing Enter clears the input, keeps the old tags as a prefix and leaves the trimmed draft in the list, which grows exactly when that tag was new; no duplicate is ever introduced |
| Tags.KeyDownKeepsWellFormed | src/app/page.tsx:377-391 | a list with at most 5 distinct, non-blank, trimmed tags keeps that property under any key press |
| Tags.RemoveTag | src/app/page.tsx:242 | removing a tag deletes every copy of it, keeps every other tag in its original order and with as many copies as before, and on a duplicate-free list shortens it by one exactly when the tag was present |
| Tags.RemoveTagKeepsWellFormed | src/app/page.tsx:370 | removing a tag keeps a well-formed tag list well formed |
| Tags.AddThenRemove | src/app/page.tsx:242-263 | adding a new tag and then removing it restores the original tag list |
| ProjectList.EmptyForm | src/app/page.tsx:115-118 | the reset form has an empty title, no tags and empty URL fields |
| ProjectList.FilteredProjects | src/app/page.tsx:177-181 | a project is listed exactly when its lower-cased title contains the lower-cased query and the owner switch is off or its owner is the signed-in user; the list keeps the original order, and each listed project occurs exactly as often as in the source list |
| ProjectList.EmptySearchListsAll | src/app/page.tsx:178 | with an empty query and the owner switch off, every project is listed, in order |
| ProjectList.SearchIgnoresCase | src/app/page.tsx:178 | searching for the lower-cased query lists the same projects as the query itself |
| ProjectList.MyProjectsAreEditable | src/app/page.tsx:179 | with the owner switch on, every listed project shows its edit and delete buttons, and with nobody signed in nothing is listed |
| ProjectList.ControlsFor | src/app/page.tsx:441-471 | the edit/save and delete buttons appear exactly when the signed-in user owns the project; the first button is Save exactly when the buttons appear and the project is the one being edited |
| ProjectList.NormaliseUrl | src/app/page.tsx:102-103 | a URL field is stored as nothing exactly when it is all white space; otherwise the stored URL is the field with only its leading and trailing white space cut off (field = white space + URL + white space), non-empty and with non-space ends |
| ProjectList.UrlField | src/app/page.tsx:456-457 | the edit form shows a stored URL as it is and an absent one as an empty field |
| ProjectList.UrlRoundTrip | src/app/page.tsx:456-457 | normalising what the edit form shows for a normalised URL gives the same URL back |
| ProjectList.StoredUrlRoundTrip | src/app/page.tsx:456-457 | for a URL in stored form, showing it in the edit form and normalising it again gives it back |
| ProjectList.CreateRequest | src/app/page.tsx:92-104 | nothing is sent when the title is all white space or nobody is signed in; otherwise the title is sent untrimmed, the owner is the signed-in user, the tags are the form's, and each URL is the normalisation of its form field, hence in stored form |
| ProjectList.CreateProject | src/app/page.tsx:110-122 | without a request the page is unchanged; on success the returned rows go ahead of the old list and only the create form resets; on an error object or a throw the list and forms stay and the banner shows "Error creating project: …", the thrown message, or "An unexpected error occurred" |
| ProjectList.DeleteProject | src/app/page.tsx:128-141 | a declined confirmation or an unsuccessful delete changes nothing; a successful one removes exactly the projects with that id, keeps the rest in order and as often as they occurred, and touches nothing else |
| ProjectList.BeginEdit | src/app/page.tsx:452-457 | the Edit button marks the project as being edited and fills the form with its title, its tags and its URLs, an absent URL as an empty field; nothing else changes |
| ProjectList.FormFor | src/app/page.tsx:454-457 | the edit form for a project shows its title and tags, each URL as stored and an absent URL as an empty field, so URL fields in stored form normalise back to its URLs |
| ProjectList.ApplyEdit | src/app/page.tsx:160-166 | an edited project keeps its id, owner, creation time and owner name, takes the form's title and tags, and stores each URL as the normalisation of its form field |
| ProjectList.PatchProjects | src/app/page.tsx:159-167 | the patched list has the same length, and each entry is the edited copy when its id matches and the old entry otherwise |
| ProjectList.PatchOnlyTouchesTarget | src/app/page.tsx:159-167 | entries with another id are unchanged; an entry with the id differs from the old one only in title, tags and the two URLs |
| ProjectList.UpdateProject | src/app/page.tsx:143-174 | a blank edit title or an unsuccessful update changes nothing; a successful one patches the list, closes and resets the edit form, and leaves the create form and banner alone |
| ProjectList.ApplyUnchangedForm | src/app/page.tsx:452-457 | applying a stored project's own edit form to it gives the project back |
| ProjectList.PatchFixedPoint | src/app/page.tsx:159-167 | when every entry with the edited id is one project that the form leaves as it is, patching leaves the list as it was |
| ProjectList.PatchUnchanged | src/app/page.tsx:159-167 | patching with the unchanged form of p, when every entry with p's id is p, leaves the list as it was |
| ProjectList.SaveUnchangedEdit | src/app/page.tsx:143-174 | opening the edit form on a stored project and saving it unchanged leaves a list with unique ids as it was |
| ProjectList.CreateThenDelete | src/app/page.tsx:114 | creating a project whose returned row has a fresh id, then deleting it, restores the list |
| Gregorian.DaysInMonth | src/app/calendar/page.tsx:125-126 | every month has 28 to 31 days, and February has 29 exactly in leap years |
| Gregorian.MakeMonth | src/app/calendar/page.tsx:103 | an out-of-range month number overflows into the year and keeps the month index (12 × year + month); an in-range month stays as given |
| Gregorian.IndexInjective | src/app/calendar/page.tsx:102-108 | two months with the same month index are the same month |
| Gregorian.Weekday | src/app/calendar/page.tsx:127 | `getDay()` is a number from 0 (Sunday) to 6 |
| Gregorian.KnownDays | src/app/calendar/page.tsx:124 | the day count and weekday agree with known dates: 1970-01-01 is day 0, a Thursday; 2000-03-01 is day 11017, a Wednesday; 2024-01-01 is a Monday; 2026-10-10 is a Saturday |
| Gregorian.DayNumberStep | src/app/calendar/page.tsx:134-135 | consecutive days of a month have consecutive day counts and weekdays |
| Gregorian.FebruarySpan | src/app/calendar/page.tsx:125-126 | March 1 comes DaysInMonth(February) days after February 1, in every year |
| Gregorian.DaysInMonthSpansMonth | src/app/calendar/page.tsx:125-126 | in every month the first of the next month comes DaysInMonth days after this month's first, so the month length agrees with the day count |
| CalendarView.NextMonth | src/app/calendar/page.tsx:106-108 | the next month is the first of the month whose index is one higher; December wraps to January of the next year |
| CalendarView.PrevMonth | src/app/calendar/page.tsx:102-104 | the previous month is the first of the month whose index is one lower; January wraps to December of the previous year |
| CalendarView.NavigationRoundTrip | src/app/calendar/page.tsx:102-108 | going forward then back, or back then forward, returns to the same month, and to the same date when it was a first |
| CalendarView.ConstructorYear | src/app/calendar/page.tsx:103 | the `Date` constructor reads a year from 0 to 99 as 1900 to 1999 and every other year as given |
| CalendarView.NextMonthAsWritten | src/app/calendar/page.tsx:106-108 | `nextMonth` as written lands on the first of the month whose index is one above the shown month's in the year the constructor reads (1900 + y for a year y from 0 to 99) |
| CalendarView.PrevMonthAsWritten | src/app/calendar/page.tsx:102-104 | `prevMonth` as written lands on the first of the month whose index is one below the shown month's in the year the constructor reads |
| CalendarView.AsWrittenAgreesOutsideTwoDigitYears | src/app/calendar/page.tsx:102-108 | outside the years 0 to 99, the navigation as written equals NextMonth and PrevMonth |
| CalendarView.TwoDigitYearBreaksRoundTrip | src/app/calendar/page.tsx:102-108 | as written, going back from January of year 100 reaches December of year 99, and going forward from there reaches January 2000 |
| CalendarView.LogsForDate | src/app/calendar/page.tsx:110-119 | a log is in a day's bucket exactly when its local year, month and day equal that day's; the bucket keeps the logs' order, and each log on that day as often as it occurs |
| CalendarView.BucketsAreDisjoint | src/app/calendar/page.tsx:110-119 | no log is in the buckets of two different days |
| CalendarView.MidnightSeparatesDays | src/app/calendar/page.tsx:110-119 | a log at 23:50 on the 5th and one at 00:10 on the 6th land in different buckets |
| CalendarView.CountLabel | src/app/calendar/page.tsx:151-155 | a label exists exactly when the count is positive, and it ends in "s" exactly when the count is not 1 |
| CalendarView.DigitPrefixOfDigits | src/app/calendar/page.tsx:153 | the leading digit run of digits followed by a non-digit is those digits |
| CalendarView.CountLabelNamesCount | src/app/calendar/page.tsx:153 | the number a label starts with is the count it labels |
| CalendarView.IsSelected | src/app/calendar/page.tsx:137-140 | a cell is highlighted exactly when a date is selected and it is this cell's date |
| CalendarView.DayCell | src/app/calendar/page.tsx:135-156 | a day cell shows its day number, the size of that day's bucket, the count label for that size (present exactly when some log lies on that day), and the highlight exactly when that day is the selected date |
| CalendarView.SumCountsAppend | src/app/calendar/page.tsx:142-157 | adding a cell to the grid adds its count to the grid's total |
| CalendarView.WindowStep | src/app/calendar/page.tsx:134-136 | the month's logs on days 1..k are those on days 1..k-1 plus the bucket of day k |
| CalendarView.WindowEmpty | src/app/calendar/page.tsx:134 | no log lies on days 1..0 |
| CalendarView.WindowCoversMonth | src/app/calendar/page.tsx:125-126 | for real timestamps, the logs on days 1..daysInMonth are all the logs of the month |
| CalendarView.GridMonth | src/app/calendar/page.tsx:124-135 | the grid draws the shown month of the year the constructor reads: 1900 + y for a year y from 0 to 99, the shown year otherwise |
| CalendarView.RenderGrid | src/app/calendar/page.tsx:124-161 | the grid of a month has weekday-of-the-1st (0..6) blanks, then one cell per day 1..daysInMonth in order, each the DayCell of that day; for real timestamps the counts add up to the number of logs in the month |
| CalendarView.RenderCalendar | src/app/calendar/page.tsx:121-161 | `renderCalendar` draws that grid for the month GridMonth gives: the blanks, one DayCell per day with its bucket's size, label and highlight, and for real timestamps every log of that month counted once |
| CalendarView.NormaliseLog | src/app/calendar/page.tsx:80-88 | a normalised log keeps id, project id, content and timestamp; its title is the joined title when that is non-empty and 'Untitled Project' otherwise |
| CalendarView.NormaliseLogs | src/app/calendar/page.tsx:80-88 | normalisation keeps the number and order of logs and leaves every title non-empty |
| CalendarView.NormaliseKeepsIds | src/app/calendar/page.tsx:80-88 | the normalised logs carry the rows' ids and timestamps in the rows' order |
| CalendarView.InitialCalendar | src/app/calendar/page.tsx:32-36 | the page starts with no logs, loading, and no error |
| CalendarView.ErrorOf | src/app/calendar/page.tsx:91-93 | the banner shows a backend error's message, or the thrown value's message, which may be absent |
| CalendarView.FetchLogs | src/app/calendar/page.tsx:46-97 | loading always ends; a failed projects query keeps the logs and sets the error; no projects empties the logs without a logs query; otherwise a successful logs query replaces the logs with the normalised rows and a failed one keeps the logs and sets the error |
| CalendarView.FetchedLogsHaveTitles | src/app/calendar/page.tsx:80-90 | every log the page holds after a fetch has a non-empty project title |
| CalendarView.CalendarEffect | src/app/calendar/page.tsx:38-52 | the page waits exactly while the session is loading, sends a signed-out visitor to /auth, and otherwise fetches the logs for the signed-in user's id |
| Auth.Initial | src/contexts/AuthContext.tsx:18-19 | the store starts with no user and loading |
| Auth.OnSession | src/contexts/AuthContext.tsx:24-29 | the session check sets the user only when the session has one, never clears it, and ends loading |
| Auth.CountIdPositive | src/contexts/AuthContext.tsx:36-40 | an id occurs in the profiles table exactly when some row carries it |
| Auth.CountIdUnique | src/contexts/AuthContext.tsx:36-40 | a table with unique ids has at most one row per id |
| Auth.FirstWithId | src/contexts/AuthContext.tsx:36-40 | a row is found exactly when the table has one with the id, and the found row carries it |
| Auth.SelectSingle | src/contexts/AuthContext.tsx:36-40 | the lookup's data is only ever a row with the id; a failed lookup gives no data; on a table with unique ids a lookup that goes through gives a row exactly when a profile exists |
| Auth.DisplayName | src/contexts/AuthContext.tsx:48 | a new profile's name is the metadata full name when it is present and non-empty, and 'Anonymous' otherwise |
| Auth.InsertProfile | src/contexts/AuthContext.tsx:43-52 | an insert appends the row exactly when the backend accepts it and no row has its id yet, and otherwise leaves the table; unique ids stay unique |
| Auth.EnsureProfile | src/contexts/AuthContext.tsx:36-56 | existing rows are never changed; a row is inserted only after a lookup that gave no data, including a failed lookup; it is appended exactly when the lookup gave no data, the backend accepted the insert and no row had the id; it carries the user's id, display name and time; a user who has a row keeps the table unchanged; unique ids stay unique; an accepted insert leaves the user with a profile |
| Auth.EnsureProfileIdempotent | src/contexts/AuthContext.tsx:36-56 | once the user's profile exists, another SIGNED_IN leaves the table as it is, whatever the backend answers |
| Auth.OnAuthEvent | src/contexts/AuthContext.tsx:32-60 | the synchronous part of the auth-event callback: SIGNED_IN with a session user sets the user and leaves loading as it was, since the callback then awaits the profile check; SIGNED_OUT clears the user and ends loading; any other event only ends loading; the profiles are untouched |
| Auth.OnProfileChecked | src/contexts/AuthContext.tsx:35-60 | when the awaited lookup and insert of a SIGNED_IN have answered, the profile rule runs for that user and loading ends; the user is not changed |
| Auth.Step | src/contexts/AuthContext.tsx:24-61 | a SIGNED_IN with a user sets it and leaves loading as it was; every other signal ends loading; profile rows are only appended, unique ids stay unique, and the user is the previous one or the one the signal carried |
| Auth.RunInvariants | src/contexts/AuthContext.tsx:22-64 | over any sequence of session answers, events and profile-check answers, no profile row is removed or changed and ids stay unique |
| Auth.RunLoading | src/contexts/AuthContext.tsx:22-64 | after any sequence of signals the store is loading exactly when it was loading before and every signal was a SIGNED_IN with a user, and then, after at least one signal, it shows a user |
| Auth.RunUserComesFromSignals | src/contexts/AuthContext.tsx:22-64 | the store's user is absent, the initial one, or one some signal carried |
| Auth.InitialRunPhase | src/contexts/AuthContext.tsx:18-60 | from the initial state the store stays loading exactly while every signal so far is a SIGNED_IN with a user whose profile check has not answered; a loading store has no user before the first signal and has one after it |
| Auth.SignedInShowsUserWhileLoading | src/contexts/AuthContext.tsx:33-60 | right after the first SIGNED_IN the store shows the user while still loading; the profile check's answer then ends loading and keeps the user |
| Auth.SignIn | src/contexts/AuthContext.tsx:66-70 | `signIn` raises the backend error when there is one and otherwise navigates to / |
| Auth.SignUp | src/contexts/AuthContext.tsx:72-99 | `signUp` raises the backend error, or "No user data returned after sign up" when no user came back, and otherwise navigates to /auth |
| Auth.SignOut | src/contexts/AuthContext.tsx:101-105 | `signOut` raises the backend error when there is one and otherwise navigates to /auth |
| Auth.UseAuth | src/contexts/AuthContext.tsx:114-119 | `useAuth` raises "useAuth must be used within an AuthProvider" exactly when there is no provider, and otherwise returns the provider's state |

## Left out

- Backend I/O: the queries, inserts, updates, deletes and auth calls are not modelled. Their answers are inputs. Server-side ordering by `created_at` and row-level security are left out too, since the server does them.
- `fetchProjects` on the project list (src/app/page.tsx:44-89). It clears the banner, then stores the returned rows (the empty list when there are none). On an error object it sets "Error fetching projects: …" (src/app/page.tsx:73); on a throw it sets the thrown message or "An unexpected error occurred" (src/app/page.tsx:87). It is not modelled: it only mirrors the backend's answer into the page state.
- Timestamp parsing, time zones and `toLocale*String` formatting are left out. A log's time is given as local calendar fields, and the model assumes `new Date(created_at)` already produced them.
- The `Date` range limit of ±100,000,000 days around 1970 is left out; years are unbounded integers.
- Text.Lower: only ASCII letters are lower-cased. `toLowerCase` also maps non-ASCII letters, and the Unicode tables are outside the model.
- A tag filter on the project list is not modelled, because the code does not implement one (see the note on src/app/page.tsx:176 and :324 above).
- A profile lookup or insert that throws, instead of answering with an error object, would abandon the SIGNED_IN callback before it ends loading. The model takes every answer as returned: a failed lookup is `lookupFails`, a refused insert is `insertAccepted == false`.
- Races are only partly modelled. A SIGNED_IN callback is two signals: the event, which sets the user, and the answers of its awaited profile check, which end loading. Signals may arrive in any order, so another event can fall between those two halves. The lookup and the insert of one profile check are applied together, as one signal. So is each `getSession` answer and each page request's answer.
- `confirm`, `alert` and `console.error` are browser I/O. Confirmation is a boolean input; the alert after sign-up and the logged errors have no state effect.
- The `isCreating` flag, which only disables the create button while a request is in flight.
- The sign-up request payload (the `full_name` metadata and the e-mail redirect URL), which goes only to the identity service.
- A `null` tag list from the backend appears in the model as the empty list, which is what the Edit button shows (`project.tags || []`).
- The logs query's `.in('project_id', ids)` restriction is done by the server. FetchLogs takes the rows it returned as they are.
- The calendar's "Loading..." screen, the selected day's log list and the rest of the markup: they only display the modelled state.
- Other pages and components (the auth callback, project detail pages, the navigation bar, the progress-log form and the project card) are not part of this model.

## Findings

| source | as written | input that shows it | evidently intended | confidence | as-written member | corrected member |
|---|---|---|---|---|---|---|
| src/app/calendar/page.tsx:102-108 | `new Date(year, month ± 1, 1)` applies the `Date` constructor's rule that reads years 0 to 99 as 1900 to 1999 | from January of year 100, `prevMonth` shows December of year 99; then `nextMonth` shows January 2000 instead of January of year 100 | the adjacent month of the displayed year, in every year | not executed; the state is reached only after about 1,900 years of clicking back | CalendarView.TwoDigitYearBreaksRoundTrip | CalendarView.NavigationRoundTrip |
