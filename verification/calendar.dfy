/** The progress-log calendar (src/app/calendar/page.tsx): month navigation,
    bucketing logs by local day, the month grid with its per-day counts, the
    selected cell, and the logs list `fetchLogs` builds from the backend's
    answers. Timestamps are taken as already-local calendar fields. */
module CalendarView {
  import opened Wrappers
  import opened Text
  import opened Seqs
  import opened Gregorian
  import Auth

  /** A log's `created_at` as local calendar fields (`getFullYear`, `getMonth`,
      `getDate`, `getHours`, `getMinutes`). */
  datatype LocalTime = LocalTime(year: int, month: Month, day: int, hour: int, minute: int)

  /** What every JavaScript `Date` satisfies: the day exists in its month. */
  predicate IsValidTime(t: LocalTime) {
    1 <= t.day <= DaysInMonth(t.year, t.month) && 0 <= t.hour < 24 && 0 <= t.minute < 60
  }

  /** A calendar day: `currentDate`, `selectedDate` and the date behind each day cell. */
  datatype Date = Date(year: int, month: Month, day: int)

  /** A normalised progress log with its project's title. */
  datatype Log = Log(id: string, projectId: string, content: string, createdAt: LocalTime, projectTitle: string)

  // ---------------------------------------------------------------- navigation

  function MonthOf(d: Date): YearMonth {
    YearMonth(d.year, d.month)
  }

  /** `nextMonth`: the first of the following month; December wraps to January of the next year. */
  function NextMonth(d: Date): (r: Date)
    ensures r.day == 1
    ensures MonthOf(r).Index() == MonthOf(d).Index() + 1
    ensures d.month == 11 ==> r.year == d.year + 1 && r.month == 0
    ensures d.month < 11 ==> r.year == d.year && r.month == d.month + 1
  {
    var ym := MakeMonth(d.year, d.month + 1);
    Date(ym.year, ym.month, 1)
  }

  /** `prevMonth`: the first of the preceding month; January wraps to December of the previous year. */
  function PrevMonth(d: Date): (r: Date)
    ensures r.day == 1
    ensures MonthOf(r).Index() == MonthOf(d).Index() - 1
    ensures d.month == 0 ==> r.year == d.year - 1 && r.month == 11
    ensures d.month > 0 ==> r.year == d.year && r.month == d.month - 1
  {
    var ym := MakeMonth(d.year, d.month - 1);
    Date(ym.year, ym.month, 1)
  }

  /** Going forward and back (or back and forward) returns to the same month, on its first day. */
  lemma NavigationRoundTrip(d: Date)
    ensures MonthOf(PrevMonth(NextMonth(d))) == MonthOf(d)
    ensures MonthOf(NextMonth(PrevMonth(d))) == MonthOf(d)
    ensures d.day == 1 ==> PrevMonth(NextMonth(d)) == d && NextMonth(PrevMonth(d)) == d
  {
    IndexInjective(MonthOf(PrevMonth(NextMonth(d))), MonthOf(d));
    IndexInjective(MonthOf(NextMonth(PrevMonth(d))), MonthOf(d));
  }

  /** The year the `Date` constructor actually uses: a year from 0 to 99 is
      read as 1900 to 1999. */
  function ConstructorYear(y: int): (r: int)
    ensures 0 <= y <= 99 ==> r == 1900 + y
    ensures !(0 <= y <= 99) ==> r == y
  {
    if 0 <= y <= 99 then 1900 + y else y
  }

  /** `nextMonth` as written, through `new Date(year, month + 1, 1)`: the first
      of the month after the shown month of the year the constructor reads. */
  function NextMonthAsWritten(d: Date): (r: Date)
    ensures r.day == 1
    ensures MonthOf(r).Index() == 12 * ConstructorYear(d.year) + d.month + 1
  {
    var ym := MakeMonth(ConstructorYear(d.year), d.month + 1);
    Date(ym.year, ym.month, 1)
  }

  /** `prevMonth` as written, through `new Date(year, month - 1, 1)`. */
  function PrevMonthAsWritten(d: Date): (r: Date)
    ensures r.day == 1
    ensures MonthOf(r).Index() == 12 * ConstructorYear(d.year) + d.month - 1
  {
    var ym := MakeMonth(ConstructorYear(d.year), d.month - 1);
    Date(ym.year, ym.month, 1)
  }

  /** Outside the years 0 to 99 the code as written is the wrap arithmetic above. */
  lemma AsWrittenAgreesOutsideTwoDigitYears(d: Date)
    requires !(0 <= d.year <= 99)
    ensures NextMonthAsWritten(d) == NextMonth(d) && PrevMonthAsWritten(d) == PrevMonth(d)
  {
  }

  /** Going back from January of year 100 reaches December of year 99, and going
      forward from there lands in January 2000, not back in January of year 100. */
  lemma TwoDigitYearBreaksRoundTrip()
    ensures PrevMonthAsWritten(Date(100, 0, 1)) == Date(99, 11, 1)
    ensures NextMonthAsWritten(Date(99, 11, 1)) == Date(2000, 0, 1)
  {
    assert MakeMonth(100, -1) == YearMonth(99, 11);
    assert MakeMonth(1999, 12) == YearMonth(2000, 0);
  }

  // ---------------------------------------------------------------- day buckets

  predicate OnDate(t: LocalTime, d: Date) {
    t.day == d.day && t.month == d.month && t.year == d.year
  }

  function OnDay(d: Date): Log -> bool {
    (l: Log) => OnDate(l.createdAt, d)
  }

  /** `getLogsForDate`: the logs stamped on that local day, in their original
      order and with their multiplicities. */
  function LogsForDate(logs: seq<Log>, d: Date): (r: seq<Log>)
    ensures forall l :: l in r <==>
      l in logs && l.createdAt.year == d.year && l.createdAt.month == d.month && l.createdAt.day == d.day
    ensures IsSubsequence(r, logs)
    ensures forall l :: multiset(r)[l] == if OnDate(l.createdAt, d) then multiset(logs)[l] else 0
  {
    FilterIsSubsequence(OnDay(d), logs);
    FilterCounts(OnDay(d), logs);
    Filter(OnDay(d), logs)
  }

  /** No log lies in the buckets of two different days. */
  lemma BucketsAreDisjoint(logs: seq<Log>, d1: Date, d2: Date)
    requires d1 != d2
    ensures forall l :: l in LogsForDate(logs, d1) ==> l !in LogsForDate(logs, d2)
  {
  }

  /** A log at 23:50 on the 5th and one at 00:10 on the 6th land in different cells. */
  lemma MidnightSeparatesDays()
    ensures
      var late := Log("a", "p", "", LocalTime(2024, 2, 5, 23, 50), "P");
      var early := Log("b", "p", "", LocalTime(2024, 2, 6, 0, 10), "P");
      && LogsForDate([late, early], Date(2024, 2, 5)) == [late]
      && LogsForDate([late, early], Date(2024, 2, 6)) == [early]
  {
    var late := Log("a", "p", "", LocalTime(2024, 2, 5, 23, 50), "P");
    var early := Log("b", "p", "", LocalTime(2024, 2, 6, 0, 10), "P");
    var logs := [late, early];
    assert logs[1..] == [early] && logs[1..][1..] == [];
    var d5, d6 := Date(2024, 2, 5), Date(2024, 2, 6);
    assert Filter(OnDay(d5), [early]) == [] && Filter(OnDay(d6), [early]) == [early];
    assert Filter(OnDay(d5), logs) == [late] + Filter(OnDay(d5), [early]);
    assert Filter(OnDay(d6), logs) == Filter(OnDay(d6), [early]);
  }

  // ---------------------------------------------------------------- cells

  /** The label under a day number: absent for no logs, otherwise the count and
      "log", with an "s" unless the count is exactly one. */
  function CountLabel(n: nat): (r: Option<string>)
    ensures r.Some? <==> n > 0
    ensures r.Some? ==> |r.value| > 4 && (r.value[|r.value| - 1] == 's' <==> n != 1)
  {
    if n > 0 then
      Some(NatToString(n) + " log" + (if n != 1 then "s" else ""))
    else
      None
  }

  /** The run of decimal digits a string starts with. */
  function DigitPrefix(s: string): (r: string)
    ensures AllDigits(r) && |r| <= |s| && r == s[..|r|]
  {
    if s != [] && IsDigit(s[0]) then [s[0]] + DigitPrefix(s[1..]) else []
  }

  lemma {:induction false} DigitPrefixOfDigits(a: string, b: string)
    requires AllDigits(a) && (b == [] || !IsDigit(b[0]))
    ensures DigitPrefix(a + b) == a
    decreases |a|
  {
    if a == [] {
      assert a + b == b;
    } else {
      assert (a + b)[0] == a[0] && (a + b)[1..] == a[1..] + b;
      DigitPrefixOfDigits(a[1..], b);
    }
  }

  /** The number a label starts with is the count it labels. */
  lemma CountLabelNamesCount(n: nat)
    requires n > 0
    ensures DigitsValue(DigitPrefix(CountLabel(n).value)) == n
  {
    var suffix := " log" + (if n != 1 then "s" else "");
    assert NatToString(n) + " log" + (if n != 1 then "s" else "") == NatToString(n) + suffix;
    DigitPrefixOfDigits(NatToString(n), suffix);
  }

  /** `isSelected`: a date is selected and it is this very day. */
  function IsSelected(selected: Option<Date>, d: Date): (r: bool)
    ensures r <==> selected == Some(d)
  {
    selected.Some? && d.day == selected.value.day && d.month == selected.value.month && d.year == selected.value.year
  }

  /** One square of the month grid: a leading blank, or a day with its log count,
      count label and highlight. */
  datatype Cell = Blank | Day(day: int, count: nat, caption: Option<string>, selected: bool)

  /** The cell of day `day` of the month the grid draws: the day number, the
      number of logs stamped on that day, the count's label (present exactly
      when there is at least one log), and the highlight exactly when that day
      is the selected date. */
  function DayCell(view: YearMonth, day: int, logs: seq<Log>, selected: Option<Date>): (c: Cell)
    ensures c.Day? && c.day == day
    ensures c.count == |LogsForDate(logs, Date(view.year, view.month, day))|
    ensures c.caption == CountLabel(c.count)
    ensures c.selected <==> selected == Some(Date(view.year, view.month, day))
  {
    var d := Date(view.year, view.month, day);
    var n := |LogsForDate(logs, d)|;
    Day(day, n, CountLabel(n), IsSelected(selected, d))
  }

  function CellCount(c: Cell): nat {
    if c.Day? then c.count else 0
  }

  /** The logs counted over a grid. */
  function SumCounts(cells: seq<Cell>): nat {
    if cells == [] then 0 else SumCounts(cells[..|cells| - 1]) + CellCount(cells[|cells| - 1])
  }

  lemma SumCountsAppend(cells: seq<Cell>, c: Cell)
    ensures SumCounts(cells + [c]) == SumCounts(cells) + CellCount(c)
  {
    assert (cells + [c])[..|cells|] == cells;
  }

  lemma AppendKeepsPrefix(cells: seq<Cell>, c: Cell)
    ensures forall j :: 0 <= j < |cells| ==> (cells + [c])[j] == cells[j]
    ensures (cells + [c])[|cells|] == c
  {
  }

  /** The logs of the viewed month whose day lies in 1..k. */
  function InWindow(view: YearMonth, k: int): Log -> bool {
    (l: Log) => l.createdAt.year == view.year && l.createdAt.month == view.month && 1 <= l.createdAt.day <= k
  }

  function InMonth(view: YearMonth): Log -> bool {
    (l: Log) => l.createdAt.year == view.year && l.createdAt.month == view.month
  }

  lemma WindowStep(logs: seq<Log>, view: YearMonth, k: int)
    requires k >= 1
    ensures |Filter(InWindow(view, k), logs)|
         == |Filter(InWindow(view, k - 1), logs)| + |LogsForDate(logs, Date(view.year, view.month, k))|
  {
    FilterSplitLength(InWindow(view, k), InWindow(view, k - 1), OnDay(Date(view.year, view.month, k)), logs);
  }

  lemma WindowEmpty(logs: seq<Log>, view: YearMonth)
    ensures Filter(InWindow(view, 0), logs) == []
  {
  }

  /** For real timestamps the window up to the month's last day is the whole month. */
  lemma WindowCoversMonth(logs: seq<Log>, view: YearMonth)
    requires forall l :: l in logs ==> IsValidTime(l.createdAt)
    ensures Filter(InWindow(view, DaysInMonth(view.year, view.month)), logs) == Filter(InMonth(view), logs)
  {
    FilterCongruent(InWindow(view, DaysInMonth(view.year, view.month)), InMonth(view), logs);
  }

  /** The month the grid draws for the shown month. `renderCalendar` rebuilds
      its dates with `new Date(year, month, day)`, which reads a year from 0 to
      99 as 1900 to 1999; every other year is drawn as shown. */
  function GridMonth(view: YearMonth): (g: YearMonth)
    ensures g.month == view.month && g.year == ConstructorYear(view.year)
    ensures !(0 <= view.year <= 99) ==> g == view
  {
    YearMonth(ConstructorYear(view.year), view.month)
  }

  /** The grid of one month: as many blanks as the weekday of its first day,
      then one cell per day in order, counting every log of the month once
      when the timestamps are real. */
  method RenderGrid(grid: YearMonth, logs: seq<Log>, selected: Option<Date>) returns (startingDay: int, cells: seq<Cell>)
    ensures startingDay == Weekday(grid.year, grid.month, 1) && 0 <= startingDay <= 6
    ensures |cells| == startingDay + DaysInMonth(grid.year, grid.month)
    ensures forall i :: 0 <= i < startingDay ==> cells[i] == Blank
    ensures forall k :: 1 <= k <= DaysInMonth(grid.year, grid.month) ==>
      cells[startingDay + k - 1] == DayCell(grid, k, logs, selected)
    ensures (forall l :: l in logs ==> IsValidTime(l.createdAt)) ==>
      SumCounts(cells) == |Filter(InMonth(grid), logs)|
  {
    startingDay := Weekday(grid.year, grid.month, 1);
    var daysInMonth := DaysInMonth(grid.year, grid.month);
    cells := [];
    var i := 0;
    while i < startingDay
      invariant 0 <= i <= startingDay
      invariant |cells| == i
      invariant forall j :: 0 <= j < i ==> cells[j] == Blank
      invariant SumCounts(cells) == 0
    {
      SumCountsAppend(cells, Blank);
      cells := cells + [Blank];
      i := i + 1;
    }
    WindowEmpty(logs, grid);
    var day := 1;
    while day <= daysInMonth
      invariant 1 <= day <= daysInMonth + 1
      invariant |cells| == startingDay + day - 1
      invariant forall j :: 0 <= j < startingDay ==> cells[j] == Blank
      invariant forall k :: 1 <= k < day ==> cells[startingDay + k - 1] == DayCell(grid, k, logs, selected)
      invariant SumCounts(cells) == |Filter(InWindow(grid, day - 1), logs)|
    {
      var cell := DayCell(grid, day, logs, selected);
      SumCountsAppend(cells, cell);
      WindowStep(logs, grid, day);
      AppendKeepsPrefix(cells, cell);
      cells := cells + [cell];
      day := day + 1;
    }
    if forall l :: l in logs ==> IsValidTime(l.createdAt) {
      WindowCoversMonth(logs, grid);
    }
  }

  /** `renderCalendar`: the grid of the month GridMonth draws for the shown
      month, with its blanks, its day cells (each carrying its bucket's size,
      label and highlight) and, for real timestamps, every log of that month
      counted exactly once. */
  method RenderCalendar(view: YearMonth, logs: seq<Log>, selected: Option<Date>) returns (startingDay: int, cells: seq<Cell>)
    ensures startingDay == Weekday(GridMonth(view).year, GridMonth(view).month, 1) && 0 <= startingDay <= 6
    ensures |cells| == startingDay + DaysInMonth(GridMonth(view).year, GridMonth(view).month)
    ensures forall i :: 0 <= i < startingDay ==> cells[i] == Blank
    ensures forall k :: 1 <= k <= DaysInMonth(GridMonth(view).year, GridMonth(view).month) ==>
      cells[startingDay + k - 1] == DayCell(GridMonth(view), k, logs, selected)
    ensures (forall l :: l in logs ==> IsValidTime(l.createdAt)) ==>
      SumCounts(cells) == |Filter(InMonth(GridMonth(view)), logs)|
  {
    startingDay, cells := RenderGrid(GridMonth(view), logs, selected);
  }

  // ---------------------------------------------------------------- fetchLogs

  /** A row of the logs query: `project` is the joined project's title, absent
      when the join or the title is missing. */
  datatype RawLog = RawLog(id: string, projectId: string, content: string, createdAt: LocalTime, projectTitle: Option<string>)

  const UntitledProject := "Untitled Project"

  /** `log.project?.title || 'Untitled Project'` and the copied fields. */
  function NormaliseLog(raw: RawLog): (l: Log)
    ensures l.id == raw.id && l.projectId == raw.projectId
    ensures l.content == raw.content && l.createdAt == raw.createdAt
    ensures l.projectTitle != []
    ensures raw.projectTitle.Some? && raw.projectTitle.value != [] ==> l.projectTitle == raw.projectTitle.value
    ensures l.projectTitle == UntitledProject <==>
      raw.projectTitle.None? || raw.projectTitle.value == [] || raw.projectTitle.value == UntitledProject
  {
    var title := if raw.projectTitle.Some? && raw.projectTitle.value != [] then raw.projectTitle.value else UntitledProject;
    Log(raw.id, raw.projectId, raw.content, raw.createdAt, title)
  }

  /** `(logsData || []).map(...)`: one log per row, in the rows' order. */
  function NormaliseLogs(raws: seq<RawLog>): (r: seq<Log>)
    ensures |r| == |raws|
    ensures forall i :: 0 <= i < |raws| ==> r[i] == NormaliseLog(raws[i])
    ensures forall l :: l in r ==> l.projectTitle != []
    decreases |raws|
  {
    if raws == [] then [] else [NormaliseLog(raws[0])] + NormaliseLogs(raws[1..])
  }

  /** Normalisation loses no log and reorders none: the ids come out as they went in. */
  lemma NormaliseKeepsIds(raws: seq<RawLog>)
    ensures forall i :: 0 <= i < |raws| ==> NormaliseLogs(raws)[i].id == raws[i].id
    ensures forall i :: 0 <= i < |raws| ==> NormaliseLogs(raws)[i].createdAt == raws[i].createdAt
  {
  }

  /** The calendar page's data state. */
  datatype CalendarState = CalendarState(logs: seq<Log>, loading: bool, error: Option<string>)

  function InitialCalendar(): (st: CalendarState)
    ensures st.logs == [] && st.loading && st.error.None?
  {
    CalendarState([], true, None)
  }

  /** `setError(err.message)` in the catch block: a backend error's message, or
      the thrown value's message, absent when it has none. */
  function ErrorOf<T>(reply: Reply<T>): (e: Option<string>)
    requires !reply.Ok?
    ensures reply.Failed? ==> e == Some(reply.message)
    ensures reply.Threw? ==> e == reply.thrown
  {
    if reply.Failed? then Some(reply.message) else reply.thrown
  }

  /** `fetchLogs` once both queries have answered: `projects` lists the ids of
      the user's projects, and `logsReply` is consulted only when there is at
      least one. Loading always ends; an error keeps the previous logs. */
  function FetchLogs(st: CalendarState, projects: Reply<Option<seq<string>>>, logsReply: Reply<Option<seq<RawLog>>>): (r: CalendarState)
    ensures !r.loading
    ensures !projects.Ok? ==> r == CalendarState(st.logs, false, ErrorOf(projects))
    ensures projects.Ok? && projects.data.GetOr([]) == [] ==> r == CalendarState([], false, st.error)
    ensures projects.Ok? && projects.data.GetOr([]) != [] ==>
      && (logsReply.Ok? ==> r == CalendarState(NormaliseLogs(logsReply.data.GetOr([])), false, st.error))
      && (!logsReply.Ok? ==> r == CalendarState(st.logs, false, ErrorOf(logsReply)))
  {
    match projects
    case Failed(_) => st.(loading := false, error := ErrorOf(projects))
    case Threw(_) => st.(loading := false, error := ErrorOf(projects))
    case Ok(ids) =>
      if ids.None? || ids.value == [] then
        st.(logs := [], loading := false)
      else
        match logsReply
        case Ok(rows) => st.(logs := NormaliseLogs(rows.GetOr([])), loading := false)
        case Failed(_) => st.(loading := false, error := ErrorOf(logsReply))
        case Threw(_) => st.(loading := false, error := ErrorOf(logsReply))
  }

  /** Every log the page holds after a fetch carries a non-empty project title. */
  lemma FetchedLogsHaveTitles(st: CalendarState, projects: Reply<Option<seq<string>>>, logsReply: Reply<Option<seq<RawLog>>>)
    requires forall l :: l in st.logs ==> l.projectTitle != []
    ensures forall l :: l in FetchLogs(st, projects, logsReply).logs ==> l.projectTitle != []
  {
  }

  /** What the page's effect does for an auth state: wait while auth is
      loading, send a signed-out visitor to the sign-in page, otherwise fetch
      the signed-in user's logs. */
  datatype PageEffect = WaitForAuth | Redirect(path: string) | Fetch(userId: string)

  function CalendarEffect(auth: Auth.AuthState): (e: PageEffect)
    ensures auth.loading <==> e == WaitForAuth
    ensures e.Redirect? <==> !auth.loading && auth.user.None?
    ensures e.Redirect? ==> e.path == "/auth"
    ensures e.Fetch? ==> auth.user.Some? && e.userId == auth.user.value.id
  {
    if auth.loading then WaitForAuth
    else if auth.user.None? then Redirect("/auth")
    else Fetch(auth.user.value.id)
  }
}
