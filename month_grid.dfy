/** The calendar component shared by the student and the doctor calendar
    screens: the padded month grid, comparison of dates by calendar day, the
    style of one grid cell, the month heading, and the view state (selected
    date and displayed month) with its two transitions. */
module MonthGrid {
  import opened Gregorian
  import opened Opt
  import Text

  /** One grid position: a leading blank, or a day of the displayed month. */
  type Cell = Option<Date>

  /** Weekday column (0 = Sunday) of the first day of month `m` of `y`:
      `new Date(year, month, 1).getDay()`. */
  function FirstWeekday(y: int, m: int): (w: int)
    requires 0 <= m < 12
    ensures 0 <= w < 7
  {
    Weekday(Ymd(y, m, 1))
  }

  /** `blanks` leading blanks, then the days 1..n of month `m` of `y`. */
  function Cells(y: int, m: int, blanks: nat, n: nat): (g: seq<Cell>)
    requires 0 <= m < 12 && n <= DaysInMonth(y, m)
    ensures |g| == blanks + n
  {
    seq(blanks + n, i requires 0 <= i < blanks + n =>
      if i < blanks then None else var d: Date := Ymd(y, m, i - blanks + 1); Some(d))
  }

  /** The grid of month `m` of `y`: `FirstWeekday` blanks, then the days
      1..DaysInMonth in order; never padded at the end. */
  function Grid(y: int, m: int): (g: seq<Cell>)
    requires 0 <= m < 12
    ensures |g| == FirstWeekday(y, m) + DaysInMonth(y, m)
    ensures forall i :: 0 <= i < |g| ==> (g[i].None? <==> i < FirstWeekday(y, m))
  {
    Cells(y, m, FirstWeekday(y, m), DaysInMonth(y, m))
  }

  /** `getDaysInMonth(date)`: two counting loops push the blanks and then one
      date per day; the day count is the day of the month of `new Date(year,
      month + 1, 0)`. */
  method BuildMonthGrid(date: Date) returns (days: seq<Cell>)
    ensures days == Grid(FullYear(date.year), date.month)
    ensures (date.year < 0 || date.year > 99) ==> days == Grid(date.year, date.month)
  {
    var year, month := date.year, date.month;
    var daysInMonth, startingDayOfWeek := MonthShape(year, month);
    ghost var g := Cells(FullYear(year), month, startingDayOfWeek, daysInMonth);

    days := [];
    var i := 0;
    while i < startingDayOfWeek
      invariant 0 <= i <= startingDayOfWeek
      invariant days == g[..i]
    {
      assert g[..i + 1] == g[..i] + [g[i]];
      days := days + [None];
      i := i + 1;
    }
    var day := 1;
    while day <= daysInMonth
      invariant 1 <= day <= daysInMonth + 1
      invariant days == g[..startingDayOfWeek + day - 1]
    {
      CellsStep(year, month, startingDayOfWeek, daysInMonth, day);
      days := days + [Some(NewDate(year, month, day))];
      day := day + 1;
    }
  }

  /** Pushing `new Date(y, m, day)` extends the prefix of the cells of the
      full year `FullYear(y)` by one cell. */
  lemma CellsStep(y: int, m: int, blanks: nat, n: nat, day: int)
    requires 0 <= m < 12 && n <= DaysInMonth(FullYear(y), m) && 1 <= day <= n
    ensures Cells(FullYear(y), m, blanks, n)[..blanks + day]
            == Cells(FullYear(y), m, blanks, n)[..blanks + day - 1] + [Some(NewDate(y, m, day))]
  {
    CellsPrefixStep(FullYear(y), m, blanks, n, day);
    NewDateOfDay(y, m, day);
  }

  /** The cell after the first `blanks + day - 1` is day `day`. */
  lemma CellsPrefixStep(y: int, m: int, blanks: nat, n: nat, day: int)
    requires 0 <= m < 12 && n <= DaysInMonth(y, m) && 1 <= day <= n
    ensures Cells(y, m, blanks, n)[..blanks + day]
            == Cells(y, m, blanks, n)[..blanks + day - 1] + [Some(Ymd(y, m, day))]
  {
    var g := Cells(y, m, blanks, n);
    var k := blanks + day - 1;
    assert g[k] == Some(Ymd(y, m, day));
    assert g[..k + 1] == g[..k] + [g[k]];
  }

  /** The two numbers `getDaysInMonth` reads off the calendar: the day of
      the month of `new Date(year, month + 1, 0)`, which is the length of the
      month (December included, where "month + 1" is January of the next
      year), and `new Date(year, month, 1).getDay()`; both of the full year
      `FullYear(year)`, since the constructor reads years 0..99 as 1900..1999. */
  method MonthShape(year: int, month: int) returns (daysInMonth: int, startingDayOfWeek: int)
    requires 0 <= month < 12
    ensures daysInMonth == DaysInMonth(FullYear(year), month)
    ensures startingDayOfWeek == FirstWeekday(FullYear(year), month)
  {
    var firstDay := NewDate(year, month, 1);
    var lastDay := NewDate(year, month + 1, 0);
    NewDateOfDay(year, month, 1);
    LastDayOfMonth(year, month);
    daysInMonth := lastDay.day;
    startingDayOfWeek := Weekday(firstDay);
  }

  /** The cells of `Grid`, one by one. */
  lemma GridShape(y: int, m: int)
    requires 0 <= m < 12
    ensures |Grid(y, m)| == FirstWeekday(y, m) + DaysInMonth(y, m)
    ensures forall i :: 0 <= i < FirstWeekday(y, m) ==> Grid(y, m)[i] == None
    ensures forall i :: FirstWeekday(y, m) <= i < |Grid(y, m)| ==>
              Grid(y, m)[i] == Some(Ymd(y, m, i - FirstWeekday(y, m) + 1))
  {
  }

  /** The grid lays days out under their weekday: in a 7-column layout the
      cell at index `i` sits in column `i % 7`, and the day it holds falls on
      that weekday. */
  lemma GridColumns(y: int, m: int, i: int)
    requires 0 <= m < 12 && 0 <= i < |Grid(y, m)| && Grid(y, m)[i].Some?
    ensures Weekday(Grid(y, m)[i].value) == i % 7
  {
    var fw := FirstWeekday(y, m);
    var d := Grid(y, m)[i].value;
    assert d == Ymd(y, m, i - fw + 1);
    var a := DayNumber(Ymd(y, m, 1)) + 4;
    assert DayNumber(d) + 4 == a + (i - fw);
    ColumnShift(a, fw, i);
  }

  /** Counting on `i - fw` days from weekday `fw` reaches weekday `i % 7`. */
  lemma ColumnShift(a: int, fw: int, i: int)
    requires fw == a % 7 && 0 <= i
    ensures (a + (i - fw)) % 7 == i % 7
  {
    ModSevenShift(a, i - fw);
  }

  /** Consecutive day cells hold consecutive calendar days. */
  lemma GridConsecutive(y: int, m: int, i: int)
    requires 0 <= m < 12 && 0 <= i && i + 1 < |Grid(y, m)| && Grid(y, m)[i].Some?
    ensures Grid(y, m)[i + 1].Some?
    ensures DayNumber(Grid(y, m)[i + 1].value) == DayNumber(Grid(y, m)[i].value) + 1
  {
  }

  /** A grid has between 28 and 37 cells, fewer than 7 of them blank, and
      every date of the month appears in it exactly once. */
  lemma GridCoversMonth(y: int, m: int, d: Date)
    requires 0 <= m < 12
    ensures 28 <= |Grid(y, m)| <= 37
    ensures (exists i :: 0 <= i < |Grid(y, m)| && Grid(y, m)[i] == Some(d))
            <==> d.year == y && d.month == m
    ensures forall i, j ::
              (0 <= i < |Grid(y, m)| && 0 <= j < |Grid(y, m)| &&
               Grid(y, m)[i] == Some(d) && Grid(y, m)[j] == Some(d)) ==> i == j
  {
    CellsCover(y, m, FirstWeekday(y, m), DaysInMonth(y, m), d);
  }

  /** `Cells` for a whole month holds each date of that month exactly once,
      at the index `blanks + day - 1`, and no other date. */
  lemma CellsCover(y: int, m: int, blanks: nat, n: nat, d: Date)
    requires 0 <= m < 12 && n == DaysInMonth(y, m)
    ensures (exists i :: 0 <= i < |Cells(y, m, blanks, n)| && Cells(y, m, blanks, n)[i] == Some(d))
            <==> d.year == y && d.month == m
    ensures forall i :: 0 <= i < |Cells(y, m, blanks, n)| && Cells(y, m, blanks, n)[i] == Some(d)
              ==> i == blanks + d.day - 1
  {
    var g := Cells(y, m, blanks, n);
    if d.year == y && d.month == m {
      assert g[blanks + d.day - 1] == Some(d);
    }
  }

  // ---------------------------------------------------------------------------
  // Comparison by calendar day.

  /** Day, month and year all agree; with dates as triples this is equality
      of dates, so the relation is reflexive, symmetric and transitive. */
  predicate IsSameDay(a: Date, b: Date): (r: bool)
    ensures r <==> a == b
  {
    a.day == b.day && a.month == b.month && a.year == b.year
  }

  /** `isToday(date)`, with the clock's current date passed in. */
  predicate IsToday(date: Date, today: Date): (b: bool)
    ensures b <==> date == today
  {
    IsSameDay(date, today)
  }

  /** `isSelected(date)`, with the view state's selected date passed in. */
  predicate IsSelected(date: Date, selected: Date): (b: bool)
    ensures b <==> date == selected
  {
    IsSameDay(date, selected)
  }

  // ---------------------------------------------------------------------------
  // What one grid cell shows.

  /** The styles a grid cell is drawn with: the today and selected frames of
      the cell, the selected and today text styles, and the appointment dot. */
  datatype CellView =
    | Blank
    | DayCell(dayLabel: int, todayFrame: bool, selectedFrame: bool,
              selectedText: bool, todayText: bool, dot: bool)

  /** The cell rendering of `calendarDays.map(...)`: a blank for a leading
      null; otherwise the day number, both frames, the selected text style,
      the today text style only on an unselected cell, and the dot only on an
      unselected day with an appointment. */
  function ViewCell(cell: Cell, today: Date, selected: Date, hasApt: bool): (v: CellView)
    ensures v.Blank? <==> cell.None?
    ensures v.DayCell? ==> v.dayLabel == cell.value.day
    ensures v.DayCell? ==> (v.selectedFrame <==> cell.value == selected) && v.selectedText == v.selectedFrame
    ensures v.DayCell? ==> (v.todayFrame <==> cell.value == today)
    ensures v.DayCell? ==> (v.todayText <==> v.todayFrame && !v.selectedFrame)
    ensures v.DayCell? ==> (v.dot <==> hasApt && !v.selectedFrame)
  {
    match cell
    case None => Blank
    case Some(date) =>
      var isSelectedDate := IsSelected(date, selected);
      var isTodayDate := IsToday(date, today);
      DayCell(date.day, isTodayDate, isSelectedDate, isSelectedDate,
              isTodayDate && !isSelectedDate, hasApt && !isSelectedDate)
  }

  /** The whole grid of the displayed month, cell by cell, as `BuildMonthGrid`
      lays it out (so of the full year `FullYear(shown.year)`);
      `hasAppointment` is the screen's own appointment test. */
  function GridView(shown: Date, today: Date, selected: Date, hasAppointment: Date -> bool): (r: seq<CellView>)
    ensures |r| == |Grid(FullYear(shown.year), shown.month)|
  {
    var g := Grid(FullYear(shown.year), shown.month);
    seq(|g|, i requires 0 <= i < |g| =>
      ViewCell(g[i], today, selected, g[i].Some? && hasAppointment(g[i].value)))
  }

  /** At most one cell of a month's grid is drawn as selected and at most one
      as today; a selected cell exists exactly when the selected date lies in
      the displayed month (selection persists across month navigation
      without being shown). */
  lemma GridSelection(shown: Date, today: Date, selected: Date, hasAppointment: Date -> bool)
    ensures var v := GridView(shown, today, selected, hasAppointment);
            forall i, j ::
              (0 <= i < |v| && 0 <= j < |v| && v[i].DayCell? && v[j].DayCell? &&
               v[i].selectedFrame && v[j].selectedFrame) ==> i == j
    ensures var v := GridView(shown, today, selected, hasAppointment);
            forall i, j ::
              (0 <= i < |v| && 0 <= j < |v| && v[i].DayCell? && v[j].DayCell? &&
               v[i].todayFrame && v[j].todayFrame) ==> i == j
    ensures var v := GridView(shown, today, selected, hasAppointment);
            (exists i :: 0 <= i < |v| && v[i].DayCell? && v[i].selectedFrame)
            <==> selected.year == FullYear(shown.year) && selected.month == shown.month
  {
    var v := GridView(shown, today, selected, hasAppointment);
    var g := Grid(FullYear(shown.year), shown.month);
    GridCoversMonth(FullYear(shown.year), shown.month, selected);
    GridCoversMonth(FullYear(shown.year), shown.month, today);
    forall i | 0 <= i < |v| && v[i].DayCell?
      ensures v[i].selectedFrame <==> g[i] == Some(selected)
      ensures v[i].todayFrame <==> g[i] == Some(today)
    {
      assert v[i] == ViewCell(g[i], today, selected, g[i].Some? && hasAppointment(g[i].value));
    }
    if selected.year == FullYear(shown.year) && selected.month == shown.month {
      var i :| 0 <= i < |g| && g[i] == Some(selected);
      assert v[i].DayCell? && v[i].selectedFrame;
    }
  }

  // ---------------------------------------------------------------------------
  // The month heading.

  const MonthNames: seq<string> := [
    "January", "February", "March", "April", "May", "June",
    "July", "August", "September", "October", "November", "December"
  ]

  /** The month index a month name stands for. */
  function MonthIndexOf(name: string): int
  {
    if name == "January" then 0 else if name == "February" then 1
    else if name == "March" then 2 else if name == "April" then 3
    else if name == "May" then 4 else if name == "June" then 5
    else if name == "July" then 6 else if name == "August" then 7
    else if name == "September" then 8 else if name == "October" then 9
    else if name == "November" then 10 else if name == "December" then 11
    else -1
  }

  lemma MonthNamesDistinct(m: int)
    requires 0 <= m < 12
    ensures MonthIndexOf(MonthNames[m]) == m
  {
  }

  /** `formatMonthYear(date)`: the month's English name, a space and the
      year; `getMonth()` lies in 0..11, so the lookup always finds a name. */
  function FormatMonthYear(date: Date): (s: string)
    ensures |s| > |MonthNames[date.month]| && s[..|MonthNames[date.month]|] == MonthNames[date.month]
  {
    MonthNames[date.month] + " " + Text.IntToString(date.year)
  }

  /** The heading tells the displayed month apart from every other: dates
      with the same heading are in the same month of the same year. */
  lemma HeadingIdentifiesMonth(a: Date, b: Date)
    requires FormatMonthYear(a) == FormatMonthYear(b)
    ensures a.year == b.year && a.month == b.month
  {
    var ya, yb := Text.IntToString(a.year), Text.IntToString(b.year);
    SplitAtLastSpace(MonthNames[a.month], ya, MonthNames[b.month], yb);
    Text.IntRoundTrip(a.year);
    Text.IntRoundTrip(b.year);
    MonthNamesDistinct(a.month);
    MonthNamesDistinct(b.month);
  }

  /** "name year" splits back into its parts when the year has no space. */
  lemma SplitAtLastSpace(na: string, ya: string, nb: string, yb: string)
    requires forall i :: 0 <= i < |ya| ==> ya[i] != ' '
    requires forall i :: 0 <= i < |yb| ==> yb[i] != ' '
    requires na + " " + ya == nb + " " + yb
    ensures na == nb && ya == yb
  {
    NoSpaceInShorter(na, ya, nb, yb);
    NoSpaceInShorter(nb, yb, na, ya);
    var s := na + " " + ya;
    assert ya == s[|s| - |ya|..];
    assert yb == s[|s| - |yb|..];
    assert na == s[..|na|];
    assert nb == s[..|nb|];
  }

  /** The space before a year shows where every other year's digits begin:
      a year without spaces is never shorter than another one ending at the
      same place. */
  lemma NoSpaceInShorter(na: string, ya: string, nb: string, yb: string)
    requires forall i :: 0 <= i < |yb| ==> yb[i] != ' '
    requires na + " " + ya == nb + " " + yb
    ensures |yb| <= |ya|
  {
    var s := na + " " + ya;
    assert s[|na|] == ' ';
    assert forall j :: |nb| < j < |s| ==> s[j] == yb[j - |nb| - 1];
  }

  // ---------------------------------------------------------------------------
  // The view state.

  datatype Direction = Prev | Next

  function Delta(dir: Direction): int
  {
    if dir == Prev then -1 else 1
  }

  /** The `selectedDate` and `currentMonth` state cells of a calendar
      screen. Both start at the current date. */
  class CalendarView {
    var selectedDate: Date
    var currentMonth: Date

    constructor (today: Date)
      ensures selectedDate == today && currentMonth == today
    {
      selectedDate := today;
      currentMonth := today;
    }

    /** `navigateMonth(direction)`: a copy of `currentMonth` gets
        `setMonth(getMonth() -/+ 1)`; the selection is left alone. */
    method NavigateMonth(direction: Direction)
      modifies this
      ensures currentMonth == ShiftMonth(old(currentMonth), Delta(direction))
      ensures selectedDate == old(selectedDate)
    {
      var newDate := currentMonth;
      if direction == Prev {
        newDate := SetMonth(newDate, newDate.month - 1);
      } else {
        newDate := SetMonth(newDate, newDate.month + 1);
      }
      currentMonth := newDate;
    }

    /** Tapping a day cell: `setSelectedDate(date)`; the displayed month is
        left alone, even for a date outside it. */
    method SelectDate(date: Date)
      modifies this
      ensures selectedDate == date && currentMonth == old(currentMonth)
    {
      selectedDate := date;
    }
  }
}
