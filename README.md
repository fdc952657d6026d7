# Calendar, appointment and onboarding logic of the BKMindCare app

BKMindCare is a React Native app in which students book sessions with
mental-health counsellors and counsellors (the "doctor" side) accept or
reject them. Under the screens' layout sit a few pieces of logic, and this
Dafny project models them:

- **The month calendar.** Students and doctors each have a copy of it.
  - The padded grid of the displayed month: leading blanks up to the first
    weekday, then one cell per day.
  - Comparison of dates by day, month and year.
  - The styles of a grid cell, and the "Month Year" heading.
  - Month navigation with `Date.prototype.setMonth`, including its
    roll-over into the next month.
  - Dates are (year, month 0..11, day) triples in the proleptic Gregorian
    calendar. Day numbers, weekdays and MakeDay's normalisation of a month
    and a day follow section 21.4.1 of ECMA-262. That is what `setMonth`
    does. `new Date(y, m, d)` first applies MakeFullYear (section 21.4.2.1),
    which reads a year 0..99 as 1900..1999, and the grid builder inherits
    this.
- **The appointment lookups.**
  - The dot test (`hasAppointment`) and the list for the selected day
    (`getAppointmentsForDate`), as `some` and `filter` over the records.
  - The doctor's case-insensitive search over the list.
  - Tag and card colours.
  - The parameters a card passes to the detail screen.
- **The appointment detail screen.**
  - The status (pending, confirmed or rejected) and three popup flags, as a
    class whose methods are the screen's handlers.
  - What each popup gesture triggers, and the status badge.
  - The fallbacks for missing navigation parameters.
- **The appointment popup.** Which callback each gesture fires, by popup
  type.
- **The onboarding pager.** A bounded page index, its three handlers, the
  footer buttons and the page dots.
- **The dashboard greeting.** The greeting for an hour of the day, and the
  location a dashboard card passes.

Modules:

| module | what it holds |
|---|---|
| `Opt` | an optional value |
| `JsArray` | `filter` and `some` |
| `Text` | ASCII `toLowerCase`, `includes`, decimal rendering |
| `Gregorian` | dates, day numbers, MakeDay, `new Date(y, m, d)` with its two-digit years, `setMonth` |
| `MonthGrid` | the grid and its builder, same-day tests, cell styles, heading, the calendar view state class |
| `UserCalendar` | the student calendar's lookups |
| `DoctorCalendar` | the doctor calendar's lookups, search and detail parameters |
| `Palette` | tag and card colours |
| `AppointmentPopup` | gesture → callback |
| `AppointmentDetail` | status and popups, badge, parameters |
| `Onboarding` | the onboarding pager |
| `DoctorDashboard` | the greeting and dashboard card parameters |

The code stands in for the clock and the router:
- The current date (`new Date()`) and the current hour (`getHours()`) are
  parameters.
- A navigation is a returned flag or is not modelled.

## Model

| member | source | states |
|---|---|---|
| `MonthGrid.BuildMonthGrid` | src/screens/user/CalendarScreen.tsx:33-51 | the two push loops produce exactly `Grid(FullYear(year), month)`: `FirstWeekday` blanks, then the dates 1..`DaysInMonth` of that month of the full year; for a year outside 0..99 that is the date's own year (the doctor copy at src/screens/doctor/DoctorCalendarScreen.tsx:84-100 is identical) |
| `MonthGrid.MonthShape` | src/screens/user/CalendarScreen.tsx:36-39 | `new Date(year, month + 1, 0).getDate()` is the Gregorian length of the month of `FullYear(year)`, December included, and `new Date(year, month, 1).getDay()` is the weekday of its 1st |
| `MonthGrid.FirstWeekday` | src/screens/user/CalendarScreen.tsx:39 | the starting weekday is a column index 0..6 |
| `MonthGrid.Cells` | src/screens/user/CalendarScreen.tsx:41-50 | the blanks and day cells pushed so far, as many as were pushed |
| `MonthGrid.CellsStep` | src/screens/user/CalendarScreen.tsx:47-49 | pushing `new Date(year, month, day)` extends the prefix of the grid of `FullYear(year)` by exactly the cell of that day |
| `MonthGrid.CellsPrefixStep` | src/screens/user/CalendarScreen.tsx:47-49 | the cell after the first `blanks + day - 1` cells is day `day` of the month |
| `MonthGrid.Grid` | src/screens/user/CalendarScreen.tsx:33-51 | the month's layout has `FirstWeekday + DaysInMonth` cells, and a cell is blank iff it comes before the first weekday |
| `MonthGrid.GridShape` | src/screens/doctor/DoctorCalendarScreen.tsx:92-99 | the grid has `firstWeekday + daysInMonth` cells; the first `firstWeekday` are blank; cell `firstWeekday + k - 1` holds day `k` |
| `MonthGrid.GridColumns` | src/screens/doctor/DoctorCalendarScreen.tsx:92-99 | in the 7-column layout, a day cell at index `i` falls on weekday `i % 7` |
| `MonthGrid.GridConsecutive` | src/screens/doctor/DoctorCalendarScreen.tsx:96-98 | consecutive day cells hold consecutive day numbers |
| `MonthGrid.GridCoversMonth` | src/screens/user/CalendarScreen.tsx:41-50 | 28 to 37 cells; a date appears in the grid iff it lies in the displayed month, and then at one index only |
| `MonthGrid.CellsCover` | src/screens/user/CalendarScreen.tsx:41-50 | the cells of a whole month hold each date of it exactly once, at index `blanks + day - 1` |
| `MonthGrid.IsToday` | src/screens/doctor/DoctorCalendarScreen.tsx:110-115 | `isToday` holds iff the date is the current date |
| `MonthGrid.IsSelected` | src/screens/doctor/DoctorCalendarScreen.tsx:117-122 | `isSelected` holds iff the date is the selected date |
| `MonthGrid.IsSameDay` | src/screens/user/CalendarScreen.tsx:61-73 | `isToday` and `isSelected` compare day, month and year; with dates as triples this is exactly date equality (reflexive, symmetric, time of day ignored) |
| `MonthGrid.ViewCell` | src/screens/doctor/DoctorCalendarScreen.tsx:241-273 | a blank cell iff the grid entry is null; the label is the day; the selected frame and text iff the date is the selected one; the today frame iff it is today; the today text iff today but not selected; the dot iff an appointment and not selected |
| `MonthGrid.GridView` | src/screens/user/CalendarScreen.tsx:155-187 | one rendered cell per entry of the grid `getDaysInMonth` builds, that of the full year |
| `MonthGrid.GridSelection` | src/screens/doctor/DoctorCalendarScreen.tsx:241-273 | at most one cell is drawn selected and at most one as today; a selected cell exists iff the selected date lies in the displayed month of the full year |
| `MonthGrid.FormatMonthYear` | src/screens/user/CalendarScreen.tsx:53-59 | the heading begins with the English name of `getMonth()`, always a valid index into the twelve names |
| `MonthGrid.MonthNamesDistinct` | src/screens/user/CalendarScreen.tsx:54-57 | each month index has its own name |
| `MonthGrid.HeadingIdentifiesMonth` | src/screens/doctor/DoctorCalendarScreen.tsx:102-108 | two dates with the same heading are in the same month of the same year |
| `MonthGrid.CalendarView.constructor` | src/screens/user/CalendarScreen.tsx:23-24 | the selected date and the displayed month both start at the current date |
| `MonthGrid.CalendarView.NavigateMonth` | src/screens/user/CalendarScreen.tsx:94-102 | the displayed month becomes `ShiftMonth(old, ±1)`, and the selected date is unchanged |
| `MonthGrid.CalendarView.SelectDate` | src/screens/doctor/DoctorCalendarScreen.tsx:257 | tapping a day sets the selected date and leaves the displayed month alone |
| `Gregorian.DaysInYear` | src/screens/user/CalendarScreen.tsx:37-38 | a year has 365 or 366 days, 366 exactly in leap years |
| `Gregorian.DaysInMonth` | src/screens/doctor/DoctorCalendarScreen.tsx:88-89 | every month has 28 to 31 days; February has 29 iff the year is a leap year |
| `Gregorian.Weekday` | src/screens/doctor/DoctorCalendarScreen.tsx:90 | `getDay()` lies in 0..6, counted from Thursday 1 January 1970 |
| `Gregorian.PrevMonth` | src/screens/doctor/DoctorCalendarScreen.tsx:144-145 | the month before a month is a valid month whose next month is the one started from |
| `Gregorian.YearStep` | src/screens/user/CalendarScreen.tsx:36-37 | consecutive years start `DaysInYear` days apart |
| `Gregorian.DayFromYearFormula` | src/screens/user/CalendarScreen.tsx:36 | the year-by-year day count equals ECMA-262's closed-form DayFromYear |
| `Gregorian.MonthStep` | src/screens/user/CalendarScreen.tsx:37 | consecutive months start `DaysInMonth` days apart, across the new year too |
| `Gregorian.CarryForward` | src/screens/user/CalendarScreen.tsx:48 | a day past the end of the month lands that many days after the 1st, in a later month |
| `Gregorian.BorrowBack` | src/screens/user/CalendarScreen.tsx:37 | a day of 0 or less lands that many days before the 1st, in an earlier month |
| `Gregorian.MakeDate` | src/screens/doctor/DoctorCalendarScreen.tsx:143-148 | MakeDay, as `setMonth` applies it: the date whose day number is the one ECMA-262 MakeDay computes; the month carries into the year, and the day overflows or borrows across months |
| `Gregorian.NewDate` | src/screens/user/CalendarScreen.tsx:48 | `new Date(year, month, day)`: MakeDay after MakeFullYear, so the day number is MakeDay's for the year `FullYear(year)`, 1900 + year for a year 0..99 |
| `Gregorian.NewDateOfDay` | src/screens/user/CalendarScreen.tsx:48 | `new Date(year, month, day)` of a day the month of the full year has is that day of that month of `FullYear(year)` |
| `Gregorian.NewDateKeepsDate` | src/screens/user/CalendarScreen.tsx:48 | outside years 0..99 the constructor gives back an in-range date unchanged |
| `Gregorian.TwoDigitYears` | src/screens/user/CalendarScreen.tsx:36-37 | `new Date(50, 0, 1)` is 1 January 1950, and `new Date(0, 2, 0)` is 28 February 1900, where year 0 itself would have a leap day |
| `Gregorian.DayNumberInjective` | src/screens/user/CalendarScreen.tsx:48 | only one date has a given day number, so `MakeDate`'s result is determined |
| `Gregorian.MakeDateOfValid` | src/screens/doctor/DoctorCalendarScreen.tsx:143-148 | MakeDay of an in-range date's own fields is that date |
| `Gregorian.MonthEnd` | src/screens/doctor/DoctorCalendarScreen.tsx:88-89 | MakeDay of day 0 of the next month is the last day of this month, December included |
| `Gregorian.LastDayOfMonth` | src/screens/doctor/DoctorCalendarScreen.tsx:88-89 | `new Date(year, month + 1, 0)` is the last day of `month` of `FullYear(year)`, December included |
| `Gregorian.NextDayWeekday` | src/screens/user/CalendarScreen.tsx:47-48 | the next day has the next day number and the next weekday modulo 7 |
| `Gregorian.SetMonth` | src/screens/doctor/DoctorCalendarScreen.tsx:143-148 | `setMonth(month)` gives the date `day - 1` days after the first of the month the index carries to, in the date's own year reckoning |
| `Gregorian.ShiftMonth` | src/screens/doctor/DoctorCalendarScreen.tsx:143-148 | `setMonth(getMonth() + delta)` gives the date `day - 1` days after the first of the month `delta` months away |
| `Gregorian.ShiftCases` | src/screens/doctor/DoctorCalendarScreen.tsx:143-148 | `setMonth(getMonth() ± n)` keeps the day if the target month has it, otherwise lands that many days into the month after the target |
| `Gregorian.CountFromFirst` | src/screens/doctor/DoctorCalendarScreen.tsx:143-148 | the date `day - 1` days after the 1st of the target month is that day, or the overflow into the next month |
| `Gregorian.TargetNeighbours` | src/screens/user/CalendarScreen.tsx:96-99 | one month on and one month back are the neighbouring months, across the year boundary too |
| `Gregorian.ShiftKeepsDay` | src/screens/user/CalendarScreen.tsx:95-100 | a day up to 28 is kept, in the target month |
| `Gregorian.NextFromDecember` | src/screens/doctor/DoctorCalendarScreen.tsx:146-147 | "next" from December gives January of the next year, same day |
| `Gregorian.PrevFromJanuary` | src/screens/doctor/DoctorCalendarScreen.tsx:144-145 | "prev" from January gives December of the previous year, same day |
| `Gregorian.NextPrevRoundTrip` | src/screens/doctor/DoctorCalendarScreen.tsx:143-148 | for a day up to 28, next then prev, and prev then next, return to the same date |
| `Gregorian.LeapJanuaryOverflow` | src/screens/doctor/DoctorCalendarScreen.tsx:143-148 | in any leap year, next from 31 January lands on 2 March, and prev from there on 2 February, not back on 31 January |
| `Gregorian.NextPrevNotRoundTrip` | src/screens/user/CalendarScreen.tsx:94-102 | the round trip fails later in the month: 31 January 2024 goes forward to 2 March and back to 2 February |
| `Gregorian.October2024` | src/screens/user/CalendarScreen.tsx:36-39 | October 2024 starts on a Tuesday (2 blanks) and has 31 days |
| `JsArray.Filter` | src/screens/user/CalendarScreen.tsx:86 | `filter` keeps, in order, exactly the elements satisfying the callback, each as often as the input holds it |
| `JsArray.Any` | src/screens/user/CalendarScreen.tsx:77 | `some` holds iff an element satisfies the callback |
| `JsArray.FilterNonEmptyIffAny` | src/screens/user/CalendarScreen.tsx:75-92 | `filter` and `some` with the same callback agree on "found something" |
| `JsArray.FilterKeepsAll` | src/screens/doctor/DoctorCalendarScreen.tsx:154-157 | a callback true of every element keeps the whole list |
| `JsArray.FilterFilter` | src/screens/doctor/DoctorCalendarScreen.tsx:153-157 | filtering the filtered list keeps exactly what both callbacks accept, in order |
| `JsArray.FilterSamePredicate` | src/screens/doctor/DoctorCalendarScreen.tsx:154-157 | filters with callbacks that agree everywhere give the same list |
| `Text.Lower` | src/screens/doctor/DoctorCalendarScreen.tsx:155 | `toLowerCase` keeps the length and lowers every ASCII capital |
| `Text.LowerIdempotent` | src/screens/doctor/DoctorCalendarScreen.tsx:155-156 | lowering twice is lowering once |
| `Text.Includes` | src/screens/doctor/DoctorCalendarScreen.tsx:155-156 | `includes` holds iff the query occurs at some index |
| `Text.IncludesEmpty` | src/screens/doctor/DoctorCalendarScreen.tsx:155 | every string includes the empty query |
| `Text.IntToString` | src/screens/user/CalendarScreen.tsx:58 | `${year}` is a non-empty string with no space |
| `Text.NatRoundTrip` | src/screens/user/CalendarScreen.tsx:58 | the decimal digits of a natural number read back as that number |
| `Text.IntRoundTrip` | src/screens/user/CalendarScreen.tsx:58 | the rendering of the year reads back as the year, so different years get different headings |
| `UserCalendar.HasAppointment` | src/screens/user/CalendarScreen.tsx:75-83 | the dot test holds iff some record's date equals the cell's date |
| `UserCalendar.AppointmentsForDate` | src/screens/user/CalendarScreen.tsx:85-92 | the list is an order-preserving sublist of the records holding exactly the ones on the date, with their multiplicities |
| `UserCalendar.HasAppointmentIffListed` | src/screens/user/CalendarScreen.tsx:75-92 | the dot shows for a day exactly when selecting it lists some appointment |
| `UserCalendar.NoRecordsNothingListed` | src/screens/user/CalendarScreen.tsx:85-92 | no records, no dot and an empty list |
| `UserCalendar.ShowsEmptyState` | src/screens/user/CalendarScreen.tsx:201-228 | the empty-state branch is taken iff the dot test fails for the selected date |
| `UserCalendar.EmptyStateIffNoAppointment` | src/screens/user/CalendarScreen.tsx:201-236 | the empty-state block is shown iff no record falls on the selected date |
| `DoctorCalendar.HasAppointment` | src/screens/doctor/DoctorCalendarScreen.tsx:124-131 | the dot test holds iff some record's date equals the cell's date (day, month and year) |
| `DoctorCalendar.AppointmentsForDateAsWritten` | src/screens/doctor/DoctorCalendarScreen.tsx:133-140 | as written, the list keeps, in order, exactly the records with the same day of the month, whatever their month and year, each as often as the records hold it |
| `DoctorCalendar.DotImpliesListedAsWritten` | src/screens/doctor/DoctorCalendarScreen.tsx:124-140 | as written, a day with a dot lists something |
| `DoctorCalendar.ListedWithoutDotAsWritten` | src/screens/doctor/DoctorCalendarScreen.tsx:136-138 | as written, an appointment on 17 November 2024 shows under 17 October 2024, a day without a dot |
| `DoctorCalendar.AppointmentsForDate` | src/screens/doctor/DoctorCalendarScreen.tsx:133-140 | corrected: an order-preserving sublist holding exactly the records on the date, with their multiplicities |
| `DoctorCalendar.DotIffListed` | src/screens/doctor/DoctorCalendarScreen.tsx:124-140 | corrected: the dot shows iff the list is non-empty |
| `DoctorCalendar.ListedIsListedAsWritten` | src/screens/doctor/DoctorCalendarScreen.tsx:133-140 | every record the corrected list holds is also in the list as written |
| `DoctorCalendar.SearchMatches` | src/screens/doctor/DoctorCalendarScreen.tsx:154-157 | a record matches iff the lower-cased query occurs in the lower-cased name or in a lower-cased tag; a record without tags is matched on its name alone |
| `DoctorCalendar.Search` | src/screens/doctor/DoctorCalendarScreen.tsx:154-157 | the result is an order-preserving sublist of the day's list holding exactly the matching records, with their multiplicities |
| `DoctorCalendar.EmptyQueryKeepsAll` | src/screens/doctor/DoctorCalendarScreen.tsx:154-157 | an empty query keeps the whole list |
| `DoctorCalendar.SearchIgnoresQueryCase` | src/screens/doctor/DoctorCalendarScreen.tsx:155-156 | a query and its lower-cased form give the same result |
| `DoctorCalendar.CardsOf` | src/screens/doctor/DoctorCalendarScreen.tsx:287-294 | one card per record, in order, on the background of its position |
| `DoctorCalendar.ShownCards` | src/screens/doctor/DoctorCalendarScreen.tsx:153-157 | the cards show, in order and with their multiplicities, exactly the records on the selected day of the month (any month, any year, as the lookup is written) that match the query, each on its position's background |
| `DoctorCalendar.ShownCardsSound` | src/screens/doctor/DoctorCalendarScreen.tsx:287-293 | every card shows a record on the selected day of the month that matches the query |
| `DoctorCalendar.ShownCardsComplete` | src/screens/doctor/DoctorCalendarScreen.tsx:153-157 | every record on the selected day of the month that matches the query is on a card |
| `DoctorCalendar.ShownCardsCorrected` | src/screens/doctor/DoctorCalendarScreen.tsx:153-157 | with the corrected lookup, the cards show exactly the matching records of the selected date, in order and with their multiplicities |
| `DoctorCalendar.ShownCardsCorrectedSound` | src/screens/doctor/DoctorCalendarScreen.tsx:153-157 | corrected: every card is a matching record of the selected date, and a day without a dot shows no card |
| `DoctorCalendar.ShownCardsWithoutDotAsWritten` | src/screens/doctor/DoctorCalendarScreen.tsx:153-157 | as written, a 17 November 2024 record shows a card under 17 October 2024 with an empty search; corrected, no card |
| `DoctorCalendar.ShownCardsAlternate` | src/screens/doctor/DoctorCalendarScreen.tsx:291-294 | neighbouring cards have different backgrounds |
| `DoctorCalendar.SearchBox.constructor` | src/screens/doctor/DoctorCalendarScreen.tsx:35 | the query starts empty |
| `DoctorCalendar.SearchBox.SetQuery` | src/screens/doctor/DoctorCalendarScreen.tsx:202-203 | typing sets the query |
| `DoctorCalendar.SearchBox.Clear` | src/screens/doctor/DoctorCalendarScreen.tsx:205-209 | the clear button, present only while the query is non-empty, empties it |
| `DoctorCalendar.DetailParamsAsWritten` | src/screens/doctor/DoctorCalendarScreen.tsx:295-304 | as written, the type passed is neither of the detail screen's type names; the identifier, the name when non-empty and the tags reach the detail screen |
| `DoctorCalendar.DetailParams` | src/screens/doctor/DoctorCalendarScreen.tsx:295-304 | corrected: the type passed is 'in-person' or 'video-call', in person exactly for an offline record, and the record's identifier, name and tags reach the detail screen |
| `DoctorCalendar.DetailMislabelsAsWritten` | src/screens/doctor/DoctorCalendarScreen.tsx:295-304 | as written, every appointment opened from the doctor calendar is labelled in person, and none shows the location row |
| `DoctorCalendar.DetailLabelsMode` | src/screens/doctor/DoctorCalendarScreen.tsx:295-304 | corrected: an online appointment is labelled video call; the location row shows iff the appointment is offline |
| `Palette.TagColor` | src/screens/doctor/DoctorCalendarScreen.tsx:159-167 | each of the four known tags has its own colour, and every other tag gets the primary colour (the copy at src/screens/doctor/DoctorAppointmentDetailScreen.tsx:91-99 is identical) |
| `Palette.TagColorsDistinct` | src/screens/doctor/DoctorAppointmentDetailScreen.tsx:91-99 | distinct known tags get distinct colours |
| `Palette.CardBackground` | src/screens/doctor/DoctorCalendarScreen.tsx:169-172 | a card background is one of the three light colours |
| `Palette.CardBackgroundPeriodic` | src/screens/doctor/DoctorCalendarScreen.tsx:169-172 | card backgrounds repeat with period 3 |
| `Palette.CardBackgroundNeighbours` | src/screens/doctor/DoctorCalendarScreen.tsx:170-171 | any two of three consecutive cards differ |
| `AppointmentPopup.Fired` | src/components/AppointmentPopup.tsx:27-118 | `onClose` fires iff the overlay or the back button is used or a shown button other than agree is pressed; nothing fires iff the content is tapped, an unshown button is pressed, or agree is pressed without an `onConfirm` |
| `AppointmentPopup.Buttons` | src/components/AppointmentPopup.tsx:27-100 | an unrecognised type renders no content, and so no button |
| `AppointmentPopup.OnlyAgreeConfirms` | src/components/AppointmentPopup.tsx:59-74 | `onConfirm` fires iff the agree button of the reject dialog is pressed and an `onConfirm` was given |
| `AppointmentPopup.RejectDialogButtons` | src/components/AppointmentPopup.tsx:59-74 | the reject dialog offers cancel, which fires `onClose`, and agree, which fires `onConfirm` |
| `AppointmentPopup.SuccessPopupOnlyCloses` | src/components/AppointmentPopup.tsx:38-44 | each success popup offers a single button, and anything it fires is `onClose` |
| `AppointmentPopup.DismissCloses` | src/components/AppointmentPopup.tsx:103-118 | for every type, the overlay tap and the back button fire `onClose`; an unrecognised type can be dismissed in no other way |
| `AppointmentPopup.Delivered` | src/components/AppointmentPopup.tsx:103-108 | a callback fires only through a visible popup, and then as the type says |
| `AppointmentDetail.InitialInv` | src/screens/doctor/DoctorAppointmentDetailScreen.tsx:33-36 | the initial state (pending, no popup) satisfies the invariant |
| `AppointmentDetail.Step` | src/screens/doctor/DoctorAppointmentDetailScreen.tsx:38-67 | only the two success-close handlers change the status, each to its own outcome; the confirm, reject and reject-agree handlers leave a popup open, and the others open none |
| `AppointmentDetail.Route` | src/screens/doctor/DoctorAppointmentDetailScreen.tsx:219-255 | an action button reaches a handler only while pending with no popup; a popup gesture only through a visible popup; confirm is reached exactly by the confirm button then, and reject-agree exactly by agree in the visible reject dialog |
| `AppointmentDetail.Run` | src/screens/doctor/DoctorAppointmentDetailScreen.tsx:219-255 | every gesture keeps the invariant (at most one popup at a time, none once decided), and a decided appointment is not changed |
| `AppointmentDetail.RunAllKeepsInv` | src/screens/doctor/DoctorAppointmentDetailScreen.tsx:38-67 | so does any sequence of gestures |
| `AppointmentDetail.StatusChangesOnlyOnSuccessClose` | src/screens/doctor/DoctorAppointmentDetailScreen.tsx:38-67 | `handleConfirm` leaves the status alone; the status changes only when a success popup is closed, to confirmed for the confirm popup and rejected for the reject popup, with every popup hidden |
| `AppointmentDetail.DecidedIsTerminal` | src/screens/doctor/DoctorAppointmentDetailScreen.tsx:220-237 | once confirmed or rejected, no gesture sequence changes anything |
| `AppointmentDetail.ConfirmPath` | src/screens/doctor/DoctorAppointmentDetailScreen.tsx:38-44 | confirming takes two steps: the button shows the success popup, and closing it confirms |
| `AppointmentDetail.RejectPath` | src/screens/doctor/DoctorAppointmentDetailScreen.tsx:51-62 | rejecting takes three steps: the dialog, agree (which swaps the dialog for the success popup), and closing it, which rejects |
| `AppointmentDetail.CancelKeepsPending` | src/screens/doctor/DoctorAppointmentDetailScreen.tsx:245-250 | cancelling the reject dialog hides it and leaves the appointment pending |
| `AppointmentDetail.DetailScreen.constructor` | src/screens/doctor/DoctorAppointmentDetailScreen.tsx:33-36 | pending, all three popups hidden |
| `AppointmentDetail.DetailScreen.HandleConfirm` | src/screens/doctor/DoctorAppointmentDetailScreen.tsx:38-40 | shows the confirm-success popup and changes nothing else |
| `AppointmentDetail.DetailScreen.HandleConfirmSuccessClose` | src/screens/doctor/DoctorAppointmentDetailScreen.tsx:42-49 | hides that popup and sets the status to confirmed |
| `AppointmentDetail.DetailScreen.HandleReject` | src/screens/doctor/DoctorAppointmentDetailScreen.tsx:51-53 | shows the reject dialog |
| `AppointmentDetail.DetailScreen.HandleRejectConfirm` | src/screens/doctor/DoctorAppointmentDetailScreen.tsx:55-58 | hides the dialog and shows the reject-success popup |
| `AppointmentDetail.DetailScreen.CancelRejectDialog` | src/screens/doctor/DoctorAppointmentDetailScreen.tsx:248 | hides the dialog |
| `AppointmentDetail.DetailScreen.HandleRejectSuccessClose` | src/screens/doctor/DoctorAppointmentDetailScreen.tsx:60-67 | hides that popup and sets the status to rejected |
| `AppointmentDetail.DetailScreen.Dispatch` | src/screens/doctor/DoctorAppointmentDetailScreen.tsx:219-255 | a gesture runs the handler it is wired to and changes the state as `Run` says |
| `AppointmentDetail.StatusColor` | src/screens/doctor/DoctorAppointmentDetailScreen.tsx:69-78 | success iff confirmed, error iff rejected, warning iff pending |
| `AppointmentDetail.StatusText` | src/screens/doctor/DoctorAppointmentDetailScreen.tsx:80-89 | 'Đã xác nhận' iff confirmed, 'Đã từ chối' iff rejected, 'Đang chờ' iff pending |
| `AppointmentDetail.BadgeDistinguishesStatus` | src/screens/doctor/DoctorAppointmentDetailScreen.tsx:117-125 | different statuses get different badge texts and colours |
| `AppointmentDetail.OrElse` | src/screens/doctor/DoctorAppointmentDetailScreen.tsx:25 | `value \|\| fallback` keeps a present non-empty string and otherwise gives the fallback |
| `AppointmentDetail.Resolve` | src/screens/doctor/DoctorAppointmentDetailScreen.tsx:24-31 | no parameters give the fixed fallbacks; every shown string detail is non-empty |
| `AppointmentDetail.ResolveKeepsGiven` | src/screens/doctor/DoctorAppointmentDetailScreen.tsx:24-31 | given non-empty parameters are shown as given, a given tags array (even empty) is kept, the identifier is passed through, and a missing type counts as in person |
| `AppointmentDetail.TypeLabel` | src/screens/doctor/DoctorAppointmentDetailScreen.tsx:197 | 'Video call' iff the type is 'video-call' |
| `AppointmentDetail.ShowsLocation` | src/screens/doctor/DoctorAppointmentDetailScreen.tsx:203 | the location row's condition: an in-person type and a non-empty location |
| `AppointmentDetail.ShowsTags` | src/screens/doctor/DoctorAppointmentDetailScreen.tsx:134 | the tag chips' condition: at least one tag |
| `AppointmentDetail.LocationRowIffInPerson` | src/screens/doctor/DoctorAppointmentDetailScreen.tsx:203 | the location row appears iff the type is in person, since the location always has a fallback |
| `Onboarding.Handle` | src/screens/OnboardingScreen.tsx:53-73 | a handler leaves for Login iff it is Skip or Next on (or past) the last page, leaving never moves the page, and no handler moves it by more than one |
| `Onboarding.HandleKeepsRange` | src/screens/OnboardingScreen.tsx:53-73 | every handler keeps the page within `0..pages.length-1`, moves it by at most one, and leaves only without moving |
| `Onboarding.NextAdvancesOrLeaves` | src/screens/OnboardingScreen.tsx:53-61 | Next adds exactly one before the last page, and navigates to Login from the last page |
| `Onboarding.BackRetreatsOrStays` | src/screens/OnboardingScreen.tsx:63-69 | Back takes exactly one away after the first page and does nothing on it |
| `Onboarding.SkipLeaves` | src/screens/OnboardingScreen.tsx:71-73 | Skip always navigates to Login and never changes the page |
| `Onboarding.RunAllKeepsRange` | src/screens/OnboardingScreen.tsx:53-73 | any sequence of presses keeps the page within range |
| `Onboarding.Left` | src/screens/OnboardingScreen.tsx:168-182 | the left button is Skip iff on the first page, otherwise Back |
| `Onboarding.RightLabel` | src/screens/OnboardingScreen.tsx:183-187 | the right title is 'Get Started' iff on the last page, otherwise 'Next' |
| `Onboarding.FooterButtons` | src/screens/OnboardingScreen.tsx:167-188 | the left button leaves only on the first page; the right button leaves exactly where it reads 'Get Started' |
| `Onboarding.Dots` | src/screens/OnboardingScreen.tsx:157-164 | one dot per page, active iff its index is the current page |
| `Onboarding.ExactlyOneDot` | src/screens/OnboardingScreen.tsx:156-166 | exactly one dot is active |
| `Onboarding.Pager.constructor` | src/screens/OnboardingScreen.tsx:12 | the page starts at 0 |
| `Onboarding.Pager.HandleNext` | src/screens/OnboardingScreen.tsx:53-61 | the new page and the navigation flag are those `Handle(old page, Next)` gives |
| `Onboarding.Pager.HandleBack` | src/screens/OnboardingScreen.tsx:63-69 | the new page is `Handle(old page, Back)`'s, with no navigation |
| `Onboarding.Pager.HandleSkip` | src/screens/OnboardingScreen.tsx:71-73 | navigates and leaves the page as it is |
| `DoctorDashboard.Greeting` | src/screens/doctor/DoctorDashboard.tsx:22-27 | 'Good morning' iff the hour is before 12, 'Good afternoon' iff 12 to 17, 'Good evening' iff 18 or later |
| `DoctorDashboard.GreetingChangesAtNoonAndSix` | src/screens/doctor/DoctorDashboard.tsx:22-27 | the greeting is one of the three and changes from one hour to the next exactly at 12 and 18 |
| `DoctorDashboard.GreetingConstantBetween` | src/screens/doctor/DoctorDashboard.tsx:24-26 | hours within one part of the day get the same greeting |
| `DoctorDashboard.DashboardLocation` | src/screens/doctor/DoctorDashboard.tsx:199 | the location is 'BK.B6' iff the type is 'in-person', otherwise undefined |
| `DoctorDashboard.DashboardParams` | src/screens/doctor/DoctorDashboard.tsx:193-202 | the detail screen shows the card's identifier and tags, and its name, date, time, type and duration when non-empty; a location is passed iff the type is 'in-person' |
| `DoctorDashboard.DashboardLocationRow` | src/screens/doctor/DoctorDashboard.tsx:193-202 | opened from the dashboard, the detail screen shows the location row exactly for in-person appointments, with 'BK.B6' |

## Left out

- Layout, styles, icons, images and the window-width arithmetic. These are
  presentation, and mostly floating point.
- Navigation and timers. `navigation.navigate`, `goBack`, `scrollTo` and the
  300 ms delayed back navigation after a status change are router and
  animation side effects. A handler that navigates returns a flag, or the
  model says nothing about it.
- The clock. `new Date()`, `Date.now()` and `getHours()` are parameters:
  today's date and the hour.
- Time of day and time zones. A date is a local (year, month, day) triple.
  This has two consequences:
  - `Date.now() + 86400000` (the doctor's "tomorrow" record) is not
    computed.
  - `toISOString().split('T')[0]`, a UTC rendering, enters the detail
    parameters as a given string.
- The year range of JavaScript dates. Years are unbounded integers, while a
  JavaScript `Date` covers only ±100,000,000 days around 1970.
- Locale formatting. The `toLocaleDateString` section title depends on the
  locale.
- Date-string parsing. `new Date(apt.date)` in the student calendar parses
  strings from the mock data module, which is not part of this model; the
  records arrive as dates.
- Unicode case mapping. `Text.Lower` lowers ASCII capitals only.
- The mock data modules, `BottomNavigationBar`, `CustomButton` and the
  chart component are not part of this model.
- The student calendar's record-type and status renderings (`'In-person'`
  or `'Video call'`, the status dot colour) are not modelled.
- `getTagColor` on keys that `Object.prototype` provides, such as
  `"constructor"`. There the lookup yields an inherited function, which is
  truthy. `Palette.TagColor` gives such keys the primary colour.
- The `if (!selectedDate) return false` guard of `isSelected`. The selected
  date is always set, so the guard never fires.
- AppointmentDetail.Route assumes that a visible popup covers the action
  buttons, because React Native's `Modal` takes every touch while it is
  shown. Without that, a second popup could open on top of the first.
- `getCardBackgroundColor` receives only list positions, which are never
  negative. JavaScript's truncating `%` on a negative index is not modelled.

## Findings

| source | as written | input that shows it | evidently intended | confidence | as-written member | corrected member |
|---|---|---|---|---|---|---|
| src/screens/doctor/DoctorCalendarScreen.tsx:136-138 | `aptDate.getMonth() === aptDate.getMonth()` and `aptDate.getFullYear() === aptDate.getFullYear()` compare the record with itself, so the list keeps every record on the same day of any month | one appointment on 17 November 2024; select 17 October 2024: no dot, yet the appointment is listed and shown on a card (`DoctorCalendar.ShownCardsWithoutDotAsWritten`) | compare with `date.getMonth()` and `date.getFullYear()`, as `hasAppointment` does at :127-129 | high, not executed | `DoctorCalendar.ListedWithoutDotAsWritten` | `DoctorCalendar.DotIffListed` |
| src/screens/doctor/DoctorCalendarScreen.tsx:300-301 | the card passes its own type string, 'offline' or 'online', while the detail screen tests for 'video-call' (:197) and 'in-person' (:203) | any online appointment: the detail screen labels it 'Trực tiếp'; any offline one: the location row with 'BK.B6' is hidden | pass 'in-person' for offline and 'video-call' for online, as the dashboard does for in-person at src/screens/doctor/DoctorDashboard.tsx:198-199 | medium, not executed | `DoctorCalendar.DetailMislabelsAsWritten` | `DoctorCalendar.DetailLabelsMode` |
