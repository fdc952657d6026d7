/** The appointment lookups of the student calendar screen. The screen's
    grid, heading and view state are those of `MonthGrid`; what is particular
    to it is the list of the student's appointment records and the two
    lookups over it, which use the same three-field day comparison. */
module UserCalendar {
  import opened Gregorian
  import opened MonthGrid
  import opened JsArray

  /** An appointment record of the student's list. `date` is the record's
      date string already read as a calendar date; `kind` and `status` are the
      raw strings of the record. */
  datatype Appointment = Appointment(
    id: string, date: Date, time: string, doctorName: string,
    kind: string, status: string)

  /** The callback both lookups pass: the record falls on `date`. */
  predicate OnDate(apt: Appointment, date: Date)
  {
    IsSameDay(apt.date, date)
  }

  /** `hasAppointment(date)`: `some` record falls on `date`. */
  function HasAppointment(apts: seq<Appointment>, date: Date): (b: bool)
    ensures b <==> exists i :: 0 <= i < |apts| && apts[i].date == date
  {
    Any(a => OnDate(a, date), apts)
  }

  /** `getAppointmentsForDate(date)`: the records on `date`, in list order,
      each as often as the list holds it. */
  function AppointmentsForDate(apts: seq<Appointment>, date: Date): (r: seq<Appointment>)
    ensures IsSublist(r, apts)
    ensures forall a :: a in r <==> a in apts && a.date == date
    ensures forall a :: multiset(r)[a] == if a.date == date then multiset(apts)[a] else 0
  {
    Filter(a => OnDate(a, date), apts)
  }

  /** The two lookups agree: a day has an appointment dot exactly when
      selecting it lists some appointment. */
  lemma HasAppointmentIffListed(apts: seq<Appointment>, date: Date)
    ensures HasAppointment(apts, date) <==> AppointmentsForDate(apts, date) != []
  {
    FilterNonEmptyIffAny(a => OnDate(a, date), apts);
  }

  /** With no records nothing is listed. */
  lemma NoRecordsNothingListed(date: Date)
    ensures AppointmentsForDate([], date) == []
    ensures !HasAppointment([], date)
  {
  }

  /** The empty-state block is the branch taken when the list for the
      selected date is empty. */
  predicate ShowsEmptyState(apts: seq<Appointment>, selected: Date): (b: bool)
    ensures b <==> !HasAppointment(apts, selected)
  {
    |AppointmentsForDate(apts, selected)| == 0
  }

  /** The empty state shows exactly when no record falls on the selected
      date. */
  lemma EmptyStateIffNoAppointment(apts: seq<Appointment>, selected: Date)
    ensures ShowsEmptyState(apts, selected) <==>
            forall i :: 0 <= i < |apts| ==> apts[i].date != selected
  {
    HasAppointmentIffListed(apts, selected);
  }
}
