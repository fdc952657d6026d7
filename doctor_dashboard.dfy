/** The two rules of the doctor's dashboard: the greeting chosen by the hour
    of the day, and the parameters a today-appointment card passes to the
    detail screen. */
module DoctorDashboard {
  import opened Opt
  import D = AppointmentDetail

  /** `getGreeting()`, with the hour `new Date().getHours()` passed in. */
  function Greeting(hour: int): (g: string)
    ensures g == "Good morning" <==> hour < 12
    ensures g == "Good afternoon" <==> 12 <= hour < 18
    ensures g == "Good evening" <==> hour >= 18
  {
    if hour < 12 then "Good morning"
    else if hour < 18 then "Good afternoon"
    else "Good evening"
  }

  /** The greeting is one of three, and it changes from one hour to the next
      only at 12 and at 18. */
  lemma GreetingChangesAtNoonAndSix(hour: int)
    ensures Greeting(hour) in {"Good morning", "Good afternoon", "Good evening"}
    ensures Greeting(hour) != Greeting(hour + 1) <==> hour + 1 == 12 || hour + 1 == 18
  {
  }

  /** Hours in the same part of the day get the same greeting. */
  lemma GreetingConstantBetween(h1: int, h2: int)
    requires h1 <= h2
    requires h2 < 12 || (12 <= h1 && h2 < 18) || 18 <= h1
    ensures Greeting(h1) == Greeting(h2)
  {
  }

  /** A today-appointment on the dashboard. */
  datatype TodayAppointment = TodayAppointment(
    id: string, time: string, patient: string, kind: string, duration: string,
    date: string, tags: seq<string>)

  /** The location parameter: 'BK.B6' for an in-person appointment,
      `undefined` otherwise. */
  function DashboardLocation(kind: string): (l: Option<string>)
    ensures l == Some("BK.B6") <==> kind == "in-person"
    ensures l.None? <==> kind != "in-person"
  {
    if kind == "in-person" then Some("BK.B6") else None
  }

  /** The parameters a card on the dashboard passes. The detail screen then
      shows the card's own identifier and tags, its name, date, time, type and
      duration whenever they are non-empty, and a location only for an
      in-person appointment. */
  function DashboardParams(apt: TodayAppointment): (r: D.RouteParams)
    ensures var d := D.Resolve(Some(r));
            d.appointmentId == Some(apt.id) && d.tags == apt.tags &&
            (apt.patient != "" ==> d.patientName == apt.patient) &&
            (apt.date != "" ==> d.date == apt.date) &&
            (apt.time != "" ==> d.time == apt.time) &&
            (apt.kind != "" ==> d.kind == apt.kind) &&
            (apt.duration != "" ==> d.duration == apt.duration)
    ensures r.location.Some? <==> apt.kind == "in-person"
  {
    D.RouteParams(Some(apt.id), Some(apt.patient), Some(apt.date), Some(apt.time),
                  Some(apt.kind), DashboardLocation(apt.kind), Some(apt.duration), Some(apt.tags))
  }

  /** Opened from the dashboard, the detail screen shows the location row
      exactly for an in-person appointment, and then shows 'BK.B6'. */
  lemma DashboardLocationRow(apt: TodayAppointment)
    requires apt.kind != ""
    ensures var d := D.Resolve(Some(DashboardParams(apt)));
            (D.ShowsLocation(d) <==> apt.kind == "in-person") &&
            (D.ShowsLocation(d) ==> d.location == "BK.B6")
  {
  }
}
