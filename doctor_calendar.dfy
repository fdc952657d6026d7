/** The appointment side of the doctor's calendar screen: the doctor's
    appointment records, the two lookups by date, the search box that narrows
    the selected day's list, and the parameters a card passes to the detail
    screen. The grid, heading and month navigation are `MonthGrid`'s. */
module DoctorCalendar {
  import opened Opt
  import opened Gregorian
  import opened MonthGrid
  import opened JsArray
  import opened Text
  import opened Palette
  import D = AppointmentDetail

  /** Whether the appointment is held in person or online. */
  datatype Mode = Offline | Online

  /** An appointment record; `tags` is optional. */
  datatype Appointment = Appointment(
    id: string, time: string, patient: string, mode: Mode, duration: string,
    tags: Option<seq<string>>, date: Date)

  /** `hasAppointment(date)`: some record agrees with `date` on day, month
      and year. */
  function HasAppointment(apts: seq<Appointment>, date: Date): (b: bool)
    ensures b <==> exists i :: 0 <= i < |apts| && apts[i].date == date
  {
    Any((a: Appointment) => IsSameDay(a.date, date), apts)
  }

  // ---------------------------------------------------------------------------
  // `getAppointmentsForDate`, as written and as intended.

  /** The callback of `getAppointmentsForDate` as written: the day of the
      month is compared with the selected date's, but the month and the year
      are compared with the record's own. */
  predicate MatchesAsWritten(apt: Appointment, date: Date)
  {
    apt.date.day == date.day && apt.date.month == apt.date.month && apt.date.year == apt.date.year
  }

  /** `getAppointmentsForDate(date)` as written: it keeps, in order, every
      record on the same day of any month of any year. */
  function AppointmentsForDateAsWritten(apts: seq<Appointment>, date: Date): (r: seq<Appointment>)
    ensures IsSublist(r, apts)
    ensures forall a :: a in r <==> a in apts && a.date.day == date.day
    ensures forall a :: multiset(r)[a] == if a.date.day == date.day then multiset(apts)[a] else 0
  {
    Filter(a => MatchesAsWritten(a, date), apts)
  }

  /** As written, a day with an appointment dot lists something ... */
  lemma DotImpliesListedAsWritten(apts: seq<Appointment>, date: Date)
    requires HasAppointment(apts, date)
    ensures AppointmentsForDateAsWritten(apts, date) != []
  {
    var i :| 0 <= i < |apts| && apts[i].date == date;
    assert apts[i] in apts;
  }

  /** ... but not the other way round: with a single appointment on
      17 November 2024, selecting 17 October 2024, a day without a dot, lists
      that November appointment. */
  lemma ListedWithoutDotAsWritten()
    ensures var apt := Appointment("1", "09:00", "Truc Quynh", Offline, "30 minutes",
                                   Some(["Anxiety"]), Ymd(2024, 10, 17));
            !HasAppointment([apt], Ymd(2024, 9, 17)) &&
            AppointmentsForDateAsWritten([apt], Ymd(2024, 9, 17)) == [apt]
  {
    var apt := Appointment("1", "09:00", "Truc Quynh", Offline, "30 minutes",
                           Some(["Anxiety"]), Ymd(2024, 10, 17));
    assert [apt][1..] == [];
  }

  /** `getAppointmentsForDate(date)` with the comparison `hasAppointment`
      uses: the records on `date`, in list order, each as often as the list
      holds it. */
  function AppointmentsForDate(apts: seq<Appointment>, date: Date): (r: seq<Appointment>)
    ensures IsSublist(r, apts)
    ensures forall a :: a in r <==> a in apts && a.date == date
    ensures forall a :: multiset(r)[a] == if a.date == date then multiset(apts)[a] else 0
  {
    Filter((a: Appointment) => IsSameDay(a.date, date), apts)
  }

  /** With the intended comparison, the dot and the list agree both ways. */
  lemma DotIffListed(apts: seq<Appointment>, date: Date)
    ensures HasAppointment(apts, date) <==> AppointmentsForDate(apts, date) != []
  {
    FilterNonEmptyIffAny((a: Appointment) => IsSameDay(a.date, date), apts);
  }

  /** The intended list is part of the list as written. */
  lemma ListedIsListedAsWritten(apts: seq<Appointment>, date: Date)
    ensures forall a :: a in AppointmentsForDate(apts, date) ==> a in AppointmentsForDateAsWritten(apts, date)
  {
  }

  // ---------------------------------------------------------------------------
  // The search box.

  /** A tag matches when its lower-cased text includes the lower-cased query. */
  predicate TagMatches(tag: string, query: string)
  {
    Includes(Lower(tag), Lower(query))
  }

  /** The callback of `filteredAppointments`: the patient's name includes
      the query, ignoring case, or `tags?.some(...)` finds a tag that does; a
      record without tags is matched on its name alone. */
  predicate SearchMatches(apt: Appointment, query: string): (b: bool)
    ensures b <==> Includes(Lower(apt.patient), Lower(query)) ||
                   (apt.tags.Some? && exists i :: 0 <= i < |apt.tags.value| && TagMatches(apt.tags.value[i], query))
  {
    Includes(Lower(apt.patient), Lower(query)) ||
    (apt.tags.Some? && Any(t => TagMatches(t, query), apt.tags.value))
  }

  /** `filteredAppointments`: the records of `apts` that match the query,
      in their order, each as often as `apts` holds it. */
  function Search(apts: seq<Appointment>, query: string): (r: seq<Appointment>)
    ensures IsSublist(r, apts)
    ensures forall a :: a in r <==> a in apts && SearchMatches(a, query)
    ensures forall a :: multiset(r)[a] == if SearchMatches(a, query) then multiset(apts)[a] else 0
  {
    Filter(a => SearchMatches(a, query), apts)
  }

  /** An empty query keeps every record: the empty string is included in
      every name. */
  lemma EmptyQueryKeepsAll(apts: seq<Appointment>)
    ensures Search(apts, "") == apts
  {
    assert Lower("") == "";
    forall i | 0 <= i < |apts|
      ensures SearchMatches(apts[i], "")
    {
      IncludesEmpty(Lower(apts[i].patient));
    }
    FilterKeepsAll(a => SearchMatches(a, ""), apts);
  }

  /** The search ignores the case of the query. */
  lemma SearchIgnoresQueryCase(apts: seq<Appointment>, query: string)
    ensures Search(apts, Lower(query)) == Search(apts, query)
  {
    LowerIdempotent(query);
    FilterSamePredicate(a => SearchMatches(a, Lower(query)), a => SearchMatches(a, query), apts);
  }

  /** A card under the grid: a record and its background. */
  datatype Card = Card(apt: Appointment, background: Color)

  /** The records the cards show, in card order. */
  function CardApts(cards: seq<Card>): seq<Appointment>
  {
    seq(|cards|, i requires 0 <= i < |cards| => cards[i].apt)
  }

  /** `filteredAppointments.map((apt, index) => ...)`: one card per record,
      in order, on the background of its position. */
  function CardsOf(shown: seq<Appointment>): (cards: seq<Card>)
    ensures CardApts(cards) == shown
    ensures forall i :: 0 <= i < |cards| ==> cards[i].background == CardBackground(i)
  {
    seq(|shown|, i requires 0 <= i < |shown| => Card(shown[i], CardBackground(i)))
  }

  /** The cards shown under the grid: `filteredAppointments`, the search
      applied to `getAppointmentsForDate(selectedDate)` as written. They show,
      in list order and each as often as the list holds it, exactly the
      records on the selected day of the month, of any month and year, that
      match the query. */
  function ShownCards(apts: seq<Appointment>, selected: Date, query: string): (cards: seq<Card>)
    ensures |cards| <= |apts|
    ensures IsSublist(CardApts(cards), apts)
    ensures forall a :: multiset(CardApts(cards))[a] ==
              if a.date.day == selected.day && SearchMatches(a, query) then multiset(apts)[a] else 0
    ensures forall i :: 0 <= i < |cards| ==> cards[i].background == CardBackground(i)
  {
    FilterFilter(a => MatchesAsWritten(a, selected), a => SearchMatches(a, query), apts);
    CardsOf(Search(AppointmentsForDateAsWritten(apts, selected), query))
  }

  /** Every card shown is a record on the selected day of the month that
      matches the query ... */
  lemma ShownCardsSound(apts: seq<Appointment>, selected: Date, query: string, i: int)
    requires 0 <= i < |ShownCards(apts, selected, query)|
    ensures var c := ShownCards(apts, selected, query)[i];
            c.apt in apts && c.apt.date.day == selected.day && SearchMatches(c.apt, query)
  {
    var shown := CardApts(ShownCards(apts, selected, query));
    assert shown[i] in multiset(shown);
  }

  /** ... and every record on that day of the month that matches the query
      is on a card. */
  lemma ShownCardsComplete(apts: seq<Appointment>, selected: Date, query: string, a: Appointment)
    requires a in apts && a.date.day == selected.day && SearchMatches(a, query)
    ensures exists i :: 0 <= i < |ShownCards(apts, selected, query)| &&
                        ShownCards(apts, selected, query)[i].apt == a
  {
    var cards := ShownCards(apts, selected, query);
    var shown := CardApts(cards);
    assert a in multiset(apts);
    assert a in multiset(shown);
    var i :| 0 <= i < |shown| && shown[i] == a;
    assert cards[i].apt == a;
  }

  /** Consecutive cards have different backgrounds. */
  lemma ShownCardsAlternate(apts: seq<Appointment>, selected: Date, query: string, i: int)
    requires 0 <= i && i + 1 < |ShownCards(apts, selected, query)|
    ensures ShownCards(apts, selected, query)[i].background
            != ShownCards(apts, selected, query)[i + 1].background
  {
    CardBackgroundNeighbours(i);
  }

  /** The cards with the intended `getAppointmentsForDate`: the records of
      the selected date itself that match the query, in order, each as often
      as the list holds it. */
  function ShownCardsCorrected(apts: seq<Appointment>, selected: Date, query: string): (cards: seq<Card>)
    ensures |cards| <= |apts|
    ensures IsSublist(CardApts(cards), apts)
    ensures forall a :: multiset(CardApts(cards))[a] ==
              if a.date == selected && SearchMatches(a, query) then multiset(apts)[a] else 0
    ensures forall i :: 0 <= i < |cards| ==> cards[i].background == CardBackground(i)
  {
    FilterFilter((a: Appointment) => IsSameDay(a.date, selected), a => SearchMatches(a, query), apts);
    CardsOf(Search(AppointmentsForDate(apts, selected), query))
  }

  /** With the intended lookup every card is a record of the selected date
      that matches the query, and a day without an appointment dot shows no
      card. */
  lemma ShownCardsCorrectedSound(apts: seq<Appointment>, selected: Date, query: string)
    ensures forall i :: 0 <= i < |ShownCardsCorrected(apts, selected, query)| ==>
              var c := ShownCardsCorrected(apts, selected, query)[i];
              c.apt in apts && c.apt.date == selected && SearchMatches(c.apt, query)
    ensures !HasAppointment(apts, selected) ==> ShownCardsCorrected(apts, selected, query) == []
  {
    var cards := ShownCardsCorrected(apts, selected, query);
    var shown := CardApts(cards);
    forall i | 0 <= i < |cards|
      ensures cards[i].apt in apts && cards[i].apt.date == selected && SearchMatches(cards[i].apt, query)
    {
      assert shown[i] in multiset(shown);
    }
    if cards != [] {
      assert shown[0] in multiset(shown);
      assert shown[0] in apts;
    }
  }

  /** With a single appointment on 17 November 2024, selecting 17 October
      2024 with an empty search shows that November appointment on a card;
      the intended lookup shows none. */
  lemma ShownCardsWithoutDotAsWritten()
    ensures var apt := Appointment("1", "09:00", "Truc Quynh", Offline, "30 minutes",
                                   Some(["Anxiety"]), Ymd(2024, 10, 17));
            ShownCards([apt], Ymd(2024, 9, 17), "") == [Card(apt, CardBackground(0))] &&
            ShownCardsCorrected([apt], Ymd(2024, 9, 17), "") == []
  {
    var apt := Appointment("1", "09:00", "Truc Quynh", Offline, "30 minutes",
                           Some(["Anxiety"]), Ymd(2024, 10, 17));
    ListedWithoutDotAsWritten();
    EmptyQueryKeepsAll([apt]);
    ShownCardsCorrectedSound([apt], Ymd(2024, 9, 17), "");
  }

  /** The search box's state cell. */
  class SearchBox {
    var query: string

    constructor ()
      ensures query == ""
    {
      query := "";
    }

    /** `onChangeText={setSearchQuery}`. */
    method SetQuery(text: string)
      modifies this
      ensures query == text
    {
      query := text;
    }

    /** The clear button, rendered only while the query is non-empty,
        empties it; with an empty query the list is the whole day's list. */
    method Clear()
      requires query != ""
      modifies this
      ensures query == ""
    {
      query := "";
    }
  }

  // ---------------------------------------------------------------------------
  // The parameters a card passes to the detail screen.

  /** The parameters as written: the record's own type string,
      'offline' or 'online', and the location 'BK.B6' for an offline one.
      `isoDate` is the date string the card computes with `toISOString()`
      (a UTC rendering, which this model does not compute). */
  function DetailParamsAsWritten(apt: Appointment, isoDate: string): (r: D.RouteParams)
    ensures r.kind.Some? && r.kind.value != "in-person" && r.kind.value != "video-call"
    ensures var d := D.Resolve(Some(r));
            d.appointmentId == Some(apt.id) &&
            (apt.patient != "" ==> d.patientName == apt.patient) &&
            (apt.tags.Some? ==> d.tags == apt.tags.value)
  {
    D.RouteParams(Some(apt.id), Some(apt.patient), Some(isoDate), Some(apt.time),
                  Some(if apt.mode == Offline then "offline" else "online"),
                  if apt.mode == Offline then Some("BK.B6") else None,
                  Some(apt.duration), apt.tags)
  }

  /** The detail screen knows the types 'in-person' and 'video-call' only:
      with the parameters as written, an online appointment is labelled in
      person, and an offline one shows no location row. */
  lemma DetailMislabelsAsWritten(apt: Appointment, isoDate: string)
    ensures var d := D.Resolve(Some(DetailParamsAsWritten(apt, isoDate)));
            D.TypeLabel(d.kind) == "Trực tiếp" && !D.ShowsLocation(d)
  {
  }

  /** The parameters with the record's type translated into the detail
      screen's names. */
  function DetailParams(apt: Appointment, isoDate: string): (r: D.RouteParams)
    ensures r.kind == Some("in-person") || r.kind == Some("video-call")
    ensures var d := D.Resolve(Some(r));
            d.appointmentId == Some(apt.id) && (d.kind == "in-person" <==> apt.mode == Offline) &&
            (apt.patient != "" ==> d.patientName == apt.patient) &&
            (apt.tags.Some? ==> d.tags == apt.tags.value)
  {
    D.RouteParams(Some(apt.id), Some(apt.patient), Some(isoDate), Some(apt.time),
                  Some(if apt.mode == Offline then "in-person" else "video-call"),
                  if apt.mode == Offline then Some("BK.B6") else None,
                  Some(apt.duration), apt.tags)
  }

  /** With the translated type, the detail screen labels an online
      appointment as a video call, and shows the location row exactly for an
      offline one. */
  lemma DetailLabelsMode(apt: Appointment, isoDate: string)
    ensures var d := D.Resolve(Some(DetailParams(apt, isoDate)));
            (D.TypeLabel(d.kind) == "Video call" <==> apt.mode == Online) &&
            (D.ShowsLocation(d) <==> apt.mode == Offline)
  {
  }
}
