/** The doctor's appointment detail screen: the appointment's status and the
    three popups that lead from "pending" to "confirmed" or "rejected", the
    status badge, and the details read from the navigation parameters with
    their fallbacks. */
module AppointmentDetail {
  import opened Opt
  import opened Palette
  import P = AppointmentPopup

  // ---------------------------------------------------------------------------
  // Status and popups.

  datatype Status = Pending | Confirmed | Rejected

  /** The four state cells of the screen: `status` and the visibility flags
      of the confirm-success popup, the reject dialog and the reject-success
      popup. */
  datatype DetailState = DetailState(
    status: Status, confirmSuccess: bool, rejectConfirm: bool, rejectSuccess: bool)

  /** On mount: pending, with every popup hidden. */
  const Initial := DetailState(Pending, false, false, false)

  /** The screen's handlers; `RejectCancel` is the inline `onClose` of the
      reject dialog, which only hides it. */
  datatype Handler =
    | Confirm | ConfirmSuccessClose | Reject | RejectConfirm | RejectCancel | RejectSuccessClose

  /** What each handler sets. A handler sets its cells whatever the state;
      which handlers the screen lets the user reach is `Route`'s business. */
  function Step(s: DetailState, h: Handler): (r: DetailState)
    ensures r.status == s.status ||
            (h == ConfirmSuccessClose && r.status == Confirmed) ||
            (h == RejectSuccessClose && r.status == Rejected)
    ensures (h == Confirm || h == Reject || h == RejectConfirm) ==> AnyPopup(r)
    ensures AnyPopup(r) ==> AnyPopup(s) || h == Confirm || h == Reject || h == RejectConfirm
  {
    match h
    case Confirm => s.(confirmSuccess := true)
    case ConfirmSuccessClose => s.(confirmSuccess := false, status := Confirmed)
    case Reject => s.(rejectConfirm := true)
    case RejectConfirm => s.(rejectConfirm := false, rejectSuccess := true)
    case RejectCancel => s.(rejectConfirm := false)
    case RejectSuccessClose => s.(rejectSuccess := false, status := Rejected)
  }

  /** The two action buttons at the bottom of the screen. */
  datatype ActionButton = RejectAction | ConfirmAction

  /** The three popups the screen mounts. */
  datatype Slot = ConfirmSuccessSlot | RejectConfirmSlot | RejectSuccessSlot

  /** A user gesture: a press of an action button, or a gesture on one of
      the popups. */
  datatype UiEvent = Action(button: ActionButton) | OnPopup(slot: Slot, gesture: P.Gesture)

  function SlotType(slot: Slot): P.PopupType
  {
    match slot
    case ConfirmSuccessSlot => P.SuccessConfirm
    case RejectConfirmSlot => P.ConfirmReject
    case RejectSuccessSlot => P.SuccessReject
  }

  function SlotVisible(s: DetailState, slot: Slot): bool
  {
    match slot
    case ConfirmSuccessSlot => s.confirmSuccess
    case RejectConfirmSlot => s.rejectConfirm
    case RejectSuccessSlot => s.rejectSuccess
  }

  predicate AnyPopup(s: DetailState)
  {
    s.confirmSuccess || s.rejectConfirm || s.rejectSuccess
  }

  /** The handler a popup's callback is wired to. Only the reject dialog is
      given an `onConfirm`. */
  function SlotHandler(slot: Slot, cb: P.Callback): Handler
  {
    match slot
    case ConfirmSuccessSlot => ConfirmSuccessClose
    case RejectConfirmSlot => if cb == P.OnConfirm then RejectConfirm else RejectCancel
    case RejectSuccessSlot => RejectSuccessClose
  }

  /** The handler a gesture reaches, if any. The action buttons are rendered
      only while the status is pending, and only when no popup covers them
      (a visible modal takes every touch); a popup gesture goes through the
      popup as `AppointmentPopup.Delivered` says. */
  function Route(s: DetailState, ev: UiEvent): (r: Option<Handler>)
    ensures r.Some? && ev.Action? ==> s.status == Pending && !AnyPopup(s)
    ensures r.Some? && ev.OnPopup? ==> SlotVisible(s, ev.slot)
    ensures r == Some(Confirm) <==> ev == Action(ConfirmAction) && s.status == Pending && !AnyPopup(s)
    ensures r == Some(RejectConfirm) <==>
              ev == OnPopup(RejectConfirmSlot, P.Press(P.AgreeButton)) && s.rejectConfirm
  {
    match ev
    case Action(b) =>
      if s.status == Pending && !AnyPopup(s) then
        Some(if b == ConfirmAction then Confirm else Reject)
      else None
    case OnPopup(slot, g) =>
      match P.Delivered(SlotVisible(s, slot), SlotType(slot), g, slot == RejectConfirmSlot)
      case None => None
      case Some(cb) => Some(SlotHandler(slot, cb))
  }

  /** One gesture: the state after the handler it reaches, or the same state
      when it reaches none. */
  function Run(s: DetailState, ev: UiEvent): (r: DetailState)
    ensures Inv(s) ==> Inv(r)
    ensures Inv(s) && s.status != Pending ==> r == s
  {
    match Route(s, ev)
    case None => s
    case Some(h) => Step(s, h)
  }

  function RunAll(s: DetailState, evs: seq<UiEvent>): DetailState
    decreases |evs|
  {
    if evs == [] then s else RunAll(Run(s, evs[0]), evs[1..])
  }

  /** At most one popup is visible, and none once the appointment is decided. */
  predicate Inv(s: DetailState)
  {
    (s.confirmSuccess ==> !s.rejectConfirm && !s.rejectSuccess) &&
    (s.rejectConfirm ==> !s.rejectSuccess) &&
    (s.status != Pending ==> !AnyPopup(s))
  }

  /** The screen starts in a state of the invariant ... */
  lemma InitialInv()
    ensures Inv(Initial)
  {
  }

  /** ... and, by `Run`'s contract, every sequence of gestures keeps it. */
  lemma {:induction false} RunAllKeepsInv(s: DetailState, evs: seq<UiEvent>)
    requires Inv(s)
    ensures Inv(RunAll(s, evs))
    decreases |evs|
  {
    if evs != [] {
      RunAllKeepsInv(Run(s, evs[0]), evs[1..]);
    }
  }

  /** `handleConfirm` only shows the success popup; the status changes only
      when a success popup is closed, to confirmed when it is the
      confirm-success one and to rejected when it is the reject-success one. */
  lemma StatusChangesOnlyOnSuccessClose(s: DetailState, ev: UiEvent)
    requires Inv(s)
    ensures Step(s, Confirm).status == s.status
    ensures Run(s, ev).status != s.status ==>
              (s.confirmSuccess && ev.OnPopup? && ev.slot == ConfirmSuccessSlot &&
               Run(s, ev) == DetailState(Confirmed, false, false, false)) ||
              (s.rejectSuccess && ev.OnPopup? && ev.slot == RejectSuccessSlot &&
               Run(s, ev) == DetailState(Rejected, false, false, false))
  {
  }

  /** Confirmed and rejected are terminal: no gesture changes anything once
      the appointment is decided. */
  lemma {:induction false} DecidedIsTerminal(s: DetailState, evs: seq<UiEvent>)
    requires Inv(s) && s.status != Pending
    ensures RunAll(s, evs) == s
    decreases |evs|
  {
    if evs != [] {
      assert Run(s, evs[0]) == s;
      DecidedIsTerminal(s, evs[1..]);
    }
  }

  /** Confirming is two steps: the confirm button, then closing the success
      popup. */
  lemma ConfirmPath()
    ensures Run(Initial, Action(ConfirmAction)) == DetailState(Pending, true, false, false)
    ensures RunAll(Initial, [Action(ConfirmAction), OnPopup(ConfirmSuccessSlot, P.Press(P.CloseButton))])
            == DetailState(Confirmed, false, false, false)
  {
    var evs := [Action(ConfirmAction), OnPopup(ConfirmSuccessSlot, P.Press(P.CloseButton))];
    assert evs[1..][1..] == [];
  }

  /** Rejecting is three: the reject button, agree in the dialog, then
      closing the success popup; the status stays pending until the last. */
  lemma RejectPath()
    ensures Run(Initial, Action(RejectAction)) == DetailState(Pending, false, true, false)
    ensures Run(DetailState(Pending, false, true, false), OnPopup(RejectConfirmSlot, P.Press(P.AgreeButton)))
            == DetailState(Pending, false, false, true)
    ensures RunAll(Initial, [Action(RejectAction), OnPopup(RejectConfirmSlot, P.Press(P.AgreeButton)),
                             OnPopup(RejectSuccessSlot, P.OverlayTap)])
            == DetailState(Rejected, false, false, false)
  {
    var evs := [Action(RejectAction), OnPopup(RejectConfirmSlot, P.Press(P.AgreeButton)),
                OnPopup(RejectSuccessSlot, P.OverlayTap)];
    assert evs[1..][1..][1..] == [];
  }

  /** Cancelling the reject dialog, by its cancel button, the overlay or the
      back button, hides it and leaves the appointment pending. */
  lemma CancelKeepsPending(g: P.Gesture)
    requires g == P.Press(P.CancelButton) || g == P.OverlayTap || g == P.HardwareBack
    ensures Run(DetailState(Pending, false, true, false), OnPopup(RejectConfirmSlot, g)) == Initial
  {
  }

  /** The screen's state cells, updated by its handlers. */
  class DetailScreen {
    var status: Status
    var showConfirmSuccessPopup: bool
    var showRejectConfirmPopup: bool
    var showRejectSuccessPopup: bool

    function State(): DetailState
      reads this
    {
      DetailState(status, showConfirmSuccessPopup, showRejectConfirmPopup, showRejectSuccessPopup)
    }

    constructor ()
      ensures State() == Initial
    {
      status := Pending;
      showConfirmSuccessPopup := false;
      showRejectConfirmPopup := false;
      showRejectSuccessPopup := false;
    }

    /** `handleConfirm`: show the confirm-success popup. */
    method HandleConfirm()
      modifies this
      ensures State() == Step(old(State()), Confirm)
    {
      showConfirmSuccessPopup := true;
    }

    /** `handleConfirmSuccessClose`: hide the popup, then mark confirmed (the
        delayed back navigation is not part of this model). */
    method HandleConfirmSuccessClose()
      modifies this
      ensures State() == Step(old(State()), ConfirmSuccessClose)
    {
      showConfirmSuccessPopup := false;
      status := Confirmed;
    }

    /** `handleReject`: show the reject dialog. */
    method HandleReject()
      modifies this
      ensures State() == Step(old(State()), Reject)
    {
      showRejectConfirmPopup := true;
    }

    /** `handleRejectConfirm`: swap the reject dialog for the reject-success
        popup. */
    method HandleRejectConfirm()
      modifies this
      ensures State() == Step(old(State()), RejectConfirm)
    {
      showRejectConfirmPopup := false;
      showRejectSuccessPopup := true;
    }

    /** The reject dialog's `onClose`: hide it. */
    method CancelRejectDialog()
      modifies this
      ensures State() == Step(old(State()), RejectCancel)
    {
      showRejectConfirmPopup := false;
    }

    /** `handleRejectSuccessClose`: hide the popup, then mark rejected. */
    method HandleRejectSuccessClose()
      modifies this
      ensures State() == Step(old(State()), RejectSuccessClose)
    {
      showRejectSuccessPopup := false;
      status := Rejected;
    }

    /** A user gesture on the rendered screen: the handler it reaches runs,
        and a gesture that reaches none changes nothing. */
    method Dispatch(ev: UiEvent)
      modifies this
      ensures State() == Run(old(State()), ev)
    {
      var h := Route(State(), ev);
      match h {
        case None =>
        case Some(Confirm) => HandleConfirm();
        case Some(ConfirmSuccessClose) => HandleConfirmSuccessClose();
        case Some(Reject) => HandleReject();
        case Some(RejectConfirm) => HandleRejectConfirm();
        case Some(RejectCancel) => CancelRejectDialog();
        case Some(RejectSuccessClose) => HandleRejectSuccessClose();
      }
    }
  }

  // ---------------------------------------------------------------------------
  // The status badge.

  /** `getStatusColor()`. */
  function StatusColor(s: Status): (c: Color)
    ensures c == Success <==> s == Confirmed
    ensures c == Error <==> s == Rejected
    ensures c == Warning <==> s == Pending
  {
    match s
    case Confirmed => Success
    case Rejected => Error
    case _ => Warning
  }

  /** `getStatusText()`. */
  function StatusText(s: Status): (t: string)
    ensures t == "Đã xác nhận" <==> s == Confirmed
    ensures t == "Đã từ chối" <==> s == Rejected
    ensures t == "Đang chờ" <==> s == Pending
  {
    match s
    case Confirmed => "Đã xác nhận"
    case Rejected => "Đã từ chối"
    case _ => "Đang chờ"
  }

  /** The badge tells every status apart, by text and by colour. */
  lemma BadgeDistinguishesStatus(a: Status, b: Status)
    requires a != b
    ensures StatusText(a) != StatusText(b) && StatusColor(a) != StatusColor(b)
  {
  }

  // ---------------------------------------------------------------------------
  // Navigation parameters.

  /** The parameters the screen is opened with; `None` is a parameter that
      is `undefined`. */
  datatype RouteParams = RouteParams(
    appointmentId: Option<string>, patientName: Option<string>, date: Option<string>,
    time: Option<string>, kind: Option<string>, location: Option<string>,
    duration: Option<string>, tags: Option<seq<string>>)

  /** What the screen shows, after the fallbacks. */
  datatype Details = Details(
    appointmentId: Option<string>, patientName: string, date: string, time: string,
    kind: string, location: string, duration: string, tags: seq<string>)

  /** `value || fallback` for a string parameter: `undefined` and the empty
      string are falsy and give the fallback. */
  function OrElse(v: Option<string>, fallback: string): (r: string)
    ensures v.Some? && v.value != "" ==> r == v.value
    ensures v.None? || v.value == "" ==> r == fallback
  {
    if v.Some? && v.value != "" then v.value else fallback
  }

  /** Every detail when the screen is opened without parameters. */
  const Fallbacks := Details(None, "Truc Quynh", "2024-10-17", "16:00", "in-person", "BK.B6",
                             "60 minutes", ["Anxiety"])

  /** `routeParams?.x || fallback` for each detail; the identifier has no
      fallback, and a tags array, even an empty one, is truthy and kept. */
  function Resolve(p: Option<RouteParams>): (d: Details)
    ensures p.None? ==> d == Fallbacks
    ensures d.patientName != "" && d.date != "" && d.time != "" && d.kind != ""
    ensures d.location != "" && d.duration != ""
  {
    match p
    case None => Fallbacks
    case Some(r) =>
      Details(r.appointmentId, OrElse(r.patientName, Fallbacks.patientName),
              OrElse(r.date, Fallbacks.date), OrElse(r.time, Fallbacks.time),
              OrElse(r.kind, Fallbacks.kind), OrElse(r.location, Fallbacks.location),
              OrElse(r.duration, Fallbacks.duration),
              if r.tags.Some? then r.tags.value else Fallbacks.tags)
  }

  /** A parameter that is given and non-empty is shown as given, and only
      missing or empty ones are replaced. */
  lemma ResolveKeepsGiven(r: RouteParams)
    ensures r.patientName.Some? && r.patientName.value != "" ==>
              Resolve(Some(r)).patientName == r.patientName.value
    ensures r.kind.Some? && r.kind.value != "" ==> Resolve(Some(r)).kind == r.kind.value
    ensures r.location.Some? && r.location.value != "" ==>
              Resolve(Some(r)).location == r.location.value
    ensures r.tags.Some? ==> Resolve(Some(r)).tags == r.tags.value
    ensures Resolve(Some(r)).appointmentId == r.appointmentId
    ensures (r.kind.None? || r.kind.value == "") ==> Resolve(Some(r)).kind == "in-person"
  {
  }

  /** The type row: "Video call" for a video call, "Trực tiếp" (in person)
      for any other type. */
  function TypeLabel(kind: string): (s: string)
    ensures s == "Video call" <==> kind == "video-call"
  {
    if kind == "video-call" then "Video call" else "Trực tiếp"
  }

  /** The location row is rendered for an in-person appointment with a
      location. */
  predicate ShowsLocation(d: Details)
  {
    d.kind == "in-person" && d.location != ""
  }

  /** The tag chips are rendered when there is at least one tag. */
  predicate ShowsTags(d: Details)
  {
    |d.tags| > 0
  }

  /** The location has a fallback, so the location row appears exactly for
      in-person appointments; an appointment whose type is missing counts as
      in person. */
  lemma LocationRowIffInPerson(p: Option<RouteParams>)
    ensures ShowsLocation(Resolve(p)) <==> Resolve(p).kind == "in-person"
    ensures p.None? ==> ShowsLocation(Resolve(p)) && ShowsTags(Resolve(p))
  {
  }
}
