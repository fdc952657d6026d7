/** The appointment popup: a modal whose content is chosen by its `type`.
    It keeps no state; what it does is decide, for each gesture of the user,
    which of the two callbacks it was given (`onClose`, `onConfirm`) is
    called. */
module AppointmentPopup {
  import opened Opt

  /** The `type` prop. `Unrecognised` stands for any other value, which the
      prop's declared type excludes but the `default` branch handles. */
  datatype PopupType = SuccessConfirm | ConfirmReject | SuccessReject | Unrecognised

  /** The buttons a popup's content can show: "Đóng" (close), "Hủy"
      (cancel) and "Đồng ý" (agree). */
  datatype Button = CloseButton | CancelButton | AgreeButton

  /** What the user can do to a visible popup: press one of its buttons, tap
      the dimmed overlay around the content, tap the content outside any
      button, or press the hardware back button. */
  datatype Gesture = Press(button: Button) | OverlayTap | ContentTap | HardwareBack

  datatype Callback = OnClose | OnConfirm

  /** `renderContent()`: the buttons each type's content shows. The two
      success popups show one close button; the reject dialog shows cancel
      and agree; an unrecognised type renders no content at all. */
  function Buttons(t: PopupType): (bs: seq<Button>)
    ensures t == Unrecognised <==> bs == []
  {
    match t
    case SuccessConfirm => [CloseButton]
    case ConfirmReject => [CancelButton, AgreeButton]
    case SuccessReject => [CloseButton]
    case Unrecognised => []
  }

  /** The callback a gesture on a visible popup of type `t` calls;
      `hasOnConfirm` says whether an `onConfirm` prop was passed (it is
      optional, and pressing agree without one calls nothing). A press of a
      button the content does not show cannot happen, and a tap inside the
      content is swallowed by its own touchable wrapper. */
  function Fired(t: PopupType, g: Gesture, hasOnConfirm: bool): (r: Option<Callback>)
    ensures r == Some(OnClose) <==>
              g == OverlayTap || g == HardwareBack ||
              (g.Press? && g.button in Buttons(t) && g.button != AgreeButton)
    ensures r == None <==>
              g == ContentTap || (g.Press? && g.button !in Buttons(t)) ||
              (g == Press(AgreeButton) && !hasOnConfirm)
  {
    match g
    case OverlayTap => Some(OnClose)
    case HardwareBack => Some(OnClose)
    case ContentTap => None
    case Press(b) =>
      if b !in Buttons(t) then None
      else if b == AgreeButton then (if hasOnConfirm then Some(OnConfirm) else None)
      else Some(OnClose)
  }

  /** The popup as mounted: a hidden modal receives no gesture, so nothing
      is called; a visible one behaves as `Fired`. */
  function Delivered(visible: bool, t: PopupType, g: Gesture, hasOnConfirm: bool): (r: Option<Callback>)
    ensures r != None ==> visible
    ensures visible ==> r == Fired(t, g, hasOnConfirm)
  {
    if visible then Fired(t, g, hasOnConfirm) else None
  }

  /** Only the agree button of the reject dialog calls `onConfirm`. */
  lemma OnlyAgreeConfirms(t: PopupType, g: Gesture, hasOnConfirm: bool)
    ensures Fired(t, g, hasOnConfirm) == Some(OnConfirm) <==>
            t == ConfirmReject && g == Press(AgreeButton) && hasOnConfirm
  {
  }

  /** In the reject dialog, cancel calls `onClose` and agree `onConfirm`. */
  lemma RejectDialogButtons()
    ensures Buttons(ConfirmReject) == [CancelButton, AgreeButton]
    ensures Fired(ConfirmReject, Press(CancelButton), true) == Some(OnClose)
    ensures Fired(ConfirmReject, Press(AgreeButton), true) == Some(OnConfirm)
  {
  }

  /** Each success popup offers a single button, and every gesture that
      calls anything on it calls `onClose`. */
  lemma SuccessPopupOnlyCloses(t: PopupType, g: Gesture, hasOnConfirm: bool)
    requires t == SuccessConfirm || t == SuccessReject
    ensures |Buttons(t)| == 1 && Fired(t, Press(Buttons(t)[0]), hasOnConfirm) == Some(OnClose)
    ensures Fired(t, g, hasOnConfirm) != None ==> Fired(t, g, hasOnConfirm) == Some(OnClose)
  {
  }

  /** For every type, the overlay tap and the hardware back button call
      `onClose`; an unrecognised type can be dismissed in no other way. */
  lemma DismissCloses(t: PopupType, hasOnConfirm: bool)
    ensures Fired(t, OverlayTap, hasOnConfirm) == Some(OnClose)
    ensures Fired(t, HardwareBack, hasOnConfirm) == Some(OnClose)
    ensures t == Unrecognised ==>
              forall g :: Fired(t, g, hasOnConfirm) != None ==> g == OverlayTap || g == HardwareBack
  {
  }
}
