/**
 * The "book appointment" button (src/components/common/BookAppointmentButton.tsx): a
 * button of type `button` unless told otherwise, whose click runs the caller's own
 * `onClick` first and then opens the appointment modal unless that handler called
 * `preventDefault()`.
 */
module BookAppointmentButton {
  import opened Wrappers
  import opened Dom
  import opened AppointmentModalContext

  /** The caller's `onClick`, seen through what it does to the event. */
  datatype ClickHandler = ClickHandler(preventsDefault: bool)

  /** The calls a click makes, in order. */
  datatype Call = CallerOnClick | OpenModal

  /** `type = 'button'` in the parameter list: the default applies when no type is passed. */
  function ButtonType(requested: Option<string>): (t: string)
    ensures requested.None? ==> t == "button"
    ensures requested.Some? ==> t == requested.value
  {
    requested.GetOr("button")
  }

  /** The click handler: `onClick?.(event)`, then `open()` unless the default was prevented. */
  method Click(onClick: Option<ClickHandler>, ev: MouseEvent, ctx: ModalContext) returns (calls: seq<Call>)
    modifies ev, ctx
    ensures ev.defaultPrevented == (old(ev.defaultPrevented) || (onClick.Some? && onClick.value.preventsDefault))
    ensures calls == (if onClick.Some? then [CallerOnClick] else [])
                   + (if ev.defaultPrevented then [] else [OpenModal])
    ensures !ev.defaultPrevented ==> ctx.isOpen
    ensures ev.defaultPrevented ==> ctx.isOpen == old(ctx.isOpen)
  {
    calls := [];
    if onClick.Some? {
      calls := calls + [CallerOnClick];
      if onClick.value.preventsDefault {
        ev.PreventDefault();
      }
    }
    if !ev.defaultPrevented {
      ctx.Open();
      calls := calls + [OpenModal];
    }
  }

  /** A fresh click on a closed modal: the caller's handler, if any, comes first; the modal
      opens exactly when that handler did not prevent the default, and always without one. */
  method ClickOnClosedModal(onClick: Option<ClickHandler>) returns (calls: seq<Call>, nowOpen: bool)
    ensures nowOpen <==> !(onClick.Some? && onClick.value.preventsDefault)
    ensures calls == (if onClick.Some? then [CallerOnClick] else []) + (if nowOpen then [OpenModal] else [])
    ensures onClick.None? ==> calls == [OpenModal]
  {
    var ev := new MouseEvent(None);
    var ctx := new ModalContext();
    calls := Click(onClick, ev, ctx);
    nowOpen := ctx.isOpen;
  }
}
