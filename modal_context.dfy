/**
 * The appointment-modal provider (src/contexts/AppointmentModalContext.tsx): one
 * `isOpen` flag shared by every component below the provider, with `open`, `close`
 * and `toggle`, and the hook that reads it.
 */
module AppointmentModalContext {
  import opened Wrappers

  class ModalContext {
    var isOpen: bool

    /** `useState(false)` */
    constructor ()
      ensures !isOpen
    {
      isOpen := false;
    }

    /** `setIsOpen(true)` */
    method Open()
      modifies this
      ensures isOpen
    {
      isOpen := true;
    }

    /** `setIsOpen(false)` */
    method Close()
      modifies this
      ensures !isOpen
    {
      isOpen := false;
    }

    /** `setIsOpen(prev => !prev)` */
    method Toggle()
      modifies this
      ensures isOpen == !old(isOpen)
    {
      isOpen := !isOpen;
    }
  }

  const ProviderMissing := "useAppointmentModal must be used within an AppointmentModalProvider"

  /** `useAppointmentModal()`: the nearest provider's value; without a provider the hook
      throws, which is the `Err` here. */
  method UseAppointmentModal(provider: Option<ModalContext>) returns (r: Result<ModalContext, string>)
    ensures provider.Some? ==> r == Ok(provider.value)
    ensures provider.None? ==> r == Err(ProviderMissing)
  {
    if provider.None? {
      return Err(ProviderMissing);
    }
    return Ok(provider.value);
  }

  /** `open` and `close` are idempotent: a second call changes nothing. */
  method OpenTwice(ctx: ModalContext)
    modifies ctx
    ensures ctx.isOpen
  {
    ctx.Open();
    var once := ctx.isOpen;
    ctx.Open();
    assert ctx.isOpen == once;
  }

  method CloseTwice(ctx: ModalContext)
    modifies ctx
    ensures !ctx.isOpen
  {
    ctx.Close();
    var once := ctx.isOpen;
    ctx.Close();
    assert ctx.isOpen == once;
  }

  /** Two toggles bring `isOpen` back. */
  method ToggleTwice(ctx: ModalContext)
    modifies ctx
    ensures ctx.isOpen == old(ctx.isOpen)
  {
    ctx.Toggle();
    ctx.Toggle();
  }
}
