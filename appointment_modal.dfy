/**
 * The React appointment modal (src/components/modals/AppointmentModal.tsx): the keydown
 * handler installed on the window while the modal is open (Escape closes, Tab is trapped),
 * the overlay's click and key handlers, the effects that run when `isOpen` changes (body
 * class, default focus, saving and restoring the previously focused element, resetting the
 * form), and the submit sequence `idle -> submitting -> success` with its 600 ms wait.
 */
module AppointmentModal {
  import opened Wrappers
  import opened Text
  import opened Dom
  import opened FocusTrap
  import opened AppointmentModalContext

  datatype FormState = Idle | Submitting | Success

  /** The name the thank-you message uses: the trimmed `full_name`, or `there` when it is
      missing or blank. */
  function DisplayName(fullName: Option<string>): (r: string)
    ensures r != []
    ensures Trim(fullName.GetOr("")) != [] ==> r == Trim(fullName.GetOr(""))
    ensures Trim(fullName.GetOr("")) == [] ==> r == "there"
  {
    var name := Trim(fullName.GetOr(""));
    if name == [] then "there" else name
  }

  /** The display name never has white space at either end, so trimming it again keeps it. */
  lemma DisplayNameTrimmed(fullName: Option<string>)
    ensures Trim(DisplayName(fullName)) == DisplayName(fullName)
  {
    var raw := fullName.GetOr("");
    if Trim(raw) == [] {
      assert DisplayName(fullName) == "there";
    } else {
      TrimIdempotent(raw);
    }
  }

  /** A name with no white space at its ends is shown as it is. */
  lemma DisplayNameKeepsTrimmed(name: string)
    requires name != [] && !IsWhiteSpace(name[0]) && !IsWhiteSpace(name[|name| - 1])
    ensures DisplayName(Some(name)) == name
  {
    assert LeadingWhiteSpace(name) == 0;
    assert name[0..] == name;
    assert TrailingWhiteSpace(name) == 0;
  }

  function ThanksMessage(displayName: string): string {
    "Thanks " + displayName + ", our care team will reach out within 24 hours."
  }

  /** Different names give different thank-you messages. */
  lemma ThanksMessageInjective(a: string, b: string)
    requires ThanksMessage(a) == ThanksMessage(b)
    ensures a == b
  {
    var tail := ", our care team will reach out within 24 hours.";
    assert |a| == |b|;
    assert a == ThanksMessage(a)[7..7 + |a|];
    assert b == ThanksMessage(b)[7..7 + |b|];
  }

  /** The submit button: disabled, and labelled "Sending...", exactly while submitting. */
  function SubmitDisabled(state: FormState): bool {
    state == Submitting
  }

  function SubmitLabel(state: FormState): (caption: string)
    ensures caption == "Sending..." <==> SubmitDisabled(state)
  {
    if state == Submitting then "Sending..." else "Submit Request"
  }

  /** `data-visible` of the feedback paragraph. */
  function FeedbackVisible(state: FormState): bool {
    state == Success
  }

  /** `modal-container`, with ` active` while open. */
  function ContainerClassName(isOpen: bool): string {
    "modal-container" + (if isOpen then " active" else "")
  }

  lemma ContainerActiveIffOpen(isOpen: bool)
    ensures HasClass(ContainerClassName(isOpen), "active") <==> isOpen
  {
    ActiveSuffix("modal-container", isOpen);
  }

  /** The focus bookkeeping of opening and closing: the focused element and the element
      remembered in `lastFocusedElement`. */
  datatype FocusMemory = FocusMemory(active: Option<Id>, saved: Option<Id>)

  /** Opening, with the effects in the order they are declared: the first effect focuses
      the default target, and only then does the later one save `document.activeElement`,
      which by then is that target. */
  function OpenFocusAsWritten(active: Option<Id>, target: Option<Id>): (m: FocusMemory)
    ensures m.saved == m.active
    ensures target.Some? ==> m.saved == target
    ensures target.None? ==> m.saved == active
  {
    var focused := if target.Some? then target else active;
    FocusMemory(focused, focused)
  }

  /** Opening as intended: remember the element that had focus, then focus the default target. */
  function OpenFocus(active: Option<Id>, target: Option<Id>): (m: FocusMemory)
    ensures m.saved == active
    ensures m.active == if target.Some? then target else active
  {
    FocusMemory(if target.Some? then target else active, active)
  }

  /** Closing: focus the remembered element if there is one, then forget it. */
  function CloseFocus(m: FocusMemory): (r: FocusMemory)
    ensures r.saved == None
    ensures r.active == if m.saved.Some? then m.saved else m.active
  {
    FocusMemory(if m.saved.Some? then m.saved else m.active, None)
  }

  /** As written, the element remembered for the return trip is the modal's own default
      target, never the trigger that had focus before (the two effects run in the wrong order). */
  lemma AsWrittenForgetsTrigger(trigger: Id, target: Id)
    requires trigger != target
    ensures OpenFocusAsWritten(Some(trigger), Some(target)).saved == Some(target)
    ensures OpenFocusAsWritten(Some(trigger), Some(target)).saved != Some(trigger)
  {
  }

  /** Opening and then closing gives focus back to the element that held it before, and
      leaves nothing remembered. */
  lemma OpenCloseRestoresFocus(active: Id, target: Option<Id>)
    ensures CloseFocus(OpenFocus(Some(active), target)) == FocusMemory(Some(active), None)
  {
  }

  class AppointmentModal {
    const ctx: ModalContext
    const doc: Document
    /** the overlay element */
    const overlay: Id
    /** the elements inside the modal matching `focusableSelectors`, in document order */
    const focusables: seq<Id>
    /** the element marked `data-focus-default` (the full-name input), if any */
    const focusDefault: Option<Id>

    /** `isOpen` as of the last commit, the value the effects have seen */
    var committedOpen: bool
    /** whether the window keydown handler is installed */
    var listening: bool
    var formState: FormState
    var feedback: string
    /** `lastFocusedElement.current` */
    var lastFocused: Option<Id>
    /** a submission waiting out its delay, with the display name it read */
    var pendingName: Option<string>

    /** The focusables are distinct, the key handler is installed exactly while the modal is
        committed open, and the feedback paragraph is visible exactly when it has text. */
    ghost predicate Valid()
      reads this
    {
      && Distinct(focusables) && listening == committedOpen
      && (FeedbackVisible(formState) <==> feedback != "")
    }

    /** The element the open effect focuses: `[data-focus-default]`, else the first focusable. */
    function DefaultFocusTarget(): Option<Id> {
      if focusDefault.Some? then focusDefault
      else if |focusables| > 0 then Some(focusables[0])
      else None
    }

    constructor (ctx: ModalContext, doc: Document, overlay: Id, focusables: seq<Id>, focusDefault: Option<Id>)
      requires Distinct(focusables) && !ctx.isOpen
      ensures Valid()
      ensures this.ctx == ctx && this.doc == doc && this.overlay == overlay
      ensures this.focusables == focusables && this.focusDefault == focusDefault
      ensures !committedOpen && formState == Idle && feedback == "" && lastFocused == None && pendingName == None
    {
      this.ctx := ctx;
      this.doc := doc;
      this.overlay := overlay;
      this.focusables := focusables;
      this.focusDefault := focusDefault;
      committedOpen := false;
      listening := false;
      formState := Idle;
      feedback := "";
      lastFocused := None;
      pendingName := None;
    }

    /** React commits a new `isOpen`: when it changed, the cleanups of the previous run of
        the `[isOpen]` effects and then the effects themselves run. Opening adds `modal-open`,
        remembers and moves focus and installs the keydown handler; closing removes them,
        restores focus and resets the form state and feedback. */
    method Commit()
      requires Valid()
      modifies this, doc
      ensures Valid()
      ensures committedOpen == ctx.isOpen
      ensures old(committedOpen) == ctx.isOpen ==> unchanged(this) && unchanged(doc)
      ensures !old(committedOpen) && ctx.isOpen ==>
        && doc.bodyModalOpen && listening
        && FocusMemory(doc.activeElement, lastFocused) == OpenFocus(old(doc.activeElement), DefaultFocusTarget())
        && formState == old(formState) && feedback == old(feedback) && pendingName == old(pendingName)
      ensures old(committedOpen) && !ctx.isOpen ==>
        && !doc.bodyModalOpen && !listening
        && FocusMemory(doc.activeElement, lastFocused) == CloseFocus(FocusMemory(old(doc.activeElement), old(lastFocused)))
        && formState == Idle && feedback == "" && pendingName == old(pendingName)
    {
      if committedOpen == ctx.isOpen {
        return;
      }
      committedOpen := ctx.isOpen;
      if ctx.isOpen {
        lastFocused := doc.activeElement;
        doc.SetBodyModalOpen(true);
        var target := DefaultFocusTarget();
        if target.Some? {
          doc.Focus(target.value);
        }
        listening := true;
      } else {
        // cleanups of the open run
        doc.SetBodyModalOpen(false);
        listening := false;
        // the effects, in declaration order
        doc.SetBodyModalOpen(false);
        if lastFocused.Some? {
          doc.Focus(lastFocused.value);
        }
        lastFocused := None;
        formState := Idle;
        feedback := "";
      }
    }

    /** `Commit` with the `[isOpen]` effects in the order they are declared: on opening,
        the focus effect moves focus to the default target before the later effect saves
        `document.activeElement`, so what is saved is that target. Closing is as in `Commit`. */
    method CommitAsWritten()
      requires Valid()
      modifies this, doc
      ensures Valid()
      ensures committedOpen == ctx.isOpen
      ensures old(committedOpen) == ctx.isOpen ==> unchanged(this) && unchanged(doc)
      ensures !old(committedOpen) && ctx.isOpen ==>
        && doc.bodyModalOpen && listening
        && FocusMemory(doc.activeElement, lastFocused) == OpenFocusAsWritten(old(doc.activeElement), DefaultFocusTarget())
        && formState == old(formState) && feedback == old(feedback) && pendingName == old(pendingName)
      ensures old(committedOpen) && !ctx.isOpen ==>
        && !doc.bodyModalOpen && !listening
        && FocusMemory(doc.activeElement, lastFocused) == CloseFocus(FocusMemory(old(doc.activeElement), old(lastFocused)))
        && formState == Idle && feedback == "" && pendingName == old(pendingName)
    {
      if committedOpen == ctx.isOpen {
        return;
      }
      committedOpen := ctx.isOpen;
      if ctx.isOpen {
        doc.SetBodyModalOpen(true);
        var target := DefaultFocusTarget();
        if target.Some? {
          doc.Focus(target.value);
        }
        listening := true;
        lastFocused := doc.activeElement;
      } else {
        doc.SetBodyModalOpen(false);
        listening := false;
        doc.SetBodyModalOpen(false);
        if lastFocused.Some? {
          doc.Focus(lastFocused.value);
        }
        lastFocused := None;
        formState := Idle;
        feedback := "";
      }
    }

    /** The window keydown handler, when installed: Escape prevents the default and closes;
        Tab and Shift+Tab wrap focus at the ends of the focusable list; other keys do nothing. */
    method HandleKeyDown(ev: KeyboardEvent)
      requires Valid()
      modifies ev, ctx, doc
      ensures !listening || (ev.key != "Escape" && ev.key != "Tab") ==>
        unchanged(ev) && unchanged(ctx) && unchanged(doc)
      ensures listening && ev.key == "Escape" ==>
        ev.defaultPrevented && !ctx.isOpen && unchanged(doc)
      ensures listening && ev.key == "Tab" ==>
        var o := ReactTab(focusables, old(doc.activeElement), ev.shiftKey);
        && ev.defaultPrevented == (old(ev.defaultPrevented) || o.prevented)
        && doc.activeElement == o.focus
        && doc.bodyModalOpen == old(doc.bodyModalOpen) && unchanged(ctx)
    {
      if !listening {
        return;
      }
      if ev.key == "Escape" {
        ev.PreventDefault();
        ctx.Close();
        return;
      }
      if ev.key != "Tab" {
        return;
      }
      if |focusables| == 0 {
        return;
      }
      var first := focusables[0];
      var last := focusables[|focusables| - 1];
      if ev.shiftKey {
        if doc.activeElement == Some(first) {
          ev.PreventDefault();
          doc.Focus(last);
        }
      } else if doc.activeElement == Some(last) {
        ev.PreventDefault();
        doc.Focus(first);
      }
    }

    /** A click closes the modal only when it lands on the overlay itself. */
    method HandleOverlayClick(ev: MouseEvent)
      modifies ctx
      ensures ev.target == Some(overlay) ==> !ctx.isOpen
      ensures ev.target != Some(overlay) ==> unchanged(ctx)
    {
      if ev.target == Some(overlay) {
        ctx.Close();
      }
    }

    /** Enter or Space on the overlay itself prevents the default and closes. */
    method HandleOverlayKeyDown(ev: KeyboardEvent)
      modifies ev, ctx
      ensures ev.target == Some(overlay) && (ev.key == "Enter" || ev.key == " ") ==>
        ev.defaultPrevented && !ctx.isOpen
      ensures !(ev.target == Some(overlay) && (ev.key == "Enter" || ev.key == " ")) ==>
        unchanged(ev) && unchanged(ctx)
    {
      if ev.target != Some(overlay) {
        return;
      }
      if ev.key == "Enter" || ev.key == " " {
        ev.PreventDefault();
        ctx.Close();
      }
    }

    /** `handleSubmit` up to its wait: ignored while a submission is in flight; otherwise the
        state becomes `submitting`, the feedback is cleared and the display name is read. */
    method HandleSubmit(fullName: Option<string>)
      modifies this
      ensures old(formState) == Submitting ==> unchanged(this)
      ensures old(formState) != Submitting ==>
        && formState == Submitting && feedback == "" && pendingName == Some(DisplayName(fullName))
        && committedOpen == old(committedOpen) && listening == old(listening) && lastFocused == old(lastFocused)
    {
      if formState == Submitting {
        return;
      }
      formState := Submitting;
      feedback := "";
      pendingName := Some(DisplayName(fullName));
    }

    /** The rest of `handleSubmit` after its 600 ms wait, with the form element captured
        before the wait: reset the form, show the thank-you message and focus the default
        field again. */
    method CompleteSubmit()
      requires pendingName.Some?
      modifies this, doc
      ensures formState == Success && feedback == ThanksMessage(old(pendingName).value) && pendingName == None
      ensures committedOpen == old(committedOpen) && listening == old(listening) && lastFocused == old(lastFocused)
      ensures doc.activeElement == (if focusDefault.Some? then focusDefault else old(doc.activeElement))
      ensures doc.bodyModalOpen == old(doc.bodyModalOpen)
    {
      formState := Success;
      feedback := ThanksMessage(pendingName.value);
      pendingName := None;
      if focusDefault.Some? {
        doc.Focus(focusDefault.value);
      }
    }

    /** The rest of `handleSubmit` as written: after the wait `event.currentTarget` is null,
        so `event.currentTarget.reset()` throws and nothing after it runs; the submission is
        over but the state stays `submitting`. */
    method CompleteSubmitAsWritten()
      requires pendingName.Some?
      modifies this
      ensures pendingName == None
      ensures formState == old(formState) && feedback == old(feedback)
      ensures committedOpen == old(committedOpen) && listening == old(listening) && lastFocused == old(lastFocused)
    {
      pendingName := None;
    }
  }

  /** As written, a submission never reaches `success`: the button stays disabled and
      reads "Sending..." until the modal is closed. */
  method AsWrittenSubmitNeverSucceeds() returns (state: FormState, caption: string)
    ensures state == Submitting && caption == "Sending..."
  {
    var ctx := new ModalContext();
    var doc := new Document(Some(7));
    var modal := new AppointmentModal(ctx, doc, 0, [1, 2, 3], Some(2));
    ctx.Open();
    modal.Commit();
    modal.HandleSubmit(Some("Ann"));
    modal.CompleteSubmitAsWritten();
    state := modal.formState;
    caption := SubmitLabel(state);
  }

  /** As written, opening the modal from the element with id 7 and closing it again leaves
      focus on the modal's own default field (id 2), not on the element that opened it. */
  method AsWrittenOpenCloseLosesTrigger() returns (focus: Option<Id>)
    ensures focus == Some(2) && focus != Some(7)
  {
    var ctx := new ModalContext();
    var doc := new Document(Some(7));
    var modal := new AppointmentModal(ctx, doc, 0, [1, 2, 3], Some(2));
    ctx.Open();
    modal.CommitAsWritten();
    ctx.Close();
    modal.CommitAsWritten();
    focus := doc.activeElement;
  }

  /** With the form captured before the wait, one open-submit-close round goes
      idle -> submitting -> success with the thank-you message, then back to idle with focus
      on the element that opened the modal. */
  method SubmitRound() returns (during: FormState, after: FormState, message: string,
                                closed: FormState, focus: Option<Id>)
    ensures during == Submitting && after == Success
    ensures message == ThanksMessage("Ann")
    ensures closed == Idle && focus == Some(7)
  {
    var ctx := new ModalContext();
    var doc := new Document(Some(7));
    var modal := new AppointmentModal(ctx, doc, 0, [1, 2, 3], Some(2));
    ctx.Open();
    modal.Commit();
    DisplayNameKeepsTrimmed("Ann");
    modal.HandleSubmit(Some("Ann"));
    during := modal.formState;
    modal.CompleteSubmit();
    after := modal.formState;
    message := modal.feedback;
    ctx.Close();
    modal.Commit();
    closed := modal.formState;
    focus := doc.activeElement;
  }
}
