/**
 * The legacy static site's script (scripts/dentelo-website/assets/js/script.js): the
 * `addEventOnElem` helper, the mobile navigation toggle, the header and back-to-top bars
 * that appear past 100 pixels of scrolling, and the appointment modal, which is opened and
 * closed by toggling classes, hidden by a 400 ms timer after closing, traps Tab while
 * active and answers a submit with a 600 ms "Sending..." phase and a thank-you line.
 */
module LegacyScript {
  import opened Wrappers
  import opened Text
  import opened Dom
  import opened FocusTrap
  import AppointmentModal

  /** What `addEventOnElem` is handed: nothing (`null`), one element, or a `NodeList`,
      `HTMLCollection` or array of elements. */
  datatype Target = Missing | Single(element: Id) | Collection(elements: seq<Id>)

  /** A registered listener: element, event type and the identity of the callback. */
  datatype Listener = Listener(element: Id, eventType: string, callback: nat)

  /** The elements a target stands for. */
  function Receivers(target: Target): set<Id> {
    match target
    case Missing => {}
    case Single(e) => {e}
    case Collection(es) => set k | 0 <= k < |es| :: es[k]
  }

  /** The listeners of the page. `addEventListener` ignores a second registration of the
      same callback for the same type on the same element, so they form a set. */
  class Listeners {
    var registered: set<Listener>

    constructor ()
      ensures registered == {}
    {
      registered := {};
    }

    /** `addEventOnElem(elem, type, callback)`: nothing for a missing target, one listener
        for an element, and one on every element of a collection, added in a loop. */
    method AddEventOnElem(target: Target, eventType: string, callback: nat)
      modifies this
      ensures registered == old(registered) + (set e | e in Receivers(target) :: Listener(e, eventType, callback))
    {
      match target {
        case Missing =>
          return;
        case Single(e) =>
          registered := registered + {Listener(e, eventType, callback)};
        case Collection(es) =>
          var i := 0;
          while i < |es|
            invariant 0 <= i <= |es|
            invariant registered == old(registered) + (set k | 0 <= k < i :: Listener(es[k], eventType, callback))
          {
            registered := registered + {Listener(es[i], eventType, callback)};
            assert (set k | 0 <= k < i + 1 :: Listener(es[k], eventType, callback))
                == (set k | 0 <= k < i :: Listener(es[k], eventType, callback)) + {Listener(es[i], eventType, callback)};
            i := i + 1;
          }
          assert (set k | 0 <= k < |es| :: Listener(es[k], eventType, callback))
              == (set e | e in Receivers(target) :: Listener(e, eventType, callback));
      }
    }
  }

  /** Attaching the same callback twice is attaching it once. */
  method AttachTwice(target: Target, eventType: string, callback: nat) returns (once: set<Listener>, twice: set<Listener>)
    ensures once == twice
    ensures forall e :: e in Receivers(target) <==> Listener(e, eventType, callback) in once
  {
    var page := new Listeners();
    page.AddEventOnElem(target, eventType, callback);
    once := page.registered;
    page.AddEventOnElem(target, eventType, callback);
    twice := page.registered;
  }

  /** The `active` classes of the navbar, its toggler, the header and the back-to-top button. */
  class LegacyNav {
    var navbarActive: bool
    var togglerActive: bool
    var headerActive: bool
    var backTopActive: bool

    /** The navbar and its toggler are open or closed together. */
    predicate Valid()
      reads this
    {
      navbarActive == togglerActive
    }

    constructor ()
      ensures Valid() && !navbarActive && !headerActive && !backTopActive
    {
      navbarActive := false;
      togglerActive := false;
      headerActive := false;
      backTopActive := false;
    }

    /** `toggleNav`: both classes flip. */
    method ToggleNav()
      requires Valid()
      modifies this
      ensures Valid()
      ensures navbarActive == !old(navbarActive)
      ensures headerActive == old(headerActive) && backTopActive == old(backTopActive)
    {
      navbarActive := !navbarActive;
      togglerActive := !togglerActive;
    }

    /** `closeNav`, run by a click on any navigation link: both classes go. */
    method CloseNav()
      modifies this
      ensures Valid() && !navbarActive && !togglerActive
      ensures headerActive == old(headerActive) && backTopActive == old(backTopActive)
    {
      navbarActive := false;
      togglerActive := false;
    }

    /** The `scroll` listener: header and back-to-top are active from 100 pixels down. */
    method OnScroll(scrollY: real)
      modifies this
      ensures headerActive == (scrollY >= 100.0) && backTopActive == headerActive
      ensures navbarActive == old(navbarActive) && togglerActive == old(togglerActive)
    {
      if scrollY >= 100.0 {
        headerActive := true;
        backTopActive := true;
      } else {
        headerActive := false;
        backTopActive := false;
      }
    }
  }

  /** The name the thank-you line uses: `rawName ? rawName.toString().trim() : ""`, then
      `|| "there"`. A missing field and an empty one both read as "". */
  function LegacyDisplayName(rawName: Option<string>): (r: string)
    ensures rawName.None? ==> r == "there"
    ensures rawName.Some? && AllWhiteSpace(rawName.value) ==> r == "there"
    ensures rawName.Some? && !AllWhiteSpace(rawName.value) ==> r == Trim(rawName.value)
  {
    TrimEmptyIff(rawName.GetOr(""));
    var fullName := if rawName.Some? && rawName.value != "" then Trim(rawName.value) else "";
    if fullName != "" then fullName else "there"
  }

  /** The legacy script and the React modal greet the same name. */
  lemma DisplayNamesAgree(rawName: Option<string>)
    ensures LegacyDisplayName(rawName) == AppointmentModal.DisplayName(rawName)
  {
    if rawName.Some? && rawName.value == "" {
      assert Trim("") == "";
    }
  }

  const SubmitCaption := "Submit Request"
  const SendingCaption := "Sending..."

  /** The modal part of the script, for a page that has a `[data-modal-container]`. */
  class LegacyModal {
    const doc: Document
    /** whether the container holds a `[data-modal]` */
    const hasModal: bool
    /** whether it holds a `.modal-form`, with a `.form-feedback` and a `.modal-submit` */
    const hasForm: bool
    const hasFeedback: bool
    const hasSubmitButton: bool
    /** the modal's elements matching `focusableSelectors`, in document order */
    const focusables: seq<Id>
    /** the element marked `data-focus-default`, if any */
    const focusDefault: Option<Id>

    /** `active` on the container */
    var containerActive: bool
    /** a `requestAnimationFrame` callback that will add `active` */
    var activatePending: bool
    /** the container's `hidden` attribute */
    var hidden: bool
    /** how many 400 ms hide timers are pending */
    var hideTimers: nat
    /** whether `hideModalTimer` holds a timer */
    var hideHandle: bool
    /** `lastFocusedElement` */
    var lastFocused: Option<Id>
    var feedbackText: string
    /** `data-visible` on the feedback element */
    var feedbackVisible: bool
    var submitDisabled: bool
    var submitText: string
    /** how many 600 ms submit timers are pending */
    var pendingSubmits: nat
    /** the value of the `full_name` field, `None` when the form has no such field */
    var nameField: Option<string>

    /** A timer referenced by `hideModalTimer` has not fired yet: firing clears the reference. */
    predicate Valid()
      reads this
    {
      Distinct(focusables) && (hideHandle ==> hideTimers >= 1)
    }

    /** The intended bookkeeping: at most one hide is pending, and it is the referenced one. */
    predicate HideTracked()
      reads this
    {
      hideTimers == if hideHandle then 1 else 0
    }

    constructor (doc: Document, hasModal: bool, hasForm: bool, hasFeedback: bool, hasSubmitButton: bool,
                 focusables: seq<Id>, focusDefault: Option<Id>, nameField: Option<string>)
      requires Distinct(focusables)
      ensures Valid() && HideTracked()
      ensures this.doc == doc && this.hasModal == hasModal && this.hasForm == hasForm
      ensures this.hasFeedback == hasFeedback && this.hasSubmitButton == hasSubmitButton
      ensures this.focusables == focusables && this.focusDefault == focusDefault && this.nameField == nameField
      ensures !containerActive && !activatePending && hidden && hideTimers == 0 && !hideHandle
      ensures lastFocused == None && feedbackText == "" && !feedbackVisible
      ensures !submitDisabled && submitText == SubmitCaption && pendingSubmits == 0
    {
      this.doc := doc;
      this.hasModal := hasModal;
      this.hasForm := hasForm;
      this.hasFeedback := hasFeedback;
      this.hasSubmitButton := hasSubmitButton;
      this.focusables := focusables;
      this.focusDefault := focusDefault;
      this.nameField := nameField;
      containerActive := false;
      activatePending := false;
      hidden := true;
      hideTimers := 0;
      hideHandle := false;
      lastFocused := None;
      feedbackText := "";
      feedbackVisible := false;
      submitDisabled := false;
      submitText := SubmitCaption;
      pendingSubmits := 0;
    }

    /** `[data-focus-default]`, else the first focusable element. */
    function DefaultFocusTarget(): Option<Id> {
      if focusDefault.Some? then focusDefault
      else if |focusables| > 0 then Some(focusables[0])
      else None
    }

    /** `setContainerHidden` as written: hiding starts a timer and overwrites the reference
        to any timer already pending; showing cancels the referenced timer and removes
        `hidden`. */
    method SetContainerHiddenAsWritten(shouldHide: bool)
      requires Valid()
      modifies this
      ensures Valid()
      ensures shouldHide ==> hideTimers == old(hideTimers) + 1 && hideHandle && hidden == old(hidden)
      ensures !shouldHide ==> hideTimers == old(hideTimers) - (if old(hideHandle) then 1 else 0)
                              && !hideHandle && !hidden
      ensures containerActive == old(containerActive) && activatePending == old(activatePending)
      ensures lastFocused == old(lastFocused) && feedbackText == old(feedbackText)
      ensures feedbackVisible == old(feedbackVisible) && submitDisabled == old(submitDisabled)
      ensures submitText == old(submitText) && pendingSubmits == old(pendingSubmits) && nameField == old(nameField)
    {
      if shouldHide {
        hideTimers := hideTimers + 1;
        hideHandle := true;
      } else {
        if hideHandle {
          hideTimers := hideTimers - 1;
          hideHandle := false;
        }
        hidden := false;
      }
    }

    /** The corrected `setContainerHidden`: the pending timer is cancelled before a new one
        is started, so that exactly one hide is pending after a close, and none after an
        open. The script as written is `SetContainerHiddenAsWritten`. */
    method SetContainerHidden(shouldHide: bool)
      requires Valid()
      modifies this
      ensures Valid()
      ensures old(HideTracked()) ==> HideTracked()
      ensures shouldHide ==> hideHandle && hidden == old(hidden)
                             && hideTimers == old(hideTimers) - (if old(hideHandle) then 1 else 0) + 1
      ensures !shouldHide ==> !hideHandle && !hidden
                              && hideTimers == old(hideTimers) - (if old(hideHandle) then 1 else 0)
      ensures containerActive == old(containerActive) && activatePending == old(activatePending)
      ensures lastFocused == old(lastFocused) && feedbackText == old(feedbackText)
      ensures feedbackVisible == old(feedbackVisible) && submitDisabled == old(submitDisabled)
      ensures submitText == old(submitText) && pendingSubmits == old(pendingSubmits) && nameField == old(nameField)
    {
      if hideHandle {
        hideTimers := hideTimers - 1;
        hideHandle := false;
      }
      if shouldHide {
        hideTimers := hideTimers + 1;
        hideHandle := true;
      } else {
        hidden := false;
      }
    }

    /** A pending hide timer fires: the container gets `hidden` and the reference is cleared,
        whichever timer it was. */
    method FireHideTimer()
      requires Valid() && hideTimers > 0
      modifies this
      ensures Valid()
      ensures old(HideTracked()) ==> HideTracked()
      ensures hidden && !hideHandle && hideTimers == old(hideTimers) - 1
      ensures containerActive == old(containerActive) && activatePending == old(activatePending)
      ensures lastFocused == old(lastFocused)
      ensures feedbackText == old(feedbackText) && feedbackVisible == old(feedbackVisible)
      ensures submitDisabled == old(submitDisabled) && submitText == old(submitText)
      ensures pendingSubmits == old(pendingSubmits) && nameField == old(nameField)
    {
      hidden := true;
      hideHandle := false;
      hideTimers := hideTimers - 1;
    }

    /** The animation frame requested by `openModal`: the container becomes `active`. */
    method AnimationFrame()
      requires Valid()
      modifies this
      ensures Valid() && (old(HideTracked()) ==> HideTracked())
      ensures containerActive == (old(containerActive) || old(activatePending)) && !activatePending
      ensures hidden == old(hidden) && hideTimers == old(hideTimers) && hideHandle == old(hideHandle)
      ensures lastFocused == old(lastFocused)
      ensures feedbackText == old(feedbackText) && feedbackVisible == old(feedbackVisible)
      ensures submitDisabled == old(submitDisabled) && submitText == old(submitText)
      ensures pendingSubmits == old(pendingSubmits) && nameField == old(nameField)
    {
      if activatePending {
        containerActive := true;
        activatePending := false;
      }
    }

    /** `openModal`: without a modal nothing happens. Otherwise the container is shown,
        `active` is requested for the next frame, the body gets `modal-open`, the focused
        element is remembered, the feedback is cleared and the default target is focused. */
    method Open()
      requires Valid()
      modifies this, doc
      ensures Valid() && (old(HideTracked()) ==> HideTracked())
      ensures !hasModal ==> unchanged(this) && unchanged(doc)
      ensures hasModal ==>
        && !hidden && !hideHandle && activatePending && doc.bodyModalOpen
        && hideTimers == old(hideTimers) - (if old(hideHandle) then 1 else 0)
        && lastFocused == old(doc.activeElement)
        && doc.activeElement == (if DefaultFocusTarget().Some? then DefaultFocusTarget() else old(doc.activeElement))
        && (hasFeedback ==> feedbackText == "" && !feedbackVisible)
        && (!hasFeedback ==> feedbackText == old(feedbackText) && feedbackVisible == old(feedbackVisible))
        && containerActive == old(containerActive)
      ensures hasModal && old(HideTracked()) ==> hideTimers == 0
      ensures submitDisabled == old(submitDisabled) && submitText == old(submitText)
      ensures pendingSubmits == old(pendingSubmits) && nameField == old(nameField)
    {
      if !hasModal {
        return;
      }
      SetContainerHidden(false);
      activatePending := true;
      doc.SetBodyModalOpen(true);
      lastFocused := doc.activeElement;
      feedbackText := if hasFeedback then [] else feedbackText;
      feedbackVisible := !hasFeedback && feedbackVisible;
      var target := DefaultFocusTarget();
      if target.Some? {
        doc.Focus(target.value);
      }
    }

    /** `closeModal` over the corrected `SetContainerHidden`: `active` and `modal-open` go,
        the one hide timer starts, and the remembered element, if any, gets focus back.
        The script as written is `CloseAsWritten`. */
    method Close()
      requires Valid()
      modifies this, doc
      ensures Valid() && (old(HideTracked()) ==> HideTracked())
      ensures !containerActive && !doc.bodyModalOpen && hideHandle && hidden == old(hidden)
      ensures hideTimers == old(hideTimers) - (if old(hideHandle) then 1 else 0) + 1
      ensures doc.activeElement == (if lastFocused.Some? then lastFocused else old(doc.activeElement))
      ensures lastFocused == old(lastFocused) && activatePending == old(activatePending)
      ensures feedbackText == old(feedbackText) && feedbackVisible == old(feedbackVisible)
      ensures submitDisabled == old(submitDisabled) && submitText == old(submitText)
      ensures pendingSubmits == old(pendingSubmits) && nameField == old(nameField)
    {
      containerActive := false;
      doc.SetBodyModalOpen(false);
      SetContainerHidden(true);
      if lastFocused.Some? {
        doc.Focus(lastFocused.value);
      }
    }

    /** `closeModal` with `setContainerHidden` as written. */
    method CloseAsWritten()
      requires Valid()
      modifies this, doc
      ensures Valid()
      ensures !containerActive && !doc.bodyModalOpen && hideTimers == old(hideTimers) + 1 && hideHandle
      ensures hidden == old(hidden) && activatePending == old(activatePending) && lastFocused == old(lastFocused)
      ensures doc.activeElement == (if lastFocused.Some? then lastFocused else old(doc.activeElement))
      ensures feedbackText == old(feedbackText) && feedbackVisible == old(feedbackVisible)
      ensures submitDisabled == old(submitDisabled) && submitText == old(submitText)
      ensures pendingSubmits == old(pendingSubmits) && nameField == old(nameField)
    {
      containerActive := false;
      doc.SetBodyModalOpen(false);
      SetContainerHiddenAsWritten(true);
      if lastFocused.Some? {
        doc.Focus(lastFocused.value);
      }
    }

    /** The window `keydown` listener over the corrected close: ignored unless the
        container is `active`; Escape closes (without preventing the default); every other
        key goes to `trapFocus`. The script as written is `KeyDownAsWritten`. */
    method KeyDown(ev: KeyboardEvent)
      requires Valid()
      modifies this, doc, ev
      ensures Valid() && (old(HideTracked()) ==> HideTracked())
      ensures !old(containerActive) ==> unchanged(this) && unchanged(doc) && unchanged(ev)
      ensures old(containerActive) && ev.key == "Escape" ==>
        && !containerActive && !doc.bodyModalOpen && hideHandle && hidden == old(hidden)
        && hideTimers == old(hideTimers) - (if old(hideHandle) then 1 else 0) + 1
        && doc.activeElement == (if old(lastFocused).Some? then old(lastFocused) else old(doc.activeElement))
        && lastFocused == old(lastFocused) && activatePending == old(activatePending)
        && feedbackText == old(feedbackText) && feedbackVisible == old(feedbackVisible)
        && submitDisabled == old(submitDisabled) && submitText == old(submitText)
        && pendingSubmits == old(pendingSubmits) && nameField == old(nameField)
        && unchanged(ev)
      ensures old(containerActive) && ev.key != "Escape" ==>
        var o := LegacyTrapFocus(ev.key, hasModal, focusables, old(doc.activeElement), ev.shiftKey);
        && ev.defaultPrevented == (old(ev.defaultPrevented) || o.prevented)
        && doc.activeElement == o.focus && doc.bodyModalOpen == old(doc.bodyModalOpen)
        && unchanged(this)
    {
      if !containerActive {
        return;
      }
      if ev.key == "Escape" {
        Close();
        return;
      }
      var o := LegacyTrapFocus(ev.key, hasModal, focusables, doc.activeElement, ev.shiftKey);
      if o.prevented {
        TrapVersionsAgree(focusables, doc.activeElement, ev.shiftKey);
        ev.PreventDefault();
        doc.Focus(o.focus.value);
      }
    }

    /** The window `keydown` listener as written: Escape calls `closeModal` as written, so
        each Escape adds a hide timer and keeps any pending one. */
    method KeyDownAsWritten(ev: KeyboardEvent)
      requires Valid()
      modifies this, doc, ev
      ensures Valid()
      ensures !old(containerActive) ==> unchanged(this) && unchanged(doc) && unchanged(ev)
      ensures old(containerActive) && ev.key == "Escape" ==>
        && !containerActive && !doc.bodyModalOpen && hideHandle && hidden == old(hidden)
        && hideTimers == old(hideTimers) + 1
        && doc.activeElement == (if old(lastFocused).Some? then old(lastFocused) else old(doc.activeElement))
        && lastFocused == old(lastFocused) && activatePending == old(activatePending)
        && feedbackText == old(feedbackText) && feedbackVisible == old(feedbackVisible)
        && submitDisabled == old(submitDisabled) && submitText == old(submitText)
        && pendingSubmits == old(pendingSubmits) && nameField == old(nameField)
        && unchanged(ev)
      ensures old(containerActive) && ev.key != "Escape" ==>
        var o := LegacyTrapFocus(ev.key, hasModal, focusables, old(doc.activeElement), ev.shiftKey);
        && ev.defaultPrevented == (old(ev.defaultPrevented) || o.prevented)
        && doc.activeElement == o.focus && doc.bodyModalOpen == old(doc.bodyModalOpen)
        && unchanged(this)
    {
      if !containerActive {
        return;
      }
      if ev.key == "Escape" {
        CloseAsWritten();
        return;
      }
      var o := LegacyTrapFocus(ev.key, hasModal, focusables, doc.activeElement, ev.shiftKey);
      if o.prevented {
        TrapVersionsAgree(focusables, doc.activeElement, ev.shiftKey);
        ev.PreventDefault();
        doc.Focus(o.focus.value);
      }
    }

    /** The form's `submit` listener, installed only when the page has both a modal and a
        form: the button is disabled with "Sending..." and a 600 ms timer starts. There is
        no guard against a second submit. */
    method Submit()
      modifies this
      ensures !(hasModal && hasForm) ==> unchanged(this)
      ensures hasModal && hasForm ==>
        && pendingSubmits == old(pendingSubmits) + 1
        && (hasSubmitButton ==> submitDisabled && submitText == SendingCaption)
        && (!hasSubmitButton ==> submitDisabled == old(submitDisabled) && submitText == old(submitText))
        && feedbackText == old(feedbackText) && feedbackVisible == old(feedbackVisible) && nameField == old(nameField)
      ensures containerActive == old(containerActive) && hidden == old(hidden)
      ensures hideTimers == old(hideTimers) && hideHandle == old(hideHandle) && lastFocused == old(lastFocused)
      ensures activatePending == old(activatePending)
    {
      if !(hasModal && hasForm) {
        return;
      }
      if hasSubmitButton {
        submitDisabled := true;
        submitText := SendingCaption;
      }
      pendingSubmits := pendingSubmits + 1;
    }

    /** `modalForm.reset()`, as far as the name field goes. */
    method ResetForm()
      modifies this
      ensures nameField == (if old(nameField).Some? then Some([]) else None)
      ensures submitDisabled == old(submitDisabled) && submitText == old(submitText)
      ensures feedbackText == old(feedbackText) && feedbackVisible == old(feedbackVisible)
      ensures pendingSubmits == old(pendingSubmits) && containerActive == old(containerActive)
      ensures hidden == old(hidden) && activatePending == old(activatePending)
      ensures hideTimers == old(hideTimers) && hideHandle == old(hideHandle) && lastFocused == old(lastFocused)
    {
      nameField := if nameField.Some? then Some([]) else None;
    }

    /** The button is enabled again and the thank-you line shown, where the page has them. */
    method ShowThanks(displayName: string)
      modifies this
      ensures hasSubmitButton ==> !submitDisabled && submitText == SubmitCaption
      ensures !hasSubmitButton ==> submitDisabled == old(submitDisabled) && submitText == old(submitText)
      ensures hasFeedback ==> feedbackText == AppointmentModal.ThanksMessage(displayName) && feedbackVisible
      ensures !hasFeedback ==> feedbackText == old(feedbackText) && feedbackVisible == old(feedbackVisible)
      ensures nameField == old(nameField) && pendingSubmits == old(pendingSubmits)
      ensures containerActive == old(containerActive) && hidden == old(hidden) && activatePending == old(activatePending)
      ensures hideTimers == old(hideTimers) && hideHandle == old(hideHandle) && lastFocused == old(lastFocused)
    {
      if hasSubmitButton {
        submitDisabled := false;
        submitText := SubmitCaption;
      }
      if hasFeedback {
        feedbackText := AppointmentModal.ThanksMessage(displayName);
        feedbackVisible := true;
      }
    }

    /** A submit timer fires: the name is read from the form as it is now, the form is
        reset, the button re-enabled, the thank-you line shown and the default target
        focused. */
    method CompleteSubmit()
      requires pendingSubmits > 0
      modifies this, doc
      ensures pendingSubmits == old(pendingSubmits) - 1
      ensures nameField == (if old(nameField).Some? then Some([]) else None)
      ensures hasSubmitButton ==> !submitDisabled && submitText == SubmitCaption
      ensures !hasSubmitButton ==> submitDisabled == old(submitDisabled) && submitText == old(submitText)
      ensures hasFeedback ==>
        feedbackText == AppointmentModal.ThanksMessage(LegacyDisplayName(old(nameField))) && feedbackVisible
      ensures !hasFeedback ==> feedbackText == old(feedbackText) && feedbackVisible == old(feedbackVisible)
      ensures doc.activeElement == (if DefaultFocusTarget().Some? then DefaultFocusTarget() else old(doc.activeElement))
      ensures doc.bodyModalOpen == old(doc.bodyModalOpen)
      ensures containerActive == old(containerActive) && hidden == old(hidden) && activatePending == old(activatePending)
      ensures hideTimers == old(hideTimers) && hideHandle == old(hideHandle) && lastFocused == old(lastFocused)
    {
      var displayName := LegacyDisplayName(nameField);
      ResetForm();
      ShowThanks(displayName);
      var target := DefaultFocusTarget();
      if target.Some? {
        doc.Focus(target.value);
      }
      pendingSubmits := pendingSubmits - 1;
    }

    /** Typing into the `full_name` field. */
    method TypeName(value: string)
      modifies this
      ensures nameField == if old(nameField).Some? then Some(value) else None
      ensures pendingSubmits == old(pendingSubmits) && feedbackText == old(feedbackText)
      ensures submitDisabled == old(submitDisabled) && submitText == old(submitText)
      ensures feedbackVisible == old(feedbackVisible) && containerActive == old(containerActive)
      ensures hidden == old(hidden) && activatePending == old(activatePending)
      ensures hideTimers == old(hideTimers) && hideHandle == old(hideHandle) && lastFocused == old(lastFocused)
    {
      if nameField.Some? {
        nameField := Some(value);
      }
    }
  }

  /** As written: closing twice while the first hide is pending (a second click on a close
      element during the fade-out) leaves an orphaned timer that re-opening does not cancel,
      so the re-opened, active modal is hidden when it fires. */
  method AsWrittenDoubleCloseHidesOpenModal() returns (active: bool, isHidden: bool)
    ensures active && isHidden
  {
    var doc := new Document(Some(9));
    var m := new LegacyModal(doc, true, true, true, true, [1, 2, 3], Some(2), Some(""));
    m.Open();
    m.AnimationFrame();
    m.CloseAsWritten();
    m.CloseAsWritten();
    m.Open();
    m.AnimationFrame();
    m.FireHideTimer();
    active := m.containerActive;
    isHidden := m.hidden;
  }

  /** With the pending timer cancelled first, the same clicks leave no hide pending once
      the modal is open again, so nothing can hide it. */
  method DoubleCloseThenOpen() returns (active: bool, isHidden: bool, pendingHides: nat)
    ensures active && !isHidden && pendingHides == 0
  {
    var doc := new Document(Some(9));
    var m := new LegacyModal(doc, true, true, true, true, [1, 2, 3], Some(2), Some(""));
    m.Open();
    m.AnimationFrame();
    m.Close();
    m.Close();
    m.Open();
    m.AnimationFrame();
    active := m.containerActive;
    isHidden := m.hidden;
    pendingHides := m.hideTimers;
  }

  /** One submission: "Sending..." on a disabled button, then "Submit Request" on an
      enabled one, and the visible thank-you line greeting the name typed in. */
  method LegacySubmitRound(name: string)
    returns (disabledDuring: bool, captionDuring: string, disabledAfter: bool, captionAfter: string,
             message: string, visible: bool)
    ensures disabledDuring && captionDuring == SendingCaption
    ensures !disabledAfter && captionAfter == SubmitCaption
    ensures message == AppointmentModal.ThanksMessage(AppointmentModal.DisplayName(Some(name))) && visible
  {
    var doc := new Document(Some(9));
    var m := new LegacyModal(doc, true, true, true, true, [1, 2, 3], Some(2), Some(""));
    m.Open();
    m.TypeName(name);
    m.Submit();
    disabledDuring := m.submitDisabled;
    captionDuring := m.submitText;
    m.CompleteSubmit();
    disabledAfter := m.submitDisabled;
    captionAfter := m.submitText;
    message := m.feedbackText;
    visible := m.feedbackVisible;
    DisplayNamesAgree(Some(name));
  }
}
