/**
 * The Tab-key focus trap of the appointment modal, in its two versions: the branch of
 * the React keydown handler (src/components/modals/AppointmentModal.tsx) and
 * `trapFocus` of the legacy script (scripts/dentelo-website/assets/js/script.js).
 * Both look at the modal's focusable elements in document order and at the element
 * that holds focus, and wrap around only at the two ends.
 */
module FocusTrap {
  import opened Wrappers
  import opened Dom

  /** What a Tab handler did: whether it called `preventDefault()`, and which element
      holds focus afterwards. */
  datatype TrapOutcome = TrapOutcome(prevented: bool, focus: Option<Id>)

  /** `querySelectorAll` never lists a node twice. */
  predicate Distinct(focusables: seq<Id>) {
    forall i, j :: 0 <= i < j < |focusables| ==> focusables[i] != focusables[j]
  }

  /** The press must wrap: Shift+Tab on the first focusable, or Tab on the last. */
  predicate AtEdge(focusables: seq<Id>, active: Option<Id>, shiftKey: bool) {
    |focusables| > 0 &&
    active == Some(if shiftKey then focusables[0] else focusables[|focusables| - 1])
  }

  /** Where a wrapping press sends focus: Shift+Tab to the last focusable, Tab to the first. */
  function WrapTarget(focusables: seq<Id>, shiftKey: bool): Id
    requires |focusables| > 0
  {
    if shiftKey then focusables[|focusables| - 1] else focusables[0]
  }

  /** The Tab branch of the React keydown handler: nothing without focusables; with
      Shift, wrap from the first to the last; without, wrap from the last to the first. */
  function ReactTab(focusables: seq<Id>, active: Option<Id>, shiftKey: bool): (r: TrapOutcome)
    ensures r.prevented <==> AtEdge(focusables, active, shiftKey)
    ensures r.prevented ==> r.focus == Some(WrapTarget(focusables, shiftKey))
    ensures !r.prevented ==> r.focus == active
  {
    if |focusables| == 0 then TrapOutcome(false, active)
    else
      var first := focusables[0];
      var last := focusables[|focusables| - 1];
      if shiftKey then
        if active == Some(first) then TrapOutcome(true, Some(last)) else TrapOutcome(false, active)
      else if active == Some(last) then TrapOutcome(true, Some(first))
      else TrapOutcome(false, active)
  }

  /** `trapFocus(event)` of the legacy script: keys other than Tab, a container without
      a modal and a modal without focusables are ignored; otherwise the same two wraps,
      tested as `shiftKey && active === first` and then `!shiftKey && active === last`. */
  function LegacyTrapFocus(key: string, hasModal: bool, focusables: seq<Id>, active: Option<Id>,
                           shiftKey: bool): (r: TrapOutcome)
    ensures key != "Tab" || !hasModal ==> r == TrapOutcome(false, active)
  {
    if key != "Tab" then TrapOutcome(false, active)
    else if !hasModal then TrapOutcome(false, active)
    else if |focusables| == 0 then TrapOutcome(false, active)
    else
      var first := focusables[0];
      var last := focusables[|focusables| - 1];
      if shiftKey && active == Some(first) then TrapOutcome(true, Some(last))
      else if !shiftKey && active == Some(last) then TrapOutcome(true, Some(first))
      else TrapOutcome(false, active)
  }

  /** The two versions of the trap agree on every Tab press. */
  lemma TrapVersionsAgree(focusables: seq<Id>, active: Option<Id>, shiftKey: bool)
    ensures LegacyTrapFocus("Tab", true, focusables, active, shiftKey) == ReactTab(focusables, active, shiftKey)
  {
  }

  /** Position of `x` in the focusable list. */
  function IndexOf(focusables: seq<Id>, x: Id): (i: nat)
    requires x in focusables
    ensures i < |focusables| && focusables[i] == x
  {
    if focusables[0] == x then 0 else 1 + IndexOf(focusables[1..], x)
  }

  lemma IndexOfDistinct(focusables: seq<Id>, i: nat)
    requires Distinct(focusables) && i < |focusables|
    ensures IndexOf(focusables, focusables[i]) == i
  {
  }

  /** One Tab (or Shift+Tab) press while focus is on `focusables[i]`: the handler's wrap
      when it prevented the default action, otherwise the browser's own move to the next
      (or previous) element in tab order, which for the modal's contents is the order of
      the focusable list. The result is the index of the element focused afterwards. */
  function Press(focusables: seq<Id>, i: nat, shiftKey: bool): (j: nat)
    requires Distinct(focusables) && i < |focusables|
    ensures j < |focusables|
  {
    var o := ReactTab(focusables, Some(focusables[i]), shiftKey);
    if o.prevented then IndexOf(focusables, o.focus.value)
    else if shiftKey then i - 1
    else i + 1
  }

  /** With the trap in place, Tab moves one step forward and Shift+Tab one step back
      around the focusable list, as if its two ends were joined. */
  lemma PressRotates(focusables: seq<Id>, i: nat)
    requires Distinct(focusables) && i < |focusables|
    ensures Press(focusables, i, false) == if i == |focusables| - 1 then 0 else i + 1
    ensures Press(focusables, i, true) == if i == 0 then |focusables| - 1 else i - 1
  {
    IndexOfDistinct(focusables, 0);
    IndexOfDistinct(focusables, |focusables| - 1);
  }

  /** Focus after `k` presses of the same key, starting at `focusables[i]`. */
  function PressTimes(focusables: seq<Id>, i: nat, k: nat, shiftKey: bool): (j: nat)
    requires Distinct(focusables) && i < |focusables|
    ensures j < |focusables|
    decreases k
  {
    if k == 0 then i else PressTimes(focusables, Press(focusables, i, shiftKey), k - 1, shiftKey)
  }

  lemma {:induction false} PressTimesAdd(focusables: seq<Id>, i: nat, a: nat, b: nat, shiftKey: bool)
    requires Distinct(focusables) && i < |focusables|
    ensures PressTimes(focusables, i, a + b, shiftKey)
         == PressTimes(focusables, PressTimes(focusables, i, a, shiftKey), b, shiftKey)
    decreases a
  {
    if a > 0 {
      PressTimesAdd(focusables, Press(focusables, i, shiftKey), a - 1, b, shiftKey);
    }
  }

  /** Away from the last element, `k` Tab presses move focus `k` places forward. */
  lemma {:induction false} PressesForward(focusables: seq<Id>, i: nat, k: nat)
    requires Distinct(focusables) && i + k < |focusables|
    ensures PressTimes(focusables, i, k, false) == i + k
    decreases k
  {
    if k > 0 {
      PressRotates(focusables, i);
      PressesForward(focusables, i + 1, k - 1);
    }
  }

  /** Away from the first element, `k` Shift+Tab presses move focus `k` places back. */
  lemma {:induction false} PressesBackward(focusables: seq<Id>, i: nat, k: nat)
    requires Distinct(focusables) && k <= i < |focusables|
    ensures PressTimes(focusables, i, k, true) == i - k
    decreases k
  {
    if k > 0 {
      PressRotates(focusables, i);
      PressesBackward(focusables, i - 1, k - 1);
    }
  }

  /** Focus stays in the modal and cycles through all of it: as many presses of the same
      key as there are focusables bring focus back to where it started. */
  lemma FullCycleReturns(focusables: seq<Id>, i: nat, shiftKey: bool)
    requires Distinct(focusables) && i < |focusables|
    ensures PressTimes(focusables, i, |focusables|, shiftKey) == i
  {
    var n := |focusables|;
    if shiftKey {
      // back to the first element, wrap to the last, then back down to i
      PressTimesAdd(focusables, i, i, n - i, true);
      PressesBackward(focusables, i, i);
      PressTimesAdd(focusables, 0, 1, n - i - 1, true);
      PressRotates(focusables, 0);
      PressesBackward(focusables, n - 1, n - i - 1);
    } else {
      // forward to the last element, wrap to the first, then forward up to i
      PressTimesAdd(focusables, i, n - 1 - i, i + 1, false);
      PressesForward(focusables, i, n - 1 - i);
      PressTimesAdd(focusables, n - 1, 1, i, false);
      PressRotates(focusables, n - 1);
      PressesForward(focusables, 0, i);
    }
  }
}
