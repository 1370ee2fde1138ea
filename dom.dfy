/**
 * The small part of the browser the components touch: which element has focus,
 * the `modal-open` class on the body, and the `defaultPrevented` flag of an event.
 * Elements are identified by number.
 */
module Dom {
  import opened Wrappers

  type Id = nat

  /** `document.activeElement` (`None` when no element holds focus) and whether
      `document.body` carries the class `modal-open`. */
  class Document {
    var activeElement: Option<Id>
    var bodyModalOpen: bool

    constructor (active: Option<Id>)
      ensures activeElement == active && !bodyModalOpen
    {
      activeElement := active;
      bodyModalOpen := false;
    }

    /** `element.focus()` */
    method Focus(element: Id)
      modifies this
      ensures activeElement == Some(element) && bodyModalOpen == old(bodyModalOpen)
    {
      activeElement := Some(element);
    }

    /** `document.body.classList.add('modal-open')` / `.remove('modal-open')` */
    method SetBodyModalOpen(on: bool)
      modifies this
      ensures bodyModalOpen == on && activeElement == old(activeElement)
    {
      bodyModalOpen := on;
    }
  }

  /** A `keydown` event: its `key` string, whether Shift was held, the element it was
      dispatched to, and whether some listener has called `preventDefault()`. */
  class KeyboardEvent {
    const key: string
    const shiftKey: bool
    const target: Option<Id>
    var defaultPrevented: bool

    constructor (key: string, shiftKey: bool, target: Option<Id>)
      ensures this.key == key && this.shiftKey == shiftKey && this.target == target
      ensures !defaultPrevented
    {
      this.key := key;
      this.shiftKey := shiftKey;
      this.target := target;
      defaultPrevented := false;
    }

    method PreventDefault()
      modifies this
      ensures defaultPrevented
    {
      defaultPrevented := true;
    }
  }

  /** A `click` event: the element it was dispatched to and its `defaultPrevented` flag. */
  class MouseEvent {
    const target: Option<Id>
    var defaultPrevented: bool

    constructor (target: Option<Id>)
      ensures this.target == target && !defaultPrevented
    {
      this.target := target;
      defaultPrevented := false;
    }

    method PreventDefault()
      modifies this
      ensures defaultPrevented
    {
      defaultPrevented := true;
    }
  }
}
