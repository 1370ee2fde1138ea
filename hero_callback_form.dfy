/**
 * The call-back request form of the home-page hero
 * (src/components/sections/home/HeroCallBackForm.tsx): a guarded two-phase submission,
 * `idle -> submitting` at once and `submitting -> success` when a 500 ms timer fires,
 * with a thank-you line that repeats the trimmed email address when there is one.
 */
module HeroCallBackForm {
  import opened Wrappers
  import opened Text

  datatype Status = Idle | Submitting | Success

  const GenericThanks := "Thanks! We'll call you soon."
  const ThanksPrefix := "Thanks! We'll call you at the details linked to "
  const ThanksSuffix := " within a day."

  /** The line shown on success: the address when one was given, the generic line otherwise. */
  function CallBackMessage(email: string): (m: string)
    ensures email != [] ==> |m| == |ThanksPrefix| + |email| + |ThanksSuffix|
    ensures email != [] ==> m[|ThanksPrefix|..|ThanksPrefix| + |email|] == email
    ensures email == [] ==> m == GenericThanks
  {
    if email != "" then ThanksPrefix + email + ThanksSuffix else GenericThanks
  }

  /** The address can be read back out of the message, so different addresses give
      different messages, and no address gives the generic line. */
  lemma CallBackMessageInjective(a: string, b: string)
    requires CallBackMessage(a) == CallBackMessage(b)
    ensures a == b
  {
    if a != [] && b != [] {
      assert |a| == |b|;
    }
  }

  /** The submit button is disabled, and reads "Sending...", exactly while submitting. */
  function ButtonDisabled(status: Status): bool {
    status == Submitting
  }

  function ButtonLabel(status: Status): (caption: string)
    ensures caption == "Sending..." <==> ButtonDisabled(status)
  {
    if status == Submitting then "Sending..." else "Get Call Back"
  }

  /** `data-visible` of the feedback line. */
  function FeedbackVisible(status: Status): bool {
    status == Success
  }

  class CallBackForm {
    var status: Status
    var feedback: string
    /** the value of the `email_address` field */
    var emailField: string
    /** the trimmed address a submission read, while its timer is pending */
    var pending: Option<string>

    /** Only a submission in flight has a pending timer, and the feedback line is visible
        exactly when it has text. */
    predicate Valid()
      reads this
    {
      && (pending.Some? <==> status == Submitting)
      && (FeedbackVisible(status) <==> feedback != "")
    }

    constructor ()
      ensures Valid()
      ensures status == Idle && feedback == "" && emailField == "" && pending == None
    {
      status := Idle;
      feedback := "";
      emailField := "";
      pending := None;
    }

    /** `handleSubmit` up to the timer: ignored while submitting; otherwise the status
        becomes `submitting`, the feedback is cleared and the trimmed address is read. */
    method Submit()
      requires Valid()
      modifies this
      ensures Valid()
      ensures old(status) == Submitting ==> unchanged(this)
      ensures old(status) != Submitting ==>
        && status == Submitting && feedback == "" && pending == Some(Trim(old(emailField)))
        && emailField == old(emailField)
    {
      if status == Submitting {
        return;
      }
      status := Submitting;
      feedback := "";
      pending := Some(Trim(emailField));
    }

    /** The timer callback with the form element captured before the wait: success, the
        thank-you line, and the field is reset. */
    method Complete()
      requires Valid() && pending.Some?
      modifies this
      ensures Valid()
      ensures status == Success && feedback == CallBackMessage(old(pending).value)
      ensures emailField == "" && pending == None
    {
      status := Success;
      feedback := CallBackMessage(pending.value);
      pending := None;
      emailField := "";
    }

    /** The timer callback as written: the status and the feedback are set, but
        `event.currentTarget` is null by the time the timer fires, so `reset()` throws
        and the address stays in the field. */
    method CompleteAsWritten()
      requires Valid() && pending.Some?
      modifies this
      ensures Valid()
      ensures status == Success && feedback == CallBackMessage(old(pending).value)
      ensures emailField == old(emailField) && pending == None
    {
      status := Success;
      feedback := CallBackMessage(pending.value);
      pending := None;
    }

    /** Typing into the email field. */
    method Type(value: string)
      modifies this
      ensures emailField == value
      ensures status == old(status) && feedback == old(feedback) && pending == old(pending)
    {
      emailField := value;
    }
  }

  /** As written, the address is still in the field after a successful request. */
  method AsWrittenKeepsAddress(address: string) returns (status: Status, field: string)
    ensures status == Success && field == address
  {
    var form := new CallBackForm();
    form.Type(address);
    form.Submit();
    form.CompleteAsWritten();
    status := form.status;
    field := form.emailField;
  }

  /** One request: submitting (a second submit is ignored), then success with the trimmed
      address in the thank-you line, and an empty field. */
  method RequestRound(address: string) returns (during: Status, caption: string, after: Status,
                                                message: string, field: string)
    ensures during == Submitting && caption == "Sending..."
    ensures after == Success && message == CallBackMessage(Trim(address)) && field == ""
  {
    var form := new CallBackForm();
    form.Type(address);
    form.Submit();
    form.Submit();
    during := form.status;
    caption := ButtonLabel(during);
    form.Complete();
    after := form.status;
    message := form.feedback;
    field := form.emailField;
  }
}
