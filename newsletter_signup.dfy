/**
 * The newsletter sign-up form (src/components/forms/NewsletterSignup.tsx): the email rule,
 * the `idle | success | error` submission machine, its feedback line and the class name
 * of the form element.
 */
module NewsletterSignup {
  import opened Wrappers
  import opened Text

  /** `newsletter_email`, trimmed: longer than three UTF-16 code units and holding an `@`.
      A missing field reads as "". */
  function ValidEmail(raw: Option<string>): (valid: bool)
    ensures raw.None? ==> !valid
    ensures valid ==> '@' in raw.value && |Trim(raw.value)| >= 2
  {
    var email := Trim(raw.GetOr(""));
    TrimIsSlice(raw.GetOr(""));
    Utf16Length(email) > 3 && '@' in email
  }

  /** An address of three characters or fewer (none outside the Basic Multilingual Plane)
      is refused even with an `@`; `a@b` is. */
  lemma ShortAddressRejected(raw: string)
    requires |Trim(raw)| <= 3 && forall i :: 0 <= i < |raw| ==> raw[i] as int <= 0xFFFF
    ensures !ValidEmail(Some(raw))
  {
    TrimIsSlice(raw);
    Utf16LengthBasic(Trim(raw));
  }

  lemma ThreeCharacterAddressRejected(raw: string)
    requires raw == "a@b"
    ensures !ValidEmail(Some(raw))
  {
    assert LeadingWhiteSpace(raw) == 0;
    assert raw[0..] == raw;
    assert TrailingWhiteSpace(raw) == 0;
    ShortAddressRejected(raw);
  }

  /** Padding an address with white space changes nothing. */
  lemma PaddingIgnored(raw: string)
    ensures ValidEmail(Some(raw)) == ValidEmail(Some(Trim(raw)))
  {
    TrimIdempotent(raw);
  }

  /** An address with an `@`, at least four characters and no white space at either end
      is accepted. */
  lemma PlainAddressAccepted(email: string)
    requires |email| >= 4 && '@' in email
    requires !IsWhiteSpace(email[0]) && !IsWhiteSpace(email[|email| - 1])
    ensures ValidEmail(Some(email))
  {
    assert LeadingWhiteSpace(email) == 0;
    assert email[0..] == email;
    assert TrailingWhiteSpace(email) == 0;
  }

  datatype SubmissionState = Idle | Success | Error

  const SuccessCopy := "Thanks! Look out for your first newsletter soon."
  const ErrorCopy := "Please enter a valid email address to subscribe."

  function Feedback(state: SubmissionState): (line: string)
    ensures line == [] <==> state == Idle
  {
    match state
    case Success => SuccessCopy
    case Error => ErrorCopy
    case Idle => ""
  }

  /** Every state has its line, the three lines differ, and only idle shows nothing. */
  lemma FeedbackDistinguishesStates(a: SubmissionState, b: SubmissionState)
    ensures Feedback(a) == Feedback(b) <==> a == b
    ensures Feedback(a) == "" <==> a == Idle
  {
    assert SuccessCopy != ErrorCopy;
  }

  /** The form's class: the caller's `className` followed by `hero-form`, or `hero-form`
      alone when there is none or it is empty (an empty string is falsy). */
  function FormClassName(className: Option<string>): (r: string)
    ensures className.Some? && className.value != [] ==>
      && |r| == |className.value| + 10 && r[..|className.value|] == className.value
      && r[|className.value|] == ' '
  {
    if className.Some? && className.value != "" then className.value + " hero-form" else "hero-form"
  }

  /** The class always ends in `hero-form`, and is exactly that when no class name was given. */
  lemma FormClassNameShape(className: Option<string>)
    ensures |FormClassName(className)| >= 9
    ensures FormClassName(className)[|FormClassName(className)| - 9..] == "hero-form"
    ensures FormClassName(className) == "hero-form" <==> className.None? || className.value == ""
  {
    var r := FormClassName(className);
    if className.Some? && className.value != "" {
      assert r == className.value + " hero-form";
      assert r[|r| - 9..] == " hero-form"[1..];
    }
  }

  /** A class name without spaces is kept as a class of its own beside `hero-form`. */
  lemma FormCarriesBothClasses(className: string)
    requires className != [] && ' ' !in className
    ensures Split(FormClassName(Some(className)), ' ') == [className, "hero-form"]
  {
    assert className + " hero-form" == className + [' '] + "hero-form";
    SplitTwo(className, "hero-form", ' ');
  }

  /** The sign-up form: its submission state and the value of the email field. */
  class NewsletterForm {
    var state: SubmissionState
    var email: string

    constructor ()
      ensures state == Idle && email == ""
    {
      state := Idle;
      email := "";
    }

    /** `onSubmit`: an invalid address shows the error and stays in the field; a valid one
        shows the thanks and the form is reset. */
    method Submit()
      modifies this
      ensures !ValidEmail(Some(old(email))) ==> state == Error && email == old(email)
      ensures ValidEmail(Some(old(email))) ==> state == Success && email == ""
    {
      if !ValidEmail(Some(email)) {
        state := Error;
        return;
      }
      state := Success;
      email := "";
    }

    /** `onInput` of the email field: the value changes and any message is cleared. */
    method Input(value: string)
      modifies this
      ensures email == value && state == Idle
    {
      email := value;
      if state != Idle {
        state := Idle;
      }
    }
  }
}
