/**
 * The contact form (src/components/forms/ContactForm.tsx): the `isValid` check over the
 * submitted fields, the labels of the preferred-dentist options, and the three-state
 * submission machine `idle | success | error` with the feedback line it shows.
 */
module ContactForm {
  import opened Text

  /** The submitted `FormData`, by field name. */
  type FormData = map<string, string>

  /** `(formData.get(name) ?? '').toString()`: a field that is not there reads as "". */
  function Field(form: FormData, name: string): string {
    if name in form then form[name] else ""
  }

  const RequiredFields: seq<string> := ["contact_name", "contact_email", "contact_subject", "contact_message"]

  /** A field the check looks at must be filled in with more than white space. */
  predicate Filled(form: FormData, name: string) {
    Trim(Field(form, name)) != []
  }

  /** What `isValid` accepts: every required field filled in, and an `@` in the trimmed email. */
  function ContactValid(form: FormData): (valid: bool)
    ensures valid ==> forall k :: 0 <= k < |RequiredFields| ==> RequiredFields[k] in form
    ensures valid ==> "contact_email" in form && '@' in form["contact_email"]
  {
    TrimIsSlice(Field(form, "contact_email"));
    (forall k :: 0 <= k < |RequiredFields| ==> Filled(form, RequiredFields[k]))
    && '@' in Trim(Field(form, "contact_email"))
  }

  /** `isValid(formData)`: walk the required fields and stop at the first blank one,
      then look for the `@` in the email. */
  method IsValid(form: FormData) returns (ok: bool)
    ensures ok == ContactValid(form)
  {
    var i := 0;
    while i < |RequiredFields|
      invariant 0 <= i <= |RequiredFields|
      invariant forall k :: 0 <= k < i ==> Filled(form, RequiredFields[k])
    {
      var value := Trim(Field(form, RequiredFields[i]));
      if value == [] {
        return false;
      }
      i := i + 1;
    }
    var email := Trim(Field(form, "contact_email"));
    ok := '@' in email;
  }

  /** A required field that is missing, or holds only white space, makes the form invalid. */
  lemma BlankRequiredRejected(form: FormData, k: nat)
    requires k < |RequiredFields|
    requires RequiredFields[k] !in form || AllWhiteSpace(form[RequiredFields[k]])
    ensures !ContactValid(form)
  {
    TrimEmptyIff(Field(form, RequiredFields[k]));
  }

  /** Fields outside the required four (phone, service, dentist) never change the verdict. */
  lemma OptionalFieldsIgnored(form: FormData, name: string, value: string)
    requires name !in RequiredFields
    ensures ContactValid(form[name := value]) == ContactValid(form)
  {
    assert name != "contact_email" by { assert RequiredFields[1] == "contact_email"; }
    forall k | 0 <= k < |RequiredFields|
      ensures Field(form[name := value], RequiredFields[k]) == Field(form, RequiredFields[k])
    {
    }
  }

  /** A label part: its first character upper-cased, the rest as it is. */
  function CapitalizeAll(parts: seq<string>): (r: seq<string>)
    ensures |r| == |parts|
    ensures forall k :: 0 <= k < |parts| ==> r[k] == Capitalize(parts[k])
  {
    if parts == [] then [] else [Capitalize(parts[0])] + CapitalizeAll(parts[1..])
  }

  /** The option label of a dentist id: split on `-`, capitalise each part, join with spaces.
      Each dash becomes one space, so the label is as long as the id. */
  function DoctorLabel(id: string): (caption: string)
    ensures |caption| == |id|
  {
    CapitalizedJoinLength(Split(id, '-'));
    Join(CapitalizeAll(Split(id, '-')), " ")
  }

  /** Capitalising the parts and joining them with a space keeps the length of the parts
      joined with a dash. */
  lemma {:induction false} CapitalizedJoinLength(parts: seq<string>)
    ensures |Join(CapitalizeAll(parts), " ")| == |Join(parts, "-")|
  {
    if |parts| > 1 {
      var caps := CapitalizeAll(parts);
      assert caps[1..] == CapitalizeAll(parts[1..]);
      CapitalizedJoinLength(parts[1..]);
      assert Join(caps, " ") == caps[0] + " " + Join(caps[1..], " ");
      assert Join(parts, "-") == parts[0] + "-" + Join(parts[1..], "-");
    }
  }

  /** A character outside a joined string is in none of its parts. */
  lemma {:induction false} NotInJoinedParts(parts: seq<string>, sep: string, c: char)
    requires c !in Join(parts, sep)
    ensures forall k :: 0 <= k < |parts| ==> c !in parts[k]
  {
    if |parts| > 1 {
      NotInJoinedParts(parts[1..], sep, c);
      assert Join(parts, sep) == parts[0] + sep + Join(parts[1..], sep);
      forall k | 1 <= k < |parts| ensures c !in parts[k] {
        assert parts[k] == parts[1..][k - 1];
      }
    }
  }

  /** Capitalising never introduces a space. */
  lemma CapitalizeNoSpace(part: string)
    requires ' ' !in part
    ensures ' ' !in Capitalize(part)
  {
    if part != [] {
      var r := Capitalize(part);
      assert r == [r[0]] + part[1..];
      assert part[0] in part;
    }
  }

  /** A dentist id without spaces gives a label whose words are the capitalised parts of
      the id, one word per `-`-separated part. */
  lemma DoctorLabelWords(id: string)
    requires ' ' !in id
    ensures Split(DoctorLabel(id), ' ') == CapitalizeAll(Split(id, '-'))
    ensures |Split(DoctorLabel(id), ' ')| == |Split(id, '-')|
  {
    var parts := Split(id, '-');
    var words := CapitalizeAll(parts);
    NotInJoinedParts(parts, "-", ' ');
    forall k | 0 <= k < |words| ensures ' ' !in words[k] {
      CapitalizeNoSpace(parts[k]);
    }
    SplitJoin(words, ' ');
  }

  /** A two-part id such as `howard-holmes` is offered as its two capitalised parts
      separated by one space, `Howard Holmes`. */
  lemma TwoPartLabel(first: string, last: string)
    requires '-' !in first && '-' !in last
    ensures DoctorLabel(first + "-" + last) == Capitalize(first) + " " + Capitalize(last)
  {
    assert first + "-" + last == first + ['-'] + last;
    SplitTwo(first, last, '-');
    var caps := CapitalizeAll([first, last]);
    assert caps == [Capitalize(first), Capitalize(last)];
    assert Join(caps, " ") == caps[0] + " " + Join(caps[1..], " ");
  }

  lemma HowardHolmesLabel(id: string)
    requires id == "howard-holmes"
    ensures DoctorLabel(id) == "Howard Holmes"
  {
    HowardHolmesParts("howard", "holmes");
    TwoPartLabel("howard", "holmes");
  }

  /** The two parts of `howard-holmes` and their capitalised forms. */
  lemma HowardHolmesParts(first: string, last: string)
    requires first == "howard" && last == "holmes"
    ensures first + "-" + last == "howard-holmes"
    ensures Capitalize(first) == "Howard" && Capitalize(last) == "Holmes"
  {
  }

  datatype SubmissionState = Idle | Success | Error

  const SuccessMessage := "Thanks for reaching out! Our care coordinator will contact you within one business hour."
  const ErrorMessage := "Please fill in the required fields so we can respond to your message."

  /** The feedback line under the form. */
  function Feedback(state: SubmissionState): (line: string)
    ensures line == [] <==> state == Idle
  {
    match state
    case Success => SuccessMessage
    case Error => ErrorMessage
    case Idle => ""
  }

  /** Each state shows its own line, and the line is empty exactly when idle. */
  lemma FeedbackDistinguishesStates(a: SubmissionState, b: SubmissionState)
    ensures Feedback(a) == Feedback(b) <==> a == b
    ensures Feedback(a) == "" <==> a == Idle
  {
    assert |SuccessMessage| != |ErrorMessage|;
  }

  /** The form element: its submission state and the current field values. */
  class ContactFormState {
    var state: SubmissionState
    var fields: FormData

    constructor (fields: FormData)
      ensures state == Idle && this.fields == fields
    {
      state := Idle;
      this.fields := fields;
    }

    /** `onSubmit`: an invalid form shows the error and keeps what was typed; a valid one
        shows the thanks and is reset, every field back to empty. */
    method Submit()
      modifies this
      ensures !ContactValid(old(fields)) ==> state == Error && fields == old(fields)
      ensures ContactValid(old(fields)) ==>
        && state == Success
        && fields.Keys == old(fields).Keys
        && forall name :: Field(fields, name) == ""
    {
      var ok := IsValid(fields);
      if !ok {
        state := Error;
        return;
      }
      state := Success;
      fields := map name | name in fields :: "";
    }

    /** `onInput` / `onChange` of any field: the new value is stored, and a success or
        error message is cleared by going back to idle. */
    method Input(name: string, value: string)
      modifies this
      ensures fields == old(fields)[name := value]
      ensures state == Idle
    {
      fields := fields[name := value];
      if state != Idle {
        state := Idle;
      }
    }
  }
}
