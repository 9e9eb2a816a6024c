/**
 * The contact-form hook of hooks/useContactForm.ts.
 *
 * The three pieces of React state become the fields of a `ContactFormState`
 * object. React applies the updates of one handler in order, so each `set...`
 * call is an assignment; the component does not observe the intermediate
 * states. `fetch` and the parsing of its error body are the parameter `reply`.
 */
module UseContactForm {
  import opened Common
  import opened Types

  /** `initialFormData`. */
  const InitialFormData := ContactFormData("", "", "", "")

  /** The `name` attribute of the changed input, for the four fields of the form. */
  datatype Field = NameField | EmailField | SubjectField | MessageField

  /** The field a change event names. */
  function FieldValue(d: ContactFormData, field: Field): string {
    match field
    case NameField => d.name
    case EmailField => d.email
    case SubjectField => d.subject
    case MessageField => d.message
  }

  /** `{ ...prev, [name]: value }`: the named field takes the new value and
      the other three keep theirs. */
  function WithField(d: ContactFormData, field: Field, value: string): (r: ContactFormData)
    ensures FieldValue(r, field) == value
    ensures forall other :: other != field ==> FieldValue(r, other) == FieldValue(d, other)
  {
    match field
    case NameField => d.(name := value)
    case EmailField => d.(email := value)
    case SubjectField => d.(subject := value)
    case MessageField => d.(message := value)
  }

  /** The four fields determine the form data, so the two clauses above say
      all there is to say about the result. */
  lemma {:induction false} SameFieldsSameData(a: ContactFormData, b: ContactFormData)
    requires forall f :: FieldValue(a, f) == FieldValue(b, f)
    ensures a == b
  {
    assert FieldValue(a, NameField) == FieldValue(b, NameField);
    assert FieldValue(a, EmailField) == FieldValue(b, EmailField);
    assert FieldValue(a, SubjectField) == FieldValue(b, SubjectField);
    assert FieldValue(a, MessageField) == FieldValue(b, MessageField);
  }

  // ---------------------------------------------------------------------------
  // The client-side e-mail pattern /^[^\s@]+@[^\s@]+\.[^\s@]+$/ (line 57)
  // ---------------------------------------------------------------------------

  /** No whitespace anywhere, and `i` holds the only `@`. */
  predicate OnlyAtIs(e: string, i: nat) {
    forall k :: 0 <= k < |e| ==> !IsSpace(e[k]) && (e[k] == '@' <==> k == i)
  }

  /** The reference reading: parts without whitespace or `@` around a single
      `@`, and a dot after it with something on each side, at `i` and `p`. */
  predicate ClientEmailSplit(e: string, i: nat, p: nat) {
    0 < i && i + 1 < p && p + 1 < |e| && e[p] == '.' && OnlyAtIs(e, i)
  }

  ghost predicate ClientEmailShape(e: string) {
    exists i: nat, p: nat :: ClientEmailSplit(e, i, p)
  }

  /** `emailRegex.test(formData.email)`, as a scanner: after the first `@`,
      the first dot past the domain's first character must not be the last
      character. */
  function ClientEmailTest(e: string): bool {
    match IndexOfChar(e, '@', 0)
    case None => false
    case Some(i) =>
      0 < i && i + 2 <= |e| && OnlyAtIs(e, i) &&
      match IndexOfChar(e, '.', i + 2)
      case None => false
      case Some(p) => p + 1 < |e|
  }

  /** The scanner accepts exactly the addresses the pattern describes. */
  lemma ClientEmailCorrect(e: string)
    ensures ClientEmailTest(e) <==> ClientEmailShape(e)
  {
    if ClientEmailTest(e) {
      var i := IndexOfChar(e, '@', 0).value;
      var p := IndexOfChar(e, '.', i + 2).value;
      assert ClientEmailSplit(e, i, p);
    }
    if ClientEmailShape(e) {
      var i: nat, p: nat :| ClientEmailSplit(e, i, p);
      assert e[i] == '@';
      var i' := IndexOfChar(e, '@', 0);
      assert i'.Some? && i'.value == i;
      var p' := IndexOfChar(e, '.', i + 2);
      assert p'.Some? && p'.value <= p;
    }
  }

  // ---------------------------------------------------------------------------
  // The hook's state (lines 16-95)
  // ---------------------------------------------------------------------------

  const RequiredMessage := "All fields are required"
  const EmailFormatMessage := "Invalid email format"
  const SendFailedMessage := "Failed to send message"

  /** What the `fetch` of the submission came to: a rejection with its
      message, or a response with its `ok` flag and, when not ok, the outcome
      of reading its body (the `error` field, or the message of the failure to
      parse it). */
  datatype FetchReply =
    | FetchRejected(reason: string)
    | Responded(ok: bool, errorField: Option<string>)
    | ErrorBodyUnreadable(reason: string)

  predicate AllFilled(d: ContactFormData) {
    Trim(d.name) != [] && Trim(d.email) != [] && Trim(d.subject) != [] && Trim(d.message) != []
  }

  /** The message of the error `submitForm` throws before any request, if any. */
  function ClientCheck(d: ContactFormData): (r: Option<string>)
    ensures r == Some(RequiredMessage) <==> !AllFilled(d)
    ensures r == Some(EmailFormatMessage) <==> AllFilled(d) && !ClientEmailTest(d.email)
    ensures r.None? <==> AllFilled(d) && ClientEmailTest(d.email)
  {
    if !AllFilled(d) then Some(RequiredMessage)
    else if !ClientEmailTest(d.email) then Some(EmailFormatMessage)
    else None
  }

  /** The message of the error a sent request throws, if any: none exactly
      for an ok response; for a response that is not ok, the server's `error`
      text when it is truthy and "Failed to send message" otherwise, so never
      empty. */
  function ReplyError(reply: FetchReply): (r: Option<string>)
    ensures r.None? <==> reply.Responded? && reply.ok
    ensures reply.Responded? && r.Some? ==> r.value != []
    ensures reply.Responded? && !reply.ok ==>
      r == Some(if Truthy(reply.errorField) then reply.errorField.value else SendFailedMessage)
    ensures reply.FetchRejected? ==> r == Some(reply.reason)
    ensures reply.ErrorBodyUnreadable? ==> r == Some(reply.reason)
  {
    match reply
    case FetchRejected(reason) => Some(reason)
    case ErrorBodyUnreadable(reason) => Some(reason)
    case Responded(ok, errorField) =>
      if ok then None
      else if Truthy(errorField) then Some(errorField.value)
      else Some(SendFailedMessage)
  }

  class ContactFormState {
    var formData: ContactFormData
    var isSubmitting: bool
    var submitStatus: SubmitStatus

    constructor()
      ensures formData == InitialFormData && !isSubmitting && submitStatus == StatusIdle
    {
      formData := InitialFormData;
      isSubmitting := false;
      submitStatus := StatusIdle;
    }

    /** `handleChange`: the named field takes the new value. */
    method HandleChange(field: Field, value: string)
      modifies this
      ensures formData == WithField(old(formData), field, value)
      ensures isSubmitting == old(isSubmitting) && submitStatus == old(submitStatus)
    {
      formData := WithField(formData, field, value);
    }

    /** `resetForm`: empty fields and the idle status. */
    method ResetForm()
      modifies this
      ensures formData == InitialFormData && submitStatus == StatusIdle
      ensures isSubmitting == old(isSubmitting)
    {
      formData := InitialFormData;
      submitStatus := StatusIdle;
    }

    /** `submitForm(apiEndpoint)`. `sent` is the form data posted, if the
        checks let the request go out; `thrown` is the message of the error
        the call rejects with, if any. The busy flag is cleared whatever the
        outcome. */
    method SubmitForm(reply: FetchReply) returns (sent: Option<ContactFormData>, thrown: Option<string>)
      modifies this
      ensures !isSubmitting
      ensures ClientCheck(old(formData)).Some? ==>
        sent.None? && thrown == ClientCheck(old(formData)) &&
        submitStatus == StatusError && formData == old(formData)
      ensures ClientCheck(old(formData)).None? ==> sent == Some(old(formData)) && thrown == ReplyError(reply)
      ensures ClientCheck(old(formData)).None? && ReplyError(reply).None? ==>
        formData == InitialFormData && submitStatus == StatusIdle
      ensures ClientCheck(old(formData)).None? && ReplyError(reply).Some? ==>
        formData == old(formData) && submitStatus == StatusError
    {
      isSubmitting := true;
      submitStatus := StatusIdle;
      sent := None;
      var check := ClientCheck(formData);
      if check.Some? {
        thrown := check;
      } else {
        sent := Some(formData);
        thrown := ReplyError(reply);
      }
      if thrown.None? {
        submitStatus := StatusSuccess;
        ResetForm();
      } else {
        submitStatus := StatusError;
      }
      isSubmitting := false;
    }
  }
}
