/**
 * The client-side contact form of src/components/forms/ContactForm.tsx:
 * per-field error messages shown once a field has been touched, the
 * "form is valid" flag that enables the submit button, and the submit
 * handler's status and reset logic. The request itself is a parameter.
 */
module ContactForm {
  import opened Wrappers
  import opened Text
  import ContactRoute

  /** The four visible fields; the hidden honeypot `website` has no blur handler and so is never touched. */
  datatype Field = Name | Email | Subject | Message

  const VisibleFields: set<Field> := {Name, Email, Subject, Message}

  datatype FormData = FormData(name: string, email: string, subject: string, message: string, website: string)

  const EmptyForm := FormData("", "", "", "", "")

  function Value(data: FormData, field: Field): string {
    match field
    case Name => data.name
    case Email => data.email
    case Subject => data.subject
    case Message => data.message
  }

  predicate Blank(s: string) {
    Trim(s) == ""
  }

  /**
   * Lines 32-57. Emptiness is judged on the trimmed value, limits on the
   * untrimmed length; the message is checked blank, then too long, then
   * too short.
   */
  function FieldError(data: FormData, touched: set<Field>, field: Field): (e: Option<string>)
    ensures field !in touched ==> e.None?
    ensures field in touched && Blank(Value(data, field)) ==> e.Some?
    ensures field in touched && field == Name && !Blank(data.name) ==> (e.Some? <==> |data.name| > 100)
    ensures field in touched && field == Email && !Blank(data.email) ==>
              (e.Some? <==> !ContactRoute.IsValidEmail(data.email))
    ensures field in touched && field == Subject && !Blank(data.subject) ==> (e.Some? <==> |data.subject| > 200)
    ensures field in touched && field == Message && !Blank(data.message) ==>
              (e.Some? <==> |data.message| > 5000 || |data.message| < 10)
  {
    if field !in touched then None
    else
      match field
      case Name =>
        if Blank(data.name) then Some("Name is required")
        else if |data.name| > 100 then Some("Name is too long (max 100 characters)")
        else None
      case Email =>
        if Blank(data.email) then Some("Email is required")
        else if !ContactRoute.IsValidEmail(data.email) then Some("Please enter a valid email address")
        else None
      case Subject =>
        if Blank(data.subject) then Some("Subject is required")
        else if |data.subject| > 200 then Some("Subject is too long (max 200 characters)")
        else None
      case Message =>
        if Blank(data.message) then Some("Message is required")
        else if |data.message| > 5000 then Some("Message is too long (max 5000 characters)")
        else if |data.message| < 10 then Some("Message is too short (min 10 characters)")
        else None
  }

  /** Lines 139-141: every visible field is error-free and non-blank once trimmed. */
  predicate IsFormValid(data: FormData, touched: set<Field>) {
    FieldOk(data, touched, Name) && FieldOk(data, touched, Email) &&
    FieldOk(data, touched, Subject) && FieldOk(data, touched, Message)
  }

  /** The `some` over the four visible fields in `handleSubmit`. */
  predicate HasErrors(data: FormData, touched: set<Field>) {
    FieldError(data, touched, Name).Some? || FieldError(data, touched, Email).Some? ||
    FieldError(data, touched, Subject).Some? || FieldError(data, touched, Message).Some?
  }

  predicate FieldOk(data: FormData, touched: set<Field>, f: Field) {
    FieldError(data, touched, f).None? && !Blank(Value(data, f))
  }

  /** What each field must satisfy once touched. */
  predicate Passes(data: FormData, f: Field) {
    match f
    case Name => !Blank(data.name) && |data.name| <= 100
    case Email => !Blank(data.email) && ContactRoute.IsValidEmail(data.email)
    case Subject => !Blank(data.subject) && |data.subject| <= 200
    case Message => !Blank(data.message) && 10 <= |data.message| <= 5000
  }

  lemma TouchedFieldOk(data: FormData, f: Field)
    ensures FieldOk(data, VisibleFields, f) <==> Passes(data, f)
  {
    assert f in VisibleFields;
  }

  /** With every field touched, a valid form is exactly one whose values pass the four rules. */
  lemma FormValidWhenAllTouched(data: FormData)
    ensures IsFormValid(data, VisibleFields) <==>
              && !Blank(data.name) && |data.name| <= 100
              && !Blank(data.email) && ContactRoute.IsValidEmail(data.email)
              && !Blank(data.subject) && |data.subject| <= 200
              && !Blank(data.message) && 10 <= |data.message| <= 5000
  {
    TouchedFieldOk(data, Name);
    TouchedFieldOk(data, Email);
    TouchedFieldOk(data, Subject);
    TouchedFieldOk(data, Message);
  }

  /** A message the server accepts but the client refuses: the 10-character minimum is client-only. */
  lemma ShortMessageOnlyRefusedByClient(data: FormData)
    requires data.name == "Ann" && data.email == "a@b.co" && data.subject == "Hi"
    requires data.message == "Hello" && data.website == ""
    ensures !IsFormValid(data, VisibleFields)
    ensures ContactRoute.ValidateSubmission(Sent(data)) == ContactRoute.Valid
  {
    ShortMessageRefused(data);
    ShortMessageAccepted(data);
  }

  lemma ShortMessageRefused(data: FormData)
    requires data.message == "Hello"
    ensures !IsFormValid(data, VisibleFields)
  {
    BlankIffAllSpace(data.message);
    assert !IsSpace(data.message[0]);
    TouchedFieldOk(data, Message);
  }

  lemma ShortMessageAccepted(data: FormData)
    requires data.name == "Ann" && data.email == "a@b.co" && data.subject == "Hi"
    requires data.message == "Hello" && data.website == ""
    ensures ContactRoute.ValidateSubmission(Sent(data)) == ContactRoute.Valid
  {
    ContactRoute.EmailExamples();
  }

  /** The JSON body `JSON.stringify(formData)`: all five members as strings. */
  function Sent(data: FormData): (s: ContactRoute.Submission)
    ensures s.name == Some(data.name) && s.email == Some(data.email) && s.website == Some(data.website)
    ensures s.subject == Some(data.subject) && s.message == Some(data.message)
  {
    ContactRoute.Submission(Some(data.name), Some(data.email), Some(data.subject), Some(data.message), Some(data.website))
  }

  /** A form the client finds valid, with the honeypot empty, passes every server check. */
  lemma ValidFormPassesServerChecks(data: FormData)
    requires IsFormValid(data, VisibleFields) && data.website == ""
    ensures ContactRoute.ValidateSubmission(Sent(data)) == ContactRoute.Valid
  {
    FormValidWhenAllTouched(data);
    BlankOfEmpty();
  }

  lemma BlankOfEmpty()
    ensures Blank("")
  {
  }

  datatype Status = Idle | Loading | Succeeded(message: string) | Errored(message: string)

  /**
   * How the request ends as seen by the page: the fetch or the JSON parse
   * throws with a message, or a reply arrives with its `ok` flag and its
   * optional `error` and `message` members.
   */
  datatype FetchOutcome = Threw(reason: string) | Reply(ok: bool, error: Option<string>, message: Option<string>)

  function OrDefault(v: Option<string>, default: string): (r: string)
    ensures v.Some? && v.value != "" ==> r == v.value
    ensures !(v.Some? && v.value != "") ==> r == default
  {
    if v.Some? && v.value != "" then v.value else default
  }

  const FixErrorsMessage: string := "Please fix the errors in the form"
  const ClientFailedMessage: string := "Failed to send message"

  /** The status a request leaves behind (lines 102-136). */
  function StatusAfter(outcome: FetchOutcome): (s: Status)
    ensures s.Succeeded? <==> outcome.Reply? && outcome.ok
    ensures outcome.Threw? ==> s == Errored(outcome.reason)
    ensures outcome.Reply? && !outcome.ok ==> s == Errored(OrDefault(outcome.error, ClientFailedMessage))
    ensures outcome.Reply? && outcome.ok ==> s == Succeeded(OrDefault(outcome.message, ContactRoute.ThankYouMessage))
  {
    match outcome
    case Threw(msg) => Errored(msg)
    case Reply(ok, error, message) =>
      if !ok then Errored(OrDefault(error, ClientFailedMessage))
      else Succeeded(OrDefault(message, ContactRoute.ThankYouMessage))
  }

  /** A filled honeypot goes out in the request body, and the server drops it silently. */
  lemma FilledHoneypotIsDropped(data: FormData)
    requires data.website != ""
    ensures Sent(data).website == Some(data.website)
    ensures ContactRoute.ValidateSubmission(Sent(data)) == ContactRoute.SilentlyDropped
  {
  }

  /** The server's silent honeypot answer carries no message, so the page shows the default thanks. */
  lemma HoneypotReplyShowsThanks()
    ensures StatusAfter(Reply(true, None, None)) == Succeeded(ContactRoute.ThankYouMessage)
  {
  }

  class ContactFormState {
    var data: FormData
    var touched: set<Field>
    var status: Status

    constructor ()
      ensures data == EmptyForm && touched == {} && status == Idle
    {
      data := EmptyForm;
      touched := {};
      status := Idle;
    }

    /** `handleChange` for a visible field. */
    method Change(field: Field, value: string)
      modifies this
      ensures data == (match field
                       case Name => old(data).(name := value)
                       case Email => old(data).(email := value)
                       case Subject => old(data).(subject := value)
                       case Message => old(data).(message := value))
      ensures Value(data, field) == value
      ensures forall f: Field :: f != field ==> Value(data, f) == Value(old(data), f)
      ensures data.website == old(data).website
      ensures touched == old(touched) && status == old(status)
    {
      match field
      case Name => data := data.(name := value);
      case Email => data := data.(email := value);
      case Subject => data := data.(subject := value);
      case Message => data := data.(message := value);
    }

    /**
     * `handleChange` for the hidden honeypot input (lines 257-267): a person
     * never sees it, but a form-filling robot may type into it.
     */
    method ChangeWebsite(value: string)
      modifies this
      ensures data == old(data).(website := value)
      ensures forall f: Field :: Value(data, f) == Value(old(data), f)
      ensures touched == old(touched) && status == old(status)
    {
      data := data.(website := value);
    }

    /** `handleBlur`: the field's errors show from now on. */
    method Blur(field: Field)
      modifies this
      ensures touched == old(touched) + {field}
      ensures data == old(data) && status == old(status)
    {
      touched := touched + {field};
    }

    /**
     * `handleSubmit` (lines 75-137). The errors are judged with the
     * `touched` of the render the handler closed over, that is the state
     * before this call; `setTouched` takes effect only afterwards.
     * Returns whether a request was sent.
     */
    method Submit(outcome: FetchOutcome) returns (sent: bool)
      modifies this
      ensures sent <==> !HasErrors(old(data), old(touched))
      ensures !sent ==> status == Errored(FixErrorsMessage) && data == old(data) && touched == VisibleFields
      ensures sent ==> status == StatusAfter(outcome)
      ensures sent && status.Succeeded? ==> data == EmptyForm && touched == {}
      ensures sent && !status.Succeeded? ==> data == old(data) && touched == VisibleFields
    {
      var errors := HasErrors(data, touched);
      touched := VisibleFields;
      if errors {
        status := Errored(FixErrorsMessage);
        return false;
      }
      status := Loading;
      sent := true;
      status := StatusAfter(outcome);
      if status.Succeeded? {
        data := EmptyForm;
        touched := {};
      }
    }
  }

  /**
   * The submit handler checks only the fields touched before the click:
   * a message whose field was never left is held to no length rule.
   */
  lemma UntouchedMessageIsNotChecked(data: FormData)
    requires Passes(data, Name) && Passes(data, Email) && Passes(data, Subject) && !Blank(data.message)
    ensures IsFormValid(data, {Name, Email, Subject}) && !HasErrors(data, {Name, Email, Subject})
  {
    var t := {Name, Email, Subject};
    assert Message !in t;
    assert FieldError(data, t, Message).None?;
    PassingFieldOk(data, t, Name);
    PassingFieldOk(data, t, Email);
    PassingFieldOk(data, t, Subject);
  }

  lemma PassingFieldOk(data: FormData, touched: set<Field>, f: Field)
    requires Passes(data, f)
    ensures FieldOk(data, touched, f)
  {
  }

  /**
   * So a five-character message is sent, and the server accepts it, when
   * the handler runs before any blur of the message field. In a browser,
   * clicking the button or moving to another input blurs the textarea
   * first, so this needs a submit that no such blur precedes.
   */
  lemma UnblurredMessageSkipsClientMinimum(data: FormData)
    requires data.name == "Ann" && data.email == "a@b.co" && data.subject == "Hi"
    requires data.message == "Hello" && data.website == ""
    ensures IsFormValid(data, {Name, Email, Subject}) && !HasErrors(data, {Name, Email, Subject})
    ensures ContactRoute.ValidateSubmission(Sent(data)) == ContactRoute.Valid
  {
    NotBlank(data.name);
    NotBlank(data.email);
    NotBlank(data.subject);
    NotBlank(data.message);
    ContactRoute.EmailExamples();
    assert Passes(data, Name) && Passes(data, Email) && Passes(data, Subject);
    UntouchedMessageIsNotChecked(data);
    ShortMessageAccepted(data);
  }

  lemma NotBlank(s: string)
    requires s != [] && !IsSpace(s[0])
    ensures !Blank(s)
  {
    BlankIffAllSpace(s);
  }

  /**
   * Once every field is touched, the submit check and the button agree: the
   * form has no error exactly when it is valid.
   */
  lemma AllTouchedSubmitAgreesWithButton(data: FormData)
    ensures !HasErrors(data, VisibleFields) <==> IsFormValid(data, VisibleFields)
  {
    var t := VisibleFields;
    assert Name in t && Email in t && Subject in t && Message in t;
  }

  /** No field reports an error before it is touched, so a first submit is always sent. */
  lemma UntouchedFormHasNoErrors(data: FormData)
    ensures !HasErrors(data, {})
  {
  }
}
