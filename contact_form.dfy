/**
 * The contact form (src/components/ContactForm.tsx): five text values, the
 * per-field error texts, the submission status with its message, and the
 * `onStatusChange` notifications the form emits. The email grammar of the
 * schema is the parameter `isEmail`; the outcome of `fetch` is a parameter of
 * the submission.
 */
module ContactForm {
  import opened Wrappers
  import opened JsString

  datatype FormField = Name | Email | Phone | Message | Website

  datatype Status = Idle | Saving | Success | Error

  /** One `onStatusChange(status, message)` call; `None` is `null`. */
  datatype StatusEvent = StatusEvent(status: Status, message: Option<string>)

  /** One zod issue of `formSchema`: the field it concerns and its message. */
  datatype Issue = Issue(field: FormField, message: string)

  type Values = map<FormField, string>

  predicate Complete(values: Values) {
    forall f: FormField :: f in values
  }

  lemma EveryField(f: FormField)
    ensures f in {Name, Email, Phone, Message, Website}
  {
  }

  /** The initial values, and the values after a successful submission: every field "". */
  function EmptyValues(): (values: Values)
    ensures Complete(values)
    ensures forall f: FormField :: values[f] == ""
  {
    var values := map[Name := "", Email := "", Phone := "", Message := "", Website := ""];
    assert forall f: FormField :: f in values by {
      forall f: FormField ensures f in values { EveryField(f); }
    }
    values
  }

  const NameTooShort := "Unesite puno ime i prezime."
  const NameTooLong := "Unos je predugačak."
  const EmailInvalid := "Unesite validnu email adresu."
  const EmailTooLong := "Email je predugačak."
  const PhoneTooLong := "Broj telefona je predugačak."
  const MessageTooShort := "Poruka treba da ima bar 10 karaktera."
  const MessageTooLong := "Poruka je predugačka."

  const SpamMessage := "Spam detected."
  const CheckFieldsMessage := "Proverite obeležena polja i pokušajte ponovo."
  const SendFailedMessage := "Neuspešno slanje"
  const ThanksMessage := "Hvala! Javićemo vam se uskoro."
  const NetworkErrorMessage := "Došlo je do greške prilikom slanja poruke. Pokušajte ponovo ili nas pozovite telefonom."

  /**
   * The issues `formSchema` reports for one field, in the order of its checks.
   * The value of every field is a string here, so `phone`'s `optional()` and
   * `or(z.literal(""))` add nothing: "" already meets `max(60)`, and when the
   * string branch fails zod reports that branch's issue.
   */
  function FieldIssues(f: FormField, v: string, isEmail: string -> bool): seq<Issue> {
    match f
    case Name =>
      (if Utf16Length(v) < 2 then [Issue(Name, NameTooShort)] else [])
      + (if Utf16Length(v) > 120 then [Issue(Name, NameTooLong)] else [])
    case Email =>
      (if !isEmail(v) then [Issue(Email, EmailInvalid)] else [])
      + (if Utf16Length(v) > 160 then [Issue(Email, EmailTooLong)] else [])
    case Phone => if Utf16Length(v) > 60 then [Issue(Phone, PhoneTooLong)] else []
    case Message =>
      (if Utf16Length(v) < 10 then [Issue(Message, MessageTooShort)] else [])
      + (if Utf16Length(v) > 1500 then [Issue(Message, MessageTooLong)] else [])
    case Website => []
  }

  /** zod counts `length` in UTF-16 units: a single emoji already meets `min(2)` for the name. */
  lemma SingleEmojiNameIsLongEnough(isEmail: string -> bool)
    ensures |"\U{1F600}"| == 1
    ensures FieldIssues(Name, "\U{1F600}", isEmail) == []
  {
    AstralCharCountsTwice();
  }

  /** `formSchema.safeParse(values).error.issues`: the fields in schema order. */
  function FormIssues(values: Values, isEmail: string -> bool): seq<Issue>
    requires Complete(values)
  {
    FieldIssues(Name, values[Name], isEmail)
    + FieldIssues(Email, values[Email], isEmail)
    + FieldIssues(Phone, values[Phone], isEmail)
    + FieldIssues(Message, values[Message], isEmail)
    + FieldIssues(Website, values[Website], isEmail)
  }

  /** The bounds of `formSchema`, all inclusive. */
  predicate FieldOk(f: FormField, v: string, isEmail: string -> bool) {
    match f
    case Name => 2 <= Utf16Length(v) <= 120
    case Email => isEmail(v) && Utf16Length(v) <= 160
    case Phone => Utf16Length(v) <= 60
    case Message => 10 <= Utf16Length(v) <= 1500
    case Website => true
  }

  predicate FormAccepts(values: Values, isEmail: string -> bool)
    requires Complete(values)
  {
    forall f: FormField :: FieldOk(f, values[f], isEmail)
  }

  lemma FieldIssuesOfField(f: FormField, v: string, isEmail: string -> bool)
    ensures FieldIssues(f, v, isEmail) == [] <==> FieldOk(f, v, isEmail)
    ensures forall i :: 0 <= i < |FieldIssues(f, v, isEmail)| ==> FieldIssues(f, v, isEmail)[i].field == f
  {
  }

  /** The values pass the schema exactly when every field is within its bounds. */
  lemma {:induction false} FormIssuesEmptyIff(values: Values, isEmail: string -> bool)
    requires Complete(values)
    ensures FormIssues(values, isEmail) == [] <==> FormAccepts(values, isEmail)
  {
    forall f: FormField ensures FieldIssues(f, values[f], isEmail) == [] <==> FieldOk(f, values[f], isEmail) {
      FieldIssuesOfField(f, values[f], isEmail);
    }
  }

  /** The issues concern exactly the fields that are out of bounds. */
  lemma {:induction false} IssueFields(values: Values, isEmail: string -> bool)
    requires Complete(values)
    ensures forall f: FormField ::
              (exists i :: 0 <= i < |FormIssues(values, isEmail)| && FormIssues(values, isEmail)[i].field == f)
              <==> !FieldOk(f, values[f], isEmail)
  {
    var issues := FormIssues(values, isEmail);
    forall f: FormField
      ensures (exists i :: 0 <= i < |issues| && issues[i].field == f) <==> !FieldOk(f, values[f], isEmail)
    {
      forall g: FormField { FieldIssuesOfField(g, values[g], isEmail); }
      var own := FieldIssues(f, values[f], isEmail);
      if !FieldOk(f, values[f], isEmail) {
        assert own != [] && own[0] in issues;
        var i :| 0 <= i < |issues| && issues[i] == own[0];
      } else {
        assert own == [];
        forall i | 0 <= i < |issues| ensures issues[i].field != f {
          assert issues[i] in issues;
        }
      }
    }
  }

  /** The fields mentioned by some issue. */
  function IssueFieldSet(issues: seq<Issue>): set<FormField> {
    set i | 0 <= i < |issues| :: issues[i].field
  }

  /** `fieldErrors` after the loop over the issues: each issue overwrites its field's entry. */
  function FieldErrors(issues: seq<Issue>): (errors: map<FormField, string>)
    ensures errors.Keys == IssueFieldSet(issues)
  {
    if issues == [] then map[]
    else
      var last := issues[|issues| - 1];
      var init := issues[..|issues| - 1];
      var e := FieldErrors(init)[last.field := last.message];
      assert IssueFieldSet(issues) == IssueFieldSet(init) + {last.field} by {
        forall g | g in IssueFieldSet(issues) ensures g in IssueFieldSet(init) + {last.field} {
          var i :| 0 <= i < |issues| && issues[i].field == g;
          if i < |issues| - 1 { assert init[i] == issues[i]; }
        }
        forall g | g in IssueFieldSet(init) ensures g in IssueFieldSet(issues) {
          var i :| 0 <= i < |init| && init[i].field == g;
          assert issues[i] == init[i];
        }
      }
      e
  }

  /** When a field has several issues, the message of the last one is kept. */
  lemma {:induction false} FieldErrorsLastWins(issues: seq<Issue>, f: FormField)
    requires f in FieldErrors(issues)
    ensures exists i :: 0 <= i < |issues| && issues[i] == Issue(f, FieldErrors(issues)[f])
              && forall j :: i < j < |issues| ==> issues[j].field != f
  {
    var last := issues[|issues| - 1];
    var init := issues[..|issues| - 1];
    if last.field == f {
      assert issues[|issues| - 1] == Issue(f, FieldErrors(issues)[f]);
    } else {
      FieldErrorsLastWins(init, f);
      var i :| 0 <= i < |init| && init[i] == Issue(f, FieldErrors(init)[f])
               && forall j :: i < j < |init| ==> init[j].field != f;
      assert issues[i] == init[i];
      forall j | i < j < |issues| ensures issues[j].field != f {
        if j < |issues| - 1 { assert issues[j] == init[j]; }
      }
    }
  }

  /** The loop at the heart of the failure branch: `for (const issue of issues) fieldErrors[field] = issue.message`. */
  method CollectFieldErrors(issues: seq<Issue>) returns (fieldErrors: map<FormField, string>)
    ensures fieldErrors == FieldErrors(issues)
    ensures fieldErrors.Keys == IssueFieldSet(issues)
  {
    fieldErrors := map[];
    var i := 0;
    while i < |issues|
      invariant 0 <= i <= |issues|
      invariant fieldErrors == FieldErrors(issues[..i])
    {
      assert issues[..i + 1][..i] == issues[..i];
      fieldErrors := fieldErrors[issues[i].field := issues[i].message];
      i := i + 1;
    }
    assert issues[..i] == issues;
  }

  /** The honeypot check `values.website && values.website.trim() !== ""`. */
  predicate HoneypotTripped(website: string) {
    website != "" && Trim(website) != ""
  }

  /** The honeypot trips exactly when the hidden field holds a character that is not white space. */
  lemma HoneypotIff(website: string)
    ensures HoneypotTripped(website) <==> exists i :: 0 <= i < |website| && !IsWhitespace(website[i])
  {
    TrimEmptyIff(website);
  }

  /** The request body: `{ ...parsed.data, website: values.website }`; zod hands the strings on unchanged. */
  datatype Payload = Payload(name: string, email: string, phone: string, message: string, website: string)

  function PayloadOf(values: Values): Payload
    requires Complete(values)
  {
    Payload(values[Name], values[Email], values[Phone], values[Message], values[Website])
  }

  /** What `fetch` gives: a throw, or a response with `response.ok` and the `message` of its JSON body, if any. */
  datatype FetchOutcome = FetchThrew | Responded(ok: bool, message: Option<string>)

  /** The last status change of a submission that sent its request. */
  function SettleEvent(outcome: FetchOutcome): StatusEvent {
    match outcome
    case FetchThrew => StatusEvent(Error, Some(NetworkErrorMessage))
    case Responded(ok, message) =>
      if !ok then
        // `errorData.message || "Neuspešno slanje"`: an absent or empty message falls back.
        StatusEvent(Error, Some(if message.Some? && message.value != "" then message.value else SendFailedMessage))
      else StatusEvent(Success, Some(ThanksMessage))
  }

  /** The `onStatusChange` calls one submission makes, in order. */
  function SubmitEvents(values: Values, outcome: FetchOutcome, isEmail: string -> bool): seq<StatusEvent>
    requires Complete(values)
  {
    [StatusEvent(Idle, None)]
    + if HoneypotTripped(values[Website]) then [StatusEvent(Error, Some(SpamMessage))]
      else if FormIssues(values, isEmail) != [] then [StatusEvent(Error, Some(CheckFieldsMessage))]
      else [StatusEvent(Saving, None), SettleEvent(outcome)]
  }

  /** Whether a submission sends its request: only past the honeypot and the schema. */
  predicate Sends(values: Values, isEmail: string -> bool)
    requires Complete(values)
  {
    !HoneypotTripped(values[Website]) && FormIssues(values, isEmail) == []
  }

  /**
   * Every submission starts with `("idle", null)`, goes through "saving"
   * exactly when it sends, and ends in "error" or "success" with a non-empty
   * message; it succeeds only on an ok response.
   */
  lemma SubmitEventsShape(values: Values, outcome: FetchOutcome, isEmail: string -> bool)
    requires Complete(values)
    ensures var evs := SubmitEvents(values, outcome, isEmail);
      && |evs| >= 2
      && evs[0] == StatusEvent(Idle, None)
      && (StatusEvent(Saving, None) in evs <==> Sends(values, isEmail))
      && (Sends(values, isEmail) ==> |evs| == 3 && evs[1] == StatusEvent(Saving, None))
      && var last := evs[|evs| - 1];
      && last.status in {Error, Success}
      && last.message.Some? && last.message.value != ""
      && (last.status == Success <==> Sends(values, isEmail) && outcome.Responded? && outcome.ok)
  {
  }

  /**
   * The submit button, disabled while the status is "saving", is disabled
   * only between the "saving" report of a submission that sends and the
   * report that settles its request, and every submission leaves it enabled.
   */
  lemma SubmitDisabledOnlyWhileSending(values: Values, outcome: FetchOutcome, isEmail: string -> bool)
    requires Complete(values)
    ensures var evs := SubmitEvents(values, outcome, isEmail);
      && (forall k :: 0 <= k < |evs| && evs[k].status == Saving ==> Sends(values, isEmail) && k == 1 && k + 1 < |evs|)
      && evs[|evs| - 1].status != Saving
  {
    var evs := SubmitEvents(values, outcome, isEmail);
    SubmitEventsShape(values, outcome, isEmail);
    if Sends(values, isEmail) {
      assert evs == [StatusEvent(Idle, None), StatusEvent(Saving, None), SettleEvent(outcome)];
    } else if HoneypotTripped(values[Website]) {
      assert evs == [StatusEvent(Idle, None), StatusEvent(Error, Some(SpamMessage))];
    } else {
      assert evs == [StatusEvent(Idle, None), StatusEvent(Error, Some(CheckFieldsMessage))];
    }
  }

  /** The form's state. */
  class Form {
    const isEmail: string -> bool
    var values: Values
    var errors: map<FormField, string>
    var status: Status
    var serverMessage: Option<string>
    /** The `onStatusChange` calls made so far. */
    var events: seq<StatusEvent>

    /** The values are complete, and the last notification reports the current status and message. */
    ghost predicate Valid()
      reads this
    {
      && Complete(values)
      && (events == [] ==> status == Idle && serverMessage == None)
      && (events != [] ==> events[|events| - 1] == StatusEvent(status, serverMessage))
    }

    constructor (isEmail: string -> bool)
      ensures Valid() && this.isEmail == isEmail
      ensures values == EmptyValues() && errors == map[] && status == Idle && serverMessage == None
      ensures events == []
    {
      this.isEmail := isEmail;
      values := EmptyValues();
      errors := map[];
      status := Idle;
      serverMessage := None;
      events := [];
    }

    /** The submit button is disabled while a request is in flight. */
    predicate SubmitDisabled()
      reads this
    {
      status == Saving
    }

    /** `updateStatus(next, message)`: sets both and forwards them to `onStatusChange`. */
    method UpdateStatus(next: Status, message: Option<string>)
      requires Valid()
      modifies this
      ensures Valid()
      ensures status == next && serverMessage == message
      ensures events == old(events) + [StatusEvent(next, message)]
      ensures values == old(values) && errors == old(errors)
    {
      status := next;
      serverMessage := message;
      events := events + [StatusEvent(next, message)];
    }

    /** `handleChange(field, value)`: sets the value and clears that field's error; nothing else changes. */
    method HandleChange(field: FormField, value: string)
      requires Valid()
      modifies this
      ensures Valid()
      ensures values == old(values)[field := value]
      ensures errors == old(errors) - {field}
      ensures status == old(status) && serverMessage == old(serverMessage) && events == old(events)
    {
      values := values[field := value];
      errors := errors - {field};
    }

    /** `handleSubmit`; `sent` is the request body when the request is made. */
    method HandleSubmit(outcome: FetchOutcome) returns (sent: Option<Payload>)
      requires Valid()
      modifies this
      ensures Valid() && !SubmitDisabled()
      ensures events == old(events) + SubmitEvents(old(values), outcome, isEmail)
      ensures sent == if Sends(old(values), isEmail) then Some(PayloadOf(old(values))) else None
      ensures !HoneypotTripped(old(values[Website])) && FormIssues(old(values), isEmail) != [] ==>
                errors == FieldErrors(FormIssues(old(values), isEmail))
      ensures HoneypotTripped(old(values[Website])) || FormIssues(old(values), isEmail) == [] ==>
                errors == old(errors)
      ensures values == if Sends(old(values), isEmail) && outcome.Responded? && outcome.ok
                        then EmptyValues() else old(values)
    {
      ghost var before := events;
      ghost var trace := SubmitEvents(values, outcome, isEmail);
      UpdateStatus(Idle, None);

      if HoneypotTripped(values[Website]) {
        UpdateStatus(Error, Some(SpamMessage));
        assert trace == [StatusEvent(Idle, None), StatusEvent(Error, Some(SpamMessage))];
        return None;
      }

      ghost var rest := if FormIssues(values, isEmail) != [] then [StatusEvent(Error, Some(CheckFieldsMessage))]
                        else [StatusEvent(Saving, None), SettleEvent(outcome)];
      assert trace == [StatusEvent(Idle, None)] + rest;
      sent := ValidateAndSend(outcome);
      assert events == before + trace;
    }

    /** Everything `handleSubmit` does past the honeypot: the schema check, then the request. */
    method ValidateAndSend(outcome: FetchOutcome) returns (sent: Option<Payload>)
      requires Valid()
      modifies this
      ensures Valid() && !SubmitDisabled()
      ensures events == old(events) +
                if FormIssues(old(values), isEmail) != [] then [StatusEvent(Error, Some(CheckFieldsMessage))]
                else [StatusEvent(Saving, None), SettleEvent(outcome)]
      ensures sent == if FormIssues(old(values), isEmail) == [] then Some(PayloadOf(old(values))) else None
      ensures errors == if FormIssues(old(values), isEmail) != [] then FieldErrors(FormIssues(old(values), isEmail))
                        else old(errors)
      ensures values == if FormIssues(old(values), isEmail) == [] && outcome.Responded? && outcome.ok
                        then EmptyValues() else old(values)
    {
      var issues := FormIssues(values, isEmail);
      if issues != [] {
        var fieldErrors := CollectFieldErrors(issues);
        errors := fieldErrors;
        UpdateStatus(Error, Some(CheckFieldsMessage));
        return None;
      }

      UpdateStatus(Saving, None);
      sent := Some(PayloadOf(values));
      Settle(outcome);
    }

    /** The `try` block after the request: the answer of `fetch` decides the last status change. */
    method Settle(outcome: FetchOutcome)
      requires Valid()
      modifies this
      ensures Valid() && !SubmitDisabled()
      ensures events == old(events) + [SettleEvent(outcome)]
      ensures values == if outcome.Responded? && outcome.ok then EmptyValues() else old(values)
      ensures errors == old(errors)
    {
      match outcome
      case FetchThrew =>
        UpdateStatus(Error, Some(NetworkErrorMessage));
      case Responded(ok, message) =>
        if !ok {
          var errorMessage := if message.Some? && message.value != "" then message.value else SendFailedMessage;
          UpdateStatus(Error, Some(errorMessage));
        } else {
          values := EmptyValues();
          UpdateStatus(Success, Some(ThanksMessage));
        }
    }
  }
}
