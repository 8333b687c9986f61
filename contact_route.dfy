/**
 * The contact endpoint `POST /api/contact` (src/app/api/contact/route.ts):
 * the body is parsed as JSON, checked against the request schema, and a valid
 * request becomes one row of the `contact_messages` table. The handler is a
 * function of the parsed body, the Supabase environment and what the insert
 * would report; its result is the response together with the row whose
 * insert was attempted, if any.
 */
module ContactRoute {
  import opened Wrappers
  import opened JsString

  /** A parsed JSON value; only strings and objects carry what the schema looks at. */
  datatype Json =
    | JString(s: string)
    | JNumber
    | JBool
    | JNull
    | JArray
    | JObject(fields: map<string, Json>)

  /** The type name zod puts in "Expected string, received ..." for a value that is not a string. */
  function TypeName(j: Json): string {
    match j
    case JString(_) => "string"
    case JNumber => "number"
    case JBool => "boolean"
    case JNull => "null"
    case JArray => "array"
    case JObject(_) => "object"
  }

  /** The fields of `requestSchema`, in schema order. */
  datatype Field = Name | Email | Phone | Message

  function FieldKey(f: Field): string {
    match f
    case Name => "name"
    case Email => "email"
    case Phone => "phone"
    case Message => "message"
  }

  const NameRequired := "Ime je obavezno."
  const NameTooShort := "Ime je prekratko."
  const EmailRequired := "Email adresa je obavezna."
  const EmailInvalid := "Email adresa nije validna."
  const MessageRequired := "Poruka je obavezna."
  const MessageTooShort := "Poruka je prekratka."

  const InvalidRequestMessage := "Proverite unete podatke."
  const InsertFailedMessage := "Trenutno ne možemo da obradimo zahtev. Pokušajte kasnije."
  const UnexpectedMessage := "Došlo je do neočekivane greške. Pokušajte ponovo kasnije."

  /** zod's message for a present value of the wrong type. */
  function ExpectedString(j: Json): string {
    "Expected string, received " + TypeName(j)
  }

  /** The value under a field's key, if the object has that key. */
  function Lookup(fields: map<string, Json>, f: Field): Option<Json> {
    if FieldKey(f) in fields then Some(fields[FieldKey(f)]) else None
  }

  /**
   * The messages zod reports for one field: `required_error` when the key is
   * missing, the type message for a non-string, then the field's own checks.
   */
  function FieldIssues(f: Field, v: Option<Json>, isEmail: string -> bool): seq<string> {
    match v
    case None =>
      (match f
       case Name => [NameRequired]
       case Email => [EmailRequired]
       case Phone => []
       case Message => [MessageRequired])
    case Some(j) =>
      if !j.JString? then [ExpectedString(j)]
      else
        (match f
         case Name => if Utf16Length(j.s) < 2 then [NameTooShort] else []
         case Email => if !isEmail(j.s) then [EmailInvalid] else []
         case Phone => []
         case Message => if Utf16Length(j.s) < 10 then [MessageTooShort] else [])
  }

  /** The request as the schema hands it on: `phone` is absent or a string. */
  datatype ContactData = ContactData(name: string, email: string, phone: Option<string>, message: string)

  datatype Validation = Valid(data: ContactData) | Invalid(issues: map<Field, seq<string>>)

  /** A field fails when zod reports at least one issue for it. */
  predicate Fails(fields: map<string, Json>, f: Field, isEmail: string -> bool) {
    FieldIssues(f, Lookup(fields, f), isEmail) != []
  }

  /** `requestSchema.safeParse(payload)`, with the issues as `error.flatten().fieldErrors`. */
  function Validate(payload: Json, isEmail: string -> bool): Validation {
    match payload
    case JObject(fields) =>
      if !Fails(fields, Name, isEmail) && !Fails(fields, Email, isEmail)
         && !Fails(fields, Phone, isEmail) && !Fails(fields, Message, isEmail) then
        Valid(ContactData(
          Lookup(fields, Name).value.s,
          Lookup(fields, Email).value.s,
          if Lookup(fields, Phone).Some? then Some(Lookup(fields, Phone).value.s) else None,
          Lookup(fields, Message).value.s))
      else
        Invalid(map f: Field | Fails(fields, f, isEmail) :: FieldIssues(f, Lookup(fields, f), isEmail))
    case _ =>
      // The issue about the whole value has an empty path: it is a form error, not a field error.
      Invalid(map[])
  }

  /**
   * The schema's rules stated directly: `name` a string of length at least 2,
   * `email` a string the email grammar accepts, `phone` absent or a string,
   * `message` a string of length at least 10. There are no upper bounds.
   */
  predicate Accepts(payload: Json, isEmail: string -> bool) {
    && payload.JObject?
    && var fields := payload.fields;
    && "name" in fields && fields["name"].JString? && Utf16Length(fields["name"].s) >= 2
    && "email" in fields && fields["email"].JString? && isEmail(fields["email"].s)
    && ("phone" in fields ==> fields["phone"].JString?)
    && "message" in fields && fields["message"].JString? && Utf16Length(fields["message"].s) >= 10
  }

  /** A payload is accepted exactly when it meets the schema's rules. */
  lemma ValidateAcceptsIff(payload: Json, isEmail: string -> bool)
    ensures Validate(payload, isEmail).Valid? <==> Accepts(payload, isEmail)
  {
    if payload.JObject? {
      var fields := payload.fields;
      assert !Fails(fields, Name, isEmail) <==>
        "name" in fields && fields["name"].JString? && Utf16Length(fields["name"].s) >= 2;
      assert !Fails(fields, Email, isEmail) <==>
        "email" in fields && fields["email"].JString? && isEmail(fields["email"].s);
      assert !Fails(fields, Phone, isEmail) <==> ("phone" in fields ==> fields["phone"].JString?);
      assert !Fails(fields, Message, isEmail) <==>
        "message" in fields && fields["message"].JString? && Utf16Length(fields["message"].s) >= 10;
    }
  }

  /**
   * A rejected object has an issue list for exactly the failing fields, each
   * list non-empty: all failures are reported together.
   */
  lemma InvalidIssues(fields: map<string, Json>, isEmail: string -> bool)
    requires Validate(JObject(fields), isEmail).Invalid?
    ensures var issues := Validate(JObject(fields), isEmail).issues;
      && (forall f :: f in issues <==> Fails(fields, f, isEmail))
      && (forall f :: f in issues ==> issues[f] != [])
      && issues.Keys != {}
  {
    var f: Field :| Fails(fields, f, isEmail);
    assert f in Validate(JObject(fields), isEmail).issues;
  }

  /** A missing required field reports its `required_error`; a present string reports the field's check message. */
  lemma FieldMessages(f: Field, v: Option<Json>, isEmail: string -> bool)
    ensures v.None? ==>
              FieldIssues(f, v, isEmail) ==
              (match f case Name => [NameRequired] case Email => [EmailRequired] case Phone => [] case Message => [MessageRequired])
    ensures v.Some? && v.value.JString? && f == Name ==>
      FieldIssues(f, v, isEmail) == (if Utf16Length(v.value.s) < 2 then [NameTooShort] else [])
    ensures v.Some? && v.value.JString? && f == Email ==>
      FieldIssues(f, v, isEmail) == (if isEmail(v.value.s) then [] else [EmailInvalid])
    ensures v.Some? && v.value.JString? && f == Message ==>
      FieldIssues(f, v, isEmail) == (if Utf16Length(v.value.s) < 10 then [MessageTooShort] else [])
    ensures v.Some? && !v.value.JString? ==> FieldIssues(f, v, isEmail) == [ExpectedString(v.value)]
    ensures |FieldIssues(f, v, isEmail)| <= 1
  {
  }

  /** The row written to `contact_messages`: `phone ?? null`, with `None` as SQL null. */
  datatype Row = Row(name: string, email: string, phone: Option<string>, message: string)

  function RowOf(data: ContactData): Row {
    Row(data.name, data.email, data.phone, data.message)
  }

  /** The two environment variables `getSupabaseClient` reads (src/lib/supabase.ts). */
  datatype SupabaseEnv = SupabaseEnv(url: Option<string>, anonKey: Option<string>)

  /** `getSupabaseClient` throws unless both variables are set to non-empty strings. */
  predicate Configured(env: SupabaseEnv) {
    env.url.Some? && env.url.value != "" && env.anonKey.Some? && env.anonKey.value != ""
  }

  /** What the awaited insert does: reports success, reports an error, or throws. */
  datatype InsertResult = InsertOk | InsertError | InsertThrew

  datatype Body = Body(ok: bool, message: Option<string>, issues: Option<map<Field, seq<string>>>)
  datatype Response = Response(status: int, body: Body)

  /** The response, and the row whose insert was attempted (at most one). */
  datatype Handled = Handled(response: Response, attempted: Option<Row>)

  const Unexpected := Response(500, Body(false, Some(UnexpectedMessage), None))

  /** `POST(request)`: `body` is `None` when `request.json()` throws. */
  function Post(body: Option<Json>, env: SupabaseEnv, insert: InsertResult, isEmail: string -> bool): Handled {
    if body.None? then Handled(Unexpected, None)
    else
      match Validate(body.value, isEmail)
      case Invalid(issues) =>
        Handled(Response(400, Body(false, Some(InvalidRequestMessage), Some(issues))), None)
      case Valid(data) =>
        if !Configured(env) then Handled(Unexpected, None)
        else
          var row := RowOf(data);
          match insert
          case InsertOk => Handled(Response(200, Body(true, None, None)), Some(row))
          case InsertError => Handled(Response(502, Body(false, Some(InsertFailedMessage), None)), Some(row))
          case InsertThrew => Handled(Unexpected, Some(row))
  }

  /** A body that is not JSON gets the generic 500 answer and nothing is inserted. */
  lemma NotJsonIsUnexpected(env: SupabaseEnv, insert: InsertResult, isEmail: string -> bool)
    ensures Post(None, env, insert, isEmail) == Handled(Response(500, Body(false, Some(UnexpectedMessage), None)), None)
  {
  }

  /** A payload that fails validation gets 400 with every failing field's issues, and nothing is inserted. */
  lemma InvalidIsBadRequest(payload: Json, env: SupabaseEnv, insert: InsertResult, isEmail: string -> bool)
    requires !Accepts(payload, isEmail)
    ensures var h := Post(Some(payload), env, insert, isEmail);
      && h.response.status == 400
      && h.response.body == Body(false, Some(InvalidRequestMessage), Some(Validate(payload, isEmail).issues))
      && h.attempted.None?
  {
    ValidateAcceptsIff(payload, isEmail);
  }

  /**
   * An insert is attempted at most once, only for an accepted payload and a
   * configured client, and the row is exactly the four business fields.
   */
  lemma InsertOnlyAfterValidation(body: Option<Json>, env: SupabaseEnv, insert: InsertResult, isEmail: string -> bool)
    ensures var h := Post(body, env, insert, isEmail);
      h.attempted.Some? <==> (body.Some? && Accepts(body.value, isEmail) && Configured(env))
    ensures var h := Post(body, env, insert, isEmail);
      h.attempted.Some? ==>
        var fields := body.value.fields;
        h.attempted.value == Row(
          fields["name"].s,
          fields["email"].s,
          if "phone" in fields then Some(fields["phone"].s) else None,
          fields["message"].s)
  {
    if body.Some? {
      ValidateAcceptsIff(body.value, isEmail);
    }
  }

  /** An accepted payload with missing configuration is answered with 500 and nothing is inserted. */
  lemma UnconfiguredIsUnexpected(payload: Json, env: SupabaseEnv, insert: InsertResult, isEmail: string -> bool)
    requires Accepts(payload, isEmail) && !Configured(env)
    ensures Post(Some(payload), env, insert, isEmail) == Handled(Unexpected, None)
  {
    ValidateAcceptsIff(payload, isEmail);
  }

  /** The insert's outcome decides the answer: 200 `{ok:true}`, 502, or the generic 500. */
  lemma InsertOutcomeDecides(payload: Json, env: SupabaseEnv, insert: InsertResult, isEmail: string -> bool)
    requires Accepts(payload, isEmail) && Configured(env)
    ensures var r := Post(Some(payload), env, insert, isEmail).response;
      && (insert == InsertOk ==> r == Response(200, Body(true, None, None)))
      && (insert == InsertError ==> r == Response(502, Body(false, Some(InsertFailedMessage), None)))
      && (insert == InsertThrew ==> r == Unexpected)
  {
    ValidateAcceptsIff(payload, isEmail);
  }

  /** Keys the schema does not know, the `website` honeypot among them, change nothing. */
  lemma UnknownKeysIgnored(fields: map<string, Json>, key: string, value: Json,
                           env: SupabaseEnv, insert: InsertResult, isEmail: string -> bool)
    requires key !in {"name", "email", "phone", "message"}
    ensures Post(Some(JObject(fields[key := value])), env, insert, isEmail)
         == Post(Some(JObject(fields)), env, insert, isEmail)
  {
    var fields' := fields[key := value];
    forall f: Field ensures Lookup(fields', f) == Lookup(fields, f) {
      assert FieldKey(f) != key;
    }
    assert forall f: Field :: Fails(fields', f, isEmail) == Fails(fields, f, isEmail);
    assert Validate(JObject(fields[key := value]), isEmail) == Validate(JObject(fields), isEmail);
  }

  /**
   * Every path gives exactly one of four answers; `ok` holds only on success,
   * and a failure carries one of three fixed messages, never error details.
   */
  lemma ResponseShapes(body: Option<Json>, env: SupabaseEnv, insert: InsertResult, isEmail: string -> bool)
    ensures var r := Post(body, env, insert, isEmail).response;
      && r.status in {200, 400, 500, 502}
      && (r.body.ok <==> r.status == 200)
      && (r.status == 200 ==> r.body == Body(true, None, None))
      && (r.status != 200 ==>
            r.body.message.Some? && r.body.message.value in {InvalidRequestMessage, InsertFailedMessage, UnexpectedMessage})
      && (r.body.issues.Some? <==> r.status == 400)
  {
  }
}
