/**
 * The form and the endpoint together: the body `ContactForm` sends is the
 * JSON object of its payload, and the answer it sees decides its last status
 * change (src/components/ContactForm.tsx, src/app/api/contact/route.ts).
 */
module ContactPipeline {
  import opened Wrappers
  import Form = ContactForm
  import Route = ContactRoute
  import JsString

  /** `JSON.stringify(payload)` as the endpoint parses it: five string keys. */
  function JsonOf(p: Form.Payload): Route.Json {
    Route.JObject(map[
      "name" := Route.JString(p.name),
      "email" := Route.JString(p.email),
      "phone" := Route.JString(p.phone),
      "message" := Route.JString(p.message),
      "website" := Route.JString(p.website)])
  }

  /** What `fetch` hands the form: `response.ok` is a 2xx status, and the body's `message`. */
  function FetchOutcomeOf(r: Route.Response): Form.FetchOutcome {
    Form.Responded(200 <= r.status <= 299, r.body.message)
  }

  /**
   * Whatever the form lets through, the endpoint accepts: its bounds are
   * those of the request schema and more. The phone goes out as a string even
   * when empty, so the stored row holds "" rather than null.
   */
  lemma FormAcceptedIsServerAccepted(values: Form.Values, isEmail: string -> bool)
    requires Form.Complete(values) && Form.FormAccepts(values, isEmail)
    ensures Route.Accepts(JsonOf(Form.PayloadOf(values)), isEmail)
    ensures Route.Validate(JsonOf(Form.PayloadOf(values)), isEmail)
         == Route.Valid(Route.ContactData(values[Form.Name], values[Form.Email], Some(values[Form.Phone]), values[Form.Message]))
  {
    assert Form.FieldOk(Form.Name, values[Form.Name], isEmail);
    assert Form.FieldOk(Form.Email, values[Form.Email], isEmail);
    assert Form.FieldOk(Form.Message, values[Form.Message], isEmail);
    Route.ValidateAcceptsIff(JsonOf(Form.PayloadOf(values)), isEmail);
  }

  /** The endpoint has no upper bounds: a 121-character name the form refuses is accepted there. */
  lemma ServerAcceptsWhatFormRefuses(values: Form.Values, isEmail: string -> bool)
    requires Form.Complete(values)
    requires JsString.Utf16Length(values[Form.Name]) == 121 && isEmail(values[Form.Email]) && JsString.Utf16Length(values[Form.Email]) <= 160
    requires JsString.Utf16Length(values[Form.Phone]) <= 60 && 10 <= JsString.Utf16Length(values[Form.Message]) <= 1500
    ensures !Form.FormAccepts(values, isEmail)
    ensures Route.Accepts(JsonOf(Form.PayloadOf(values)), isEmail)
  {
    assert !Form.FieldOk(Form.Name, values[Form.Name], isEmail);
  }

  /**
   * The last status change of a submission that reached the endpoint: thanks
   * after a stored row, the endpoint's own message after a failed insert, and
   * its generic message when the client is not configured or the insert throws.
   */
  lemma SettledBySubmission(values: Form.Values, env: Route.SupabaseEnv, insert: Route.InsertResult, isEmail: string -> bool)
    requires Form.Complete(values) && Form.FormAccepts(values, isEmail)
    ensures var h := Route.Post(Some(JsonOf(Form.PayloadOf(values))), env, insert, isEmail);
      Form.SettleEvent(FetchOutcomeOf(h.response)) ==
        if !Route.Configured(env) then Form.StatusEvent(Form.Error, Some(Route.UnexpectedMessage))
        else match insert
          case InsertOk => Form.StatusEvent(Form.Success, Some(Form.ThanksMessage))
          case InsertError => Form.StatusEvent(Form.Error, Some(Route.InsertFailedMessage))
          case InsertThrew => Form.StatusEvent(Form.Error, Some(Route.UnexpectedMessage))
    ensures var h := Route.Post(Some(JsonOf(Form.PayloadOf(values))), env, insert, isEmail);
      h.attempted.Some? <==> Route.Configured(env)
  {
    FormAcceptedIsServerAccepted(values, isEmail);
  }

  /** The form reports success exactly when the endpoint answered 200, which it does only after storing the row. */
  lemma SuccessMeansStored(values: Form.Values, env: Route.SupabaseEnv, insert: Route.InsertResult, isEmail: string -> bool)
    requires Form.Complete(values) && Form.Sends(values, isEmail)
    ensures var h := Route.Post(Some(JsonOf(Form.PayloadOf(values))), env, insert, isEmail);
      (Form.SettleEvent(FetchOutcomeOf(h.response)).status == Form.Success)
      <==> (h.attempted.Some? && insert == Route.InsertOk)
  {
    Form.FormIssuesEmptyIff(values, isEmail);
    SettledBySubmission(values, env, insert, isEmail);
  }
}
