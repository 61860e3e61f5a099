/** The dispatch route, `POST /api/whatsapp`, as a function of what each of
    its round trips returns: the request body, the three lookups, the
    delivery-tracking insert, the second read of the body in the error
    handler and the clock. The outcome is the response together with the
    lookups made and the rows the route asks the store to insert. */
module Dispatch {
  import opened Wrappers
  import opened Decimal
  import opened Templating

  /** An awaited call: its value, or the exception it raised with that
      exception's `message` (None when it has none). */
  datatype Call<T> = Returned(value: T) | Threw(message: Option<string>)

  /** The fields the route destructures from the body. A body that is a JSON
      value other than `null` and has no such field leaves it absent. */
  datatype RequestBody = RequestBody(trustId: Option<string>, templateId: Option<string>,
                                     userId: Option<string>, params: MessageParams)

  /** The parsed body: JSON `null`, which cannot be destructured, or a value
      whose fields are read. */
  datatype Payload = NullPayload | Fields(body: RequestBody)

  /** A single-row lookup: the row, or an error or no row (the route treats
      the two alike). */
  datatype Lookup<T> = Found(row: T) | Missing

  datatype TemplateRow = TemplateRow(content: Option<string>)
  datatype OptInRow = OptInRow(optedIn: Option<bool>)
  datatype UserRow = UserRow(whatsappNumber: Option<string>)

  /** `Date.now()` and `new Date().toISOString()` at the send step and in the
      error handler. */
  datatype Clock = Clock(sendMillis: nat, sendIso: string, errorMillis: nat, errorIso: string)

  /** What the route's round trips return: the body, the three lookups,
      whether the tracking insert succeeded, the body read again in the error
      handler, whether the store took the failed-delivery row, and the
      clock. */
  datatype Env = Env(body: Call<Payload>, template: Lookup<TemplateRow>, optIn: Lookup<OptInRow>,
                     user: Lookup<UserRow>, trackingOk: bool, reread: Call<Payload>, failureStored: bool,
                     clock: Clock)

  datatype Table = Templates | OptIns | Users

  datatype DeliveryStatus = Sent | Failed

  /** A row of `whatsapp_delivery_tracking`. */
  datatype DeliveryRow = DeliveryRow(messageId: string, userId: Option<string>, status: DeliveryStatus,
                                     errorMessage: Option<string>, sentAt: string)

  datatype Reply = Delivered(messageId: string) | Rejected(error: string)

  datatype Response = Response(status: nat, reply: Reply)

  /** The response, the tables looked up in order, and the delivery rows
      the store holds afterwards that it did not hold before. */
  datatype Outcome = Outcome(response: Response, lookups: seq<Table>, written: seq<DeliveryRow>)

  const SuccessPrefix := "mock-message-id-"
  const FailurePrefix := "error-"
  const UnknownError := "Unknown error"

  /** The engine's TypeError messages for destructuring `null` and for calling
      `replace` on a null template body. */
  const NullDestructureMessage := "Cannot destructure property 'trust_id' of '(intermediate value)' as it is null."
  const NullReplaceMessage := "Cannot read properties of null (reading 'replace')"

  const TemplateNotFound := Response(404, Rejected("Template not found"))
  const NotOptedIn := Response(403, Rejected("User not opted in to WhatsApp messaging"))
  const NumberNotFound := Response(400, Rejected("User WhatsApp number not found"))
  const TrackingFailed := Response(500, Rejected("Failed to track delivery"))
  const InternalError := Response(500, Rejected("Internal server error"))

  function SuccessId(millis: nat): string {
    SuccessPrefix + NatToString(millis)
  }

  function FailureId(millis: nat): string {
    FailurePrefix + NatToString(millis)
  }

  /** `opted_in` is truthy. */
  predicate OptedIn(optIn: Lookup<OptInRow>) {
    optIn.Found? && optIn.row.optedIn == Some(true)
  }

  /** `whatsapp_number` is truthy: present and not empty. */
  predicate HasNumber(user: Lookup<UserRow>) {
    user.Found? && user.row.whatsappNumber.Some? && user.row.whatsappNumber.value != ""
  }

  predicate Parsed(env: Env) {
    env.body.Returned? && env.body.value.Fields?
  }

  /** The request reaches the interpolation step. */
  predicate PassesChecks(env: Env) {
    Parsed(env) && env.template.Found? && OptedIn(env.optIn) && HasNumber(env.user)
  }

  /** The parameters that reach the interpolation step can be rendered. */
  predicate Ready(env: Env) {
    PassesChecks(env) ==> RenderableParams(env.body.value.body.params)
  }

  /** `err.message || "Unknown error"`. */
  function ErrorText(message: Option<string>): (t: string)
    ensures t != ""
    ensures message.Some? && message.value != "" ==> t == message.value
    ensures message.None? || message.value == "" ==> t == UnknownError
  {
    if message.Some? && message.value != "" then message.value else UnknownError
  }

  /** `body?.user_id ?? null` on the body read again. */
  function LoggedUser(p: Payload): Option<string> {
    if p.Fields? then p.body.userId else None
  }

  /** The failed-delivery row of the error handler. */
  function FailureRow(env: Env, p: Payload, message: Option<string>): DeliveryRow {
    DeliveryRow(FailureId(env.clock.errorMillis), LoggedUser(p), Failed, Some(ErrorText(message)),
                env.clock.errorIso)
  }

  /** The error handler: read the body again and, if that succeeds, try to
      store a failed-delivery row, ignoring whether the store took it;
      whatever happens, answer 500. */
  function Recover(env: Env, message: Option<string>, lookups: seq<Table>): (o: Outcome)
    ensures o.response == InternalError && o.lookups == lookups
    ensures env.reread.Returned? && env.failureStored ==> o.written == [FailureRow(env, env.reread.value, message)]
    ensures env.reread.Threw? || !env.failureStored ==> o.written == []
  {
    var written :=
      match env.reread
      case Threw(_) => []
      case Returned(p) => if env.failureStored then [FailureRow(env, p, message)] else [];
    Outcome(InternalError, lookups, written)
  }

  /** Steps 4 to 6: interpolation, the mock send and the tracking insert. */
  function Deliver(env: Env, req: RequestBody, content: Option<string>): Outcome
    requires RenderableParams(req.params)
  {
    var lookups := [Templates, OptIns, Users];
    match Render(content, req.params)
    case NullReplace => Recover(env, Some(NullReplaceMessage), lookups)
    case Rendered(_) =>
      var id := SuccessId(env.clock.sendMillis);
      if env.trackingOk then
        Outcome(Response(200, Delivered(id)), lookups, [DeliveryRow(id, req.userId, Sent, None, env.clock.sendIso)])
      else
        Outcome(TrackingFailed, lookups, [])
  }

  /** The whole route. */
  function Dispatch(env: Env): (o: Outcome)
    requires Ready(env)
    ensures |o.written| <= 1
    ensures o.lookups <= [Templates, OptIns, Users]
    ensures o.response.status in {200, 400, 403, 404, 500}
  {
    match env.body
    case Threw(m) => Recover(env, m, [])
    case Returned(NullPayload) => Recover(env, Some(NullDestructureMessage), [])
    case Returned(Fields(req)) =>
      if env.template.Missing? then Outcome(TemplateNotFound, [Templates], [])
      else if !OptedIn(env.optIn) then Outcome(NotOptedIn, [Templates, OptIns], [])
      else if !HasNumber(env.user) then Outcome(NumberNotFound, [Templates, OptIns, Users], [])
      else Deliver(env, req, env.template.row.content)
  }

  /** The numeral of a timestamp is what follows the prefix of an id. */
  lemma PrefixCancels(prefix: string, a: string, b: string)
    ensures prefix + a == prefix + b <==> a == b
  {
    if prefix + a == prefix + b {
      assert a == (prefix + a)[|prefix|..];
      assert b == (prefix + b)[|prefix|..];
    }
  }

  /** Two sends get the same message id exactly when they happen in the
      same millisecond; so do two logged failures. */
  lemma IdsFollowTheClock(a: nat, b: nat)
    ensures SuccessId(a) == SuccessId(b) <==> a == b
    ensures FailureId(a) == FailureId(b) <==> a == b
  {
    PrefixCancels(SuccessPrefix, NatToString(a), NatToString(b));
    PrefixCancels(FailurePrefix, NatToString(a), NatToString(b));
    NatToStringInjective(a, b);
  }

  /** An id of a sent message is never an id of a logged failure. */
  lemma IdsDisjoint(a: nat, b: nat)
    ensures SuccessId(a) != FailureId(b)
    ensures SuccessId(a)[..|SuccessPrefix|] == SuccessPrefix
    ensures FailureId(b)[..|FailurePrefix|] == FailurePrefix
  {
    assert SuccessId(a)[0] == 'm' && FailureId(b)[0] == 'e';
  }

  /** A body that cannot be read or destructured ends in the error handler
      before any lookup. */
  lemma UnreadableBody(env: Env)
    requires Ready(env)
    requires !Parsed(env)
    ensures var o := Dispatch(env);
      && o.response == InternalError && o.lookups == []
      && (env.reread.Returned? && env.failureStored ==>
            && |o.written| == 1 && o.written[0].status == Failed
            && o.written[0].messageId == FailureId(env.clock.errorMillis)
            && o.written[0].userId == LoggedUser(env.reread.value)
            && o.written[0].errorMessage == Some(if env.body.Threw? then ErrorText(env.body.message)
                                                 else NullDestructureMessage))
      && (env.reread.Threw? || !env.failureStored ==> o.written == [])
  {
  }

  /** Step 1: a template that cannot be fetched is a 404, with nothing
      looked up after it and nothing written. */
  lemma TemplateMissing(env: Env)
    requires Ready(env)
    requires Parsed(env) && env.template.Missing?
    ensures Dispatch(env) == Outcome(TemplateNotFound, [Templates], [])
  {
  }

  /** Step 2: a recipient without a truthy opt-in is a 403. */
  lemma NotOptedInRejected(env: Env)
    requires Ready(env)
    requires Parsed(env) && env.template.Found? && !OptedIn(env.optIn)
    ensures Dispatch(env) == Outcome(NotOptedIn, [Templates, OptIns], [])
  {
  }

  /** Step 3: a recipient without a WhatsApp number is a 400. */
  lemma NumberMissing(env: Env)
    requires Ready(env)
    requires Parsed(env) && env.template.Found? && OptedIn(env.optIn) && !HasNumber(env.user)
    ensures Dispatch(env) == Outcome(NumberNotFound, [Templates, OptIns, Users], [])
  {
  }

  /** The first check that fails decides the answer: nothing the route
      would have learnt after it changes the outcome. */
  lemma FirstFailingCheckDecides(env: Env, other: Env)
    requires Ready(env) && Ready(other)
    requires Parsed(env) && other.body == env.body
    ensures env.template.Missing? && other.template.Missing? ==> Dispatch(env) == Dispatch(other)
    ensures (env.template.Found? && other.template.Found? && !OptedIn(env.optIn) && !OptedIn(other.optIn))
              ==> Dispatch(env) == Dispatch(other)
    ensures (env.template.Found? && other.template.Found? && OptedIn(env.optIn) && OptedIn(other.optIn) &&
             !HasNumber(env.user) && !HasNumber(other.user)) ==> Dispatch(env) == Dispatch(other)
  {
  }

  /** The route answers success exactly when every check passes, the
      template body can be interpolated and the tracking insert succeeds;
      it has then written one row, marked sent, for the requested user,
      under the id it answers with. */
  lemma DeliveredExactly(env: Env)
    requires Ready(env)
    ensures var o := Dispatch(env);
      o.response.reply.Delivered? <==>
        PassesChecks(env) && Render(env.template.row.content, env.body.value.body.params) != NullReplace
        && env.trackingOk
    ensures var o := Dispatch(env);
      o.response.reply.Delivered? ==>
        && o.response.status == 200 && o.lookups == [Templates, OptIns, Users]
        && o.written == [DeliveryRow(o.response.reply.messageId, env.body.value.body.userId, Sent, None,
                                     env.clock.sendIso)]
        && o.response.reply.messageId == SuccessId(env.clock.sendMillis)
  {
  }

  /** A rejected tracking insert is reported as such, and nothing is
      written. */
  lemma TrackingRejected(env: Env)
    requires Ready(env)
    requires PassesChecks(env) && !env.trackingOk
    requires Render(env.template.row.content, env.body.value.body.params) != NullReplace
    ensures Dispatch(env) == Outcome(TrackingFailed, [Templates, OptIns, Users], [])
  {
  }

  /** A null template body with parameters to apply raises in the loop, and
      the error handler logs the engine's message. */
  lemma NullTemplateBody(env: Env)
    requires Ready(env)
    requires PassesChecks(env) && env.template.row.content.None?
    requires env.body.value.body.params.Entries? && env.body.value.body.params.entries != []
    ensures var o := Dispatch(env);
      && o.response == InternalError && o.lookups == [Templates, OptIns, Users]
      && (env.reread.Returned? && env.failureStored ==>
            o.written == [FailureRow(env, env.reread.value, Some(NullReplaceMessage))])
  {
    RenderThrowsOnlyOnNull(env.template.row.content, env.body.value.body.params);
  }

  /** Whether the error handler manages to log the failure never changes the
      answer. */
  lemma LoggingDoesNotChangeAnswer(env: Env, reread: Call<Payload>, stored: bool)
    requires Ready(env)
    ensures Ready(env.(reread := reread, failureStored := stored))
    ensures Dispatch(env.(reread := reread, failureStored := stored)).response == Dispatch(env).response
  {
  }

  /** Every answer is one of the route's six, every row written is marked
      sent with a send id and the success answer, or failed with a failure
      id and the internal-error answer. */
  lemma AnswersAndRows(env: Env)
    requires Ready(env)
    ensures var o := Dispatch(env);
      || o.response in {TemplateNotFound, NotOptedIn, NumberNotFound, TrackingFailed, InternalError}
      || (o.response.status == 200 && o.response.reply.Delivered?)
    ensures var o := Dispatch(env);
      forall row | row in o.written ::
        || (&& row.status == Sent && row.messageId == SuccessId(env.clock.sendMillis)
            && row.errorMessage.None? && o.response == Response(200, Delivered(row.messageId)))
        || (&& row.status == Failed && row.messageId == FailureId(env.clock.errorMillis)
            && o.response == InternalError && row.errorMessage.Some? && row.errorMessage.value != "")
  {
  }
}
