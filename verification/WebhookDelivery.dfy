/** The sending side, and what a completed outbox message means end to end. */
module WebhookDelivery {
  import opened Text
  import opened Worker
  import opened WebhookReceiver

  const MAXIMUM_RESPONSE_BYTES: nat := 65536

  datatype DeliveryError = DeliveryError(code: string, canRetry: bool)

  /** What one delivery attempt meets before and after the request. */
  datatype Exchange =
    | InvalidMessage
    | EndpointMissing
    | EndpointUnavailable
    | DestinationInvalid
    | SecretInvalid
    | SecretUnavailable
    | RequestInvalid
    | TransportError
    | Response(status: nat, bytes: nat, readFails: bool)

  /** Whether another attempt may help: the endpoint, the secret or the transport failed
      for now, or the receiver answered that it did. */
  predicate MayRecover(e: Exchange) {
    e.EndpointUnavailable? || e.SecretUnavailable? || e.TransportError?
    || (e.Response? && (e.readFails || e.status in {408, 429} || e.status >= 500))
  }

  /** The outcome of one signed delivery; none is success. */
  method Deliver(e: Exchange) returns (r: Option<DeliveryError>)
    ensures r.None? <==>
            e.Response? && !e.readFails && 200 <= e.status < 300 && e.bytes <= MAXIMUM_RESPONSE_BYTES
    ensures r.Some? ==> (r.value.canRetry <==> MayRecover(e))
    ensures r == Delivered(e)
  {
    if e.InvalidMessage? {
      return Some(DeliveryError("invalid_outbox_message", false));
    }
    if e.EndpointMissing? {
      return Some(DeliveryError("webhook_not_configured", false));
    }
    if e.EndpointUnavailable? {
      return Some(DeliveryError("webhook_endpoint_unavailable", true));
    }
    if e.DestinationInvalid? {
      return Some(DeliveryError("webhook_destination_invalid", false));
    }
    if e.SecretInvalid? {
      return Some(DeliveryError("webhook_secret_invalid", false));
    }
    if e.SecretUnavailable? {
      return Some(DeliveryError("webhook_secret_unavailable", true));
    }
    if e.RequestInvalid? {
      return Some(DeliveryError("webhook_request_invalid", false));
    }
    if e.TransportError? {
      return Some(DeliveryError("webhook_transport_error", true));
    }
    if e.readFails {
      return Some(DeliveryError("webhook_response_error", true));
    }
    if 200 <= e.status < 300 {
      if e.bytes > MAXIMUM_RESPONSE_BYTES {
        return Some(DeliveryError("webhook_response_too_large", false));
      }
      return None;
    }
    if e.status == 408 || e.status == 429 || e.status >= 500 {
      return Some(DeliveryError("webhook_retryable_status", true));
    }
    return Some(DeliveryError("webhook_rejected", false));
  }

  function Delivered(e: Exchange): Option<DeliveryError> {
    match e
    case InvalidMessage => Some(DeliveryError("invalid_outbox_message", false))
    case EndpointMissing => Some(DeliveryError("webhook_not_configured", false))
    case EndpointUnavailable => Some(DeliveryError("webhook_endpoint_unavailable", true))
    case DestinationInvalid => Some(DeliveryError("webhook_destination_invalid", false))
    case SecretInvalid => Some(DeliveryError("webhook_secret_invalid", false))
    case SecretUnavailable => Some(DeliveryError("webhook_secret_unavailable", true))
    case RequestInvalid => Some(DeliveryError("webhook_request_invalid", false))
    case TransportError => Some(DeliveryError("webhook_transport_error", true))
    case Response(status, bytes, readFails) =>
      if readFails then Some(DeliveryError("webhook_response_error", true))
      else if 200 <= status < 300 then
        if bytes > MAXIMUM_RESPONSE_BYTES then Some(DeliveryError("webhook_response_too_large", false)) else None
      else if status == 408 || status == 429 || status >= 500 then
        Some(DeliveryError("webhook_retryable_status", true))
      else Some(DeliveryError("webhook_rejected", false))
  }

  function AsHandlerResult(r: Option<DeliveryError>): HandlerResult {
    if r.None? then Succeeded else HandlerError(r.value.canRetry)
  }

  /** A success is a readable 2xx within the size limit, and nothing else. */
  lemma SuccessIsASmall2xx(e: Exchange)
    ensures Delivered(e).None? <==>
            e.Response? && !e.readFails && 200 <= e.status < 300 && e.bytes <= MAXIMUM_RESPONSE_BYTES
  {
  }

  /** The two sides agree on the statuses: what the receiver recorded is a success, a failed
      callback or store is retried, and a conflict or refusal is final. An acknowledgement
      that is too large to read is final too, because the event may have been applied. */
  lemma StatusesAgree(bytes: nat, refusal: nat)
    requires refusal in REFUSALS
    ensures Delivered(Response(NO_CONTENT, bytes, false)).None? <==> bytes <= MAXIMUM_RESPONSE_BYTES
    ensures Delivered(Response(NO_CONTENT, bytes, false)).Some? ==>
              !Delivered(Response(NO_CONTENT, bytes, false)).value.canRetry
    ensures Delivered(Response(UNAVAILABLE, bytes, false)).Some?
            && Delivered(Response(UNAVAILABLE, bytes, false)).value.canRetry
    ensures Delivered(Response(CONFLICT, bytes, false)).Some?
            && !Delivered(Response(CONFLICT, bytes, false)).value.canRetry
    ensures Delivered(Response(refusal, bytes, false)).Some?
            && !Delivered(Response(refusal, bytes, false)).value.canRetry
  {
  }

  // ------------------------------------------------------------- end to end

  /** One outbox message, its queue job, and the receiver it is sent to. */
  datatype Message = Message(id: string, payload: string, job: Job)

  datatype System = System(outbox: map<string, Message>, receiver: State)

  const INITIAL := System(map[], WebhookReceiver.EMPTY)

  /** Steps of the receiver, new messages, and runs of a message's job. A run that gets a
      response gets the answer of a delivery that carried its message; the network may
      deliver requests late, twice or not at all, and lose any response. */
  datatype Action =
    | AtReceiver(event: Label)
    | Enqueue(id: string, payload: string, maxAttempts: nat)
    | RunJob(id: string, exchange: Exchange, delivery: nat, loads: bool, canceled: bool, audit: AuditWrite)
    | JobDies(id: string, afterHandler: bool)

  /** A response is the receiver's answer to a delivery of this very message. */
  predicate Possible(receiver: State, m: Message, exchange: Exchange, n: nat) {
    exchange.Response? ==>
      && In(receiver, n, Answered(exchange.status))
      && receiver.deliveries[n].id == m.id && receiver.deliveries[n].body == m.payload
  }

  function JobEnvironment(exchange: Exchange, loads: bool, canceled: bool, audit: AuditWrite): Environment {
    Environment(loads, if canceled then Canceled else AsHandlerResult(Delivered(exchange)), audit)
  }

  function Act(s: System, a: Action): System {
    match a
    case AtReceiver(event) => s.(receiver := Next(s.receiver, event))
    case Enqueue(id, payload, maxAttempts) =>
      if id in s.outbox || maxAttempts == 0 then s
      else s.(outbox := s.outbox[id := Message(id, payload, NewJob(maxAttempts, Open))])
    case RunJob(id, exchange, delivery, loads, canceled, audit) =>
      if id !in s.outbox || !Possible(s.receiver, s.outbox[id], exchange, delivery) then s
      else
        var job := Step(s.outbox[id].job, Worker.Run(JobEnvironment(exchange, loads, canceled, audit)));
        s.(outbox := s.outbox[id := s.outbox[id].(job := job)])
    case JobDies(id, afterHandler) =>
      if id !in s.outbox then s
      else s.(outbox := s.outbox[id := s.outbox[id].(job := Step(s.outbox[id].job, Dies(afterHandler)))])
  }

  function Acts(s: System, actions: seq<Action>): System {
    if actions == [] then s else Act(Acts(s, actions[..|actions| - 1]), actions[|actions| - 1])
  }

  /** The receiver acknowledged this message: its callback succeeded and it is recorded. */
  ghost predicate Acknowledged(receiver: State, id: string, payload: string) {
    Handled(receiver, id, payload) && id in receiver.events && receiver.events[id] == Sha256(payload)
  }

  ghost predicate SystemInv(s: System) {
    && WebhookReceiver.Inv(s.receiver) && OnlyNoContentSucceeds(s.receiver)
    && (forall id | id in s.outbox :: MessageOk(s, id, s.outbox[id]))
  }

  ghost predicate MessageOk(s: System, id: string, m: Message) {
    && m.id == id && Worker.Inv(m.job)
    && (m.job.row == Completed ==> Acknowledged(s.receiver, m.id, m.payload))
  }

  /** The only success status the receiver answers is 204. */
  ghost predicate OnlyNoContentSucceeds(r: State) {
    forall n | n in r.deliveries && r.deliveries[n].phase.Answered? && r.deliveries[n].phase.status < 300 ::
      r.deliveries[n].phase.status == NO_CONTENT
  }

  lemma NoContentStep(r: State, l: Label)
    requires OnlyNoContentSucceeds(r)
    ensures OnlyNoContentSucceeds(Next(r, l))
  {
  }

  lemma AcknowledgedStays(r: State, l: Label, id: string, payload: string)
    requires Acknowledged(r, id, payload)
    ensures Acknowledged(Next(r, l), id, payload)
  {
    hide Handled;
    StepGrows(r, l);
    HandledStays(r, Next(r, l), id, payload);
  }

  /** A run completes the row only when the attempt met a 2xx answer to this message. */
  lemma CompletesOnlyOnSuccess(j: Job, env: Environment)
    requires j.row != Completed && Step(j, Worker.Run(env)).row == Completed
    ensures env.handler == Succeeded && !env.audit.NotWritten? && env.loads && !j.over
  {
  }

  lemma SuccessMeansAcknowledged(s: System, m: Message, exchange: Exchange, n: nat)
    requires WebhookReceiver.Inv(s.receiver) && OnlyNoContentSucceeds(s.receiver)
    requires Possible(s.receiver, m, exchange, n) && Delivered(exchange).None?
    ensures Acknowledged(s.receiver, m.id, m.payload)
  {
    hide Handled;
    assert s.receiver.deliveries[n].phase == Answered(NO_CONTENT);
    assert DeliveryOk(s.receiver, s.receiver.deliveries[n]);
  }

  lemma StepKeepsSystem(s: System, a: Action)
    requires SystemInv(s)
    ensures SystemInv(Act(s, a))
  {
    hide WebhookReceiver.Inv, OnlyNoContentSucceeds, Next, Acknowledged, Step, Possible, Delivered, Worker.Inv;
    var t := Act(s, a);
    match a
    case AtReceiver(event) =>
      WebhookReceiver.StepKeepsInv(s.receiver, event);
      NoContentStep(s.receiver, event);
      forall id | id in t.outbox ensures MessageOk(t, id, t.outbox[id]) {
        if t.outbox[id].job.row == Completed {
          AcknowledgedStays(s.receiver, event, id, t.outbox[id].payload);
        }
      }
    case Enqueue(id, payload, maxAttempts) =>
      if maxAttempts > 0 {
        NewJobIsOk(maxAttempts);
      }
    case RunJob(id, exchange, delivery, loads, canceled, audit) =>
      if id in s.outbox && Possible(s.receiver, s.outbox[id], exchange, delivery) {
        assert MessageOk(s, id, s.outbox[id]);
        JobStepKeeps(s, id, Worker.Run(JobEnvironment(exchange, loads, canceled, audit)), exchange, delivery);
      }
    case JobDies(id, afterHandler) =>
      if id in s.outbox {
        assert MessageOk(s, id, s.outbox[id]);
        DyingKeepsTheRow(s.outbox[id].job, afterHandler);
      }
  }

  lemma NewJobIsOk(maxAttempts: nat)
    requires maxAttempts > 0
    ensures Worker.Inv(NewJob(maxAttempts, Open)) && NewJob(maxAttempts, Open).row == Open
  {
  }

  lemma DyingKeepsTheRow(j: Job, afterHandler: bool)
    requires Worker.Inv(j)
    ensures Worker.Inv(Step(j, Dies(afterHandler))) && Step(j, Dies(afterHandler)).row == j.row
  {
  }

  lemma JobStepKeeps(s: System, id: string, e: Event, exchange: Exchange, delivery: nat)
    requires SystemInv(s) && id in s.outbox && e.Run?
    requires Possible(s.receiver, s.outbox[id], exchange, delivery)
    requires e.env.handler == Succeeded ==> Delivered(exchange).None?
    ensures Worker.Inv(Step(s.outbox[id].job, e))
    ensures Step(s.outbox[id].job, e).row == Completed ==> Acknowledged(s.receiver, id, s.outbox[id].payload)
  {
    hide WebhookReceiver.Inv, OnlyNoContentSucceeds, Acknowledged, Possible, Delivered, Step;
    var j := s.outbox[id].job;
    assert MessageOk(s, id, s.outbox[id]);
    Worker.StepKeepsInv(j, e);
    if Step(j, e).row == Completed && j.row != Completed {
      CompletesOnlyOnSuccess(j, e.env);
      SuccessMeansAcknowledged(s, s.outbox[id], exchange, delivery);
    }
  }

  lemma InitialSystem()
    ensures SystemInv(INITIAL)
  {
  }

  lemma {:induction false} RunKeepsSystem(actions: seq<Action>)
    ensures SystemInv(Acts(INITIAL, actions))
  {
    if actions == [] {
      InitialSystem();
    } else {
      hide SystemInv, Act;
      RunKeepsSystem(actions[..|actions| - 1]);
      StepKeepsSystem(Acts(INITIAL, actions[..|actions| - 1]), actions[|actions| - 1]);
    }
  }

  /** In every run of the whole system, an outbox message is recorded completed only after
      the host's callback succeeded for exactly its id and payload and the receiver
      recorded that payload; and its job never calls the handler beyond its budget. */
  lemma CompletedMeansHandled(actions: seq<Action>, id: string)
    requires id in Acts(INITIAL, actions).outbox
    ensures var s := Acts(INITIAL, actions); var m := s.outbox[id];
            && (m.job.row == Completed ==> m.id == id && Acknowledged(s.receiver, m.id, m.payload))
            && m.job.invocations <= m.job.maxAttempts - 1 + MAXIMUM_TERMINAL_AUDIT_SNOOZES
  {
    hide Acknowledged, WebhookReceiver.Inv, OnlyNoContentSucceeds;
    RunKeepsSystem(actions);
    var s := Acts(INITIAL, actions);
    assert MessageOk(s, id, s.outbox[id]);
  }

  // ---------------------------------------------------------- what is given up

  /** An attempt that no later one can mend: the message, its endpoint, secret or request
      is invalid, or the receiver answered, readably, anything but 408, 429 or 5xx. */
  predicate IsFinal(e: Exchange) {
    || e.InvalidMessage? || e.EndpointMissing? || e.DestinationInvalid? || e.SecretInvalid? || e.RequestInvalid?
    || (e.Response? && !e.readFails && e.status != 408 && e.status != 429 && e.status < 500)
  }

  /** The action failed the message's row: an attempt that was final, or the last one, and
      that was not a readable small 2xx. */
  ghost predicate GivesUp(actions: seq<Action>, i: nat, id: string) {
    && i < |actions| && actions[i].RunJob? && actions[i].id == id
    && var s, a := Acts(INITIAL, actions[..i]), actions[i];
       && id in s.outbox && Possible(s.receiver, s.outbox[id], a.exchange, a.delivery)
       && s.outbox[id].job.row == Open && a.loads && !a.canceled
       && !(a.exchange.Response? && !a.exchange.readFails && 200 <= a.exchange.status < 300 && a.exchange.bytes <= 65536)
       && (IsFinal(a.exchange) || s.outbox[id].job.attempt >= s.outbox[id].job.maxAttempts)
  }

  ghost predicate WasGivenUp(actions: seq<Action>, id: string) {
    exists i: nat :: GivesUp(actions, i, id)
  }

  lemma FailingStep(j: Job, e: Event)
    requires j.row != Failed && Step(j, e).row == Failed
    ensures e.Run? && j.row == Open && e.env.loads && e.env.handler.HandlerError?
    ensures !e.env.handler.retryable || j.attempt >= j.maxAttempts
  {
  }

  lemma GivenUpStays(actions: seq<Action>, a: Action, id: string)
    requires WasGivenUp(actions, id)
    ensures WasGivenUp(actions + [a], id)
  {
    hide Acts, Possible, IsFinal;
    var i: nat :| GivesUp(actions, i, id);
    assert (actions + [a])[..i] == actions[..i] && (actions + [a])[i] == actions[i];
    assert GivesUp(actions + [a], i, id);
  }

  lemma FailingAction(actions: seq<Action>, a: Action, id: string)
    requires id in Acts(INITIAL, actions).outbox && Acts(INITIAL, actions).outbox[id].job.row != Failed
    requires id in Act(Acts(INITIAL, actions), a).outbox && Act(Acts(INITIAL, actions), a).outbox[id].job.row == Failed
    ensures GivesUp(actions + [a], |actions|, id)
  {
    hide Acts, Step, Possible, Next;
    var s := Acts(INITIAL, actions);
    assert (actions + [a])[..|actions|] == actions;
    if a.RunJob? && a.id == id {
      FailingStep(s.outbox[id].job, Worker.Run(JobEnvironment(a.exchange, a.loads, a.canceled, a.audit)));
    } else if a.JobDies? && a.id == id {
      FailingStep(s.outbox[id].job, Dies(a.afterHandler));
    }
  }

  lemma NewMessagesAreOpen(s: System, a: Action, id: string)
    requires id !in s.outbox && id in Act(s, a).outbox
    ensures Act(s, a).outbox[id].job.row == Open
  {
    hide Next, Step, Possible;
  }

  /** In every run of the whole system a message is given up only by an attempt that was
      final or the last: while the receiver answers that it could not handle the event,
      and attempts are left, the message stays open. */
  lemma {:induction false} GivenUpOnlyForGood(actions: seq<Action>, id: string)
    requires id in Acts(INITIAL, actions).outbox
    ensures Acts(INITIAL, actions).outbox[id].job.row == Failed ==> WasGivenUp(actions, id)
  {
    if actions != [] {
      var front, last := actions[..|actions| - 1], actions[|actions| - 1];
      var before := Acts(INITIAL, front);
      assert actions == front + [last];
      hide Act, GivesUp;
      if id !in before.outbox {
        NewMessagesAreOpen(before, last, id);
      } else {
        GivenUpOnlyForGood(front, id);
        if before.outbox[id].job.row == Failed {
          GivenUpStays(front, last, id);
        } else if Acts(INITIAL, actions).outbox[id].job.row == Failed {
          FailingAction(front, last, id);
        }
      }
    }
  }
}
