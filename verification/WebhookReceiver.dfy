/** The receiving side of a webhook: Seen, then the host's callback, then Remember, with
    any number of deliveries in flight at once. */
module WebhookReceiver {
  /** SHA-256 of a body, as an injective function. */
  datatype Fingerprint = Sha256(body: string)

  const NO_CONTENT: nat := 204
  const CONFLICT: nat := 409
  const UNAVAILABLE: nat := 503

  /** The answers to deliveries that do not verify. */
  const REFUSALS: set<nat> := {400, 401, 405, 413, 415}

  type Events = map<string, Fingerprint>

  datatype Lookup = New | Duplicate | IdentityConflict

  function LookupEvent(events: Events, id: string, fingerprint: Fingerprint): Lookup {
    if id !in events then New
    else if events[id] == fingerprint then Duplicate
    else IdentityConflict
  }

  function Remembered(events: Events, id: string, fingerprint: Fingerprint): Events {
    if id in events then events else events[id := fingerprint]
  }

  class MemoryEventStore {
    var events: Events

    constructor ()
      ensures events == map[]
    {
      events := map[];
    }

    /** Compares one event identity without recording it. */
    method Seen(id: string, fingerprint: Fingerprint) returns (r: Lookup)
      ensures r == LookupEvent(events, id, fingerprint)
    {
      if id !in events {
        return New;
      }
      if events[id] == fingerprint {
        return Duplicate;
      }
      return IdentityConflict;
    }

    /** Inserts or compares one handled event identity. */
    method Remember(id: string, fingerprint: Fingerprint) returns (r: Lookup)
      modifies this
      ensures r == LookupEvent(old(events), id, fingerprint)
      ensures events == Remembered(old(events), id, fingerprint)
    {
      r := Seen(id, fingerprint);
      if r.IdentityConflict? || r.Duplicate? {
        return;
      }
      events := events[id := fingerprint];
    }
  }

  // ------------------------------------------------- interleaved deliveries

  datatype Phase = Arrived | Calling | Called | Answered(status: nat) | Lost

  /** One authenticated delivery. */
  datatype Delivery = Delivery(id: string, body: string, phase: Phase)

  /** Deliveries by number, the recorded events, and the callback's history: the
      deliveries it was invoked for, and those it succeeded for. */
  datatype State = State(
    deliveries: map<nat, Delivery>,
    events: Events,
    invoked: seq<Delivery>,
    succeeded: seq<Delivery>)

  const EMPTY := State(map[], map[], [], [])

  /** One step of one delivery, or a crash of the process, which loses the deliveries in
      flight but not the store. The store may fail, before or after it recorded. */
  datatype Label =
    | Receive(n: nat, id: string, body: string)
    | Refuse(n: nat, status: nat)
    | Seen(n: nat, storeFails: bool)
    | Callback(n: nat, succeeds: bool)
    | Remember(n: nat, storeFails: bool, recorded: bool)
    | Crash

  function SeenPhase(events: Events, d: Delivery): Phase {
    match LookupEvent(events, d.id, Sha256(d.body))
    case New => Calling
    case Duplicate => Answered(NO_CONTENT)
    case IdentityConflict => Answered(CONFLICT)
  }

  function StatusOf(remembered: Lookup): nat {
    if remembered.IdentityConflict? then CONFLICT else NO_CONTENT
  }

  predicate In(s: State, n: nat, phase: Phase) {
    n in s.deliveries && s.deliveries[n].phase == phase
  }

  function SetPhase(s: State, n: nat, phase: Phase): State
    requires n in s.deliveries
  {
    s.(deliveries := s.deliveries[n := s.deliveries[n].(phase := phase)])
  }

  function LosePhase(phase: Phase): Phase {
    if phase.Answered? then phase else Lost
  }

  /** Steps that are not enabled leave the state as it is. */
  function Next(s: State, l: Label): State {
    match l
    case Receive(n, id, body) =>
      if n in s.deliveries then s else s.(deliveries := s.deliveries[n := Delivery(id, body, Arrived)])
    case Refuse(n, status) =>
      // authentication, timestamp and decoding failures, before the store is asked
      if In(s, n, Arrived) && status in REFUSALS then SetPhase(s, n, Answered(status)) else s
    case Seen(n, storeFails) =>
      if !In(s, n, Arrived) then s
      else if storeFails then SetPhase(s, n, Answered(UNAVAILABLE))
      else SetPhase(s, n, SeenPhase(s.events, s.deliveries[n]))
    case Callback(n, succeeds) =>
      if !In(s, n, Calling) then s
      else
        var d := s.deliveries[n];
        var called := s.(invoked := s.invoked + [d]);
        if succeeds then SetPhase(called.(succeeded := called.succeeded + [d]), n, Called)
        else SetPhase(called, n, Answered(UNAVAILABLE))
    case Remember(n, storeFails, recorded) =>
      if !In(s, n, Called) then s
      else
        var d := s.deliveries[n];
        var events := Remembered(s.events, d.id, Sha256(d.body));
        if storeFails then
          SetPhase(if recorded then s.(events := events) else s, n, Answered(UNAVAILABLE))
        else SetPhase(s.(events := events), n, Answered(StatusOf(LookupEvent(s.events, d.id, Sha256(d.body)))))
    case Crash =>
      s.(deliveries := map n | n in s.deliveries ::
           s.deliveries[n].(phase := LosePhase(s.deliveries[n].phase)))
  }

  function Run(s: State, labels: seq<Label>): State {
    if labels == [] then s else Next(Run(s, labels[..|labels| - 1]), labels[|labels| - 1])
  }

  /** One uninterrupted delivery, as the handler runs it. */
  class WebhookHandler {
    const store: MemoryEventStore

    constructor (store: MemoryEventStore)
      ensures this.store == store
    {
      this.store := store;
    }

    method ServeHTTP(id: string, body: string, callbackSucceeds: bool) returns (status: nat, invoked: bool)
      modifies store
      ensures var s := State(map[0 := Delivery(id, body, Arrived)], old(store.events), [], []);
              var t := Run(s, [Seen(0, false), Callback(0, callbackSucceeds), Remember(0, false, true)]);
              && In(t, 0, Answered(status)) && t.events == store.events
              && (invoked <==> t.invoked != [])
      ensures id !in old(store.events) ==> invoked && status == if callbackSucceeds then 204 else 503
      ensures id in old(store.events) ==>
                !invoked && status == if old(store.events)[id] == Sha256(body) then 204 else 409
      ensures store.events == if id !in old(store.events) && callbackSucceeds then old(store.events)[id := Sha256(body)]
                              else old(store.events)
    {
      ghost var s := State(map[0 := Delivery(id, body, Arrived)], store.events, [], []);
      ThreeSteps(s, Seen(0, false), Callback(0, callbackSucceeds), Remember(0, false, true));
      var seen := store.Seen(id, Sha256(body));
      if seen.IdentityConflict? {
        return CONFLICT, false;
      }
      if seen.Duplicate? {
        return NO_CONTENT, false;
      }
      if !callbackSucceeds {
        return UNAVAILABLE, true;
      }
      var remembered := store.Remember(id, Sha256(body));
      return StatusOf(remembered), true;
    }
  }

  lemma ThreeSteps(s: State, a: Label, b: Label, c: Label)
    ensures Run(s, [a, b, c]) == Next(Next(Next(s, a), b), c)
  {
    hide Next;
    assert [a][..0] == [] && Run(s, [a]) == Next(s, a);
    assert [a, b][..1] == [a] && Run(s, [a, b]) == Next(Next(s, a), b);
    assert [a, b, c][..2] == [a, b];
  }

  // -------------------------------------------------------------- invariants

  predicate Same(a: Delivery, b: Delivery) {
    a.id == b.id && a.body == b.body
  }

  /** The callback succeeded for this id and body. */
  ghost predicate Handled(s: State, id: string, body: string) {
    exists d | d in s.succeeded :: d.id == id && d.body == body
  }

  ghost predicate DeliveryOk(s: State, d: Delivery) {
    && (d.phase.Called? ==> Handled(s, d.id, d.body))
    && (d.phase == Answered(NO_CONTENT) ==> d.id in s.events && s.events[d.id] == Sha256(d.body))
    && (d.phase == Answered(CONFLICT) ==> d.id in s.events && s.events[d.id] != Sha256(d.body))
  }

  ghost predicate Inv(s: State) {
    && (forall id | id in s.events :: Handled(s, id, s.events[id].body))
    && (forall n | n in s.deliveries :: DeliveryOk(s, s.deliveries[n]))
  }

  lemma EmptyInv()
    ensures Inv(EMPTY)
  {
  }

  /** Recorded events and successful callbacks are never taken back. */
  ghost predicate Grows(s: State, t: State) {
    && (forall id | id in s.events :: id in t.events && t.events[id] == s.events[id])
    && s.succeeded <= t.succeeded && s.invoked <= t.invoked
    && (forall n | n in s.deliveries :: n in t.deliveries && Same(s.deliveries[n], t.deliveries[n]))
  }

  lemma StepGrows(s: State, l: Label)
    ensures Grows(s, Next(s, l))
  {
    hide LookupEvent;
  }

  lemma HandledStays(s: State, t: State, id: string, body: string)
    requires Grows(s, t) && Handled(s, id, body)
    ensures Handled(t, id, body)
  {
    var d :| d in s.succeeded && d.id == id && d.body == body;
    assert d in t.succeeded;
  }

  lemma DeliveryStaysOk(s: State, t: State, d: Delivery)
    requires Grows(s, t) && DeliveryOk(s, d)
    ensures DeliveryOk(t, d)
  {
    if d.phase.Called? {
      HandledStays(s, t, d.id, d.body);
    }
  }

  lemma SucceededIsHandled(s: State, d: Delivery)
    ensures var t := s.(invoked := s.invoked + [d], succeeded := s.succeeded + [d]); Handled(t, d.id, d.body)
  {
    assert d in s.succeeded + [d];
  }

  /** One step keeps: records and 204 answers only for handled deliveries. */
  lemma StepKeepsInv(s: State, l: Label)
    requires Inv(s)
    ensures Inv(Next(s, l))
  {
    StepGrows(s, l);
    var t := Next(s, l);
    forall id | id in t.events ensures Handled(t, id, t.events[id].body) {
      RecordsStayHandled(s, l, id);
    }
    forall n | n in t.deliveries ensures DeliveryOk(t, t.deliveries[n]) {
      DeliveriesStayOk(s, l, n);
    }
  }

  lemma RecordsStayHandled(s: State, l: Label, id: string)
    requires Inv(s) && Grows(s, Next(s, l)) && id in Next(s, l).events
    ensures Handled(Next(s, l), id, Next(s, l).events[id].body)
  {
    hide Handled, Grows;
    if id in s.events && s.events[id] == Next(s, l).events[id] {
      HandledStays(s, Next(s, l), id, s.events[id].body);
    } else if l.Remember? && In(s, l.n, Called) {
      HandledStays(s, Next(s, l), s.deliveries[l.n].id, s.deliveries[l.n].body);
    }
  }

  lemma DeliveriesStayOk(s: State, l: Label, n: nat)
    requires Inv(s) && Grows(s, Next(s, l)) && n in Next(s, l).deliveries
    ensures DeliveryOk(Next(s, l), Next(s, l).deliveries[n])
  {
    hide Handled;
    var t := Next(s, l);
    if n in s.deliveries {
      DeliveryStaysOk(s, t, s.deliveries[n]);
      if l.Callback? && l.n == n && In(s, n, Calling) && l.succeeds {
        SucceededIsHandled(s, s.deliveries[n]);
        SameHistory(t, s.(invoked := s.invoked + [s.deliveries[n]], succeeded := s.succeeded + [s.deliveries[n]]),
                    s.deliveries[n].id, s.deliveries[n].body);
      }
    }
  }

  lemma SameHistory(s: State, t: State, id: string, body: string)
    requires s.succeeded == t.succeeded && Handled(t, id, body)
    ensures Handled(s, id, body)
  {
  }

  lemma {:induction false} RunKeepsInv(s: State, labels: seq<Label>)
    requires Inv(s)
    ensures Inv(Run(s, labels))
    decreases |labels|
  {
    if labels != [] {
      hide Inv, Next;
      RunKeepsInv(s, labels[..|labels| - 1]);
      StepKeepsInv(Run(s, labels[..|labels| - 1]), labels[|labels| - 1]);
    }
  }

  lemma GrowsTransitive(s: State, t: State, u: State)
    requires Grows(s, t) && Grows(t, u)
    ensures Grows(s, u)
  {
  }

  /** In every run, whatever interleaves and fails: a recorded fingerprint never changes,
      and no delivery changes its identity. */
  lemma {:induction false} RunGrows(s: State, labels: seq<Label>)
    ensures Grows(s, Run(s, labels))
    decreases |labels|
  {
    if labels != [] {
      var t := Run(s, labels[..|labels| - 1]);
      RunGrows(s, labels[..|labels| - 1]);
      StepGrows(t, labels[|labels| - 1]);
      GrowsTransitive(s, t, Run(s, labels));
    }
  }

  /** Every 204 of every run means the callback succeeded for that id and body, and that
      the id is recorded with that body's fingerprint, then and ever after. */
  lemma NoContentMeansHandled(labels: seq<Label>, later: seq<Label>, n: nat)
    requires In(Run(EMPTY, labels), n, Answered(NO_CONTENT))
    ensures var d := Run(EMPTY, labels).deliveries[n];
            var t := Run(Run(EMPTY, labels), later);
            && Handled(t, d.id, d.body) && d.id in t.events && t.events[d.id] == Sha256(d.body)
  {
    var s := Run(EMPTY, labels);
    EmptyInv();
    RunKeepsInv(EMPTY, labels);
    RunGrows(s, later);
    var d := s.deliveries[n];
    assert DeliveryOk(s, d);
    HandledStays(s, Run(s, later), d.id, d.body);
  }

  /** A 409 is answered only to a body other than the one recorded under its id. */
  lemma ConflictMeansAnotherBody(labels: seq<Label>, n: nat)
    requires In(Run(EMPTY, labels), n, Answered(CONFLICT))
    ensures var s := Run(EMPTY, labels); var d := s.deliveries[n];
            d.id in s.events && s.events[d.id] != Sha256(d.body)
  {
    hide Handled;
    EmptyInv();
    RunKeepsInv(EMPTY, labels);
    assert DeliveryOk(Run(EMPTY, labels), Run(EMPTY, labels).deliveries[n]);
  }

  /** Two bodies are never both acknowledged under one event id. */
  lemma OneBodyPerEvent(labels: seq<Label>, m: nat, n: nat)
    requires var s := Run(EMPTY, labels);
             In(s, m, Answered(NO_CONTENT)) && In(s, n, Answered(NO_CONTENT)) && s.deliveries[m].id == s.deliveries[n].id
    ensures var s := Run(EMPTY, labels); s.deliveries[m].body == s.deliveries[n].body
  {
    NoContentMeansHandled(labels, [], m);
    NoContentMeansHandled(labels, [], n);
  }

  // ------------------------------------------------- what is answered, and when

  /** A delivery is answered in exactly these ways: refused before the store is asked,
      told that the store or its callback failed, or acknowledged or refused by what is
      recorded under its id. */
  lemma AnsweredOnlyThus(s: State, l: Label, n: nat, status: nat)
    requires n in s.deliveries && !s.deliveries[n].phase.Answered?
    ensures var d := s.deliveries[n]; var fingerprint := Sha256(d.body);
            In(Next(s, l), n, Answered(status)) <==>
              || (l == Refuse(n, status) && d.phase == Arrived && status in {400, 401, 405, 413, 415})
              || (l == Seen(n, true) && d.phase == Arrived && status == 503)
              || (l == Seen(n, false) && d.phase == Arrived && d.id in s.events
                  && status == if s.events[d.id] == fingerprint then 204 else 409)
              || (l == Callback(n, false) && d.phase == Calling && status == 503)
              || (l.Remember? && l.n == n && d.phase == Called
                  && status == if l.storeFails then 503
                               else if d.id in s.events && s.events[d.id] != fingerprint then 409 else 204)
  {
  }

  /** An event that is not recorded is handed to the callback; when the callback fails the
      sender is told to come back, and when it succeeds the event is recorded and
      acknowledged. */
  lemma NewEventsAreHandedOver(s: State, n: nat)
    requires In(s, n, Arrived) && s.deliveries[n].id !in s.events
    ensures var d := s.deliveries[n]; var seen := Next(s, Seen(n, false));
            var failed, called := Next(seen, Callback(n, false)), Next(seen, Callback(n, true));
            && failed.invoked == s.invoked + [d.(phase := Calling)] == called.invoked
            && failed.succeeded == s.succeeded && called.succeeded == s.succeeded + [d.(phase := Calling)]
            && In(failed, n, Answered(503)) && failed.events == s.events
            && In(Next(called, Remember(n, false, true)), n, Answered(204))
            && Next(called, Remember(n, false, true)).events == s.events[d.id := Sha256(d.body)]
  {
  }

  /** Past Seen without an answer, or answered with what the sender retries, is done with,
      or was told it conflicts. */
  predicate PastSeen(phase: Phase) {
    phase.Calling? || phase.Called? || phase.Lost?
    || phase == Answered(204) || phase == Answered(409) || phase == Answered(503)
  }

  lemma PastSeenStep(s: State, l: Label, n: nat)
    requires n in s.deliveries && PastSeen(s.deliveries[n].phase)
    ensures n in Next(s, l).deliveries && PastSeen(Next(s, l).deliveries[n].phase)
  {
  }

  /** In every run, a delivery that passed Seen is never refused for good except for a
      conflict: whatever follows, it is answered 204, 409 or 503, or not at all. */
  lemma {:induction false} PastSeenIsNeverRefused(s: State, labels: seq<Label>, n: nat)
    requires n in s.deliveries && PastSeen(s.deliveries[n].phase)
    ensures n in Run(s, labels).deliveries && PastSeen(Run(s, labels).deliveries[n].phase)
    decreases |labels|
  {
    if labels != [] {
      hide Next, PastSeen;
      PastSeenIsNeverRefused(s, labels[..|labels| - 1], n);
      PastSeenStep(Run(s, labels[..|labels| - 1]), labels[|labels| - 1], n);
    }
  }

  // ---------------------------------------------------- calls after a record

  /** The deliveries of an event that passed Seen and have not called back yet. */
  function Waiting(s: State, id: string): set<nat> {
    set n | n in s.deliveries && s.deliveries[n].id == id && s.deliveries[n].phase == Calling
  }

  function Calls(invoked: seq<Delivery>, id: string): nat {
    if invoked == [] then 0
    else Calls(invoked[..|invoked| - 1], id) + if invoked[|invoked| - 1].id == id then 1 else 0
  }

  lemma OneMoreCall(invoked: seq<Delivery>, d: Delivery, id: string)
    ensures Calls(invoked + [d], id) == Calls(invoked, id) + if d.id == id then 1 else 0
  {
    assert (invoked + [d])[..|invoked|] == invoked;
  }

  lemma SmallerOrEqual(a: set<nat>, b: set<nat>)
    requires a <= b
    ensures |a| <= |b|
  {
    assert b == a + (b - a);
  }

  lemma OneLess(a: set<nat>, b: set<nat>, n: nat)
    requires n in b && a <= b - {n}
    ensures |a| < |b|
  {
    SmallerOrEqual(a, b - {n});
  }

  /** Once an event is recorded, each later callback for it uses up a delivery that had
      already passed Seen. */
  lemma RecordedStep(s: State, l: Label, id: string)
    requires id in s.events
    ensures Calls(Next(s, l).invoked, id) + |Waiting(Next(s, l), id)| <= Calls(s.invoked, id) + |Waiting(s, id)|
  {
    var t := Next(s, l);
    if l.Callback? && In(s, l.n, Calling) {
      OneMoreCall(s.invoked, s.deliveries[l.n], id);
      if s.deliveries[l.n].id == id {
        OneLess(Waiting(t, id), Waiting(s, id), l.n);
      } else {
        SmallerOrEqual(Waiting(t, id), Waiting(s, id));
      }
    } else {
      assert t.invoked == s.invoked;
      SmallerOrEqual(Waiting(t, id), Waiting(s, id));
    }
  }

  /** After an event is recorded the callback is invoked for it at most once for each
      delivery then waiting; with none waiting, never again. */
  lemma {:induction false} FewCallsAfterTheRecord(s: State, labels: seq<Label>, id: string)
    requires id in s.events
    ensures Calls(Run(s, labels).invoked, id) + |Waiting(Run(s, labels), id)| <= Calls(s.invoked, id) + |Waiting(s, id)|
    decreases |labels|
  {
    if labels != [] {
      hide Next;
      var front := labels[..|labels| - 1];
      FewCallsAfterTheRecord(s, front, id);
      RunGrows(s, front);
      RecordedStep(Run(s, front), labels[|labels| - 1], id);
    }
  }

  ghost predicate NeverCalls(s: State, n: nat, id: string) {
    && n in s.deliveries && s.deliveries[n].id == id && id in s.events
    && s.deliveries[n].phase != Calling && s.deliveries[n].phase != Called
  }

  lemma NeverCallsStep(s: State, l: Label, n: nat, id: string)
    requires NeverCalls(s, n, id)
    ensures NeverCalls(Next(s, l), n, id)
  {
  }

  /** A delivery whose Seen follows the record never reaches the callback. */
  lemma {:induction false} SeenAfterTheRecordNeverCalls(s: State, labels: seq<Label>, n: nat)
    requires n in s.deliveries && s.deliveries[n].phase == Arrived && s.deliveries[n].id in s.events
    ensures NeverCalls(Run(s, labels), n, s.deliveries[n].id)
    decreases |labels|
  {
    if labels != [] {
      hide Next, NeverCalls;
      var front := labels[..|labels| - 1];
      SeenAfterTheRecordNeverCalls(s, front, n);
      NeverCallsStep(Run(s, front), labels[|labels| - 1], n, s.deliveries[n].id);
    }
  }
}
