/** The versioned projection table, its change events, and the refresh that
    keeps both in step with a customer's sources. */
module Refresh {
  import opened Text
  import opened Entitlements
  import opened Projector

  /** The stored record one projection cites. */
  datatype SourceRef = ObservationRef(id: string) | ImportRef(id: string)

  /** What the projection query joins from that record. */
  datatype Origin = Origin(applicationId: string, lineage: string)

  datatype RowKey = RowKey(customerId: string, entitlementId: string)

  datatype Row = Row(projection: Projection, version: nat)

  /** The entitlement.changed payload; its fingerprint is the event id. */
  datatype Event = Event(
    schemaVersion: nat,
    projectId: string,
    applicationId: string,
    customerId: string,
    entitlementId: string,
    access: Access,
    reason: Reason,
    observationId: string,
    importId: string,
    sourceProductId: string,
    startsAt: Option<Time>,
    endsAt: Option<Time>,
    version: nat,
    occurredAt: Time)
  {
    /** The SDK's answer: only access and the end take part. */
    predicate GrantsAccessAt(instant: Time) {
      access.Allowed? && (endsAt.Some? ==> instant < endsAt.value)
    }
  }

  datatype Tables = Tables(rows: map<RowKey, Row>, outbox: seq<Event>)

  datatype StoreError = InvalidProjection | Conflict | NotFound | ProjectionFailed(error: ProjectError) | InvalidScope

  datatype WriteResult = WriteResult(entitlement: CurrentEntitlement, changed: bool)

  datatype Counts = Counts(projectionsChanged: nat, webhooksEnqueued: nat)

  function RefOf(p: Projection): SourceRef {
    if p.IsImport() then ImportRef(p.importId) else ObservationRef(p.observationId)
  }

  function Load(origins: map<SourceRef, Origin>, row: Row): CurrentEntitlement
    requires RefOf(row.projection) in origins
  {
    var origin := origins[RefOf(row.projection)];
    CurrentEntitlement(row.projection, origin.applicationId, origin.lineage, row.version)
  }

  /** The rows one customer's snapshot lists, each entitlement once. */
  ghost predicate Lists(rows: map<RowKey, Row>, origins: map<SourceRef, Origin>, customerId: string,
                        current: seq<CurrentEntitlement>) {
    && (forall i, j | 0 <= i < j < |current| :: current[i].projection.entitlementId != current[j].projection.entitlementId)
    && (forall r | r in current :: exists e :: ListsRow(rows, origins, customerId, e, r))
    && (forall e | RowKey(customerId, e) in rows && RefOf(rows[RowKey(customerId, e)].projection) in origins ::
          Load(origins, rows[RowKey(customerId, e)]) in current)
  }

  predicate ListsRow(rows: map<RowKey, Row>, origins: map<SourceRef, Origin>, customerId: string, e: string,
                     r: CurrentEntitlement) {
    var key := RowKey(customerId, e);
    key in rows && RefOf(rows[key].projection) in origins && r == Load(origins, rows[key])
  }

  /** Identical persisted fields. */
  predicate ProjectionsEqual(p: Projection, q: Projection) {
    p.Normalized() == q.Normalized()
  }

  /** Inserts version one, keeps an equal row, or replaces it with the next version. */
  function Put(rows: map<RowKey, Row>, origins: map<SourceRef, Origin>, p: Projection)
    : Result<(map<RowKey, Row>, WriteResult), StoreError>
  {
    var q := p.Normalized();
    var key := RowKey(q.customerId, q.entitlementId);
    if !q.Valid() then Err(InvalidProjection)
    else if key !in rows then
      if RefOf(q) !in origins then Err(Conflict)
      else Ok((rows[key := Row(q, 1)], WriteResult(Load(origins, Row(q, 1)), true)))
    else
      var current := rows[key];
      if RefOf(current.projection) !in origins then Err(NotFound)
      else if ProjectionsEqual(current.projection, q) then Ok((rows, WriteResult(Load(origins, current), false)))
      else if RefOf(q) !in origins then Err(Conflict)
      else
        var next := Row(q, current.version + 1);
        Ok((rows[key := next], WriteResult(Load(origins, next), true)))
  }

  /** The event for one changed row, with access evaluated at its own instant. */
  function EventOf(entitlement: CurrentEntitlement, occurredAt: Time): Event {
    var p := entitlement.projection.Normalized();
    var (access, reason) := AccessAt(p.access, p.reason, p.period.endsAt, occurredAt);
    Event(
      if p.IsImport() then 2 else 1, p.projectId, entitlement.applicationId, p.customerId, p.entitlementId,
      access, reason,
      if p.IsImport() then "" else p.observationId, if p.IsImport() then p.importId else "",
      p.productId,
      if p.period.startsAt == ZERO_TIME then None else Some(p.period.startsAt), p.period.endsAt,
      entitlement.version, occurredAt)
  }

  /** Saving an event that is already queued changes nothing. */
  function SaveOutbox(outbox: seq<Event>, event: Event): seq<Event> {
    if event in outbox then outbox else outbox + [event]
  }

  /** The projection as the refresh writes it for its customer. */
  function Rehomed(p: Projection, projectId: string, customerId: string): Projection {
    p.(sourceCustomerId := if p.sourceCustomerId == "" then p.customerId else p.sourceCustomerId,
       customerId := customerId, projectId := projectId)
  }

  datatype Scope = Scope(projectId: string, customerId: string, occurredAt: Time, enqueue: bool)

  function WriteOne(t: Tables, origins: map<SourceRef, Origin>, scope: Scope, counts: Counts, p: Projection)
    : Result<(Tables, Counts), StoreError>
  {
    match Put(t.rows, origins, Rehomed(p, scope.projectId, scope.customerId))
    case Err(error) => Err(error)
    case Ok((rows, written)) =>
      if !written.changed then Ok((Tables(rows, t.outbox), counts))
      else if !scope.enqueue then Ok((Tables(rows, t.outbox), Counts(counts.projectionsChanged + 1, counts.webhooksEnqueued)))
      else
        Ok((Tables(rows, SaveOutbox(t.outbox, EventOf(written.entitlement, scope.occurredAt))),
            Counts(counts.projectionsChanged + 1, counts.webhooksEnqueued + 1)))
  }

  function WriteAll(t: Tables, origins: map<SourceRef, Origin>, scope: Scope, ps: seq<Projection>)
    : Result<(Tables, Counts), StoreError>
  {
    if ps == [] then Ok((t, Counts(0, 0)))
    else match WriteAll(t, origins, scope, ps[..|ps| - 1])
      case Err(error) => Err(error)
      case Ok((t', counts)) => WriteOne(t', origins, scope, counts, ps[|ps| - 1])
  }

  /** One refresh transaction: it commits every write or none. */
  ghost predicate Refreshed(t: Tables, origins: map<SourceRef, Origin>, scope: Scope, sources: seq<Candidate>,
                            t': Tables, r: Result<Counts, StoreError>)
  {
    if !ValidIdentifier(scope.projectId) || !ValidIdentifier(scope.customerId) then t' == t && r == Err(InvalidScope)
    else exists current :: Lists(t.rows, origins, scope.customerId, current) && RefreshedFrom(t, origins, scope, sources, current, t', r)
  }

  ghost predicate RefreshedFrom(t: Tables, origins: map<SourceRef, Origin>, scope: Scope, sources: seq<Candidate>,
                                current: seq<CurrentEntitlement>, t': Tables, r: Result<Counts, StoreError>)
  {
    if InputError(current, sources).Some? then t' == t && r == Err(ProjectionFailed(InputError(current, sources).value))
    else exists ps :: Projects(current, sources, ps) && Commits(t, WriteAll(t, origins, scope, ps), t', r)
  }

  predicate Commits(t: Tables, written: Result<(Tables, Counts), StoreError>, t': Tables, r: Result<Counts,
                    StoreError>) {
    match written
    case Ok((t'', counts)) => t' == t'' && r == Ok(counts)
    case Err(error) => t' == t && r == Err(error)
  }

  /** One project's projection tables. */
  class EntitlementStore {
    const projectId: string
    var origins: map<SourceRef, Origin>
    var rows: map<RowKey, Row>
    var outbox: seq<Event>

    constructor (projectId: string)
      ensures this.projectId == projectId && origins == map[] && State() == Tables(map[], [])
    {
      this.projectId := projectId;
      origins, rows, outbox := map[], map[], [];
    }

    function State(): Tables
      reads this
    {
      Tables(rows, outbox)
    }

    /** Creates or replaces one current projection with optimistic versioning. */
    method PutEntitlement(p: Projection) returns (r: Result<WriteResult, StoreError>)
      modifies this`rows
      ensures match Put(old(rows), origins, p)
        case Err(error) => rows == old(rows) && r == Err(error)
        case Ok((rows', written)) => rows == rows' && r == Ok(written)
    {
      var q := p.Normalized();
      if !q.Valid() {
        return Err(InvalidProjection);
      }
      var key := RowKey(q.customerId, q.entitlementId);
      if key !in rows {
        if RefOf(q) !in origins {
          return Err(Conflict);
        }
        rows := rows[key := Row(q, 1)];
        return Ok(WriteResult(Load(origins, rows[key]), true));
      }
      var current := rows[key];
      if RefOf(current.projection) !in origins {
        return Err(NotFound);
      }
      if ProjectionsEqual(current.projection, q) {
        return Ok(WriteResult(Load(origins, current), false));
      }
      if RefOf(q) !in origins {
        return Err(Conflict);
      }
      rows := rows[key := Row(q, current.version + 1)];
      return Ok(WriteResult(Load(origins, rows[key]), true));
    }

    /** The customer's snapshot, in whatever order the rows are read. */
    method CustomerEntitlements(customerId: string) returns (current: seq<CurrentEntitlement>)
      requires forall key | key in rows :: rows[key].projection.entitlementId == key.entitlementId
      ensures Lists(rows, origins, customerId, current)
    {
      current := [];
      var left := rows.Keys;
      while left != {}
        invariant left <= rows.Keys
        invariant forall i, j | 0 <= i < j < |current| :: current[i].projection.entitlementId != current[j].projection.entitlementId
        invariant forall r | r in current ::
            RowKey(customerId, r.projection.entitlementId) !in left && ListsRow(rows, origins, customerId, r.projection.entitlementId, r)
        invariant forall e | RowKey(customerId, e) in rows && RowKey(customerId, e) !in left
            && RefOf(rows[RowKey(customerId, e)].projection) in origins :: Load(origins, rows[RowKey(customerId, e)]) in current
        decreases left
      {
        var key :| key in left;
        left := left - {key};
        if key.customerId == customerId && RefOf(rows[key].projection) in origins {
          assert key == RowKey(customerId, rows[key].projection.entitlementId);
          current := current + [Load(origins, rows[key])];
        }
      }
    }

    /** Writes one projection and enqueues its event when the row changed. */
    method WriteProjection(p: Projection, scope: Scope, counts: Counts) returns (r: Result<Counts, StoreError>)
      requires scope.projectId == projectId
      modifies this`rows, this`outbox
      ensures match WriteOne(old(State()), origins, scope, counts, p)
        case Err(error) => State() == old(State()) && r == Err(error)
        case Ok((t, counts')) => State() == t && r == Ok(counts')
    {
      var q := p;
      if q.sourceCustomerId == "" {
        q := q.(sourceCustomerId := q.customerId);
      }
      q := q.(customerId := scope.customerId, projectId := projectId);
      assert q == Rehomed(p, projectId, scope.customerId);
      var written := PutEntitlement(q);
      if written.Err? {
        return Err(written.error);
      }
      if !written.value.changed {
        return Ok(counts);
      }
      if !scope.enqueue {
        return Ok(counts.(projectionsChanged := counts.projectionsChanged + 1));
      }
      outbox := SaveOutbox(outbox, EventOf(written.value.entitlement, scope.occurredAt));
      return Ok(Counts(counts.projectionsChanged + 1, counts.webhooksEnqueued + 1));
    }

    method WriteProjections(ps: seq<Projection>, scope: Scope) returns (r: Result<Counts, StoreError>)
      requires scope.projectId == projectId
      modifies this`rows, this`outbox
      ensures Commits(old(State()), WriteAll(old(State()), origins, scope, ps), State(), r)
    {
      var savedRows, savedOutbox := rows, outbox;
      var counts := Counts(0, 0);
      for i := 0 to |ps|
        invariant WriteAll(old(State()), origins, scope, ps[..i]) == Ok((State(), counts))
      {
        assert ps[..i + 1][..i] == ps[..i];
        var written := WriteProjection(ps[i], scope, counts);
        if written.Err? {
          WriteErrorLasts(old(State()), origins, scope, ps, i + 1);
          rows, outbox := savedRows, savedOutbox;
          return Err(written.error);
        }
        counts := written.value;
      }
      assert ps[..|ps|] == ps;
      return Ok(counts);
    }

    /** Recomputes one customer's projections and enqueues their change events. */
    method RefreshCustomerProjection(customerId: string, sources: seq<Candidate>, occurredAt: Time, enqueue: bool)
      returns (r: Result<Counts, StoreError>)
      requires forall key | key in rows :: rows[key].projection.entitlementId == key.entitlementId
      modifies this`rows, this`outbox
      ensures Refreshed(old(State()), origins, Scope(projectId, customerId, occurredAt, enqueue), sources, State(), r)
    {
      var scope := Scope(projectId, customerId, occurredAt, enqueue);
      if !ValidIdentifier(projectId) || !ValidIdentifier(customerId) {
        return Err(InvalidScope);
      }
      var current := CustomerEntitlements(customerId);
      var projected := Project(current, sources);
      if projected.Err? {
        r := Err(ProjectionFailed(projected.error));
      } else {
        r := WriteProjections(projected.value, scope);
      }
      assert RefreshedFrom(old(State()), origins, scope, sources, current, State(), r);
    }
  }

  lemma {:induction false} WriteErrorLasts(t: Tables, origins: map<SourceRef, Origin>, scope: Scope,
                                           ps: seq<Projection>, n: nat)
    requires n <= |ps| && WriteAll(t, origins, scope, ps[..n]).Err?
    ensures WriteAll(t, origins, scope, ps) == WriteAll(t, origins, scope, ps[..n])
  {
    if n < |ps| {
      assert ps[..|ps| - 1][..n] == ps[..n];
      WriteErrorLasts(t, origins, scope, ps[..|ps| - 1], n);
    } else {
      assert ps[..n] == ps;
    }
  }
}
