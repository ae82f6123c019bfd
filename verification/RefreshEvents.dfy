/** The change events of every run: they number the versions without gap or
    repeat, and the last one tells a client what the row tells the server. */
module RefreshEvents {
  import opened Text
  import opened Entitlements
  import opened Projector
  import opened Refresh
  import opened RefreshRuns
  import opened RefreshTheorems

  /** The SDK's answer from an event is the server's answer from the row, except
      at instants before an end that had already passed when the event was built. */
  lemma EventAgreesExactly(entitlement: CurrentEntitlement, occurredAt: Time, now: Time)
    ensures var p := entitlement.projection;
      (EventOf(entitlement, occurredAt).GrantsAccessAt(now) == AllowedAt(p, now)) <==>
      !(p.access.Allowed? && p.period.endsAt.Some? && now < p.period.endsAt.value <= occurredAt)
  {
    assert entitlement.projection.Normalized().access == entitlement.projection.access;
    assert entitlement.projection.Normalized().period == entitlement.projection.period;
  }

  ghost predicate DescribesRow(origins: map<SourceRef, Origin>, row: Row, event: Event) {
    RefOf(row.projection) in origins && exists occurredAt :: event == EventOf(Load(origins, row), occurredAt)
  }

  /** Versions one to n, the last event describing the row as it stands. */
  ghost predicate EventsNumberVersions(origins: map<SourceRef, Origin>, rows: map<RowKey, Row>, outbox: seq<Event>,
                                       key: RowKey) {
    var events := EventsFor(outbox, key);
    if key !in rows then events == []
    else
      && |events| == rows[key].version > 0
      && (forall i | 0 <= i < |events| :: events[i].version == i + 1)
      && DescribesRow(origins, rows[key], events[|events| - 1])
  }

  ghost predicate EventsExact(w: World) {
    NotAhead(w.tables) && forall key :: EventsNumberVersions(w.origins, w.tables.rows, w.tables.outbox, key)
  }

  ghost predicate AlwaysEnqueues(ls: seq<Label>) {
    forall i | 0 <= i < |ls| :: ls[i].RefreshNow? ==> ls[i].enqueue
  }

  lemma RefreshKeepsEvents(w: World, scope: Scope, current: seq<CurrentEntitlement>, ps: seq<Projection>, t: Tables,
                           counts: Counts, key: RowKey)
    requires Committed(w, scope, current, ps, t, counts) && scope.enqueue
    requires NotAhead(w.tables) && EventsNumberVersions(w.origins, w.tables.rows, w.tables.outbox, key)
    ensures NotAhead(t) && EventsNumberVersions(w.origins, t.rows, t.outbox, key)
  {
    hide Projects, InputError, CurrentOf, Loaded, RowAfter, EventsAfter, EventsNumberVersions, NotAhead;
    WriteAllEffect(w.tables, w.origins, scope, ps);
    WriteAllNotAhead(w.tables, w.origins, scope, ps);
    WriteAllEvents(w.tables, w.origins, scope, ps, key);
    ApplyRowsAt(w.tables.rows, scope, ps, key);
    if Emits(w.tables.rows, scope, ps, key) {
      FindFacts(ps, key.entitlementId);
      EmittedRow(w, scope, ps, t, key);
    } else {
      UnchangedRow(w, scope, ps, t, key);
    }
  }

  lemma UnchangedRow(w: World, scope: Scope, ps: seq<Projection>, t: Tables, key: RowKey)
    requires EventsNumberVersions(w.origins, w.tables.rows, w.tables.outbox, key)
    requires !Emits(w.tables.rows, scope, ps, key) && scope.enqueue
    requires RowAt(t.rows, key) == RowAfter(w.tables.rows, scope, ps, key)
    requires EventsFor(t.outbox, key) == EventsAfter(w.tables, w.origins, scope, ps, key)
    ensures EventsNumberVersions(w.origins, t.rows, t.outbox, key)
  {
    assert RowAt(t.rows, key) == RowAt(w.tables.rows, key);
  }

  lemma RefreshKeepsAllEvents(projectId: string, w: World, scope: Scope, w': World)
    requires ValidIdentifier(projectId) && scope.projectId == projectId && scope.enqueue && Inv(projectId, w)
    requires Steps(projectId, w, RefreshNow(scope.customerId, scope.occurredAt, scope.enqueue), w')
    requires EventsExact(w)
    ensures EventsExact(w')
  {
    var current, ps, counts := RefreshStep(projectId, w, scope, w');
    forall key ensures EventsNumberVersions(w'.origins, w'.tables.rows, w'.tables.outbox, key) {
      RefreshKeepsEvents(w, scope, current, ps, w'.tables, counts, key);
    }
    RefreshKeepsEvents(w, scope, current, ps, w'.tables, counts, RowKey("", ""));
  }

  lemma EmittedRow(w: World, scope: Scope, ps: seq<Projection>, t: Tables, key: RowKey)
    requires EventsNumberVersions(w.origins, w.tables.rows, w.tables.outbox, key)
    requires Emits(w.tables.rows, scope, ps, key) && RefOf(Find(ps, key.entitlementId).value) in w.origins
    requires RowAt(t.rows, key) == RowAfter(w.tables.rows, scope, ps, key)
    requires EventsFor(t.outbox, key) == EventsAfter(w.tables, w.origins, scope, ps, key)
    ensures EventsNumberVersions(w.origins, t.rows, t.outbox, key)
  {
    SourceRefStable(Find(ps, key.entitlementId).value, scope);
    NextEventNumbersVersion(w.origins, w.tables.rows, t.rows[key], EventsFor(w.tables.outbox, key), key, scope.occurredAt);
  }

  lemma NextEventNumbersVersion(origins: map<SourceRef, Origin>, rows: map<RowKey, Row>, row: Row,
                                events: seq<Event>, key: RowKey, occurredAt: Time)
    requires RefOf(row.projection) in origins
    requires row.version == if key in rows then rows[key].version + 1 else 1
    requires if key in rows then |events| == rows[key].version else events == []
    requires forall i | 0 <= i < |events| :: events[i].version == i + 1
    ensures var events' := events + [EventOf(Load(origins, row), occurredAt)];
      && |events'| == row.version > 0
      && (forall i | 0 <= i < |events'| :: events'[i].version == i + 1)
      && DescribesRow(origins, row, events'[|events'| - 1])
  {
  }

  lemma ObserveKeepsEvents(projectId: string, w: World, customer: string, found: seq<Candidate>, w': World)
    requires Inv(projectId, w) && EventsExact(w) && Steps(projectId, w, Observe(customer, found), w')
    ensures EventsExact(w')
  {
    forall key ensures EventsNumberVersions(w'.origins, w'.tables.rows, w'.tables.outbox, key) {
      assert EventsNumberVersions(w.origins, w.tables.rows, w.tables.outbox, key);
      if key in w.tables.rows {
        assert Load(w'.origins, w.tables.rows[key]) == Load(w.origins, w.tables.rows[key]);
      }
    }
  }

  /** In a run whose refreshes all enqueue, the events of a row carry exactly the
      versions one to n. */
  lemma {:induction false} VersionsWithoutGap(projectId: string, ws: seq<World>, ls: seq<Label>, i: nat)
    requires IsRun(projectId, ws, ls) && AlwaysEnqueues(ls) && i < |ws|
    ensures EventsExact(ws[i])
  {
    if i > 0 {
      VersionsWithoutGap(projectId, ws, ls, i - 1);
      InvHolds(projectId, ws, ls, i - 1);
      assert Steps(projectId, ws[i - 1], ls[i - 1], ws[i]);
      match ls[i - 1]
      case Observe(customer, found) =>
        ObserveKeepsEvents(projectId, ws[i - 1], customer, found, ws[i]);
      case RefreshNow(customer, t, enqueue) =>
        var scope := Scope(projectId, customer, t, enqueue);
        RefreshKeepsAllEvents(projectId, ws[i - 1], scope, ws[i]);
    }
  }

  /** A client that keeps the last event of a row decides, at every instant from
      that event on, as the server does from the stored row. */
  lemma ClientsAgreeWithServer(projectId: string, ws: seq<World>, ls: seq<Label>, i: nat, key: RowKey, now: Time)
    requires IsRun(projectId, ws, ls) && AlwaysEnqueues(ls) && i < |ws|
    requires key in ws[i].tables.rows
    ensures var events := EventsFor(ws[i].tables.outbox, key);
      && events != []
      && (now >= events[|events| - 1].occurredAt ==>
           events[|events| - 1].GrantsAccessAt(now) == AllowedAt(ws[i].tables.rows[key].projection, now))
  {
    VersionsWithoutGap(projectId, ws, ls, i);
    assert EventsNumberVersions(ws[i].origins, ws[i].tables.rows, ws[i].tables.outbox, key);
    var events := EventsFor(ws[i].tables.outbox, key);
    var row := ws[i].tables.rows[key];
    var occurredAt :| events[|events| - 1] == EventOf(Load(ws[i].origins, row), occurredAt);
    EventAgreesExactly(Load(ws[i].origins, row), occurredAt, now);
  }

  // ------------------------------------------------------ what an event carries

  function Cited(p: Projection): SourceRef {
    if p.kind.ImportGrant? then ImportRef(p.importId) else ObservationRef(p.observationId)
  }

  /** The event names the row's customer, entitlement, source, period and version, the
      application of the cited record, and the access and reason the row reads with when
      the event was built: an allowed row that had ended reads as expired. */
  ghost predicate Announces(event: Event, origins: map<SourceRef, Origin>, row: Row) {
    var p := row.projection;
    var import_ := p.kind.ImportGrant?;
    && event.projectId == p.projectId && event.customerId == p.customerId && event.entitlementId == p.entitlementId
    && Cited(p) in origins && event.applicationId == origins[Cited(p)].applicationId
    && event.schemaVersion == (if import_ then 2 else 1)
    && (import_ ==> event.importId == p.importId && event.observationId == "")
    && (!import_ ==> event.observationId == p.observationId && event.importId == "")
    && event.sourceProductId == p.productId && event.version == row.version
    && event.endsAt == p.period.endsAt
    && event.startsAt == (if p.period.startsAt == 0 then None else Some(p.period.startsAt))
    && (if p.access == Allowed && p.period.endsAt.Some? && p.period.endsAt.value <= event.occurredAt
        then event.access == Denied && event.reason == Expired
        else event.access == p.access && event.reason == p.reason)
  }

  lemma BuiltEventsAnnounce(origins: map<SourceRef, Origin>, row: Row, event: Event)
    requires DescribesRow(origins, row, event)
    ensures Announces(event, origins, row)
  {
  }

  /** In a run whose refreshes all enqueue, the last event of a row announces it as it
      stands. */
  lemma LastEventAnnouncesTheRow(projectId: string, ws: seq<World>, ls: seq<Label>, i: nat, key: RowKey)
    requires IsRun(projectId, ws, ls) && AlwaysEnqueues(ls) && i < |ws|
    requires key in ws[i].tables.rows
    ensures var events := EventsFor(ws[i].tables.outbox, key);
      && events != []
      && Announces(events[|events| - 1], ws[i].origins, ws[i].tables.rows[key])
      && events[|events| - 1].projectId == projectId
      && events[|events| - 1].customerId == key.customerId && events[|events| - 1].entitlementId == key.entitlementId
  {
    hide Announces, DescribesRow;
    VersionsWithoutGap(projectId, ws, ls, i);
    InvHolds(projectId, ws, ls, i);
    assert EventsNumberVersions(ws[i].origins, ws[i].tables.rows, ws[i].tables.outbox, key);
    var events := EventsFor(ws[i].tables.outbox, key);
    BuiltEventsAnnounce(ws[i].origins, ws[i].tables.rows[key], events[|events| - 1]);
    AnnouncedRowIsKeyed(projectId, ws[i], key, events[|events| - 1]);
  }

  lemma AnnouncedRowIsKeyed(projectId: string, w: World, key: RowKey, event: Event)
    requires Inv(projectId, w) && key in w.tables.rows && Announces(event, w.origins, w.tables.rows[key])
    ensures event.projectId == projectId && event.customerId == key.customerId && event.entitlementId == key.entitlementId
  {
    hide Projection.Valid, HasSource, SourcesOk;
    assert RowOk(projectId, w, key);
  }

  ghost predicate IsOfRefresh(event: Event, scope: Scope) {
    event.projectId == scope.projectId && event.customerId == scope.customerId && event.occurredAt == scope.occurredAt
  }

  lemma {:induction false} WrittenEventsAreOfTheRefresh(t: Tables, origins: map<SourceRef, Origin>, scope: Scope,
                                                        ps: seq<Projection>)
    requires WriteAll(t, origins, scope, ps).Ok?
    ensures forall event | event in WriteAll(t, origins, scope, ps).value.0.outbox ::
              event in t.outbox || (scope.enqueue && IsOfRefresh(event, scope))
  {
    if ps != [] {
      WrittenEventsAreOfTheRefresh(t, origins, scope, ps[..|ps| - 1]);
      var (t', counts) := WriteAll(t, origins, scope, ps[..|ps| - 1]).value;
      OneWrittenEvent(t', origins, scope, counts, ps[|ps| - 1]);
    }
  }

  lemma OneWrittenEvent(t: Tables, origins: map<SourceRef, Origin>, scope: Scope, counts: Counts, p: Projection)
    requires WriteOne(t, origins, scope, counts, p).Ok?
    ensures forall event | event in WriteOne(t, origins, scope, counts, p).value.0.outbox ::
              event in t.outbox || (scope.enqueue && IsOfRefresh(event, scope))
  {
    hide Projection.Valid;
  }

  ghost predicate WasRefreshed(ls: seq<Label>, event: Event) {
    exists j | 0 <= j < |ls| :: ls[j] == RefreshNow(event.customerId, event.occurredAt, true)
  }

  /** In every run, each queued event was written by a refresh of its customer at its time,
      and one that enqueues. */
  lemma {:induction false} EventsComeFromRefreshes(projectId: string, ws: seq<World>, ls: seq<Label>, i: nat, event: Event)
    requires IsRun(projectId, ws, ls) && i < |ws| && event in ws[i].tables.outbox
    ensures event.projectId == projectId && WasRefreshed(ls[..i], event)
  {
    hide Inv, WriteAll, Projects, Lists, InputError;
    if i > 0 {
      var l := ls[i - 1];
      assert Steps(projectId, ws[i - 1], l, ws[i]);
      assert ls[..i] == ls[..i - 1] + [l];
      if event in ws[i - 1].tables.outbox {
        EventsComeFromRefreshes(projectId, ws, ls, i - 1, event);
        var j :| 0 <= j < i - 1 && ls[..i - 1][j] == RefreshNow(event.customerId, event.occurredAt, true);
        assert ls[..i][j] == RefreshNow(event.customerId, event.occurredAt, true);
      } else {
        var scope := Scope(projectId, l.customer, l.occurredAt, l.enqueue);
        InvHolds(projectId, ws, ls, i - 1);
        var current, ps, counts := RefreshStep(projectId, ws[i - 1], scope, ws[i]);
        WrittenEventsAreOfTheRefresh(ws[i - 1].tables, ws[i - 1].origins, scope, ps);
        assert ls[..i][i - 1] == RefreshNow(event.customerId, event.occurredAt, true);
      }
    }
  }

  function ChangedKeys(before: map<RowKey, Row>, after: map<RowKey, Row>): set<RowKey> {
    set key | key in after && (key !in before || after[key] != before[key])
  }

  /** A refresh reports how many rows it changed and how many events it queued. */
  lemma {:induction false} CountsAreExact(t: Tables, origins: map<SourceRef, Origin>, scope: Scope, ps: seq<Projection>)
    requires Writable(origins, scope, ps) && RowsLoad(t.rows, origins) && NotAhead(t)
    ensures WriteAll(t, origins, scope, ps).Ok?
    ensures var (t', counts) := WriteAll(t, origins, scope, ps).value;
            && counts.projectionsChanged == |ChangedKeys(t.rows, t'.rows)|
            && counts.webhooksEnqueued == (if scope.enqueue then counts.projectionsChanged else 0)
            && |t'.outbox| == |t.outbox| + counts.webhooksEnqueued
            && (forall key | key in t.rows :: key in t'.rows)
  {
    WriteAllEffect(t, origins, scope, ps);
    if ps == [] {
      assert ChangedKeys(t.rows, t.rows) == {};
    } else {
      var n := |ps| - 1;
      PrefixWritable(origins, scope, ps);
      WriteAllEffect(t, origins, scope, ps[..n]);
      WriteAllNotAhead(t, origins, scope, ps[..n]);
      CountsAreExact(t, origins, scope, ps[..n]);
      var (mid, counts) := WriteAll(t, origins, scope, ps[..n]).value;
      var key := RowKey(scope.customerId, ps[n].entitlementId);
      ApplyRowsAt(t.rows, scope, ps[..n], key);
      hide WriteAll, Writable, NotAhead, StoredAs, WrittenRow;
      OneMoreWrite(mid, origins, scope, counts, ps[n]);
      var t' := WriteOne(mid, origins, scope, counts, ps[n]).value.0;
      OneMoreChange(t.rows, mid.rows, t'.rows, key);
    }
  }

  lemma OneMoreWrite(t: Tables, origins: map<SourceRef, Origin>, scope: Scope, counts: Counts, p: Projection)
    requires StoredAs(p, scope).Valid() && RefOf(p) in origins && RowsLoad(t.rows, origins) && NotAhead(t)
    ensures WriteOne(t, origins, scope, counts, p).Ok?
    ensures var (t', counts') := WriteOne(t, origins, scope, counts, p).value;
            var key := RowKey(scope.customerId, p.entitlementId);
            var changed := key !in t.rows || t'.rows[key] != t.rows[key];
            && key in t'.rows && t'.rows == t.rows[key := t'.rows[key]]
            && counts'.projectionsChanged == counts.projectionsChanged + (if changed then 1 else 0)
            && counts'.webhooksEnqueued == counts.webhooksEnqueued + (if changed && scope.enqueue then 1 else 0)
            && |t'.outbox| == |t.outbox| + (if changed && scope.enqueue then 1 else 0)
  {
    WriteOneEffect(t, origins, scope, counts, p);
    SourceRefStable(p, scope);
    var key := RowKey(scope.customerId, p.entitlementId);
    var (t', _) := WriteOne(t, origins, scope, counts, p).value;
    hide Projection.Valid, StoredAs, RowsLoad;
    if scope.enqueue && Changes(t.rows, key, StoredAs(p, scope)) {
      var event := EventOf(Load(origins, t'.rows[key]), scope.occurredAt);
      forall queued | queued in t.outbox ensures queued != event {
        assert EventBehind(t.rows, queued);
      }
    }
  }

  lemma OneMoreChange(before: map<RowKey, Row>, mid: map<RowKey, Row>, after: map<RowKey, Row>, key: RowKey)
    requires key in after && after == mid[key := after[key]]
    requires forall k | k in before :: k in mid
    requires key in mid <==> key in before
    requires key in before ==> mid[key] == before[key]
    ensures |ChangedKeys(before, after)|
         == |ChangedKeys(before, mid)| + if key !in mid || after[key] != mid[key] then 1 else 0
  {
    var more := if key !in mid || after[key] != mid[key] then {key} else {};
    assert ChangedKeys(before, after) == ChangedKeys(before, mid) + more;
    assert key !in ChangedKeys(before, mid);
  }
}
