/** Every run of source changes and refreshes: stored rows depend on the sources
    alone, a repeated refresh writes nothing, and events number the versions. */
module RefreshRuns {
  import opened Text
  import opened Entitlements
  import opened Projector
  import opened ProjectorLaws
  import opened Refresh

  datatype World = World(origins: map<SourceRef, Origin>, tables: Tables, sources: map<string, seq<Candidate>>)

  datatype Label =
    | Observe(customer: string, found: seq<Candidate>)
    | RefreshNow(customer: string, occurredAt: Time, enqueue: bool)

  // ------------------------------------------------------------ environment

  ghost predicate HasSource(cs: seq<Candidate>, e: string, k: SourceKey) {
    exists c :: c in cs && c.projection.entitlementId == e && c.Source() == k
  }

  /** What the source query returns: valid rows, one id per source, lineage keys
      that say the kind, and origins that agree with the stored records. */
  ghost predicate SourcesOk(origins: map<SourceRef, Origin>, cs: seq<Candidate>) {
    && (forall c | c in cs :: c.Valid() && OriginKnown(origins, c))
    && DistinctIdentities(cs) && LineageKinds(cs)
  }

  predicate OriginKnown(origins: map<SourceRef, Origin>, c: Candidate) {
    RefOf(c.projection) in origins && origins[RefOf(c.projection)] == Origin(c.applicationId, c.lineage)
  }

  ghost predicate Extends(a: map<SourceRef, Origin>, b: map<SourceRef, Origin>) {
    forall ref | ref in a :: ref in b && b[ref] == a[ref]
  }

  /** A source key, once present, stays present; its contents may change. */
  ghost predicate KeepsSources(before: seq<Candidate>, after: seq<Candidate>) {
    forall c | c in before :: HasSource(after, c.projection.entitlementId, c.Source())
  }

  function SourcesOf(w: World, customer: string): seq<Candidate> {
    if customer in w.sources then w.sources[customer] else []
  }

  ghost predicate Steps(projectId: string, w: World, l: Label, w': World) {
    match l
    case Observe(customer, found) =>
      && w'.tables == w.tables && w'.sources == w.sources[customer := found]
      && Extends(w.origins, w'.origins) && KeepsSources(SourcesOf(w, customer), found)
      && forall c | c in w'.sources :: SourcesOk(w'.origins, w'.sources[c])
    case RefreshNow(customer, occurredAt, enqueue) =>
      && w'.origins == w.origins && w'.sources == w.sources && ValidIdentifier(customer)
      && exists r :: Refreshed(w.tables, w.origins, Scope(projectId, customer, occurredAt, enqueue), SourcesOf(w, customer), w'.tables, r)
  }

  ghost predicate IsRun(projectId: string, ws: seq<World>, ls: seq<Label>) {
    && ValidIdentifier(projectId)
    && |ws| == |ls| + 1 && ws[0] == World(map[], Tables(map[], []), map[])
    && forall i | 0 <= i < |ls| :: Steps(projectId, ws[i], ls[i], ws[i + 1])
  }

  // -------------------------------------------------------------- invariant

  ghost predicate RowOk(projectId: string, w: World, key: RowKey) {
    && key in w.tables.rows
    && var row := w.tables.rows[key];
    && row.projection.Valid() && row.projection == row.projection.Normalized()
    && row.projection.customerId == key.customerId && row.projection.entitlementId == key.entitlementId
    && row.projection.projectId == projectId && row.version >= 1
    && RefOf(row.projection) in w.origins
    && ValidIdentifier(Load(w.origins, row).applicationId)
    && HasSource(SourcesOf(w, key.customerId), key.entitlementId, Load(w.origins, row).Source())
    && RowLineageKind(Some(Load(w.origins, row)))
  }

  ghost predicate Inv(projectId: string, w: World) {
    && (forall key | key in w.tables.rows :: RowOk(projectId, w, key))
    && (forall c | c in w.sources :: SourcesOk(w.origins, w.sources[c]))
  }

  // --------------------------------------------------- writing one refresh

  /** The row after one write of `q` over what was there. */
  function WrittenRow(rows: map<RowKey, Row>, key: RowKey, q: Projection): Row {
    if key !in rows then Row(q, 1)
    else if ProjectionsEqual(rows[key].projection, q) then rows[key]
    else Row(q, rows[key].version + 1)
  }

  predicate Changes(rows: map<RowKey, Row>, key: RowKey, q: Projection) {
    key !in rows || !ProjectionsEqual(rows[key].projection, q)
  }

  function StoredAs(p: Projection, scope: Scope): Projection {
    Rehomed(p, scope.projectId, scope.customerId).Normalized()
  }

  ghost predicate Writable(origins: map<SourceRef, Origin>, scope: Scope, ps: seq<Projection>) {
    && NoDuplicates(Ids(ps))
    && forall p | p in ps :: StoredAs(p, scope).Valid() && RefOf(p) in origins
  }

  ghost predicate RowsLoad(rows: map<RowKey, Row>, origins: map<SourceRef, Origin>) {
    forall key | key in rows :: RefOf(rows[key].projection) in origins
  }

  /** The queued events of one row, in order. */
  function EventsFor(outbox: seq<Event>, key: RowKey): seq<Event> {
    if outbox == [] then []
    else
      var before, event := EventsFor(outbox[..|outbox| - 1], key), outbox[|outbox| - 1];
      if RowKey(event.customerId, event.entitlementId) == key then before + [event] else before
  }

  /** No queued event of a row is ahead of the row. */
  ghost predicate NotAhead(t: Tables) {
    forall event | event in t.outbox :: EventBehind(t.rows, event)
  }

  predicate EventBehind(rows: map<RowKey, Row>, event: Event) {
    var key := RowKey(event.customerId, event.entitlementId);
    key in rows && event.version <= rows[key].version
  }

  lemma SourceRefStable(p: Projection, scope: Scope)
    ensures RefOf(StoredAs(p, scope)) == RefOf(p)
    ensures StoredAs(p, scope).entitlementId == p.entitlementId && StoredAs(p, scope).customerId == scope.customerId
    ensures StoredAs(p, scope).Normalized() == StoredAs(p, scope)
    ensures SameDecision(StoredAs(p, scope), p)
  {
  }

  /** One write that the store accepts. */
  lemma WriteOneEffect(t: Tables, origins: map<SourceRef, Origin>, scope: Scope, counts: Counts, p: Projection)
    requires StoredAs(p, scope).Valid() && RefOf(p) in origins && RowsLoad(t.rows, origins)
    ensures var key, q := RowKey(scope.customerId, p.entitlementId), StoredAs(p, scope);
      WriteOne(t, origins, scope, counts, p) == Ok((
        Tables(t.rows[key := WrittenRow(t.rows, key, q)],
               if Changes(t.rows, key, q) && scope.enqueue
               then SaveOutbox(t.outbox, EventOf(Load(origins, Row(q, WrittenRow(t.rows, key, q).version)), scope.occurredAt))
               else t.outbox),
        if Changes(t.rows, key, q)
        then Counts(counts.projectionsChanged + 1, counts.webhooksEnqueued + if scope.enqueue then 1 else 0)
        else counts))
  {
    SourceRefStable(p, scope);
    var key := RowKey(scope.customerId, p.entitlementId);
    if !Changes(t.rows, key, StoredAs(p, scope)) {
      assert t.rows[key := t.rows[key]] == t.rows;
    }
  }

  function RowAt(rows: map<RowKey, Row>, key: RowKey): Option<Row> {
    if key in rows then Some(rows[key]) else None
  }

  /** One row after a whole refresh. */
  function RowAfter(rows: map<RowKey, Row>, scope: Scope, ps: seq<Projection>, key: RowKey): Option<Row> {
    if key.customerId == scope.customerId && Find(ps, key.entitlementId).Some?
    then Some(WrittenRow(rows, key, StoredAs(Find(ps, key.entitlementId).value, scope)))
    else RowAt(rows, key)
  }

  /** Whether a refresh queues an event for a row. */
  predicate Emits(rows: map<RowKey, Row>, scope: Scope, ps: seq<Projection>, key: RowKey) {
    && scope.enqueue && key.customerId == scope.customerId && Find(ps, key.entitlementId).Some?
    && Changes(rows, key, StoredAs(Find(ps, key.entitlementId).value, scope))
  }

  function ChangedCount(rows: map<RowKey, Row>, scope: Scope, ps: seq<Projection>): nat {
    if ps == [] then 0
    else
      var p := ps[|ps| - 1];
      ChangedCount(rows, scope, ps[..|ps| - 1])
      + if Changes(rows, RowKey(scope.customerId, p.entitlementId), StoredAs(p, scope)) then 1 else 0
  }

  lemma {:induction false} FindInPrefix(ps: seq<Projection>, e: string)
    requires ps != []
    ensures Find(ps, e) ==
      if Find(ps[..|ps| - 1], e).Some? then Find(ps[..|ps| - 1], e)
      else if ps[|ps| - 1].entitlementId == e then Some(ps[|ps| - 1]) else None
  {
    if |ps| > 1 {
      FindInPrefix(ps[1..], e);
      assert ps[1..][..|ps| - 2] == ps[..|ps| - 1][1..];
    }
  }

  lemma PrefixWritable(origins: map<SourceRef, Origin>, scope: Scope, ps: seq<Projection>)
    requires ps != [] && Writable(origins, scope, ps)
    ensures Writable(origins, scope, ps[..|ps| - 1])
    ensures Find(ps[..|ps| - 1], ps[|ps| - 1].entitlementId).None?
    ensures StoredAs(ps[|ps| - 1], scope).Valid() && RefOf(ps[|ps| - 1]) in origins
  {
    var n := |ps| - 1;
    assert Ids(ps[..n]) == Ids(ps)[..n];
    FindFacts(ps[..n], ps[n].entitlementId);
    forall i | 0 <= i < n ensures Ids(ps[..n])[i] != ps[n].entitlementId {
      assert Ids(ps)[i] != Ids(ps)[n];
    }
    assert ps[n] in ps;
  }

  function ApplyOne(rows: map<RowKey, Row>, scope: Scope, p: Projection): map<RowKey, Row> {
    var key := RowKey(scope.customerId, p.entitlementId);
    rows[key := WrittenRow(rows, key, StoredAs(p, scope))]
  }

  function ApplyRows(rows: map<RowKey, Row>, scope: Scope, ps: seq<Projection>): map<RowKey, Row> {
    if ps == [] then rows else ApplyOne(ApplyRows(rows, scope, ps[..|ps| - 1]), scope, ps[|ps| - 1])
  }

  /** Each row gets its own decision, whatever else the refresh writes. */
  lemma {:induction false} ApplyRowsAt(rows: map<RowKey, Row>, scope: Scope, ps: seq<Projection>, key: RowKey)
    requires NoDuplicates(Ids(ps))
    ensures RowAt(ApplyRows(rows, scope, ps), key) == RowAfter(rows, scope, ps, key)
  {
    if ps != [] {
      var n := |ps| - 1;
      assert Ids(ps[..n]) == Ids(ps)[..n];
      ApplyRowsAt(rows, scope, ps[..n], key);
      FindInPrefix(ps, key.entitlementId);
      if key == RowKey(scope.customerId, ps[n].entitlementId) {
        LastIsNew(ps);
      }
    }
  }

  lemma LastIsNew(ps: seq<Projection>)
    requires ps != [] && NoDuplicates(Ids(ps))
    ensures Find(ps[..|ps| - 1], ps[|ps| - 1].entitlementId).None?
  {
    var n := |ps| - 1;
    FindFacts(ps[..n], ps[n].entitlementId);
    forall i | 0 <= i < n ensures Ids(ps[..n])[i] != ps[n].entitlementId {
      assert Ids(ps)[i] != Ids(ps)[n];
    }
  }

  lemma ApplyOneLoads(rows: map<RowKey, Row>, origins: map<SourceRef, Origin>, scope: Scope, p: Projection)
    requires RowsLoad(rows, origins) && RefOf(p) in origins
    ensures RowsLoad(ApplyOne(rows, scope, p), origins)
  {
    SourceRefStable(p, scope);
  }

  /** A whole refresh of writable projections goes through and reports how many
      rows changed. */
  lemma {:induction false} WriteAllEffect(t: Tables, origins: map<SourceRef, Origin>, scope: Scope, ps: seq<Projection>)
    requires Writable(origins, scope, ps) && RowsLoad(t.rows, origins)
    ensures WriteAll(t, origins, scope, ps).Ok?
    ensures WriteAll(t, origins, scope, ps).value.0.rows == ApplyRows(t.rows, scope, ps)
    ensures RowsLoad(ApplyRows(t.rows, scope, ps), origins)
    ensures WriteAll(t, origins, scope, ps).value.1 ==
      Counts(ChangedCount(t.rows, scope, ps), if scope.enqueue then ChangedCount(t.rows, scope, ps) else 0)
  {
    if ps != [] {
      var n := |ps| - 1;
      PrefixWritable(origins, scope, ps);
      WriteAllEffect(t, origins, scope, ps[..n]);
      var mid := WriteAll(t, origins, scope, ps[..n]).value;
      WriteOneEffect(mid.0, origins, scope, mid.1, ps[n]);
      ApplyOneLoads(mid.0.rows, origins, scope, ps[n]);
      ApplyRowsAt(t.rows, scope, ps[..n], RowKey(scope.customerId, ps[n].entitlementId));
    }
  }

  lemma {:induction false} WriteAllNotAhead(t: Tables, origins: map<SourceRef, Origin>, scope: Scope,
                                            ps: seq<Projection>)
    requires Writable(origins, scope, ps) && RowsLoad(t.rows, origins) && NotAhead(t)
    ensures WriteAll(t, origins, scope, ps).Ok? && NotAhead(WriteAll(t, origins, scope, ps).value.0)
  {
    WriteAllEffect(t, origins, scope, ps);
    if ps != [] {
      PrefixWritable(origins, scope, ps);
      WriteAllEffect(t, origins, scope, ps[..|ps| - 1]);
      WriteAllNotAhead(t, origins, scope, ps[..|ps| - 1]);
      var mid := WriteAll(t, origins, scope, ps[..|ps| - 1]).value;
      OneEvent(mid.0, origins, scope, mid.1, ps[|ps| - 1]);
    }
  }

  lemma EventsAfterOthers(t: Tables, origins: map<SourceRef, Origin>, scope: Scope, ps: seq<Projection>, key: RowKey)
    requires ps != [] && key != RowKey(scope.customerId, ps[|ps| - 1].entitlementId)
    ensures EventsAfter(t, origins, scope, ps, key) == EventsAfter(t, origins, scope, ps[..|ps| - 1], key)
  {
    FindInPrefix(ps, key.entitlementId);
  }

  lemma EventsAfterLast(t: Tables, origins: map<SourceRef, Origin>, scope: Scope, ps: seq<Projection>)
    requires ps != [] && Find(ps[..|ps| - 1], ps[|ps| - 1].entitlementId).None?
    ensures var key := RowKey(scope.customerId, ps[|ps| - 1].entitlementId);
      var q := StoredAs(ps[|ps| - 1], scope);
      && EventsAfter(t, origins, scope, ps[..|ps| - 1], key) == EventsFor(t.outbox, key)
      && (scope.enqueue && Changes(t.rows, key, q) && RefOf(q) in origins ==>
           EventsAfter(t, origins, scope, ps, key)
           == EventsFor(t.outbox, key) + [EventOf(Load(origins, WrittenRow(t.rows, key, q)), scope.occurredAt)])
      && (!(scope.enqueue && Changes(t.rows, key, q)) ==> EventsAfter(t, origins, scope, ps, key) == EventsFor(t.outbox, key))
  {
    FindInPrefix(ps, ps[|ps| - 1].entitlementId);
  }

  /** A whole refresh appends exactly one event per changed row. */
  lemma {:induction false} WriteAllEvents(t: Tables, origins: map<SourceRef, Origin>, scope: Scope,
                                          ps: seq<Projection>, key: RowKey)
    requires Writable(origins, scope, ps) && RowsLoad(t.rows, origins) && NotAhead(t)
    ensures WriteAll(t, origins, scope, ps).Ok?
    ensures EventsFor(WriteAll(t, origins, scope, ps).value.0.outbox, key) == EventsAfter(t, origins, scope, ps, key)
  {
    WriteAllEffect(t, origins, scope, ps);
    if ps != [] {
      var n := |ps| - 1;
      PrefixWritable(origins, scope, ps);
      WriteAllEffect(t, origins, scope, ps[..n]);
      WriteAllNotAhead(t, origins, scope, ps[..n]);
      WriteAllEvents(t, origins, scope, ps[..n], key);
      var mid := WriteAll(t, origins, scope, ps[..n]).value;
      EventStep(t, mid.0, mid.1, origins, scope, ps, key);
    }
  }

  lemma EventStep(t: Tables, mid: Tables, counts: Counts, origins: map<SourceRef, Origin>, scope: Scope,
                  ps: seq<Projection>, key: RowKey)
    requires ps != [] && NoDuplicates(Ids(ps))
    requires StoredAs(ps[|ps| - 1], scope).Valid() && RefOf(ps[|ps| - 1]) in origins
    requires RowsLoad(mid.rows, origins) && NotAhead(mid)
    requires mid.rows == ApplyRows(t.rows, scope, ps[..|ps| - 1])
    requires EventsFor(mid.outbox, key) == EventsAfter(t, origins, scope, ps[..|ps| - 1], key)
    ensures WriteOne(mid, origins, scope, counts, ps[|ps| - 1]).Ok?
    ensures EventsFor(WriteOne(mid, origins, scope, counts, ps[|ps| - 1]).value.0.outbox, key) == EventsAfter(t, origins, scope, ps, key)
  {
    var n := |ps| - 1;
    var last := RowKey(scope.customerId, ps[n].entitlementId);
    OneEvent(mid, origins, scope, counts, ps[n]);
    if key == last {
      LastIsNew(ps);
      assert Ids(ps[..n]) == Ids(ps)[..n];
      ApplyRowsAt(t.rows, scope, ps[..n], last);
      EventsAfterLast(t, origins, scope, ps);
      LastWritten(t.rows, mid, counts, origins, scope, ps[n]);
    } else {
      EventsAfterOthers(t, origins, scope, ps, key);
    }
  }

  lemma LastWritten(rows: map<RowKey, Row>, mid: Tables, counts: Counts, origins: map<SourceRef, Origin>,
                    scope: Scope, p: Projection)
    requires StoredAs(p, scope).Valid() && RefOf(p) in origins && RowsLoad(mid.rows, origins)
    requires RowAt(mid.rows, RowKey(scope.customerId, p.entitlementId)) == RowAt(rows, RowKey(scope.customerId, p.entitlementId))
    ensures var key, q := RowKey(scope.customerId, p.entitlementId), StoredAs(p, scope);
      && WriteOne(mid, origins, scope, counts, p).Ok? && RefOf(q) in origins
      && RowAt(WriteOne(mid, origins, scope, counts, p).value.0.rows, key) == Some(WrittenRow(rows, key, q))
      && Changes(mid.rows, key, q) == Changes(rows, key, q)
  {
    WriteOneEffect(mid, origins, scope, counts, p);
    SourceRefStable(p, scope);
  }

  function EventsAfter(t: Tables, origins: map<SourceRef, Origin>, scope: Scope, ps: seq<Projection>,
                       key: RowKey): seq<Event> {
    if Emits(t.rows, scope, ps, key) then
      var row := RowAfter(t.rows, scope, ps, key).value;
      if RefOf(row.projection) in origins
      then EventsFor(t.outbox, key) + [EventOf(Load(origins, row), scope.occurredAt)]
      else EventsFor(t.outbox, key)
    else EventsFor(t.outbox, key)
  }

  lemma OneEvent(t: Tables, origins: map<SourceRef, Origin>, scope: Scope, counts: Counts, p: Projection)
    requires StoredAs(p, scope).Valid() && RefOf(p) in origins && RowsLoad(t.rows, origins) && NotAhead(t)
    ensures WriteOne(t, origins, scope, counts, p).Ok?
    ensures var (t', _) := WriteOne(t, origins, scope, counts, p).value;
      var key := RowKey(scope.customerId, p.entitlementId);
      && NotAhead(t') && key in t'.rows && RefOf(t'.rows[key].projection) in origins
      && (forall k | k != key :: EventsFor(t'.outbox, k) == EventsFor(t.outbox, k))
      && EventsFor(t'.outbox, key) ==
         if scope.enqueue && Changes(t.rows, key, StoredAs(p, scope))
         then EventsFor(t.outbox, key) + [EventOf(Load(origins, t'.rows[key]), scope.occurredAt)]
         else EventsFor(t.outbox, key)
  {
    WriteOneEffect(t, origins, scope, counts, p);
    SourceRefStable(p, scope);
    var key := RowKey(scope.customerId, p.entitlementId);
    var (t', _) := WriteOne(t, origins, scope, counts, p).value;
    if scope.enqueue && Changes(t.rows, key, StoredAs(p, scope)) {
      var event := EventOf(Load(origins, t'.rows[key]), scope.occurredAt);
      forall queued | queued in t.outbox ensures queued != event {
        assert EventBehind(t.rows, queued);
      }
      assert t'.outbox == t.outbox + [event];
      assert t'.outbox[..|t.outbox|] == t.outbox;
    }
    forall event | event in t'.outbox ensures EventBehind(t'.rows, event) {
      if event in t.outbox { assert EventBehind(t.rows, event); }
    }
  }

  // ------------------------------------------------------------ what a put does

  /** A put is refused for an invalid projection, for a stored row whose record is gone, or
      for a new record that is not stored; it changes the row exactly when there is none or
      some persisted field differs, and counts the versions from one. */
  lemma PutOutcomes(rows: map<RowKey, Row>, origins: map<SourceRef, Origin>, p: Projection)
    ensures var q := p.Normalized(); var key := RowKey(p.customerId, p.entitlementId); var r := Put(rows, origins, p);
      var lost := key in rows && RefOf(rows[key].projection) !in origins;
      var differs := key !in rows || rows[key].projection.Normalized() != q;
      && (r == Err(InvalidProjection) <==> !q.Valid())
      && (r == Err(NotFound) <==> q.Valid() && lost)
      && (r == Err(Conflict) <==> q.Valid() && !lost && differs && RefOf(q) !in origins)
      && (r.Err? ==> r.error in {InvalidProjection, NotFound, Conflict})
      && (r.Ok? ==>
            && (r.value.1.changed <==> differs)
            && r.value.0 == (if !differs then rows
                             else rows[key := Row(q, if key in rows then rows[key].version + 1 else 1)])
            && r.value.1.entitlement == Load(origins, r.value.0[key]))
  {
    hide Projection.Valid;
  }
}
