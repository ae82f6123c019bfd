/** The invariant of every run, and what it makes of the stored rows and events. */
module RefreshTheorems {
  import opened Text
  import opened Entitlements
  import opened Projector
  import opened ProjectorLaws
  import opened Refresh
  import opened RefreshRuns

  function Loaded(w: World, key: RowKey): Option<CurrentEntitlement> {
    if key in w.tables.rows && RefOf(w.tables.rows[key].projection) in w.origins
    then Some(Load(w.origins, w.tables.rows[key])) else None
  }

  lemma SourcesAreOk(projectId: string, w: World, customer: string)
    requires Inv(projectId, w)
    ensures SourcesOk(w.origins, SourcesOf(w, customer))
  {
  }

  lemma {:induction false} DistinctRowsAreAccepted(current: seq<CurrentEntitlement>)
    requires forall r | r in current :: r.projection.Valid() && ValidIdentifier(r.applicationId)
    requires forall i, j | 0 <= i < j < |current| :: current[i].projection.entitlementId != current[j].projection.entitlementId
    ensures CurrentError(current).None?
  {
    if current != [] {
      var n := |current| - 1;
      DistinctRowsAreAccepted(current[..n]);
      CurrentRows(current[..n]);
      assert current[n] in current;
      forall r | r in current[..n] ensures r.projection.entitlementId != current[n].projection.entitlementId {
        var i :| 0 <= i < n && current[..n][i] == r;
        assert current[i] == r;
      }
    }
  }

  /** The snapshot a refresh reads is the stored rows themselves. */
  lemma SnapshotIsTheRows(projectId: string, w: World, customer: string, current: seq<CurrentEntitlement>)
    requires Inv(projectId, w) && Lists(w.tables.rows, w.origins, customer, current)
    ensures CurrentError(current).None?
    ensures forall e :: CurrentOf(current, e) == Loaded(w, RowKey(customer, e))
  {
    forall r | r in current ensures r.projection.Valid() && ValidIdentifier(r.applicationId) {
      var e :| ListsRow(w.tables.rows, w.origins, customer, e, r);
      assert RowOk(projectId, w, RowKey(customer, e));
    }
    DistinctRowsAreAccepted(current);
    CurrentRows(current);
    forall e ensures CurrentOf(current, e) == Loaded(w, RowKey(customer, e)) {
      SnapshotAt(projectId, w, customer, current, e);
    }
  }

  lemma SnapshotAt(projectId: string, w: World, customer: string, current: seq<CurrentEntitlement>, e: string)
    requires Inv(projectId, w) && Lists(w.tables.rows, w.origins, customer, current)
    ensures CurrentOf(current, e) == Loaded(w, RowKey(customer, e))
  {
    CurrentRows(current);
    var key := RowKey(customer, e);
    if key in w.tables.rows {
      assert RowOk(projectId, w, key);
      var row := Load(w.origins, w.tables.rows[key]);
      assert row in current;
    }
    if e in CurrentBy(current) {
      var r := CurrentBy(current)[e];
      var e' :| ListsRow(w.tables.rows, w.origins, customer, e', r);
      assert RowOk(projectId, w, RowKey(customer, e'));
    }
  }

  /** Because source keys persist and say their kind, no stored row is ever kept
      without being reported. */
  lemma RowsAreReported(projectId: string, w: World, key: RowKey)
    requires Inv(projectId, w) && key in w.tables.rows
    ensures RefOf(w.tables.rows[key].projection) in w.origins
    ensures var cs, row := SourcesOf(w, key.customerId), Load(w.origins, w.tables.rows[key]);
      key.entitlementId in GroupsOf(cs) && Reported(row, GroupsOf(cs)[key.entitlementId], StoreProducts(cs))
  {
    assert RowOk(projectId, w, key);
    var cs, row, e := SourcesOf(w, key.customerId), Load(w.origins, w.tables.rows[key]), key.entitlementId;
    SourcesAreOk(projectId, w, key.customerId);
    GroupedIsLatest(cs, StoreProducts(cs));
    var c :| c in cs && c.projection.entitlementId == e && c.Source() == row.Source();
    assert c.projection.IsImport() <==> row.projection.IsImport();
    if Superseded(c, StoreProducts(cs)) {
      InStoreProducts(cs, c.Product());
      var s :| s in cs && s.projection.IsStore() && s.Product() == c.Product();
      assert Unbeaten(GroupsOf(cs), s);
    } else {
      assert Unbeaten(GroupsOf(cs), c);
    }
  }

  lemma ProjectedFromSources(current: seq<CurrentEntitlement>, cs: seq<Candidate>, ps: seq<Projection>,
                             p: Projection) returns (c: Candidate)
    requires Projects(current, cs, ps) && p in ps
    ensures Find(ps, p.entitlementId) == Some(p) && p.entitlementId in GroupsOf(cs)
    ensures c in cs && c.projection == p
  {
    SortedHasNoDuplicates(Ids(ps));
    var i :| 0 <= i < |ps| && ps[i] == p;
    FindAt(ps, i);
    assert DecidesFor(current, cs, p.entitlementId, Find(ps, p.entitlementId));
    var best, chosen := Selected(current, cs, ps, p.entitlementId);
    c := chosen;
    var k :| k in GroupsOf(cs)[p.entitlementId] && GroupsOf(cs)[p.entitlementId][k] == c;
    GroupMember(cs, p.entitlementId, k);
  }

  lemma ProjectionsAreWritable(origins: map<SourceRef, Origin>, scope: Scope, current: seq<CurrentEntitlement>,
                               cs: seq<Candidate>, ps: seq<Projection>)
    requires ValidIdentifier(scope.projectId) && ValidIdentifier(scope.customerId)
    requires SourcesOk(origins, cs) && Projects(current, cs, ps)
    ensures Writable(origins, scope, ps)
  {
    SortedHasNoDuplicates(Ids(ps));
    forall p | p in ps ensures StoredAs(p, scope).Valid() && RefOf(p) in origins {
      var c := ProjectedFromSources(current, cs, ps, p);
      StoredIsValid(c, scope);
    }
  }

  lemma StoredIsValid(c: Candidate, scope: Scope)
    requires ValidIdentifier(scope.projectId) && ValidIdentifier(scope.customerId) && c.Valid()
    ensures StoredAs(c.projection, scope).Valid()
  {
  }

  /** One refresh that read `current`, projected `ps` and committed them all. */
  ghost predicate Committed(w: World, scope: Scope, current: seq<CurrentEntitlement>, ps: seq<Projection>, t: Tables,
                            counts: Counts) {
    && InputError(current, SourcesOf(w, scope.customerId)).None?
    && Projects(current, SourcesOf(w, scope.customerId), ps)
    && Writable(w.origins, scope, ps) && RowsLoad(w.tables.rows, w.origins)
    && WriteAll(w.tables, w.origins, scope, ps) == Ok((t, counts))
    && forall e :: CurrentOf(current, e) == Loaded(w, RowKey(scope.customerId, e))
  }

  lemma RefreshDetail(projectId: string, w: World, scope: Scope, t: Tables, r: Result<Counts, StoreError>)
    returns (current: seq<CurrentEntitlement>, ps: seq<Projection>)
    requires ValidIdentifier(projectId) && ValidIdentifier(scope.customerId) && scope.projectId == projectId
    requires Inv(projectId, w)
    requires Refreshed(w.tables, w.origins, scope, SourcesOf(w, scope.customerId), t, r)
    ensures r.Ok? && Committed(w, scope, current, ps, t, r.value)
  {
    var cs := SourcesOf(w, scope.customerId);
    current :| Lists(w.tables.rows, w.origins, scope.customerId, current) && RefreshedFrom(w.tables, w.origins, scope, cs, current, t, r);
    SnapshotIsTheRows(projectId, w, scope.customerId, current);
    SourcesAreOk(projectId, w, scope.customerId);
    CandidatesAccepted(cs);
    ps :| Projects(current, cs, ps) && Commits(w.tables, WriteAll(w.tables, w.origins, scope, ps), t, r);
    ProjectionsAreWritable(w.origins, scope, current, cs, ps);
    RowsAlwaysLoad(projectId, w);
    WriteAllEffect(w.tables, w.origins, scope, ps);
  }

  lemma RowsAlwaysLoad(projectId: string, w: World)
    requires Inv(projectId, w)
    ensures RowsLoad(w.tables.rows, w.origins)
  {
    forall key | key in w.tables.rows ensures RefOf(w.tables.rows[key].projection) in w.origins {
      assert RowOk(projectId, w, key);
    }
  }

  /** One refresh step inside a run. */
  lemma RefreshStep(projectId: string, w: World, scope: Scope, w': World)
    returns (current: seq<CurrentEntitlement>, ps: seq<Projection>, counts: Counts)
    requires ValidIdentifier(projectId) && scope.projectId == projectId && Inv(projectId, w)
    requires Steps(projectId, w, RefreshNow(scope.customerId, scope.occurredAt, scope.enqueue), w')
    ensures Committed(w, scope, current, ps, w'.tables, counts)
  {
    var r :| Refreshed(w.tables, w.origins, scope, SourcesOf(w, scope.customerId), w'.tables, r);
    current, ps := RefreshDetail(projectId, w, scope, w'.tables, r);
    counts := r.value;
  }

  /** Every row of the customer is decided again by each refresh. */
  lemma EveryGroupIsWritten(projectId: string, w: World, scope: Scope, current: seq<CurrentEntitlement>,
                            ps: seq<Projection>, e: string)
    requires Inv(projectId, w)
    requires Projects(current, SourcesOf(w, scope.customerId), ps)
    requires CurrentOf(current, e) == Loaded(w, RowKey(scope.customerId, e))
    ensures e in GroupsOf(SourcesOf(w, scope.customerId)) <==> Find(ps, e).Some?
    ensures RowKey(scope.customerId, e) in w.tables.rows ==> e in GroupsOf(SourcesOf(w, scope.customerId))
  {
    var key := RowKey(scope.customerId, e);
    assert DecidesFor(current, SourcesOf(w, scope.customerId), e, Find(ps, e));
    if key in w.tables.rows {
      RowsAreReported(projectId, w, key);
    }
    if e in GroupsOf(SourcesOf(w, scope.customerId)) {
      var best, c := Selected(current, SourcesOf(w, scope.customerId), ps, e);
    }
  }

  // -------------------------------------------------------------- invariant

  lemma WrittenRowIsOk(projectId: string, w: World, scope: Scope, c: Candidate)
    requires scope.projectId == projectId && ValidIdentifier(projectId) && ValidIdentifier(scope.customerId)
    requires c in SourcesOf(w, scope.customerId) && SourcesOk(w.origins, SourcesOf(w, scope.customerId))
    requires var key := RowKey(scope.customerId, c.projection.entitlementId); key in w.tables.rows ==> RowOk(projectId, w, key)
    ensures var key := RowKey(scope.customerId, c.projection.entitlementId);
      var row := WrittenRow(w.tables.rows, key, StoredAs(c.projection, scope));
      && row.projection == StoredAs(c.projection, scope) && row.version >= 1
      && RefOf(row.projection) in w.origins && Load(w.origins, row).Source() == c.Source()
      && RowOk(projectId, World(w.origins, Tables(map[key := row], []), w.sources), key)
  {
    SourceRefStable(c.projection, scope);
    StoredIsValid(c, scope);
    var key := RowKey(scope.customerId, c.projection.entitlementId);
    assert HasSource(SourcesOf(w, key.customerId), key.entitlementId, c.Source());
  }

  lemma RefreshKeepsInv(projectId: string, w: World, scope: Scope, w': World)
    requires ValidIdentifier(projectId) && scope.projectId == projectId && Inv(projectId, w)
    requires Steps(projectId, w, RefreshNow(scope.customerId, scope.occurredAt, scope.enqueue), w')
    ensures Inv(projectId, w')
  {
    var current, ps, counts := RefreshStep(projectId, w, scope, w');
    forall key | key in w'.tables.rows ensures RowOk(projectId, w', key) {
      RefreshKeepsRow(projectId, w, scope, current, ps, w', counts, key);
    }
  }

  lemma RefreshKeepsRow(projectId: string, w: World, scope: Scope, current: seq<CurrentEntitlement>,
                        ps: seq<Projection>,
                        w': World, counts: Counts, key: RowKey)
    requires ValidIdentifier(projectId) && ValidIdentifier(scope.customerId) && scope.projectId == projectId
    requires Inv(projectId, w)
    requires Committed(w, scope, current, ps, w'.tables, counts) && w'.origins == w.origins && w'.sources == w.sources
    requires key in w'.tables.rows
    ensures RowOk(projectId, w', key)
  {
    hide ValidIdentifier, Projection.Valid, StoredAs, WrittenRow, InputError;
    WriteAllEffect(w.tables, w.origins, scope, ps);
    SourcesAreOk(projectId, w, scope.customerId);
    ApplyRowsAt(w.tables.rows, scope, ps, key);
    if key.customerId == scope.customerId && Find(ps, key.entitlementId).Some? {
      FindFacts(ps, key.entitlementId);
      var c := ProjectedFromSources(current, SourcesOf(w, scope.customerId), ps, Find(ps, key.entitlementId).value);
      WrittenRowIsOk(projectId, w, scope, c);
    } else {
      assert RowOk(projectId, w, key);
    }
  }

  lemma ObserveKeepsInv(projectId: string, w: World, customer: string, found: seq<Candidate>, w': World)
    requires Inv(projectId, w) && Steps(projectId, w, Observe(customer, found), w')
    ensures Inv(projectId, w')
  {
    hide ValidIdentifier, Projection.Valid, SourcesOk;
    forall key | key in w'.tables.rows ensures RowOk(projectId, w', key) {
      assert RowOk(projectId, w, key);
      if key.customerId == customer {
        var row := Load(w.origins, w.tables.rows[key]);
        var c :| c in SourcesOf(w, customer) && c.projection.entitlementId == key.entitlementId && c.Source() == row.Source();
        assert HasSource(found, c.projection.entitlementId, c.Source());
      }
    }
  }

  lemma {:induction false} InvHolds(projectId: string, ws: seq<World>, ls: seq<Label>, i: nat)
    requires IsRun(projectId, ws, ls) && i < |ws|
    ensures Inv(projectId, ws[i])
  {
    if i > 0 {
      InvHolds(projectId, ws, ls, i - 1);
      match ls[i - 1]
      case Observe(customer, found) => ObserveKeepsInv(projectId, ws[i - 1], customer, found, ws[i]);
      case RefreshNow(customer, t, enqueue) => RefreshKeepsInv(projectId, ws[i - 1], Scope(projectId, customer, t, enqueue), ws[i]);
    }
  }

  // --------------------------------------------------------------- theorems

  ghost predicate RefreshAt(ls: seq<Label>, i: nat, scope: Scope) {
    i < |ls| && ls[i] == RefreshNow(scope.customerId, scope.occurredAt, scope.enqueue)
  }

  /** No refresh in any run fails. */
  lemma RefreshAlwaysSucceeds(projectId: string, ws: seq<World>, ls: seq<Label>, i: nat, scope: Scope,
                              r: Result<Counts, StoreError>)
    requires IsRun(projectId, ws, ls) && scope.projectId == projectId && RefreshAt(ls, i, scope)
    requires Refreshed(ws[i].tables, ws[i].origins, scope, SourcesOf(ws[i], scope.customerId), ws[i + 1].tables, r)
    ensures r.Ok?
  {
    InvHolds(projectId, ws, ls, i);
    assert Steps(projectId, ws[i], ls[i], ws[i + 1]);
    var current, ps := RefreshDetail(projectId, ws[i], scope, ws[i + 1].tables, r);
  }

  /** Right after a refresh, whatever the history, the customer has a row for
      exactly the entitlements a projection from nothing selects, and each row
      has that projection's access, kind, and allowed end. */
  lemma PathIndependence(projectId: string, ws: seq<World>, ls: seq<Label>, i: nat, scope: Scope,
                         scratch: seq<Projection>, e: string)
    requires IsRun(projectId, ws, ls) && scope.projectId == projectId && RefreshAt(ls, i, scope)
    requires Projects([], SourcesOf(ws[i], scope.customerId), scratch)
    ensures var key := RowKey(scope.customerId, e);
      && (key in ws[i + 1].tables.rows <==> Find(scratch, e).Some?)
      && (key in ws[i + 1].tables.rows && Find(scratch, e).Some? ==>
           SameDecision(ws[i + 1].tables.rows[key].projection, Find(scratch, e).value))
  {
    InvHolds(projectId, ws, ls, i);
    var w, cs, key := ws[i], SourcesOf(ws[i], scope.customerId), RowKey(scope.customerId, e);
    assert Steps(projectId, ws[i], ls[i], ws[i + 1]);
    var current, ps, counts := RefreshStep(projectId, w, scope, ws[i + 1]);
    WriteAllEffect(w.tables, w.origins, scope, ps);
    ApplyRowsAt(w.tables.rows, scope, ps, key);
    SourcesAreOk(projectId, w, scope.customerId);
    EveryGroupIsWritten(projectId, w, scope, current, ps, e);
    assert DecidesFor([], cs, e, Find(scratch, e));
    if e in GroupsOf(cs) {
      if key in w.tables.rows {
        assert RowOk(projectId, w, key);
        RowsAreReported(projectId, w, key);
      }
      DecidedAsFromScratch(current, cs, ps, scratch, e);
      FindFacts(ps, e);
      SourceRefStable(Find(ps, e).value, scope);
      StoredProjection(projectId, w, scope, Find(ps, e).value);
    }
  }

  lemma StoredProjection(projectId: string, w: World, scope: Scope, p: Projection)
    requires Inv(projectId, w)
    ensures WrittenRow(w.tables.rows, RowKey(scope.customerId, p.entitlementId), StoredAs(p, scope)).projection == StoredAs(p, scope)
  {
    var key := RowKey(scope.customerId, p.entitlementId);
    if key in w.tables.rows {
      assert RowOk(projectId, w, key);
    }
    SourceRefStable(p, scope);
  }

  /** A row that cites `c` keeps citing it while `c` decides like the best source. */
  lemma SticksTo(sources: Sources, stores: set<ProductKey>, row: CurrentEntitlement, best: Candidate, c: Candidate)
    requires Grouping(sources) && c in sources.Values && best in sources.Values
    requires SameDecision(c.projection, best.projection)
    requires row.Source() == c.Source() && row.projection.IsImport() == c.projection.IsImport()
    ensures Stick(Some(row), sources, best) == c && !Skips(Some(row), sources, stores, c)
  {
    var k :| k in sources && sources[k] == c;
    assert k == c.Source();
  }

  /** A second refresh over the same sources changes no row, no version and no
      event, and counts nothing. */
  lemma RefreshIsIdempotent(projectId: string, ws: seq<World>, ls: seq<Label>, i: nat, scope: Scope, again: Scope,
                            t: Tables, r: Result<Counts, StoreError>)
    requires IsRun(projectId, ws, ls) && scope.projectId == again.projectId == projectId && RefreshAt(ls, i, scope)
    requires again.customerId == scope.customerId
    requires Refreshed(ws[i + 1].tables, ws[i + 1].origins, again, SourcesOf(ws[i + 1], scope.customerId), t, r)
    ensures t == ws[i + 1].tables && r == Ok(Counts(0, 0))
  {
    InvHolds(projectId, ws, ls, i);
    InvHolds(projectId, ws, ls, i + 1);
    assert Steps(projectId, ws[i], ls[i], ws[i + 1]);
    var w, w' := ws[i], ws[i + 1];
    var current, ps, counts := RefreshStep(projectId, w, scope, w');
    var current', ps' := RefreshDetail(projectId, w', again, t, r);
    forall p: Projection | p in ps' ensures !Changes(w'.tables.rows, RowKey(again.customerId, p.entitlementId), StoredAs(p, again)) {
      var _ := ProjectedFromSources(current', SourcesOf(w, scope.customerId), ps', p);
      RepeatedDecision(projectId, w, scope, counts, w', current, ps, current', ps', p.entitlementId);
    }
    NothingToWrite(w'.tables, w'.origins, again, ps');
  }

  /** What one refresh selects for one entitlement, and the row it leaves. */
  lemma RefreshedRow(projectId: string, w: World, scope: Scope, current: seq<CurrentEntitlement>, ps: seq<Projection>,
                     t: Tables, counts: Counts, e: string) returns (best: Candidate, c: Candidate)
    requires ValidIdentifier(projectId) && ValidIdentifier(scope.customerId) && scope.projectId == projectId
    requires Inv(projectId, w)
    requires Committed(w, scope, current, ps, t, counts)
    requires e in GroupsOf(SourcesOf(w, scope.customerId))
    ensures var sources := GroupsOf(SourcesOf(w, scope.customerId))[e];
      && Grouping(sources) && IsBest(sources, best) && c in sources.Values && SameDecision(c.projection, best.projection)
    ensures Find(ps, e) == Some(c.projection) && c.projection.entitlementId == e
    ensures var key := RowKey(scope.customerId, e);
      && key in t.rows && t.rows[key].projection == StoredAs(c.projection, scope)
      && RefOf(t.rows[key].projection) in w.origins && Load(w.origins, t.rows[key]).Source() == c.Source()
  {
    var cs, key := SourcesOf(w, scope.customerId), RowKey(scope.customerId, e);
    SourcesAreOk(projectId, w, scope.customerId);
    EveryGroupIsWritten(projectId, w, scope, current, ps, e);
    best, c := Selected(current, cs, ps, e);
    GroupsAreGroupings(current, cs, e);
    if key in w.tables.rows {
      assert RowOk(projectId, w, key);
    }
    StickKeepsDecision(GroupsOf(cs)[e], CurrentOf(current, e), best);
    WriteAllEffect(w.tables, w.origins, scope, ps);
    ApplyRowsAt(w.tables.rows, scope, ps, key);
    var k :| k in GroupsOf(cs)[e] && GroupsOf(cs)[e][k] == c;
    GroupMember(cs, e, k);
    WrittenRowIsOk(projectId, w, scope, c);
  }

  lemma RepeatedDecision(projectId: string, w: World, scope: Scope, counts: Counts, w': World,
                         current: seq<CurrentEntitlement>, ps: seq<Projection>,
                         current': seq<CurrentEntitlement>, ps': seq<Projection>, e: string)
    requires ValidIdentifier(projectId) && ValidIdentifier(scope.customerId) && scope.projectId == projectId
    requires Inv(projectId, w)
    requires Committed(w, scope, current, ps, w'.tables, counts) && w'.origins == w.origins
    requires CurrentOf(current', e) == Loaded(w', RowKey(scope.customerId, e))
    requires Projects(current', SourcesOf(w, scope.customerId), ps')
    requires e in GroupsOf(SourcesOf(w, scope.customerId))
    ensures Find(ps', e).Some?
    ensures !Changes(w'.tables.rows, RowKey(scope.customerId, e), StoredAs(Find(ps', e).value, scope))
  {
    var cs := SourcesOf(w, scope.customerId);
    SourcesAreOk(projectId, w, scope.customerId);
    var best, c := RefreshedRow(projectId, w, scope, current, ps, w'.tables, counts, e);
    var best', c' := Selected(current', cs, ps', e);
    BestIsUnique(cs, e, best, best');
    SourceRefStable(c.projection, scope);
    SticksTo(GroupsOf(cs)[e], StoreProducts(cs), CurrentOf(current', e).value, best, c);
  }

  /** Right after a refresh a stored row is allowed at an instant exactly when
      some source of its kind still in force is. */
  lemma RowsFollowTheirSources(projectId: string, ws: seq<World>, ls: seq<Label>, i: nat, scope: Scope, e: string,
                               now: Time)
    requires IsRun(projectId, ws, ls) && scope.projectId == projectId && RefreshAt(ls, i, scope)
    requires RowKey(scope.customerId, e) in ws[i + 1].tables.rows
    ensures var cs, p := SourcesOf(ws[i], scope.customerId), ws[i + 1].tables.rows[RowKey(scope.customerId, e)].projection;
      && e in GroupsOf(cs)
      && (AllowedAt(p, now) <==>
           exists k :: (k in GroupsOf(cs)[e] && GroupsOf(cs)[e][k].projection.IsImport() == p.IsImport()
             && AllowedAt(GroupsOf(cs)[e][k].projection, now)))
  {
    InvHolds(projectId, ws, ls, i);
    InvHolds(projectId, ws, ls, i + 1);
    assert Steps(projectId, ws[i], ls[i], ws[i + 1]);
    RowsAreReported(projectId, ws[i + 1], RowKey(scope.customerId, e));
    var current, ps, counts := RefreshStep(projectId, ws[i], scope, ws[i + 1]);
    var best, c := RefreshedRow(projectId, ws[i], scope, current, ps, ws[i + 1].tables, counts, e);
    SourceRefStable(c.projection, scope);
    var sources := GroupsOf(SourcesOf(ws[i], scope.customerId))[e];
    var k :| k in sources && sources[k] == c;
    if j :| j in sources && sources[j].projection.IsImport() == c.projection.IsImport() && AllowedAt(sources[j].projection, now) {
      BestLastsLongest(sources, best, c.projection, j, now);
    }
  }

  /** Right after a refresh a stored row is one of the sources as it is written for the
      customer, and decides like one that ranks first. */
  lemma RowCitesASource(projectId: string, ws: seq<World>, ls: seq<Label>, i: nat, scope: Scope, e: string)
      returns (best: Candidate, c: Candidate)
    requires IsRun(projectId, ws, ls) && scope.projectId == projectId && RefreshAt(ls, i, scope)
    requires RowKey(scope.customerId, e) in ws[i + 1].tables.rows
    ensures var cs := SourcesOf(ws[i], scope.customerId);
      && e in GroupsOf(cs) && IsBest(GroupsOf(cs)[e], best) && c in GroupsOf(cs)[e].Values
      && SameDecision(c.projection, best.projection)
      && ws[i + 1].tables.rows[RowKey(scope.customerId, e)].projection == StoredAs(c.projection, scope)
  {
    InvHolds(projectId, ws, ls, i);
    InvHolds(projectId, ws, ls, i + 1);
    assert Steps(projectId, ws[i], ls[i], ws[i + 1]);
    RowsAreReported(projectId, ws[i + 1], RowKey(scope.customerId, e));
    var current, ps, counts := RefreshStep(projectId, ws[i], scope, ws[i + 1]);
    best, c := RefreshedRow(projectId, ws[i], scope, current, ps, ws[i + 1].tables, counts, e);
  }

  lemma {:induction false} NothingToWrite(t: Tables, origins: map<SourceRef, Origin>, scope: Scope, ps: seq<Projection>)
    requires Writable(origins, scope, ps) && RowsLoad(t.rows, origins)
    requires forall p | p in ps :: !Changes(t.rows, RowKey(scope.customerId, p.entitlementId), StoredAs(p, scope))
    ensures WriteAll(t, origins, scope, ps) == Ok((t, Counts(0, 0)))
  {
    if ps != [] {
      var n := |ps| - 1;
      PrefixWritable(origins, scope, ps);
      NothingToWrite(t, origins, scope, ps[..n]);
      assert ps[n] in ps;
      WriteOneEffect(t, origins, scope, Counts(0, 0), ps[n]);
      var key := RowKey(scope.customerId, ps[n].entitlementId);
      assert t.rows[key := t.rows[key]] == t.rows;
    }
  }
}
