/** Histories of identity operations, stored records and refreshes: each is a run of the
    refresh model, so its rows follow the records of the whole closure, before and after
    merges. */
module SourceRuns {
  import opened Text
  import opened Entitlements
  import opened Projector
  import opened ProjectorLaws
  import opened Refresh
  import opened RefreshRuns
  import opened SourceQuery
  import I = Identity
  import IR = IdentityRuns
  import Counting
  import ProjectorRules
  import ProjectorTies
  import RefreshTheorems

  datatype Store = Store(ids: I.Tables, records: set<Candidate>, origins: map<SourceRef, Origin>, tables: Tables)

  const NOTHING := Store(I.EMPTY, {}, map[], Tables(map[], []))

  datatype Act =
    | Identify(op: IR.Op)
    | Learn
    | Recompute(customer: string, occurredAt: Time, enqueue: bool)

  /** The same stored record; its times and access may have been refreshed. */
  predicate SameRecord(a: Candidate, b: Candidate) {
    && SameIdentity(a, b) && SameLineage(a, b)
    && a.projection.projectId == b.projection.projectId && a.projection.customerId == b.projection.customerId
  }

  /** No record is deleted or moved to another lineage or customer. */
  ghost predicate KeepsRecords(before: set<Candidate>, after: set<Candidate>) {
    forall r | r in before :: exists s :: s in after && SameRecord(r, s)
  }

  function Asked(s: Store, projectId: string, customer: string): Query {
    Query(s.records, projectId,
          match I.Closure(s.ids, projectId, customer) case Ok((_, members)) => members case Err(_) => {})
  }

  function CanonicalOf(s: Store, projectId: string, customer: string): string {
    match I.Closure(s.ids, projectId, customer) case Ok((id, _)) => id case Err(_) => customer
  }

  ghost predicate Recomputes(projectId: string, s: Store, scope: Scope, s': Store, out: seq<Candidate>) {
    && I.Closure(s.ids, projectId, scope.customerId).Ok?
    && Answers(Asked(s, projectId, scope.customerId), CanonicalOf(s, projectId, scope.customerId), out)
    && exists r :: Refreshed(s.tables, s.origins, scope, out, s'.tables, r)
  }

  ghost predicate Acts(projectId: string, s: Store, a: Act, s': Store) {
    match a
    case Identify(op) => s' == s.(ids := IR.Apply(s.ids, op))
    case Learn =>
      && s'.ids == s.ids && s'.tables == s.tables && RecordsOk(s'.records) && KeepsRecords(s.records, s'.records)
      && Extends(s.origins, s'.origins) && OriginsAgree(s'.origins, s'.records)
    case Recompute(customer, occurredAt, enqueue) =>
      && s' == s.(tables := s'.tables) && ValidIdentifier(customer)
      && exists out :: Recomputes(projectId, s, Scope(projectId, customer, occurredAt, enqueue), s', out)
  }

  ghost predicate IsHistory(projectId: string, ss: seq<Store>, acts: seq<Act>) {
    && ValidIdentifier(projectId)
    && |ss| == |acts| + 1 && ss[0] == NOTHING
    && forall i | 0 <= i < |acts| :: Acts(projectId, ss[i], acts[i], ss[i + 1])
  }

  // --------------------------------------------------------------- refinement

  ghost predicate Sound(s: Store) {
    IR.Inv(s.ids) && ValidIds(s.ids) && RecordsOk(s.records) && OriginsAgree(s.origins, s.records)
  }

  /** Every source key a customer was last refreshed from still has a record. */
  ghost predicate StillRead(projectId: string, s: Store, w: World) {
    forall customer, c | customer in w.sources && c in w.sources[customer] ::
      HasRecord(Asked(s, projectId, customer), c.projection.entitlementId, c.Source())
  }

  ghost predicate Mirrors(projectId: string, s: Store, ws: seq<World>, ls: seq<Label>) {
    && IsRun(projectId, ws, ls) && |ws| == |ls| + 1
    && ws[|ls|].tables == s.tables && ws[|ls|].origins == s.origins
    && StillRead(projectId, s, ws[|ls|])
  }

  lemma IdentityKeepsIds(s: I.Tables, op: IR.Op)
    requires ValidIds(s)
    ensures ValidIds(IR.Apply(s, op))
  {
    hide ValidIdentifier, I.OwnsAlias, I.OwnsMerge, I.MergeByKey, I.MergeBySource, I.Resolve;
  }

  lemma KeptRecord(before: Query, after: Query, e: string, k: SourceKey)
    requires HasRecord(before, e, k)
    requires KeepsRecords(before.records, after.records)
    requires after.projectId == before.projectId && before.members <= after.members
    ensures HasRecord(after, e, k)
  {
    var r :| before.Reads(r) && r.projection.entitlementId == e && r.Source() == k;
    var s :| s in after.records && SameRecord(r, s);
    assert after.Reads(s);
  }

  lemma IdentityKeepsReads(projectId: string, s: Store, op: IR.Op, w: World)
    requires Sound(s) && StillRead(projectId, s, w)
    ensures Sound(s.(ids := IR.Apply(s.ids, op))) && StillRead(projectId, s.(ids := IR.Apply(s.ids, op)), w)
  {
    hide RecordsOk, OriginsAgree, ValidIds, IR.Inv, HasRecord, I.Closure, IR.Apply;
    var s' := s.(ids := IR.Apply(s.ids, op));
    IdentityKeepsIds(s.ids, op);
    ClosuresGrow(s.ids, op, projectId, "");
    forall customer, c | customer in w.sources && c in w.sources[customer]
      ensures HasRecord(Asked(s', projectId, customer), c.projection.entitlementId, c.Source())
    {
      ClosuresGrow(s.ids, op, projectId, customer);
      RecordsKeepThemselves(s.records);
      KeptRecord(Asked(s, projectId, customer), Asked(s', projectId, customer), c.projection.entitlementId, c.Source());
    }
  }

  lemma RecordsKeepThemselves(records: set<Candidate>)
    ensures KeepsRecords(records, records)
  {
    forall r | r in records ensures exists s :: s in records && SameRecord(r, s) {
      assert SameRecord(r, r);
    }
  }

  lemma LearningKeepsReads(projectId: string, s: Store, s': Store, w: World)
    requires StillRead(projectId, s, w) && s'.ids == s.ids && KeepsRecords(s.records, s'.records)
    ensures StillRead(projectId, s', w)
  {
    hide HasRecord, I.Closure, KeepsRecords;
    forall customer, c | customer in w.sources && c in w.sources[customer]
      ensures HasRecord(Asked(s', projectId, customer), c.projection.entitlementId, c.Source())
    {
      KeptRecord(Asked(s, projectId, customer), Asked(s', projectId, customer), c.projection.entitlementId, c.Source());
    }
  }

  lemma OriginsStayKnown(origins: map<SourceRef, Origin>, later: map<SourceRef, Origin>, cs: seq<Candidate>)
    requires SourcesOk(origins, cs) && Extends(origins, later)
    ensures SourcesOk(later, cs)
  {
    hide DistinctIdentities, LineageKinds, Candidate.Valid;
    forall c | c in cs ensures c.Valid() && OriginKnown(later, c) {
      assert OriginKnown(origins, c);
    }
  }

  lemma SourcesKeepThemselves(cs: seq<Candidate>)
    ensures KeepsSources(cs, cs)
  {
  }

  lemma MoreSteps(projectId: string, ws: seq<World>, ls: seq<Label>, w: World, l: Label)
    requires IsRun(projectId, ws, ls) && Steps(projectId, ws[|ls|], l, w)
    ensures IsRun(projectId, ws + [w], ls + [l])
  {
    hide Steps;
    var ws', ls' := ws + [w], ls + [l];
    forall i | 0 <= i < |ls'| ensures Steps(projectId, ws'[i], ls'[i], ws'[i + 1]) {
      if i < |ls| {
        assert Steps(projectId, ws[i], ls[i], ws[i + 1]);
      }
    }
  }

  /** Learning new records is an observation that leaves every customer's sources. */
  lemma LearnStep(projectId: string, s: Store, s': Store, ws: seq<World>, ls: seq<Label>)
      returns (ws': seq<World>, ls': seq<Label>)
    requires Mirrors(projectId, s, ws, ls) && Acts(projectId, s, Learn, s')
    ensures Mirrors(projectId, s', ws', ls')
  {
    hide SourcesOk, KeepsSources, OriginsAgree, RecordsOk, KeepsRecords, IsRun, HasRecord, Asked;
    var w := ws[|ls|];
    RefreshTheorems.InvHolds(projectId, ws, ls, |ls|);
    var kept := SourcesOf(w, "");
    var w' := World(s'.origins, w.tables, w.sources["" := kept]);
    SourcesKeepThemselves(kept);
    forall c | c in w'.sources ensures SourcesOk(w'.origins, w'.sources[c]) {
      if c in w.sources {
        OriginsStayKnown(w.origins, w'.origins, w.sources[c]);
      } else {
        NoSourcesAreOk(w'.origins);
      }
    }
    ws', ls' := ws + [w'], ls + [Observe("", kept)];
    MoreSteps(projectId, ws, ls, w', Observe("", kept));
    LearningKeepsReads(projectId, s, s', w);
    assert StillRead(projectId, s', w');
  }

  lemma NoSourcesAreOk(origins: map<SourceRef, Origin>)
    ensures SourcesOk(origins, [])
  {
  }

  /** A refresh observes what its query returns and then writes. */
  lemma RecomputeStep(projectId: string, s: Store, scope: Scope, s': Store, out: seq<Candidate>, ws: seq<World>, ls: seq<Label>)
      returns (ws': seq<World>, ls': seq<Label>)
    requires Mirrors(projectId, s, ws, ls) && Sound(s) && ValidIdentifier(scope.customerId) && scope.projectId == projectId
    requires s' == s.(tables := s'.tables) && Recomputes(projectId, s, scope, s', out)
    ensures Mirrors(projectId, s', ws', ls')
    ensures |ls'| == |ls| + 2 && RefreshTheorems.RefreshAt(ls', |ls| + 1, scope)
    ensures SourcesOf(ws'[|ls| + 1], scope.customerId) == out && ws'[|ls| + 1].tables == s.tables
  {
    hide SourcesOk, KeepsSources, OriginsAgree, RecordsOk, IsRun, HasRecord, IR.Inv, ValidIds, Answers, Refreshed, I.Closure,
         ValidIdentifier;
    var w, customer := ws[|ls|], scope.customerId;
    var q, canonical := Asked(s, projectId, customer), CanonicalOf(s, projectId, customer);
    RefreshTheorems.InvHolds(projectId, ws, ls, |ls|);
    ClosureAnswers(s.ids, projectId, customer);
    AnswersAreOk(q, canonical, out, s.origins);
    AnswersKeepSources(q, canonical, SourcesOf(w, customer), out);
    var w1 := w.(sources := w.sources[customer := out]);
    OriginsExtendThemselves(w.origins);
    MoreSteps(projectId, ws, ls, w1, Observe(customer, out));
    var w2 := w1.(tables := s'.tables);
    var refresh := RefreshNow(customer, scope.occurredAt, scope.enqueue);
    assert SourcesOf(w1, customer) == out;
    assert Steps(projectId, w1, refresh, w2);
    MoreSteps(projectId, ws + [w1], ls + [Observe(customer, out)], w2, refresh);
    ws', ls' := ws + [w1] + [w2], ls + [Observe(customer, out)] + [refresh];
    forall c, d | c in w2.sources && d in w2.sources[c]
      ensures HasRecord(Asked(s', projectId, c), d.projection.entitlementId, d.Source())
    {
      if c == customer {
        AnsweredIsRead(q, canonical, out, d);
      }
    }
  }

  lemma OriginsExtendThemselves(origins: map<SourceRef, Origin>)
    ensures Extends(origins, origins)
  {
  }

  lemma AnswersKeepSources(q: Query, canonical: string, before: seq<Candidate>, out: seq<Candidate>)
    requires RecordsOk(q.records) && Answers(q, canonical, out)
    requires forall c | c in before :: HasRecord(q, c.projection.entitlementId, c.Source())
    ensures KeepsSources(before, out)
  {
    hide RecordsOk, Answers, HasRecord, HasSource;
    forall c | c in before ensures HasSource(out, c.projection.entitlementId, c.Source()) {
      KeysOfTheAnswer(q, canonical, out, c.projection.entitlementId, c.Source());
    }
  }

  lemma AnsweredIsRead(q: Query, canonical: string, out: seq<Candidate>, c: Candidate)
    requires RecordsOk(q.records) && Answers(q, canonical, out) && c in out
    ensures HasRecord(q, c.projection.entitlementId, c.Source())
  {
    hide RecordsOk, Answers, HasRecord;
    KeysOfTheAnswer(q, canonical, out, c.projection.entitlementId, c.Source());
    assert HasSource(out, c.projection.entitlementId, c.Source());
  }

  /** Every history is a run of the refresh model over what its queries returned. */
  lemma {:induction false} HistoriesAreRuns(projectId: string, ss: seq<Store>, acts: seq<Act>)
      returns (ws: seq<World>, ls: seq<Label>)
    requires IsHistory(projectId, ss, acts)
    ensures Mirrors(projectId, ss[|acts|], ws, ls) && Sound(ss[|acts|])
    decreases |acts|
  {
    hide Sound, Mirrors, Acts;
    if acts == [] {
      ws, ls := [World(map[], Tables(map[], []), map[])], [];
      EmptyMirrors(projectId, ws);
    } else {
      var n := |acts| - 1;
      PrefixIsHistory(projectId, ss, acts);
      var ws0, ls0 := HistoriesAreRuns(projectId, ss[..n + 1], acts[..n]);
      assert Acts(projectId, ss[n], acts[n], ss[n + 1]);
      ws, ls := ActStep(projectId, ss[n], acts[n], ss[n + 1], ws0, ls0);
    }
  }

  lemma PrefixIsHistory(projectId: string, ss: seq<Store>, acts: seq<Act>)
    requires IsHistory(projectId, ss, acts) && acts != []
    ensures IsHistory(projectId, ss[..|acts|], acts[..|acts| - 1])
  {
    hide Acts;
    var ss', acts' := ss[..|acts|], acts[..|acts| - 1];
    forall i | 0 <= i < |acts'| ensures Acts(projectId, ss'[i], acts'[i], ss'[i + 1]) {
      assert Acts(projectId, ss[i], acts[i], ss[i + 1]);
    }
  }

  lemma EmptyMirrors(projectId: string, ws: seq<World>)
    requires ValidIdentifier(projectId) && ws == [World(map[], Tables(map[], []), map[])]
    ensures Mirrors(projectId, NOTHING, ws, []) && Sound(NOTHING)
  {
  }

  lemma ActStep(projectId: string, s: Store, a: Act, s': Store, ws: seq<World>, ls: seq<Label>)
      returns (ws': seq<World>, ls': seq<Label>)
    requires Sound(s) && Mirrors(projectId, s, ws, ls) && Acts(projectId, s, a, s')
    ensures Sound(s') && Mirrors(projectId, s', ws', ls')
  {
    hide IsRun, IR.Apply, RecordsOk, OriginsAgree, ValidIds, IR.Inv, Recomputes, StillRead, KeepsRecords, ValidIdentifier;
    match a
    case Identify(op) =>
      IdentityKeepsReads(projectId, s, op, ws[|ls|]);
      ws', ls' := ws, ls;
    case Learn =>
      ws', ls' := LearnStep(projectId, s, s', ws, ls);
    case Recompute(customer, occurredAt, enqueue) =>
      var scope := Scope(projectId, customer, occurredAt, enqueue);
      var out :| Recomputes(projectId, s, scope, s', out);
      ws', ls' := RecomputeStep(projectId, s, scope, s', out, ws, ls);
  }

  // -------------------------------------------------- a refresh is always possible

  lemma SnapshotExists(projectId: string, w: World, customer: string) returns (current: seq<CurrentEntitlement>)
    requires Inv(projectId, w)
    ensures Lists(w.tables.rows, w.origins, customer, current)
  {
    hide ValidIdentifier, HasSource, SourcesOk, Projection.Valid;
    var rows := w.tables.rows;
    var keys := Counting.Listing(set key | key in rows && key.customerId == customer);
    forall key | key in rows ensures RefOf(rows[key].projection) in w.origins && RowOk(projectId, w, key) {
      assert RowOk(projectId, w, key);
    }
    assert forall i | 0 <= i < |keys| :: keys[i] in keys;
    current := seq(|keys|, i requires 0 <= i < |keys| => Load(w.origins, rows[keys[i]]));
    forall i, j | 0 <= i < j < |current|
      ensures current[i].projection.entitlementId != current[j].projection.entitlementId
    {
      assert RowOk(projectId, w, keys[i]) && RowOk(projectId, w, keys[j]) && keys[i] != keys[j];
    }
    forall r | r in current ensures exists e :: ListsRow(rows, w.origins, customer, e, r) {
      var i :| 0 <= i < |current| && current[i] == r;
      assert ListsRow(rows, w.origins, customer, keys[i].entitlementId, r);
    }
    forall e | RowKey(customer, e) in rows && RefOf(rows[RowKey(customer, e)].projection) in w.origins
      ensures Load(w.origins, rows[RowKey(customer, e)]) in current
    {
      assert RowKey(customer, e) in keys;
      var i :| 0 <= i < |keys| && keys[i] == RowKey(customer, e);
      assert current[i] == Load(w.origins, rows[keys[i]]);
    }
  }

  lemma RefreshExists(t: Tables, origins: map<SourceRef, Origin>, scope: Scope, cs: seq<Candidate>,
                      current: seq<CurrentEntitlement>) returns (t': Tables, r: Result<Counts, StoreError>)
    requires Lists(t.rows, origins, scope.customerId, current)
    ensures Refreshed(t, origins, scope, cs, t', r)
  {
    hide Lists, InputError, Projects, ValidIdentifier, WriteAll;
    if !ValidIdentifier(scope.projectId) || !ValidIdentifier(scope.customerId) {
      t', r := t, Err(InvalidScope);
    } else if InputError(current, cs).Some? {
      t', r := t, Err(ProjectionFailed(InputError(current, cs).value));
      assert RefreshedFrom(t, origins, scope, cs, current, t', r);
    } else {
      ProjectorTies.ProjectionExists(current, cs);
      var ps :| Projects(current, cs, ps);
      match WriteAll(t, origins, scope, ps)
      case Ok((written, counts)) =>
        t', r := written, Ok(counts);
        assert RefreshedFrom(t, origins, scope, cs, current, t', r);
      case Err(error) =>
        t', r := t, Err(error);
        assert RefreshedFrom(t, origins, scope, cs, current, t', r);
    }
  }

  /** After any history every customer can be refreshed. */
  lemma RefreshIsPossible(projectId: string, ss: seq<Store>, acts: seq<Act>, scope: Scope) returns (s': Store)
    requires IsHistory(projectId, ss, acts) && ValidIdentifier(scope.customerId) && scope.projectId == projectId
    ensures Acts(projectId, ss[|acts|], Recompute(scope.customerId, scope.occurredAt, scope.enqueue), s')
  {
    hide IsHistory, Lists, Refreshed, Answers, IR.Inv, RecordsOk, OriginsAgree, ValidIds, IsRun, StillRead, I.Closure,
         ValidIdentifier, Inv;
    HistoryLength(projectId, ss, acts);
    var s, customer := ss[|acts|], scope.customerId;
    var ws, ls := HistoriesAreRuns(projectId, ss, acts);
    RefreshTheorems.InvHolds(projectId, ws, ls, |ls|);
    ClosureAnswers(s.ids, projectId, customer);
    var current := SnapshotExists(projectId, ws[|ls|], customer);
    var out := AnswerExists(Asked(s, projectId, customer), CanonicalOf(s, projectId, customer));
    var t, r := RefreshExists(s.tables, s.origins, scope, out, current);
    s' := s.(tables := t);
    assert Recomputes(projectId, s, scope, s', out);
  }

  lemma HistoryLength(projectId: string, ss: seq<Store>, acts: seq<Act>)
    requires IsHistory(projectId, ss, acts)
    ensures |ss| == |acts| + 1
  {
  }

  // ----------------------------------------------------- rows and their records

  /** A store observation of the same entitlement, application and product. */
  ghost predicate Superseding(q: Query, r: Candidate, s: Candidate) {
    && IsOwned(q, s) && !IsGrant(s) && s.projection.entitlementId == r.projection.entitlementId
    && s.applicationId == r.applicationId && s.projection.productId == r.projection.productId
  }

  /** The record is the latest of its lineage and not an import with a store observation of
      its product beside it. */
  ghost predicate InForce(q: Query, e: string, r: Candidate) {
    && LatestRecord(q, r) && r.projection.entitlementId == e
    && (IsGrant(r) ==> forall s :: !Superseding(q, r, s))
  }

  ghost predicate HasRecordOf(q: Query, e: string) {
    exists r :: IsOwned(q, r) && r.projection.entitlementId == e
  }

  lemma SupersededByRecord(q: Query, canonical: string, out: seq<Candidate>, r: Candidate)
    requires RecordsOk(q.records) && Answers(q, canonical, out)
    ensures Superseded(Homed(r, canonical), StoreProducts(out))
       <==> r.projection.IsImport() && exists s :: Superseding(q, r, s)
  {
    hide First, RecordsOk;
    var c := Homed(r, canonical);
    InStoreProducts(out, c.Product());
    if d :| d in out && d.projection.IsStore() && d.Product() == c.Product() {
      var s :| First(q, s) && d == Homed(s, canonical);
      FirstIsRead(q, s);
      StoreOrImport(q.records, s);
      assert Superseding(q, r, s);
    }
    if s :| Superseding(q, r, s) {
      assert q.Reads(s);
      var f := FirstExists(q, s);
      var d := Homed(f, canonical);
      FirstIsRead(q, f);
      StoreOrImport(q.records, s);
      StoreOrImport(q.records, f);
      assert IsAnswer(q, canonical, d);
      assert f.Product() == s.Product();
      assert d in out && d.projection.IsStore() && d.Product() == c.Product();
    }
  }

  lemma StoreOrImport(records: set<Candidate>, r: Candidate)
    requires RecordsOk(records) && r in records
    ensures r.projection.IsStore() <==> !r.projection.IsImport()
  {
    hide ValidIdentifier;
  }

  /** The projector's groups hold exactly the records in force. */
  lemma GroupedIsInForce(q: Query, canonical: string, out: seq<Candidate>, e: string, k: SourceKey)
      returns (r: Candidate)
    requires RecordsOk(q.records) && Answers(q, canonical, out)
    requires e in GroupsOf(out) && k in GroupsOf(out)[e]
    ensures InForce(q, e, r) && GroupsOf(out)[e][k] == Homed(r, canonical)
  {
    hide First, RecordsOk, Answers, GroupsOf, Superseded;
    GroupMember(out, e, k);
    var c := GroupsOf(out)[e][k];
    r := RecordOf(q, canonical, out, c);
    SupersededByRecord(q, canonical, out, r);
    FirstIsTheLatest(q, r);
  }

  lemma RecordOf(q: Query, canonical: string, out: seq<Candidate>, c: Candidate) returns (r: Candidate)
    requires Answers(q, canonical, out) && c in out
    ensures First(q, r) && c == Homed(r, canonical)
  {
    hide First;
    r :| First(q, r) && c == Homed(r, canonical);
  }

  lemma InForceIsGrouped(q: Query, canonical: string, out: seq<Candidate>, e: string, r: Candidate)
    requires RecordsOk(q.records) && Answers(q, canonical, out) && InForce(q, e, r)
    ensures e in GroupsOf(out) && r.Source() in GroupsOf(out)[e]
    ensures GroupsOf(out)[e][r.Source()] == Homed(r, canonical)
  {
    hide First, RecordsOk, Superseded, LatestRecord;
    FirstIsTheLatest(q, r);
    var c := Homed(r, canonical);
    assert IsAnswer(q, canonical, c);
    assert c in out;
    SupersededByRecord(q, canonical, out, r);
    GroupedIsLatest(out, StoreProducts(out));
    assert Unbeaten(GroupsOf(out), c);
    GroupMember(out, e, r.Source());
    OnePerSource(q, canonical, out, c, GroupsOf(out)[e][r.Source()]);
  }

  lemma RecordedIsGrouped(q: Query, canonical: string, out: seq<Candidate>, e: string)
    requires RecordsOk(q.records) && Answers(q, canonical, out)
    ensures e in GroupsOf(out) <==> HasRecordOf(q, e)
  {
    hide First, RecordsOk, Answers, GroupsOf, InForce;
    if e in GroupsOf(out) {
      var k := SomeKey(out, e);
      var r := GroupedIsInForce(q, canonical, out, e, k);
      InForceIsRead(q, e, r);
    }
    if HasRecordOf(q, e) {
      var r :| IsOwned(q, r) && r.projection.entitlementId == e;
      var f := SomeInForce(q, r);
      InForceIsGrouped(q, canonical, out, e, f);
    }
  }

  lemma SomeKey(cs: seq<Candidate>, e: string) returns (k: SourceKey)
    requires e in GroupsOf(cs)
    ensures k in GroupsOf(cs)[e]
  {
    GroupedIsLatest(cs, StoreProducts(cs));
    var sources := GroupsOf(cs)[e];
    assert sources != map[];
    assert sources.Keys != {};
    k :| k in sources.Keys;
  }

  lemma InForceIsRead(q: Query, e: string, r: Candidate)
    requires InForce(q, e, r)
    ensures IsOwned(q, r) && r.projection.entitlementId == e
  {
  }

  /** An entitlement with a record has one in force: the import or what supersedes it. */
  lemma SomeInForce(q: Query, r: Candidate) returns (f: Candidate)
    requires RecordsOk(q.records) && IsOwned(q, r)
    ensures InForce(q, r.projection.entitlementId, f)
  {
    hide First, RecordsOk, LatestRecord;
    if s :| Superseding(q, r, s) {
      assert q.Reads(s);
      f := FirstExists(q, s);
    } else {
      assert q.Reads(r);
      f := FirstExists(q, r);
      assert forall s :: Superseding(q, f, s) ==> Superseding(q, r, s);
    }
    FirstIsTheLatest(q, f);
  }

  /** Some record in force is allowed and has not ended. */
  ghost predicate AllowedByRecord(q: Query, e: string, import_: bool, now: Time) {
    exists r :: InForce(q, e, r) && IsGrant(r) == import_ && IsAllowedAt(r.projection, now)
  }

  predicate IsAllowedAt(p: Projection, now: Time) {
    p.access.Allowed? && (p.period.endsAt.Some? ==> now < p.period.endsAt.value)
  }

  ghost predicate AllowedBySource(cs: seq<Candidate>, e: string, import_: bool, now: Time) {
    && e in GroupsOf(cs)
    && exists k :: (k in GroupsOf(cs)[e] && GroupsOf(cs)[e][k].projection.IsImport() == import_
                    && AllowedAt(GroupsOf(cs)[e][k].projection, now))
  }

  lemma RecordsAllowAsSources(q: Query, canonical: string, out: seq<Candidate>, e: string, import_: bool, now: Time)
    requires RecordsOk(q.records) && Answers(q, canonical, out)
    ensures AllowedBySource(out, e, import_, now) <==> AllowedByRecord(q, e, import_, now)
  {
    hide RecordsOk, Answers, GroupsOf, InForce;
    if AllowedBySource(out, e, import_, now) {
      var k :| k in GroupsOf(out)[e] && GroupsOf(out)[e][k].projection.IsImport() == import_
               && AllowedAt(GroupsOf(out)[e][k].projection, now);
      var r := GroupedIsInForce(q, canonical, out, e, k);
      assert IsGrant(r) == import_ && IsAllowedAt(r.projection, now);
    }
    if AllowedByRecord(q, e, import_, now) {
      var r :| InForce(q, e, r) && IsGrant(r) == import_ && IsAllowedAt(r.projection, now);
      InForceIsGrouped(q, canonical, out, e, r);
      assert GroupsOf(out)[e][r.Source()].projection.IsImport() == import_;
    }
  }

  /** What a refresh leaves for one customer, given the records it asked for. */
  ghost predicate FollowsRecords(q: Query, rows: map<RowKey, Row>, key: RowKey, now: Time) {
    && (key in rows <==> HasRecordOf(q, key.entitlementId))
    && (key in rows ==>
          var p := rows[key].projection;
          IsAllowedAt(p, now) <==> AllowedByRecord(q, key.entitlementId, p.kind.ImportGrant?, now))
  }

  ghost predicate EndsWithRefresh(acts: seq<Act>, scope: Scope) {
    acts != [] && acts[|acts| - 1] == Recompute(scope.customerId, scope.occurredAt, scope.enqueue)
  }

  lemma RunRowsFollowRecords(projectId: string, ws: seq<World>, ls: seq<Label>, i: nat, scope: Scope, q: Query,
                             canonical: string, e: string, now: Time)
    requires IsRun(projectId, ws, ls) && scope.projectId == projectId && RefreshTheorems.RefreshAt(ls, i, scope)
    requires RecordsOk(q.records) && Answers(q, canonical, SourcesOf(ws[i], scope.customerId))
    ensures FollowsRecords(q, ws[i + 1].tables.rows, RowKey(scope.customerId, e), now)
  {
    hide IsRun, RecordsOk, Answers, GroupsOf, HasRecordOf, AllowedByRecord, AllowedAt, Projects, IsAllowedAt;
    RunLength(projectId, ws, ls);
    var cs, key := SourcesOf(ws[i], scope.customerId), RowKey(scope.customerId, e);
    ProjectorTies.ProjectionExists([], cs);
    var scratch :| Projects([], cs, scratch);
    RefreshTheorems.PathIndependence(projectId, ws, ls, i, scope, scratch, e);
    ScratchSelects(cs, scratch, e);
    RecordedIsGrouped(q, canonical, cs, e);
    if key in ws[i + 1].tables.rows {
      var p := ws[i + 1].tables.rows[key].projection;
      RefreshTheorems.RowsFollowTheirSources(projectId, ws, ls, i, scope, e, now);
      RecordsAllowAsSources(q, canonical, cs, e, p.IsImport(), now);
      assert AllowedAt(p, now) <==> AllowedBySource(cs, e, p.IsImport(), now);
      AllowedUntilItsEnd(p, now);
    }
  }

  lemma AllowedUntilItsEnd(p: Projection, now: Time)
    ensures AllowedAt(p, now) <==> IsAllowedAt(p, now)
    ensures p.IsImport() <==> p.kind.ImportGrant?
  {
  }

  lemma RunLength(projectId: string, ws: seq<World>, ls: seq<Label>)
    requires IsRun(projectId, ws, ls)
    ensures |ws| == |ls| + 1
  {
  }

  lemma ScratchSelects(cs: seq<Candidate>, scratch: seq<Projection>, e: string)
    requires Projects([], cs, scratch)
    ensures Find(scratch, e).Some? <==> e in GroupsOf(cs)
  {
    hide GroupsOf, StoreProducts, IsChosen;
    assert DecidesFor([], cs, e, Find(scratch, e));
    assert CurrentOf([], e).None?;
  }

  /** The run of the refresh model behind a history that ends with a refresh. */
  lemma RunOfHistory(projectId: string, ss: seq<Store>, acts: seq<Act>, scope: Scope)
      returns (ws: seq<World>, ls: seq<Label>, i: nat)
    requires IsHistory(projectId, ss, acts) && scope.projectId == projectId && EndsWithRefresh(acts, scope)
    ensures IsRun(projectId, ws, ls) && RefreshTheorems.RefreshAt(ls, i, scope) && |ws| == |ls| + 1 && |ls| == i + 1
    ensures var s := ss[|acts| - 1];
            && RecordsOk(s.records)
            && Answers(Asked(s, projectId, scope.customerId), CanonicalOf(s, projectId, scope.customerId),
                       SourcesOf(ws[i], scope.customerId))
    ensures ws[i + 1].tables == ss[|acts|].tables
  {
    hide Mirrors, Recomputes, Asked, CanonicalOf, RecordsOk;
    var n := |acts| - 1;
    PrefixIsHistory(projectId, ss, acts);
    var ws0, ls0 := HistoriesAreRuns(projectId, ss[..|acts|], acts[..n]);
    assert Acts(projectId, ss[n], acts[n], ss[n + 1]);
    var out :| Recomputes(projectId, ss[n], scope, ss[n + 1], out);
    ws, ls := RecomputeStep(projectId, ss[n], scope, ss[n + 1], out, ws0, ls0);
    i := |ls0| + 1;
    LastOfRun(projectId, ss[n + 1], ws, ls);
    AnsweredBy(projectId, ss[n], scope, ss[n + 1], out);
  }

  /** After any history that ends with a refresh, the customer has a row for exactly the
      entitlements some record of its closure names, and a row is allowed at an instant
      exactly when a record in force of its kind is. */
  lemma RowsFollowTheRecords(projectId: string, ss: seq<Store>, acts: seq<Act>, scope: Scope, e: string, now: Time)
    requires IsHistory(projectId, ss, acts) && scope.projectId == projectId && EndsWithRefresh(acts, scope)
    ensures var n := |acts| - 1;
            FollowsRecords(Asked(ss[n], projectId, scope.customerId), ss[n + 1].tables.rows, RowKey(scope.customerId, e), now)
  {
    hide IsHistory, FollowsRecords, Asked, CanonicalOf, RecordsOk, Answers, IsRun;
    HistoryLength(projectId, ss, acts);
    var ws, ls, i := RunOfHistory(projectId, ss, acts, scope);
    AskedRecords(ss[|acts| - 1], projectId, scope.customerId);
    RunRowsFollowRecords(projectId, ws, ls, i, scope, Asked(ss[|acts| - 1], projectId, scope.customerId),
                         CanonicalOf(ss[|acts| - 1], projectId, scope.customerId), e, now);
  }

  /** The row says what the record says, for the customer that was refreshed. */
  predicate Cites(p: Projection, r: Candidate, scope: Scope) {
    p == Projection(scope.projectId, scope.customerId, r.projection.entitlementId,
                    if IsGrant(r) then ImportGrant else StoreObservation,
                    r.projection.observationId, r.projection.importId, r.projection.productId,
                    r.projection.customerId, r.projection.access, r.projection.reason, r.projection.period)
  }

  ghost predicate NoneAbove(q: Query, e: string, best: Candidate) {
    InForce(q, e, best) && forall d | InForce(q, e, d) :: ProjectorRules.NotAbove(d, best)
  }

  lemma CitedAsStored(q: Query, r: Candidate, canonical: string, scope: Scope)
    requires RecordsOk(q.records) && r in q.records
    ensures Cites(StoredAs(Homed(r, canonical).projection, scope), r, scope)
  {
    hide Period.Valid;
    assert r.Valid();
  }

  lemma NoneAboveTheBest(q: Query, canonical: string, cs: seq<Candidate>, e: string, best: Candidate)
      returns (b: Candidate)
    requires RecordsOk(q.records) && Answers(q, canonical, cs)
    requires e in GroupsOf(cs) && IsBest(GroupsOf(cs)[e], best)
    ensures best == Homed(b, canonical) && NoneAbove(q, e, b)
  {
    hide RecordsOk, Answers, GroupsOf, InForce, Preferred, ProjectorRules.NotAbove;
    var k :| k in GroupsOf(cs)[e] && GroupsOf(cs)[e][k] == best;
    b := GroupedIsInForce(q, canonical, cs, e, k);
    forall d | InForce(q, e, d) ensures ProjectorRules.NotAbove(d, b) {
      InForceIsGrouped(q, canonical, cs, e, d);
      assert !Preferred(Homed(d, canonical), Homed(b, canonical));
      RecordAccess(q, e, d);
      RecordAccess(q, e, b);
      ProjectorRules.NotPreferredIsNotAbove(Homed(d, canonical), Homed(b, canonical));
      HomedRanksAlike(d, b, canonical);
    }
  }

  lemma HomedRanksAlike(d: Candidate, b: Candidate, canonical: string)
    ensures ProjectorRules.NotAbove(Homed(d, canonical), Homed(b, canonical)) <==> ProjectorRules.NotAbove(d, b)
  {
  }

  lemma RecordAccess(q: Query, e: string, r: Candidate)
    requires RecordsOk(q.records) && InForce(q, e, r)
    ensures r in q.records && !r.projection.access.OtherAccess?
  {
    hide ValidIdentifier, Period.Valid, LatestRecord;
    InForceIsRead(q, e, r);
    assert r.Valid();
  }

  /** A row cites, field by field, a record in force of the customer's closure, and that
      record has the access, kind and allowed end of one no record in force ranks above. */
  lemma RowsCiteARecord(projectId: string, ss: seq<Store>, acts: seq<Act>, scope: Scope, e: string)
      returns (r: Candidate, best: Candidate)
    requires IsHistory(projectId, ss, acts) && scope.projectId == projectId && EndsWithRefresh(acts, scope)
    requires RowKey(scope.customerId, e) in ss[|acts|].tables.rows
    ensures var q := Asked(ss[|acts| - 1], projectId, scope.customerId);
            && InForce(q, e, r) && Cites(ss[|acts|].tables.rows[RowKey(scope.customerId, e)].projection, r, scope)
            && NoneAbove(q, e, best)
            && r.projection.access == best.projection.access && IsGrant(r) == IsGrant(best)
            && (r.projection.access.Allowed? ==> r.projection.period.endsAt == best.projection.period.endsAt)
  {
    hide IsHistory, Asked, CanonicalOf, RecordsOk, Answers, IsRun, InForce, IsBest, GroupsOf, StoredAs, NoneAbove;
    HistoryLength(projectId, ss, acts);
    var s := ss[|acts| - 1];
    var q, canonical := Asked(s, projectId, scope.customerId), CanonicalOf(s, projectId, scope.customerId);
    var ws, ls, i := RunOfHistory(projectId, ss, acts, scope);
    AskedRecords(s, projectId, scope.customerId);
    var cs := SourcesOf(ws[i], scope.customerId);
    var first, c := RefreshTheorems.RowCitesASource(projectId, ws, ls, i, scope, e);
    best := NoneAboveTheBest(q, canonical, cs, e, first);
    var k :| k in GroupsOf(cs)[e] && GroupsOf(cs)[e][k] == c;
    r := GroupedIsInForce(q, canonical, cs, e, k);
    InForceIsRead(q, e, r);
    CitedAsStored(q, r, canonical, scope);
    DecidesLike(r, best, canonical);
  }

  lemma AskedRecords(s: Store, projectId: string, customer: string)
    ensures Asked(s, projectId, customer).records == s.records
  {
  }

  lemma DecidesLike(r: Candidate, b: Candidate, canonical: string)
    requires SameDecision(Homed(r, canonical).projection, Homed(b, canonical).projection)
    ensures r.projection.access == b.projection.access && IsGrant(r) == IsGrant(b)
    ensures r.projection.access.Allowed? ==> r.projection.period.endsAt == b.projection.period.endsAt
  {
  }

  lemma LastOfRun(projectId: string, s: Store, ws: seq<World>, ls: seq<Label>)
    requires Mirrors(projectId, s, ws, ls)
    ensures IsRun(projectId, ws, ls) && |ws| == |ls| + 1 && ws[|ls|].tables == s.tables
  {
  }

  lemma AnsweredBy(projectId: string, s: Store, scope: Scope, s': Store, out: seq<Candidate>)
    requires Recomputes(projectId, s, scope, s', out) && Sound(s)
    ensures Answers(Asked(s, projectId, scope.customerId), CanonicalOf(s, projectId, scope.customerId), out)
    ensures RecordsOk(Asked(s, projectId, scope.customerId).records)
  {
  }

  /** A merge and the refresh behind it, whatever came before: the canonical customer's
      rows follow the records of both customers' closures together. */
  lemma MergedRowsFollowBoth(projectId: string, ss: seq<Store>, acts: seq<Act>, w: I.MergeWrite, mergeId: string,
                             conflict: bool, scope: Scope, e: string, now: Time)
    requires IsHistory(projectId, ss, acts) && |acts| >= 2 && EndsWithRefresh(acts, scope)
    requires acts[|acts| - 2] == Identify(IR.MergeOp(w, mergeId, conflict))
    requires w.projectId == projectId == scope.projectId && scope.customerId == w.canonicalId
    requires var (_, r) := I.AfterMerge(ss[|acts| - 2].ids, w, mergeId, conflict); r.Ok? && !r.value.replay
    ensures var s := ss[|acts| - 2];
            var both := Query(s.records, projectId,
                              Asked(s, projectId, w.canonicalId).members + Asked(s, projectId, w.sourceId).members);
            FollowsRecords(both, ss[|acts|].tables.rows, RowKey(w.canonicalId, e), now)
  {
    hide Sound, Mirrors, FollowsRecords, IR.Inv, I.AfterMerge, Acts;
    var m := |acts| - 2;
    RowsFollowTheRecords(projectId, ss, acts, scope, e, now);
    PrefixIsHistory(projectId, ss, acts);
    PrefixIsHistory(projectId, ss[..|acts|], acts[..m + 1]);
    var ws, ls := HistoriesAreRuns(projectId, ss[..|acts|][..m + 1], acts[..m + 1][..m]);
    assert Acts(projectId, ss[m], acts[m], ss[m + 1]);
    IdentifyStep(projectId, ss[m], IR.MergeOp(w, mergeId, conflict), ss[m + 1]);
    MergeUnitesMembers(ss[m], ss[m + 1], w, mergeId, conflict);
  }

  lemma IdentifyStep(projectId: string, s: Store, op: IR.Op, s': Store)
    requires Acts(projectId, s, Identify(op), s')
    ensures s' == s.(ids := IR.Apply(s.ids, op))
  {
  }

  lemma MergeUnitesMembers(s: Store, s': Store, w: I.MergeWrite, mergeId: string, conflict: bool)
    requires Sound(s) && s' == s.(ids := IR.Apply(s.ids, IR.MergeOp(w, mergeId, conflict)))
    requires I.AfterMerge(s.ids, w, mergeId, conflict).1.Ok? && !I.AfterMerge(s.ids, w, mergeId, conflict).1.value.replay
    ensures Asked(s', w.projectId, w.canonicalId).members
         == Asked(s, w.projectId, w.canonicalId).members + Asked(s, w.projectId, w.sourceId).members
  {
    hide RecordsOk, OriginsAgree, ValidIds;
    MergeUnites(s.ids, w, mergeId, conflict);
    CanonicalMembers(s.ids, w, mergeId, conflict);
  }

  lemma CanonicalMembers(s: I.Tables, w: I.MergeWrite, mergeId: string, conflict: bool)
    requires I.AfterMerge(s, w, mergeId, conflict).1.Ok? && !I.AfterMerge(s, w, mergeId, conflict).1.value.replay
    ensures I.Closure(s, w.projectId, w.canonicalId) == Ok((w.canonicalId, I.Members(s, w.projectId, w.canonicalId)))
  {
    hide ValidIdentifier, I.OwnsAlias, I.OwnsMerge;
  }
}
