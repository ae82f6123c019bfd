/** Every run of customer creation, aliasing, and merging: merges stay one hop
    deep, resolution never conflicts and never goes back, closures partition the
    customers, and merges replay. */
module IdentityRuns {
  import opened Text
  import opened Identity

  // -------------------------------------------------------------- invariant

  /** The primary index lists exactly the stored external ids. */
  ghost predicate PrimaryIndexed(s: Tables) {
    && (forall k | k in s.primary :: s.primary[k] in s.customers && s.customers[s.primary[k]].Key() == k)
    && (forall id | id in s.customers :: s.customers[id].Key() in s.primary && s.primary[s.customers[id].Key()] == id)
  }

  /** A customer others resolve to: stored in the project and not merged. */
  predicate IsRoot(s: Tables, projectId: string, id: string) {
    id in s.customers && s.customers[id].projectId == projectId && s.customers[id].mergedInto.None?
  }

  /** Merge edges stay inside one project and are one hop deep. */
  ghost predicate OneHop(s: Tables) {
    forall id | id in s.customers && s.customers[id].mergedInto.Some? ::
      IsRoot(s, s.customers[id].projectId, s.customers[id].mergedInto.value)
  }

  /** Aliases point at roots and are never a primary external id. */
  ghost predicate AliasesOk(s: Tables) {
    forall k | k in s.aliases :: k !in s.primary && IsRoot(s, k.projectId, s.aliases[k])
  }

  ghost predicate Records(s: Tables, m: AuditRow) {
    && m.sourceId in s.customers && s.customers[m.sourceId].projectId == m.projectId
    && s.customers[m.sourceId].mergedInto == Some(m.canonicalId)
  }

  /** Merge edges and audit rows correspond one to one, under unique audit ids
      and unique idempotency keys. */
  ghost predicate Audited(s: Tables) {
    && (forall m | m in s.merges :: Records(s, m))
    && (forall id | id in s.customers && s.customers[id].mergedInto.Some? :: exists m :: m in s.merges && m.sourceId == id)
    && (forall i, j | 0 <= i < j < |s.merges| ::
         && s.merges[i].sourceId != s.merges[j].sourceId && s.merges[i].id != s.merges[j].id
         && (s.merges[i].projectId, s.merges[i].idempotencyKey) != (s.merges[j].projectId, s.merges[j].idempotencyKey))
  }

  ghost predicate Inv(s: Tables) {
    PrimaryIndexed(s) && OneHop(s) && AliasesOk(s) && Audited(s)
  }

  // ------------------------------------------------------------------- runs

  datatype Op =
    | PutOp(id: string, projectId: string, externalId: string)
    | AliasOp(alias: AliasWrite)
    | MergeOp(merge: MergeWrite, mergeId: string, entitlementConflict: bool)

  function Apply(s: Tables, op: Op): Tables {
    match op
    case PutOp(id, projectId, externalId) => AfterPut(s, id, projectId, externalId).0
    case AliasOp(w) => AfterAlias(s, w).0
    case MergeOp(w, mergeId, conflict) => AfterMerge(s, w, mergeId, conflict).0
  }

  function Run(s: Tables, ops: seq<Op>): Tables
    decreases |ops|
  {
    if ops == [] then s else Run(Apply(s, ops[0]), ops[1..])
  }

  lemma {:induction false} MergeByKeyFinds(merges: seq<AuditRow>, projectId: string, key: string)
    ensures match MergeByKey(merges, projectId, key)
      case Some(m) => m in merges && m.projectId == projectId && m.idempotencyKey == key
      case None => forall m | m in merges :: m.projectId != projectId || m.idempotencyKey != key
  {
    if merges != [] { MergeByKeyFinds(merges[1..], projectId, key); }
  }

  lemma {:induction false} MergeBySourceFinds(merges: seq<AuditRow>, sourceId: string)
    ensures match MergeBySource(merges, sourceId)
      case Some(m) => m in merges && m.sourceId == sourceId
      case None => forall m | m in merges :: m.sourceId != sourceId
  {
    if merges != [] { MergeBySourceFinds(merges[1..], sourceId); }
  }

  lemma PutKeepsInv(s: Tables, id: string, projectId: string, externalId: string)
    requires Inv(s)
    ensures Inv(AfterPut(s, id, projectId, externalId).0)
  {
    var t := AfterPut(s, id, projectId, externalId).0;
    if t != s {
      assert forall c | c in s.customers :: c in t.customers && t.customers[c] == s.customers[c];
      forall m | m in t.merges ensures Records(t, m) {
        assert Records(s, m);
      }
    }
  }

  lemma AliasKeepsInv(s: Tables, w: AliasWrite)
    requires Inv(s)
    ensures Inv(AfterAlias(s, w).0)
  {
    var t := AfterAlias(s, w).0;
    if t != s {
      assert Resolve(s, w.projectId, w.externalId) == Err(NotFound);
      ResolveNeverConflicts(s, w.projectId, w.externalId);
      forall m | m in t.merges ensures Records(t, m) {
        assert Records(s, m);
      }
    }
  }

  lemma MergeKeepsInv(s: Tables, w: MergeWrite, mergeId: string, conflict: bool)
    requires Inv(s)
    ensures Inv(AfterMerge(s, w, mergeId, conflict).0)
  {
    var t := AfterMerge(s, w, mergeId, conflict).0;
    if t != s {
      MergeByKeyFinds(s.merges, w.projectId, w.idempotencyKey);
      MergeBySourceFinds(s.merges, w.sourceId);
      MergedTables(s, w, mergeId, conflict);
      MergeKeepsEdges(s, w, mergeId, conflict);
      MergeKeepsAudit(s, w, mergeId, conflict);
    }
  }

  /** What a committed merge changes. */
  lemma MergedTables(s: Tables, w: MergeWrite, mergeId: string, conflict: bool)
    requires AfterMerge(s, w, mergeId, conflict).0 != s
    ensures var (t, r) := AfterMerge(s, w, mergeId, conflict);
      && IsRoot(s, w.projectId, w.canonicalId) && IsRoot(s, w.projectId, w.sourceId) && w.canonicalId != w.sourceId
      && !OwnsAlias(s, w.projectId, w.sourceId) && !OwnsMerge(s, w.projectId, w.sourceId)
      && MergeByKey(s.merges, w.projectId, w.idempotencyKey).None? && MergeBySource(s.merges, w.sourceId).None?
      && (forall m | m in s.merges :: m.id != mergeId)
      && t == s.(customers := s.customers[w.sourceId := s.customers[w.sourceId].(mergedInto := Some(w.canonicalId))],
                 merges := s.merges + [AuditRow(mergeId, w.projectId, w.canonicalId, w.sourceId, w.idempotencyKey)])
      && r == Ok(MergeResult(AuditRow(mergeId, w.projectId, w.canonicalId, w.sourceId, w.idempotencyKey), false))
  {
  }

  lemma MergeKeepsEdges(s: Tables, w: MergeWrite, mergeId: string, conflict: bool)
    requires Inv(s) && AfterMerge(s, w, mergeId, conflict).0 != s
    ensures var t := AfterMerge(s, w, mergeId, conflict).0; PrimaryIndexed(t) && OneHop(t) && AliasesOk(t)
  {
    MergedTables(s, w, mergeId, conflict);
    var t := AfterMerge(s, w, mergeId, conflict).0;
    forall id | id in t.customers && t.customers[id].mergedInto.Some?
      ensures IsRoot(t, t.customers[id].projectId, t.customers[id].mergedInto.value)
    {
      if id != w.sourceId {
        assert IsRoot(s, s.customers[id].projectId, s.customers[id].mergedInto.value);
      }
    }
    forall k | k in t.aliases ensures k !in t.primary && IsRoot(t, k.projectId, t.aliases[k]) {
      assert IsRoot(s, k.projectId, s.aliases[k]);
    }
  }

  lemma MergeKeepsAudit(s: Tables, w: MergeWrite, mergeId: string, conflict: bool)
    requires Inv(s) && AfterMerge(s, w, mergeId, conflict).0 != s
    ensures Audited(AfterMerge(s, w, mergeId, conflict).0)
  {
    MergedTables(s, w, mergeId, conflict);
    MergeByKeyFinds(s.merges, w.projectId, w.idempotencyKey);
    MergeBySourceFinds(s.merges, w.sourceId);
    var t := AfterMerge(s, w, mergeId, conflict).0;
    var merge := t.merges[|s.merges|];
    forall m | m in t.merges ensures Records(t, m) {
      if m in s.merges { assert Records(s, m); } else { assert m == merge; }
    }
    forall id | id in t.customers && t.customers[id].mergedInto.Some? ensures exists m :: m in t.merges && m.sourceId == id {
      if id == w.sourceId {
        assert merge in t.merges;
      } else {
        var m :| m in s.merges && m.sourceId == id;
        assert m in t.merges;
      }
    }
  }

  lemma ApplyKeepsInv(s: Tables, op: Op)
    requires Inv(s)
    ensures Inv(Apply(s, op))
  {
    match op
    case PutOp(id, projectId, externalId) => PutKeepsInv(s, id, projectId, externalId);
    case AliasOp(w) => AliasKeepsInv(s, w);
    case MergeOp(w, mergeId, conflict) => MergeKeepsInv(s, w, mergeId, conflict);
  }

  lemma {:induction false} RunKeepsInv(s: Tables, ops: seq<Op>)
    requires Inv(s)
    ensures Inv(Run(s, ops))
    decreases |ops|
  {
    if ops != [] {
      ApplyKeepsInv(s, ops[0]);
      RunKeepsInv(Apply(s, ops[0]), ops[1..]);
    }
  }

  /** Every reachable identity table satisfies the invariant. */
  lemma ReachableInv(ops: seq<Op>)
    ensures Inv(Run(EMPTY, ops))
  {
    RunKeepsInv(EMPTY, ops);
  }

  // ------------------------------------------------------------- resolution

  /** The conflict branches of resolution and of closures are unreachable, and an
      id resolves exactly when it is a primary id or an alias. */
  lemma ResolveNeverConflicts(s: Tables, projectId: string, externalId: string)
    requires Inv(s)
    ensures Resolve(s, projectId, externalId) != Err(Conflict)
    ensures Resolve(s, projectId, externalId).Ok? <==>
      && ValidIdentifier(projectId) && ValidIdentifier(externalId)
      && (ExternalKey(projectId, externalId) in s.primary || ExternalKey(projectId, externalId) in s.aliases)
    ensures Resolve(s, projectId, externalId).Ok? ==> IsRoot(s, projectId, Resolve(s, projectId, externalId).value.canonicalId)
  {
    var key := ExternalKey(projectId, externalId);
    if key in s.primary && s.customers[s.primary[key]].mergedInto.Some? {
      assert IsRoot(s, projectId, s.customers[s.primary[key]].mergedInto.value);
    }
  }

  /** The customer a stored customer resolves to. */
  function Root(s: Tables, id: string): string {
    if id in s.customers && s.customers[id].mergedInto.Some? then s.customers[id].mergedInto.value else id
  }

  /** `later` keeps every customer, alias, merge edge and audit row of `s`. */
  ghost predicate Extends(s: Tables, later: Tables) {
    && (forall id | id in s.customers ::
         && id in later.customers && later.customers[id].Key() == s.customers[id].Key()
         && (s.customers[id].mergedInto.Some? ==> later.customers[id].mergedInto == s.customers[id].mergedInto))
    && (forall k | k in s.primary :: k in later.primary && later.primary[k] == s.primary[k])
    && (forall k | k in s.aliases :: k in later.aliases && later.aliases[k] == s.aliases[k])
    && s.merges <= later.merges
  }

  lemma MergeExtends(s: Tables, w: MergeWrite, mergeId: string, conflict: bool)
    requires Inv(s)
    ensures Extends(s, AfterMerge(s, w, mergeId, conflict).0)
  {
    hide AfterMerge, OneHop, AliasesOk, Audited, OwnsAlias, OwnsMerge;
    if AfterMerge(s, w, mergeId, conflict).0 != s { MergedTables(s, w, mergeId, conflict); }
  }

  lemma AliasExtends(s: Tables, w: AliasWrite)
    requires Inv(s)
    ensures Extends(s, AfterAlias(s, w).0)
  {
    if AfterAlias(s, w).0 != s { ResolveNeverConflicts(s, w.projectId, w.externalId); }
  }

  lemma PutExtends(s: Tables, id: string, projectId: string, externalId: string)
    requires Inv(s)
    ensures Extends(s, AfterPut(s, id, projectId, externalId).0)
  {
    hide ValidIdentifier, OneHop, AliasesOk, Audited;
  }

  lemma ApplyExtends(s: Tables, op: Op)
    requires Inv(s)
    ensures Extends(s, Apply(s, op))
  {
    match op
    case PutOp(id, projectId, externalId) => PutExtends(s, id, projectId, externalId);
    case AliasOp(w) => AliasExtends(s, w);
    case MergeOp(w, mergeId, conflict) => MergeExtends(s, w, mergeId, conflict);
  }

  /** The tables only grow. */
  lemma {:induction false} RunExtends(s: Tables, ops: seq<Op>)
    requires Inv(s)
    ensures Extends(s, Run(s, ops))
    decreases |ops|
  {
    if ops != [] {
      ApplyExtends(s, ops[0]);
      ApplyKeepsInv(s, ops[0]);
      RunExtends(Apply(s, ops[0]), ops[1..]);
    }
  }

  /** An id that resolves keeps resolving, to whatever its canonical customer has
      become; so ids that share a canonical customer share it forever. */
  lemma ResolutionFollowsRoot(s: Tables, ops: seq<Op>, projectId: string, externalId: string)
    requires Inv(s) && Resolve(s, projectId, externalId).Ok?
    ensures var later := Run(s, ops);
      && Resolve(later, projectId, externalId).Ok?
      && Resolve(later, projectId, externalId).value.canonicalId == Root(later, Resolve(s, projectId, externalId).value.canonicalId)
  {
    RunExtends(s, ops);
    RunKeepsInv(s, ops);
    var later, key := Run(s, ops), ExternalKey(projectId, externalId);
    ResolveNeverConflicts(s, projectId, externalId);
    ResolveNeverConflicts(later, projectId, externalId);
  }

  /** A canonical customer changes at most once over any run. */
  lemma CanonicalChangesAtMostOnce(s: Tables, first: seq<Op>, second: seq<Op>, projectId: string, externalId: string)
    requires Inv(s) && Resolve(s, projectId, externalId).Ok?
    requires Resolve(Run(s, first), projectId, externalId).Ok?
    ensures var before := Resolve(s, projectId, externalId).value.canonicalId;
      var middle := Resolve(Run(s, first), projectId, externalId).value.canonicalId;
      var after := Resolve(Run(Run(s, first), second), projectId, externalId);
      && after.Ok?
      && (middle != before ==> after.value.canonicalId == middle)
  {
    var t := Run(s, first);
    RunKeepsInv(s, first);
    RunKeepsInv(t, second);
    ResolutionFollowsRoot(s, first, projectId, externalId);
    ResolutionFollowsRoot(t, second, projectId, externalId);
    RunExtends(t, second);
    var before := Resolve(s, projectId, externalId).value.canonicalId;
    if Root(t, before) != before {
      var later := Run(t, second);
      assert IsRoot(later, later.customers[before].projectId, later.customers[before].mergedInto.value);
    }
  }

  // --------------------------------------------------------------- closures

  /** Closures partition a project's customers: each lies in its own, two are
      equal exactly when the customers share a root and disjoint otherwise, and
      membership is what the closure query reports. */
  lemma ClosuresPartition(s: Tables, projectId: string, a: string, b: string)
    requires Inv(s)
    requires ById(s, projectId, a).Some? && ById(s, projectId, b).Some?
    ensures Closure(s, projectId, a) == Ok((Root(s, a), Members(s, projectId, Root(s, a))))
    ensures a in Members(s, projectId, Root(s, a))
    ensures Root(s, a) == Root(s, b) <==> Members(s, projectId, Root(s, a)) == Members(s, projectId, Root(s, b))
    ensures Root(s, a) != Root(s, b) ==> Members(s, projectId, Root(s, a)) !! Members(s, projectId, Root(s, b))
    ensures ValidIdentifier(projectId) && ValidIdentifier(Root(s, a)) && ValidIdentifier(b) ==>
      InClosure(s, projectId, Root(s, a), b) == Ok(b in Members(s, projectId, Root(s, a)))
  {
    assert s.customers[a].mergedInto.Some? ==> IsRoot(s, projectId, s.customers[a].mergedInto.value);
    assert s.customers[b].mergedInto.Some? ==> IsRoot(s, projectId, s.customers[b].mergedInto.value);
    assert a in Members(s, projectId, Root(s, a)) && b in Members(s, projectId, Root(s, b));
    forall c | c in Members(s, projectId, Root(s, a)) ensures Root(s, c) == Root(s, a) {
    }
    forall c | c in Members(s, projectId, Root(s, b)) ensures Root(s, c) == Root(s, b) {
    }
  }

  // ----------------------------------------------------------------- replay

  /** Once a merge has its audit row, repeating it after any run, under that
      row's key or any unused one, changes nothing and returns the original row. */
  lemma MergesReplay(s: Tables, w: MergeWrite, mergeId: string, conflict: bool, ops: seq<Op>,
                     again: MergeWrite, mergeId': string, conflict': bool)
    requires Inv(s) && AfterMerge(s, w, mergeId, conflict).1.Ok?
    requires again.Valid() && again.projectId == w.projectId && again.canonicalId == w.canonicalId
    requires again.sourceId == w.sourceId
    requires var (t, r) := AfterMerge(s, w, mergeId, conflict);
      || again.idempotencyKey == r.value.merge.idempotencyKey
      || MergeByKey(Run(t, ops).merges, w.projectId, again.idempotencyKey).None?
    ensures var (t, r) := AfterMerge(s, w, mergeId, conflict);
      AfterMerge(Run(t, ops), again, mergeId', conflict') == (Run(t, ops), Ok(MergeResult(r.value.merge, true)))
  {
    var t, merge := AfterMerge(s, w, mergeId, conflict).0, AfterMerge(s, w, mergeId, conflict).1.value.merge;
    MergeIsRecorded(s, w, mergeId, conflict);
    MergeKeepsInv(s, w, mergeId, conflict);
    var later := Run(t, ops);
    RunExtends(t, ops);
    RunKeepsInv(t, ops);
    assert merge in later.merges;
    RecordedMergeReplays(later, merge, again, mergeId', conflict');
  }

  lemma MergeIsRecorded(s: Tables, w: MergeWrite, mergeId: string, conflict: bool)
    requires AfterMerge(s, w, mergeId, conflict).1.Ok? && Inv(s)
    ensures var (t, r) := AfterMerge(s, w, mergeId, conflict); var m := r.value.merge;
      && m in t.merges && m.projectId == w.projectId && m.canonicalId == w.canonicalId && m.sourceId == w.sourceId
      && w.canonicalId in t.customers && t.customers[w.canonicalId].projectId == w.projectId && w.canonicalId != w.sourceId
  {
    MergeByKeyFinds(s.merges, w.projectId, w.idempotencyKey);
    MergeBySourceFinds(s.merges, w.sourceId);
    if AfterMerge(s, w, mergeId, conflict).0 != s { MergedTables(s, w, mergeId, conflict); }
  }

  lemma RecordedMergeReplays(s: Tables, m: AuditRow, w: MergeWrite, mergeId: string, conflict: bool)
    requires Inv(s) && m in s.merges && w.Valid()
    requires w.projectId == m.projectId && w.canonicalId == m.canonicalId && w.sourceId == m.sourceId
    requires w.canonicalId != w.sourceId
    requires w.canonicalId in s.customers && s.customers[w.canonicalId].projectId == w.projectId
    requires w.idempotencyKey == m.idempotencyKey || MergeByKey(s.merges, w.projectId, w.idempotencyKey).None?
    ensures AfterMerge(s, w, mergeId, conflict) == (s, Ok(MergeResult(m, true)))
  {
    assert Records(s, m);
    MergeByKeyFinds(s.merges, w.projectId, w.idempotencyKey);
    MergeBySourceFinds(s.merges, w.sourceId);
    AuditRowIsUnique(s, m);
  }

  lemma AuditRowIsUnique(s: Tables, m: AuditRow)
    requires Audited(s) && m in s.merges
    ensures forall n | n in s.merges && n.sourceId == m.sourceId :: n == m
    ensures forall n | n in s.merges && n.projectId == m.projectId && n.idempotencyKey == m.idempotencyKey :: n == m
  {
  }
}
