/** What each identity operation answers and changes in a reachable state, in terms of the
    stored customers, aliases and audit rows. */
module IdentityOutcomes {
  import opened Text
  import opened Identity
  import opened IdentityRuns

  /** The customer an external id belongs to: an alias's, or the one a primary id or its
      merge leads to. */
  function Holder(s: Tables, key: ExternalKey): Option<string> {
    if key in s.primary && s.primary[key] in s.customers then
      match s.customers[s.primary[key]].mergedInto
      case None => Some(s.primary[key])
      case Some(target) => Some(target)
    else if key in s.aliases then Some(s.aliases[key])
    else None
  }

  predicate IsStored(s: Tables, projectId: string, id: string) {
    id in s.customers && s.customers[id].projectId == projectId
  }

  /** An external id resolves to its holder, and says how it was found. */
  lemma ResolvesToItsHolder(s: Tables, projectId: string, externalId: string)
    requires Inv(s) && ValidIdentifier(projectId) && ValidIdentifier(externalId)
    ensures var key := ExternalKey(projectId, externalId); var r := Resolve(s, projectId, externalId);
            && (Holder(s, key).None? <==> r == Err(NotFound))
            && (Holder(s, key).Some? <==> r.Ok?)
            && (r.Ok? ==>
                  && r.value.canonicalId == Holder(s, key).value
                  && (r.value.match_ == AliasMatch <==> key in s.aliases)
                  && (r.value.match_ == MergedMatch <==>
                        key in s.primary && s.customers[s.primary[key]].mergedInto == Some(r.value.canonicalId))
                  && (r.value.match_ == PrimaryMatch <==> key in s.primary && s.primary[key] == r.value.canonicalId))
  {
    hide ValidIdentifier, Audited;
    ResolveNeverConflicts(s, projectId, externalId);
    var key := ExternalKey(projectId, externalId);
    if key in s.primary && s.customers[s.primary[key]].mergedInto.Some? {
      assert IsRoot(s, projectId, s.customers[s.primary[key]].mergedInto.value);
    }
  }

  /** A put returns the customer stored under the external id, which is the given id
      exactly when it was new or already there; an alias or a used id is refused. */
  lemma PutOutcomes(s: Tables, id: string, projectId: string, externalId: string)
    requires Inv(s) && ValidIdentifier(id) && ValidIdentifier(projectId) && ValidIdentifier(externalId)
    ensures var (t, r) := AfterPut(s, id, projectId, externalId); var key := ExternalKey(projectId, externalId);
            && (r.Ok? <==> key in s.primary || (key !in s.aliases && id !in s.customers))
            && (r.Err? ==> r.error == Conflict && t == s)
            && (r.Ok? ==>
                  && key in t.primary && t.primary[key] == r.value
                  && r.value in t.customers && t.customers[r.value].Key() == key
                  && (key in s.primary ==> t == s)
                  && (key !in s.primary ==> r.value == id && t.customers[id] == Customer(projectId, externalId, None)
                                            && t.customers.Keys == s.customers.Keys + {id}))
  {
    hide ValidIdentifier, Audited, OneHop;
  }

  /** An alias is stored for a canonical customer exactly when nobody else holds the id,
      and the id then resolves to that customer. */
  lemma AliasOutcomes(s: Tables, w: AliasWrite)
    requires Inv(s) && w.Valid()
    ensures var (t, r) := AfterAlias(s, w); var key := ExternalKey(w.projectId, w.externalId);
            var free := Holder(s, key).None?;
            && (r.Ok? <==> IsRoot(s, w.projectId, w.canonicalId) && (free || Holder(s, key) == Some(w.canonicalId)))
            && (r == Err(NotFound) <==> !IsStored(s, w.projectId, w.canonicalId))
            && (r.Err? && r.error != NotFound ==> r.error == Conflict)
            && (r.Ok? ==> r.value.canonicalId == w.canonicalId && Holder(t, key) == Some(w.canonicalId))
            && (r.Ok? && free ==> t == s.(aliases := s.aliases[key := w.canonicalId]) && r.value.match_ == AliasMatch)
            && (!(r.Ok? && free) ==> t == s)
  {
    ResolvesToItsHolder(s, w.projectId, w.externalId);
    hide ValidIdentifier, Audited, AliasesOk, OneHop, Resolve;
    if IsStored(s, w.projectId, w.canonicalId) && s.customers[w.canonicalId].externalId == w.externalId {
      assert s.customers[w.canonicalId].Key() == ExternalKey(w.projectId, w.externalId);
    }
  }

  ghost predicate NamesKey(m: AuditRow, w: MergeWrite) {
    m.projectId == w.projectId && m.idempotencyKey == w.idempotencyKey
  }

  predicate SamePair(m: AuditRow, w: MergeWrite) {
    m.canonicalId == w.canonicalId && m.sourceId == w.sourceId
  }

  predicate Mergeable(s: Tables, w: MergeWrite) {
    w.canonicalId != w.sourceId && IsStored(s, w.projectId, w.canonicalId) && IsStored(s, w.projectId, w.sourceId)
  }

  /** Nothing in the tables stands against recording the merge: both customers are
      unmerged, the source has neither alias nor merge of its own, and the audit log knows
      neither the source nor the key. */
  ghost predicate IsFree(s: Tables, w: MergeWrite) {
    && s.customers.Keys >= {w.canonicalId, w.sourceId}
    && s.customers[w.canonicalId].mergedInto.None? && s.customers[w.sourceId].mergedInto.None?
    && (forall k | k in s.aliases && k.projectId == w.projectId :: s.aliases[k] != w.sourceId)
    && (forall c | c in s.customers && s.customers[c].projectId == w.projectId :: s.customers[c].mergedInto != Some(w.sourceId))
    && (forall m | m in s.merges :: !NamesKey(m, w) && m.sourceId != w.sourceId)
  }

  /** A merge is recorded exactly when nothing stands against it, and it then redirects
      the source and nothing else. */
  lemma MergeIsRecordedExactly(s: Tables, w: MergeWrite, mergeId: string, conflict: bool)
    requires Inv(s) && w.Valid()
    ensures var (t, r) := AfterMerge(s, w, mergeId, conflict);
            var row := AuditRow(mergeId, w.projectId, w.canonicalId, w.sourceId, w.idempotencyKey);
            && (r.Ok? && !r.value.replay <==>
                  && Mergeable(s, w) && IsFree(s, w) && !conflict
                  && ValidIdentifier(mergeId) && forall m | m in s.merges :: m.id != mergeId)
            && (r.Ok? && !r.value.replay ==>
                  && r.value.merge == row
                  && t == s.(customers := s.customers[w.sourceId := s.customers[w.sourceId].(mergedInto := Some(w.canonicalId))],
                             merges := s.merges + [row]))
            && (!(r.Ok? && !r.value.replay) ==> t == s)
            && (r == Err(EntitlementConflict) <==> Mergeable(s, w) && IsFree(s, w) && conflict)
            && (r == Err(NotFound) <==> w.canonicalId != w.sourceId && !Mergeable(s, w))
  {
    hide ValidIdentifier, PrimaryIndexed, AliasesOk, OneHop, Audited;
    MergeByKeyFinds(s.merges, w.projectId, w.idempotencyKey);
    MergeBySourceFinds(s.merges, w.sourceId);
  }

  lemma KeyFindsItsRow(s: Tables, projectId: string, key: string, m: AuditRow)
    requires Inv(s) && m in s.merges && m.projectId == projectId && m.idempotencyKey == key
    ensures MergeByKey(s.merges, projectId, key) == Some(m)
  {
    MergeByKeyFinds(s.merges, projectId, key);
    var found := MergeByKey(s.merges, projectId, key).value;
    var i :| 0 <= i < |s.merges| && s.merges[i] == m;
    var j :| 0 <= j < |s.merges| && s.merges[j] == found;
  }

  lemma SourceFindsItsRow(s: Tables, m: AuditRow)
    requires Inv(s) && m in s.merges
    ensures MergeBySource(s.merges, m.sourceId) == Some(m)
  {
    MergeBySourceFinds(s.merges, m.sourceId);
    var found := MergeBySource(s.merges, m.sourceId).value;
    var i :| 0 <= i < |s.merges| && s.merges[i] == m;
    var j :| 0 <= j < |s.merges| && s.merges[j] == found;
  }

  ghost predicate Replays(s: Tables, w: MergeWrite, m: AuditRow) {
    && m in s.merges && SamePair(m, w) && m.projectId == w.projectId
    && (NamesKey(m, w) || forall other | other in s.merges :: !NamesKey(other, w))
  }

  /** It is a replay exactly when the audit log has the pair under the key, or, without
      that key, under another; and the answer is that audit row. */
  lemma MergeReplaysExactly(s: Tables, w: MergeWrite, mergeId: string, conflict: bool)
    requires Inv(s) && w.Valid()
    ensures var r := AfterMerge(s, w, mergeId, conflict).1;
            && (r.Ok? && r.value.replay <==> Mergeable(s, w) && exists m :: Replays(s, w, m))
            && (r.Ok? && r.value.replay ==> Replays(s, w, r.value.merge))
  {
    hide ValidIdentifier, Inv, OwnsAlias, OwnsMerge;
    MergeByKeyFinds(s.merges, w.projectId, w.idempotencyKey);
    MergeBySourceFinds(s.merges, w.sourceId);
    if m :| Replays(s, w, m) {
      SourceFindsItsRow(s, m);
      if NamesKey(m, w) {
        KeyFindsItsRow(s, w.projectId, w.idempotencyKey, m);
      }
    }
    var r := AfterMerge(s, w, mergeId, conflict).1;
    if r.Ok? && r.value.replay {
      assert Replays(s, w, r.value.merge);
    }
  }
}
