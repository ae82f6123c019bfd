/** The source query of a refresh: the latest stored record of every purchase lineage of a
    customer's closure, and what its answer keeps while records and merges accumulate. */
module SourceQuery {
  import opened Text
  import opened Entitlements
  import opened ProjectorLaws
  import opened Refresh
  import opened RefreshRuns
  import I = Identity
  import IR = IdentityRuns
  import Counting

  // -------------------------------------------------------------- the query

  /** The stored records under their owners, each joined with one entitlement of its
      product, and the customers asked about. */
  datatype Query = Query(records: set<Candidate>, projectId: string, members: set<string>) {
    predicate Reads(c: Candidate) {
      c in records && c.projection.projectId == projectId && c.projection.customerId in members
    }
  }

  /** One purchase lineage of one application product for one entitlement. */
  predicate SameLineage(a: Candidate, b: Candidate) {
    && a.projection.entitlementId == b.projection.entitlementId
    && a.projection.IsImport() == b.projection.IsImport() && a.Source() == b.Source()
  }

  /** The order inside a group: later first, then an allowed observation, then the id. */
  predicate Ahead(a: Candidate, b: Candidate) {
    if a.observedAt != b.observedAt then a.observedAt > b.observedAt
    else if !a.projection.IsImport() && a.projection.access.Allowed? != b.projection.access.Allowed?
      then a.projection.access.Allowed?
    else Less(a.projection.SourceIdentity(), b.projection.SourceIdentity())
  }

  /** What is kept of a group: the record ahead of every other. */
  ghost predicate First(q: Query, c: Candidate) {
    q.Reads(c) && forall d | q.Reads(d) && SameLineage(c, d) && d != c :: Ahead(c, d)
  }

  /** The answer carries the canonical customer and remembers the owner. */
  function Homed(c: Candidate, canonical: string): Candidate {
    c.(projection := c.projection.(sourceCustomerId := c.projection.customerId, customerId := canonical))
  }

  ghost predicate IsAnswer(q: Query, canonical: string, c: Candidate) {
    exists r :: First(q, r) && c == Homed(r, canonical)
  }

  ghost predicate Answers(q: Query, canonical: string, out: seq<Candidate>) {
    NoDuplicates(out) && forall c :: c in out <==> IsAnswer(q, canonical, c)
  }

  predicate SameIdentity(a: Candidate, b: Candidate) {
    && a.projection.IsImport() == b.projection.IsImport()
    && a.projection.SourceIdentity() == b.projection.SourceIdentity()
  }

  /** Records have unique ids within their table, and lineage keys that name the table. */
  ghost predicate RecordsOk(records: set<Candidate>) {
    && (forall c | c in records :: c.Valid() && (c.projection.IsImport() <==> ImportLineage(c.lineage)))
    && forall a, b | a in records && b in records && SameIdentity(a, b)
         && a.projection.entitlementId == b.projection.entitlementId :: a == b
  }

  lemma AheadIsTotal(records: set<Candidate>, a: Candidate, b: Candidate)
    requires RecordsOk(records) && a in records && b in records && a != b && SameLineage(a, b)
    ensures Ahead(a, b) || Ahead(b, a)
  {
    assert !SameIdentity(a, b);
    LessTotal(a.projection.SourceIdentity(), b.projection.SourceIdentity());
  }

  lemma AheadIsTransitive(a: Candidate, b: Candidate, c: Candidate)
    requires SameLineage(a, b) && SameLineage(b, c) && Ahead(a, b) && Ahead(b, c)
    ensures Ahead(a, c)
  {
    if a.observedAt == b.observedAt == c.observedAt
      && Less(a.projection.SourceIdentity(), b.projection.SourceIdentity())
      && Less(b.projection.SourceIdentity(), c.projection.SourceIdentity()) {
      LessTransitive(a.projection.SourceIdentity(), b.projection.SourceIdentity(), c.projection.SourceIdentity());
    }
  }

  lemma AheadIsIrreflexive(a: Candidate)
    ensures !Ahead(a, a)
  {
    LessIrreflexive(a.projection.SourceIdentity());
  }

  lemma {:induction false} TopExists(records: set<Candidate>, group: set<Candidate>) returns (top: Candidate)
    requires RecordsOk(records) && group <= records && group != {}
    requires forall a, b | a in group && b in group :: SameLineage(a, b)
    ensures top in group && forall d | d in group && d != top :: Ahead(top, d)
    decreases |group|
  {
    hide RecordsOk, Ahead, SameLineage;
    var c :| c in group;
    if group == {c} {
      top := c;
    } else {
      var rest := TopExists(records, group - {c});
      AheadIsTotal(records, c, rest);
      top := if Ahead(c, rest) then c else rest;
      forall d | d in group && d != top ensures Ahead(top, d) {
        if d != c && d != rest && top == c {
          AheadIsTransitive(c, rest, d);
        }
      }
    }
  }

  /** Every group that is read has a first record. */
  lemma FirstExists(q: Query, c: Candidate) returns (f: Candidate)
    requires RecordsOk(q.records) && q.Reads(c)
    ensures First(q, f) && SameLineage(f, c)
  {
    var group := set d | d in q.records && q.Reads(d) && SameLineage(d, c);
    assert c in group;
    f := TopExists(q.records, group);
    forall d | q.Reads(d) && SameLineage(f, d) && d != f ensures Ahead(f, d) {
      assert d in group;
    }
  }

  lemma FirstIsUnique(q: Query, a: Candidate, b: Candidate)
    requires First(q, a) && First(q, b) && SameLineage(a, b)
    ensures a == b
  {
    hide Ahead;
    if a != b {
      AheadIsTransitive(a, b, a);
      AheadIsIrreflexive(a);
    }
  }

  lemma AnswerExists(q: Query, canonical: string) returns (out: seq<Candidate>)
    ensures Answers(q, canonical, out)
  {
    hide First;
    out := Counting.Listing(set r | r in q.records && First(q, r) :: Homed(r, canonical));
    forall c ensures c in out <==> IsAnswer(q, canonical, c) {
      if r :| First(q, r) && c == Homed(r, canonical) {
        FirstIsRead(q, r);
      }
    }
  }

  lemma FirstIsRead(q: Query, r: Candidate)
    requires First(q, r)
    ensures q.Reads(r) && r in q.records
  {
  }

  // ------------------------------------------------------ which record is kept

  predicate IsGrant(c: Candidate) {
    c.projection.kind.ImportGrant?
  }

  function RecordId(c: Candidate): string {
    if IsGrant(c) then c.projection.importId else c.projection.observationId
  }

  /** Records of one entitlement, table, application, product and lineage. */
  predicate OfOneLineage(a: Candidate, b: Candidate) {
    && a.projection.entitlementId == b.projection.entitlementId && IsGrant(a) == IsGrant(b)
    && a.applicationId == b.applicationId && a.projection.productId == b.projection.productId && a.lineage == b.lineage
  }

  predicate IsOwned(q: Query, c: Candidate) {
    c in q.records && c.projection.projectId == q.projectId && c.projection.customerId in q.members
  }

  /** No record of the lineage was observed later. At the same time an allowed store
      observation comes before any other, and then the smaller id. */
  ghost predicate LatestRecord(q: Query, r: Candidate) {
    && IsOwned(q, r)
    && forall d | IsOwned(q, d) && OfOneLineage(r, d) ::
         && d.observedAt <= r.observedAt
         && (d.observedAt == r.observedAt && !IsGrant(d) && d.projection.access.Allowed? ==> r.projection.access.Allowed?)
         && (d.observedAt == r.observedAt && (IsGrant(d) || d.projection.access.Allowed? == r.projection.access.Allowed?) ==>
               !Less(RecordId(d), RecordId(r)))
  }

  lemma AheadMeans(records: set<Candidate>, r: Candidate, d: Candidate)
    requires RecordsOk(records) && r in records && d in records && r != d && OfOneLineage(r, d)
    ensures Ahead(r, d) <==>
            && d.observedAt <= r.observedAt
            && (d.observedAt == r.observedAt && !IsGrant(d) && d.projection.access.Allowed? ==> r.projection.access.Allowed?)
            && (d.observedAt == r.observedAt && (IsGrant(d) || d.projection.access.Allowed? == r.projection.access.Allowed?) ==>
                  !Less(RecordId(d), RecordId(r)))
  {
    hide ImportLineage, Candidate.Valid;
    assert !SameIdentity(r, d);
    LessTotal(RecordId(r), RecordId(d));
    if Less(RecordId(r), RecordId(d)) {
      LessAsymmetric(RecordId(r), RecordId(d));
    }
  }

  /** The record kept of each lineage is the latest one. */
  lemma FirstIsTheLatest(q: Query, r: Candidate)
    requires RecordsOk(q.records)
    ensures First(q, r) <==> LatestRecord(q, r)
  {
    hide Ahead, RecordsOk;
    assert forall d :: q.Reads(d) <==> IsOwned(q, d);
    assert forall d :: SameLineage(r, d) <==> OfOneLineage(r, d);
    forall d | q.Reads(r) && q.Reads(d) && SameLineage(r, d) && d != r
      ensures Ahead(r, d) <==>
              && d.observedAt <= r.observedAt
              && (d.observedAt == r.observedAt && !IsGrant(d) && d.projection.access.Allowed? ==> r.projection.access.Allowed?)
              && (d.observedAt == r.observedAt && (IsGrant(d) || d.projection.access.Allowed? == r.projection.access.Allowed?) ==>
                    !Less(RecordId(d), RecordId(r)))
    {
      AheadMeans(q.records, r, d);
    }
    LessIrreflexive(RecordId(r));
  }

  // --------------------------------------------------------- what it returns

  ghost predicate OriginsAgree(origins: map<SourceRef, Origin>, records: set<Candidate>) {
    forall r | r in records :: OriginKnown(origins, r)
  }

  /** The answer is all the projector asks of its candidates: valid, distinct ids, lineages
      that say their kind. */
  lemma AnswersAreOk(q: Query, canonical: string, out: seq<Candidate>, origins: map<SourceRef, Origin>)
    requires RecordsOk(q.records) && OriginsAgree(origins, q.records)
    requires ValidIdentifier(canonical) && Answers(q, canonical, out)
    ensures SourcesOk(origins, out)
  {
    hide First, ValidIdentifier, ImportLineage;
    forall c | c in out
      ensures c.Valid() && OriginKnown(origins, c) && (c.projection.IsImport() <==> ImportLineage(c.lineage))
    {
      var r :| First(q, r) && c == Homed(r, canonical);
      FirstIsRead(q, r);
      assert OriginKnown(origins, r);
    }
    forall c, d | c in out && d in out && c != d && c.projection.entitlementId == d.projection.entitlementId
                  && c.projection.IsImport() == d.projection.IsImport()
      ensures c.projection.SourceIdentity() != d.projection.SourceIdentity()
    {
      var r :| First(q, r) && c == Homed(r, canonical);
      var s :| First(q, s) && d == Homed(s, canonical);
      FirstIsRead(q, r);
      FirstIsRead(q, s);
      assert SameIdentity(r, s) ==> r == s;
    }
  }

  /** There is one candidate per lineage and entitlement. */
  lemma OnePerSource(q: Query, canonical: string, out: seq<Candidate>, c: Candidate, d: Candidate)
    requires RecordsOk(q.records) && Answers(q, canonical, out) && c in out && d in out
    requires c.projection.entitlementId == d.projection.entitlementId && c.Source() == d.Source()
    ensures c == d
  {
    hide First, ImportLineage, Candidate.Valid;
    var r :| First(q, r) && c == Homed(r, canonical);
    var s :| First(q, s) && d == Homed(s, canonical);
    FirstIsRead(q, r);
    FirstIsRead(q, s);
    assert SameLineage(r, s);
    FirstIsUnique(q, r, s);
  }

  ghost predicate HasRecord(q: Query, e: string, k: SourceKey) {
    exists r :: q.Reads(r) && r.projection.entitlementId == e && r.Source() == k
  }

  /** The source keys of the answer are those of the records. */
  lemma KeysOfTheAnswer(q: Query, canonical: string, out: seq<Candidate>, e: string, k: SourceKey)
    requires RecordsOk(q.records) && Answers(q, canonical, out)
    ensures HasSource(out, e, k) <==> HasRecord(q, e, k)
  {
    hide First, RecordsOk;
    if HasSource(out, e, k) {
      var c :| c in out && c.projection.entitlementId == e && c.Source() == k;
      var r :| First(q, r) && c == Homed(r, canonical);
      FirstIsRead(q, r);
      assert q.Reads(r) && r.projection.entitlementId == e && r.Source() == k;
    }
    if HasRecord(q, e, k) {
      var r :| q.Reads(r) && r.projection.entitlementId == e && r.Source() == k;
      var f := FirstExists(q, r);
      assert IsAnswer(q, canonical, Homed(f, canonical));
      var c := Homed(f, canonical);
      assert c in out && c.projection.entitlementId == e && c.Source() == k;
    }
  }

  // ------------------------------------------------------------------ merging

  /** Asking about two groups of customers at once picks, per lineage, the record that is
      ahead among the two separate picks. */
  lemma UnionPicksTheBetter(q: Query, p: Query, c: Candidate)
    requires RecordsOk(q.records) && p.records == q.records && p.projectId == q.projectId
    ensures var both := Query(q.records, q.projectId, q.members + p.members);
      First(both, c) <==>
        && (First(q, c) || First(p, c))
        && (forall d | First(q, d) && SameLineage(c, d) && d != c :: Ahead(c, d))
        && (forall d | First(p, d) && SameLineage(c, d) && d != c :: Ahead(c, d))
  {
    hide Ahead, RecordsOk;
    var both := Query(q.records, q.projectId, q.members + p.members);
    assert forall d :: both.Reads(d) <==> q.Reads(d) || p.Reads(d);
    if (First(q, c) || First(p, c))
      && (forall d | First(q, d) && SameLineage(c, d) && d != c :: Ahead(c, d))
      && (forall d | First(p, d) && SameLineage(c, d) && d != c :: Ahead(c, d)) {
      forall d | both.Reads(d) && SameLineage(c, d) && d != c ensures Ahead(c, d) {
        AheadOfAll(if q.Reads(d) then q else p, c, d);
      }
    }
  }

  lemma AheadOfAll(q: Query, c: Candidate, d: Candidate)
    requires RecordsOk(q.records) && q.Reads(d) && SameLineage(c, d) && d != c
    requires forall f | First(q, f) && SameLineage(c, f) && f != c :: Ahead(c, f)
    ensures Ahead(c, d)
  {
    hide Ahead, RecordsOk;
    var f := FirstExists(q, d);
    if f != d && f != c {
      AheadIsTransitive(c, f, d);
    }
  }

  // ----------------------------------------------------- closures only grow

  ghost predicate ValidIds(s: I.Tables) {
    forall id | id in s.customers :: ValidIdentifier(id)
  }

  lemma ClosureAnswers(s: I.Tables, projectId: string, id: string)
    requires IR.Inv(s)
    ensures I.Closure(s, projectId, id).Ok? && id in I.Closure(s, projectId, id).value.1
    ensures ValidIds(s) && ValidIdentifier(id) ==> ValidIdentifier(I.Closure(s, projectId, id).value.0)
  {
    hide ValidIdentifier;
    if I.ById(s, projectId, id).Some? {
      IR.ClosuresPartition(s, projectId, id, id);
    }
  }

  /** Whom a customer shares sources with only grows under any identity operation. */
  lemma ClosuresGrow(s: I.Tables, op: IR.Op, projectId: string, id: string)
    requires IR.Inv(s)
    ensures IR.Inv(IR.Apply(s, op)) && I.Closure(s, projectId, id).Ok? && I.Closure(IR.Apply(s, op), projectId, id).Ok?
    ensures I.Closure(s, projectId, id).value.1 <= I.Closure(IR.Apply(s, op), projectId, id).value.1
  {
    var later := IR.Apply(s, op);
    IR.ApplyKeepsInv(s, op);
    IR.ApplyExtends(s, op);
    hide IR.Apply;
    ClosureAnswers(s, projectId, id);
    ClosureAnswers(later, projectId, id);
    if I.ById(s, projectId, id).Some? {
      IR.ClosuresPartition(s, projectId, id, id);
      IR.ClosuresPartition(later, projectId, id, id);
      forall c | c in I.Members(s, projectId, IR.Root(s, id)) ensures c in I.Members(later, projectId, IR.Root(later, id)) {
        RootsStayShared(s, later, projectId, id, c);
      }
    }
  }

  lemma RootsStayShared(s: I.Tables, later: I.Tables, projectId: string, id: string, c: string)
    requires IR.Inv(s) && IR.Inv(later) && IR.Extends(s, later)
    requires I.ById(s, projectId, id).Some? && c in I.Members(s, projectId, IR.Root(s, id))
    ensures c in I.Members(later, projectId, IR.Root(later, id))
  {
    hide IR.PrimaryIndexed, IR.AliasesOk, IR.Audited;
    var root := IR.Root(s, id);
    assert root in s.customers && s.customers[root].projectId == projectId;
    assert later.customers[c].Key() == s.customers[c].Key() && later.customers[id].Key() == s.customers[id].Key();
    if later.customers[id].mergedInto.Some? {
      assert IR.IsRoot(later, projectId, later.customers[id].mergedInto.value);
    }
    if later.customers[c].mergedInto.Some? {
      assert IR.IsRoot(later, projectId, later.customers[c].mergedInto.value);
    }
  }

  /** A new merge adds the source customer, who had no one else, to the canonical closure. */
  lemma MergeUnites(s: I.Tables, w: I.MergeWrite, mergeId: string, conflict: bool)
    requires IR.Inv(s) && I.AfterMerge(s, w, mergeId, conflict).1.Ok?
    requires !I.AfterMerge(s, w, mergeId, conflict).1.value.replay
    ensures var t := I.AfterMerge(s, w, mergeId, conflict).0;
      && I.Closure(s, w.projectId, w.sourceId) == Ok((w.sourceId, {w.sourceId}))
      && I.Closure(t, w.projectId, w.canonicalId)
         == Ok((w.canonicalId, I.Members(s, w.projectId, w.canonicalId) + {w.sourceId}))
      && I.Closure(t, w.projectId, w.sourceId) == I.Closure(t, w.projectId, w.canonicalId)
  {
    hide ValidIdentifier, IR.PrimaryIndexed, IR.AliasesOk, IR.Audited, I.OwnsAlias;
    var t := I.AfterMerge(s, w, mergeId, conflict).0;
    assert t.customers == s.customers[w.sourceId := s.customers[w.sourceId].(mergedInto := Some(w.canonicalId))];
    assert !I.OwnsMerge(s, w.projectId, w.sourceId);
    assert I.Members(s, w.projectId, w.sourceId) == {w.sourceId};
    assert I.Members(t, w.projectId, w.canonicalId) == I.Members(s, w.projectId, w.canonicalId) + {w.sourceId};
  }
}
