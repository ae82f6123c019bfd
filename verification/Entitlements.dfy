/** Entitlement projections, the sources they are chosen from, and the orders
    that rank those sources. */
module Entitlements {
  import opened Text

  /** An instant counted from Go's zero time. */
  type Time = int

  const ZERO_TIME: Time := 0

  datatype Access = Allowed | Denied | Unresolved | OtherAccess(text: string)

  datatype Reason =
    | PurchaseValid | GracePeriod | PendingPayment | CanceledAtPeriodEnd | Expired | BillingIssue
    | Paused | Refunded | Revoked | ProviderDecision | UnresolvedReason | OtherReason(text: string)

  /** `Unspecified` is the empty source kind, which counts as a store observation. */
  datatype SourceKind = Unspecified | StoreObservation | ImportGrant | OtherKind(text: string)

  datatype Period = Period(startsAt: Time, endsAt: Option<Time>) {
    predicate Valid() {
      if startsAt == ZERO_TIME then endsAt.None?
      else endsAt.Some? ==> startsAt < endsAt.value
    }
  }

  datatype Projection = Projection(
    projectId: string,
    customerId: string,
    entitlementId: string,
    kind: SourceKind,
    observationId: string,
    importId: string,
    productId: string,
    sourceCustomerId: string,
    access: Access,
    reason: Reason,
    period: Period)
  {
    function Normalized(): Projection {
      this.(sourceCustomerId := if sourceCustomerId == "" then customerId else sourceCustomerId,
            kind := if kind.Unspecified? then StoreObservation else kind)
    }

    predicate IsStore() {
      Normalized().kind == StoreObservation
    }

    predicate IsImport() {
      Normalized().kind == ImportGrant
    }

    predicate ValidSource() {
      if IsStore() then importId == "" && ValidIdentifier(observationId)
      else IsImport() && observationId == "" && ValidIdentifier(importId)
    }

    predicate Valid() {
      && ValidIdentifier(projectId) && ValidIdentifier(customerId) && ValidIdentifier(entitlementId)
      && ValidSource() && ValidIdentifier(productId)
      && (sourceCustomerId == "" || ValidIdentifier(sourceCustomerId))
      && !access.OtherAccess? && !reason.OtherReason? && period.Valid()
    }

    /** The stable id that breaks equal observation times. */
    function SourceIdentity(): string {
      if IsImport() then importId else observationId
    }
  }

  /** One proposed projection with its purchase lineage and observation time. */
  datatype Candidate = Candidate(
    projection: Projection,
    applicationId: string,
    lineage: string,
    observedAt: Time)
  {
    predicate Valid() {
      observedAt != ZERO_TIME && projection.Valid() && ValidIdentifier(applicationId)
    }

    function Source(): SourceKey {
      SourceKey(applicationId, projection.productId, lineage)
    }

    function Product(): ProductKey {
      ProductKey(projection.entitlementId, applicationId, projection.productId)
    }
  }

  /** One versioned current projection with the origin of its source. */
  datatype CurrentEntitlement = CurrentEntitlement(
    projection: Projection,
    applicationId: string,
    lineage: string,
    version: nat)
  {
    function Source(): SourceKey {
      SourceKey(applicationId, projection.productId, lineage)
    }

    function Product(): ProductKey {
      ProductKey(projection.entitlementId, applicationId, projection.productId)
    }
  }

  /** One independent purchase lineage of an application product. */
  datatype SourceKey = SourceKey(applicationId: string, productId: string, lineage: string)

  /** Every lineage of one application product that grants one entitlement. */
  datatype ProductKey = ProductKey(entitlementId: string, applicationId: string, productId: string)

  /** An allowed period whose exclusive end is not after `now` is expired. */
  function AccessAt(access: Access, reason: Reason, endsAt: Option<Time>, now: Time): (Access, Reason) {
    if access.Allowed? && endsAt.Some? && endsAt.value <= now then (Denied, Expired) else (access, reason)
  }

  predicate AllowedAt(p: Projection, now: Time) {
    AccessAt(p.access, p.reason, p.period.endsAt, now).0.Allowed?
  }

  function Strength(access: Access): nat {
    match access
    case Allowed => 3
    case Unresolved => 2
    case Denied => 1
    case OtherAccess(_) => 0
  }

  function KindRank(p: Projection): int {
    if p.IsImport() then 1 else 2
  }

  /** Ranks two allowed projections by when their access ends, no end highest;
      zero when either is not allowed. */
  function CompareEnd(c: Projection, e: Projection): int {
    if !c.access.Allowed? || !e.access.Allowed? then 0
    else match (c.period.endsAt, e.period.endsAt)
      case (None, None) => 0
      case (None, Some(_)) => 1
      case (Some(_), None) => -1
      case (Some(x), Some(y)) => if x > y then 1 else if x < y then -1 else 0
  }

  /** The later lifecycle state of one purchase lineage. */
  predicate Newer(c: Candidate, e: Candidate) {
    if KindRank(c.projection) != KindRank(e.projection) then KindRank(c.projection) > KindRank(e.projection)
    else if c.observedAt != e.observedAt then c.observedAt > e.observedAt
    else Less(c.projection.SourceIdentity(), e.projection.SourceIdentity())
  }

  /** The ranking of competing sources of one entitlement. */
  predicate Preferred(c: Candidate, e: Candidate) {
    if Strength(c.projection.access) != Strength(e.projection.access)
    then Strength(c.projection.access) > Strength(e.projection.access)
    else if KindRank(c.projection) != KindRank(e.projection) then KindRank(c.projection) > KindRank(e.projection)
    else if CompareEnd(c.projection, e.projection) != 0 then CompareEnd(c.projection, e.projection) > 0
    else if c.observedAt != e.observedAt then c.observedAt > e.observedAt
    else Less(c.projection.SourceIdentity(), e.projection.SourceIdentity())
  }

  /** Whether an import would be kept over a store observation of equal strength. */
  predicate ImportLosesToStore(current: Projection, chosen: Projection) {
    current.IsImport() && chosen.IsStore()
  }

  /** Two different candidates of one kind and entitlement cite different ids. */
  ghost predicate DistinctIdentities(cs: seq<Candidate>) {
    forall c, d | c in cs && d in cs && c != d
      && c.projection.entitlementId == d.projection.entitlementId
      && c.projection.IsImport() == d.projection.IsImport() ::
      c.projection.SourceIdentity() != d.projection.SourceIdentity()
  }

  lemma NewerTransitive(a: Candidate, b: Candidate, c: Candidate)
    requires Newer(a, b) && Newer(b, c)
    ensures Newer(a, c)
  {
    if KindRank(a.projection) == KindRank(b.projection) == KindRank(c.projection)
      && a.observedAt == b.observedAt == c.observedAt {
      LessTransitive(a.projection.SourceIdentity(), b.projection.SourceIdentity(), c.projection.SourceIdentity());
    }
  }

  lemma PreferredTransitive(a: Candidate, b: Candidate, c: Candidate)
    requires Preferred(a, b) && Preferred(b, c)
    ensures Preferred(a, c)
  {
    if Strength(a.projection.access) == Strength(b.projection.access) == Strength(c.projection.access)
      && KindRank(a.projection) == KindRank(b.projection) == KindRank(c.projection)
      && CompareEnd(a.projection, b.projection) == 0 && CompareEnd(b.projection, c.projection) == 0
      && a.observedAt == b.observedAt == c.observedAt {
      LessTransitive(a.projection.SourceIdentity(), b.projection.SourceIdentity(), c.projection.SourceIdentity());
    }
  }

  lemma NewerIrreflexive(a: Candidate)
    ensures !Newer(a, a)
  {
    LessIrreflexive(a.projection.SourceIdentity());
  }

  lemma PreferredIrreflexive(a: Candidate)
    ensures !Preferred(a, a)
  {
    LessIrreflexive(a.projection.SourceIdentity());
  }

  /** Both rankings order any two different candidates of one entitlement once
      same-kind identities differ. */
  lemma RankingsAreTotal(cs: seq<Candidate>, a: Candidate, b: Candidate)
    requires DistinctIdentities(cs)
    requires a in cs && b in cs && a != b
    requires a.projection.entitlementId == b.projection.entitlementId
    ensures Newer(a, b) != Newer(b, a)
    ensures Preferred(a, b) != Preferred(b, a)
  {
    if KindRank(a.projection) == KindRank(b.projection) {
      LessTotal(a.projection.SourceIdentity(), b.projection.SourceIdentity());
    }
    if Newer(a, b) && Newer(b, a) {
      NewerTransitive(a, b, a);
      NewerIrreflexive(a);
    }
    if Preferred(a, b) && Preferred(b, a) {
      PreferredTransitive(a, b, a);
      PreferredIrreflexive(a);
    }
  }
}
