/** What an exported row grants at import time, and which row of a lineage decides. */
module ImportDecision {
  import opened Text
  import opened Entitlements
  import opened ImportRows

  datatype ProductKind = Consumable | NonConsumable | Subscription

  datatype Decision = Decision(access: Access, reason: Reason, period: Period, refundDisagreement: bool)

  datatype Code = UnsupportedProductKind | MissingEffectiveEnd | ProductKindMismatch

  // ------------------------------------------------------- what a row grants

  function StartOf(row: SourceRow): Time {
    if row.start.Some? then row.start.value else ZERO_TIME
  }

  predicate Ends(row: SourceRow, now: Time) {
    row.effectiveEnd.Some? && row.effectiveEnd.value <= now
  }

  /** The row has a start, no refund, and `now` lies in its half-open period. */
  predicate GrantsAt(row: SourceRow, now: Time) {
    row.refunded.None? && StartOf(row) != ZERO_TIME && StartOf(row) <= now && !Ends(row, now)
  }

  predicate KindMismatch(row: SourceRow, kind: Option<ProductKind>) {
    kind.Some? && kind.value != (if row.effectiveEnd.None? then NonConsumable else Subscription)
  }

  /** A row that would grant now but has no usable period. */
  predicate NoPeriod(row: SourceRow, now: Time) {
    row.refunded.None? && !Ends(row, now)
    && (StartOf(row) == ZERO_TIME || (row.effectiveEnd.Some? && row.effectiveEnd.value <= StartOf(row)))
  }

  function FailureOf(row: SourceRow, kind: Option<ProductKind>, now: Time): Option<Code> {
    if kind == Some(Consumable) then Some(UnsupportedProductKind)
    else if row.effectiveEnd.None? && row.autoRenewable then Some(MissingEffectiveEnd)
    else if KindMismatch(row, kind) then Some(ProductKindMismatch)
    else if NoPeriod(row, now) then Some(MissingEffectiveEnd)
    else None
  }

  function PeriodOf(row: SourceRow): Period {
    var start := StartOf(row);
    Period(start, if start == ZERO_TIME || (row.effectiveEnd.Some? && row.effectiveEnd.value <= start) then None
                  else row.effectiveEnd)
  }

  /** The decision a row leads to, field by field. */
  ghost predicate Decides(row: SourceRow, kind: Option<ProductKind>, now: Time, r: Result<Decision, Code>) {
    match FailureOf(row, kind, now)
    case Some(code) => r == Err(code)
    case None =>
      && r.Ok?
      && r.value.access == (if GrantsAt(row, now) then Allowed else Denied)
      && r.value.reason == ReasonOf(row, now)
      && r.value.period == PeriodOf(row)
      && (r.value.refundDisagreement <==> row.refunded.Some? && row.effectiveEnd.Some? && row.effectiveEnd.value > now)
  }

  function ReasonOf(row: SourceRow, now: Time): Reason {
    if row.refunded.Some? then Refunded
    else if Ends(row, now) then
      if row.autoResume.Some? && row.autoResume.value > now then Paused
      else if row.billing.Some? then BillingIssue
      else Expired
    else if now < StartOf(row) then ProviderDecision
    else if row.effectiveEnd.None? then PurchaseValid
    else if row.grace.Some? && row.grace.value > now && (row.end.None? || row.end.value <= now) then GracePeriod
    else if row.unsubscribe.Some? then CanceledAtPeriodEnd
    else PurchaseValid
  }

  /** Evaluates one winning export row at the command clock, field by field. */
  method DecideAccess(row: SourceRow, kind: Option<ProductKind>, now: Time) returns (r: Result<Decision, Code>)
    ensures Decides(row, kind, now, r)
  {
    if kind == Some(Consumable) {
      return Err(UnsupportedProductKind);
    }
    var boundary := row.effectiveEnd;
    if boundary.None? && row.autoRenewable {
      return Err(MissingEffectiveEnd);
    }
    var durable := boundary.None? && !row.autoRenewable;
    if kind.Some? && durable && kind.value != NonConsumable {
      return Err(ProductKindMismatch);
    }
    if kind.Some? && boundary.Some? && kind.value != Subscription {
      return Err(ProductKindMismatch);
    }
    var access: Access;
    var reason: Reason;
    var start, end := ZERO_TIME, None;
    var disagreement := false;
    if row.refunded.Some? {
      access, reason := Denied, Refunded;
      if boundary.Some? && boundary.value > now {
        disagreement := true;
      }
    } else if boundary.None? {
      access, reason := Allowed, PurchaseValid;
    } else if now >= boundary.value {
      access := Denied;
      if row.autoResume.Some? && row.autoResume.value > now {
        reason := Paused;
      } else if row.billing.Some? {
        reason := BillingIssue;
      } else {
        reason := Expired;
      }
    } else {
      access := Allowed;
      if row.grace.Some? && row.grace.value > now && (row.end.None? || now >= row.end.value) {
        reason := GracePeriod;
      } else if row.unsubscribe.Some? {
        reason := CanceledAtPeriodEnd;
      } else {
        reason := PurchaseValid;
      }
    }
    if row.start.Some? {
      start := row.start.value;
    }
    if boundary.Some? {
      end := boundary;
    }
    if access == Allowed && start == ZERO_TIME {
      return Err(MissingEffectiveEnd);
    }
    if start == ZERO_TIME {
      end := None;
    }
    if end.Some? && start != ZERO_TIME && end.value <= start {
      if access == Allowed {
        return Err(MissingEffectiveEnd);
      }
      end := None;
    }
    if access == Allowed && now < start {
      access := Denied;
      reason := ProviderDecision;
    }
    return Ok(Decision(access, reason, Period(start, end), disagreement));
  }

  // --------------------------------------------------------- what it promises

  /** The stored period is always one the projection accepts, an allowed decision has
      begun and has not ended, and a denied one never reads as allowed later. */
  lemma DecisionsAreStorable(row: SourceRow, kind: Option<ProductKind>, now: Time, r: Result<Decision, Code>)
    requires Decides(row, kind, now, r) && r.Ok?
    ensures r.value.period.Valid()
    ensures r.value.access == Allowed ==>
              && r.value.period.startsAt != ZERO_TIME && r.value.period.startsAt <= now
              && r.value.period.endsAt == row.effectiveEnd
    ensures forall t :: AccessAt(r.value.access, r.value.reason, r.value.period.endsAt, t).0.Allowed? ==>
                          r.value.access == Allowed
  {
  }

  /** At every later instant the stored decision reads as a fresh decision of the same row
      would, exactly unless the row starts in the future. */
  lemma StoredDecisionsStayRight(row: SourceRow, kind: Option<ProductKind>, now: Time, r: Result<Decision, Code>)
    requires Decides(row, kind, now, r) && r.Ok?
    ensures (forall t | now <= t ::
               AccessAt(r.value.access, r.value.reason, r.value.period.endsAt, t).0.Allowed? <==> GrantsAt(row, t))
            <==> !(now < StartOf(row) && GrantsAt(row, StartOf(row)))
  {
    var d := r.value;
    if now < StartOf(row) && GrantsAt(row, StartOf(row)) {
      var t := StartOf(row);
      assert now <= t && GrantsAt(row, t) && !AccessAt(d.access, d.reason, d.period.endsAt, t).0.Allowed?;
    } else {
      forall t | now <= t
        ensures AccessAt(d.access, d.reason, d.period.endsAt, t).0.Allowed? <==> GrantsAt(row, t)
      {
      }
    }
  }

  // ------------------------------------------------------- which row decides

  function TimeOr(t: Option<Time>): Time {
    if t.Some? then t.value else ZERO_TIME
  }

  /** A more recent record of the lineage. */
  predicate After(row: SourceRow, other: SourceRow) {
    if TimeOr(row.updated) != TimeOr(other.updated) then TimeOr(row.updated) > TimeOr(other.updated)
    else if row.effectiveEnd.Some? != other.effectiveEnd.Some? then row.effectiveEnd.Some?
    else if row.effectiveEnd.Some? && row.effectiveEnd.value != other.effectiveEnd.value then
      row.effectiveEnd.value > other.effectiveEnd.value
    else StartOf(row) > StartOf(other)
  }

  predicate Tied(row: SourceRow, other: SourceRow) {
    TimeOr(row.updated) == TimeOr(other.updated) && row.effectiveEnd == other.effectiveEnd && StartOf(row) == StartOf(other)
  }

  /** The comparison is a strict weak order whose ties are the rows with equal keys. */
  lemma AfterIsAWeakOrder(a: SourceRow, b: SourceRow, c: SourceRow)
    ensures !(After(a, b) && After(b, a))
    ensures After(a, b) && After(b, c) ==> After(a, c)
    ensures !After(a, b) && !After(b, a) <==> Tied(a, b)
    ensures Tied(a, b) && After(b, c) ==> After(a, c)
  {
  }

  /** The first of the most recent rows. */
  ghost predicate IsWinner(rows: seq<SourceRow>, i: nat) {
    && i < |rows|
    && (forall j | 0 <= j < |rows| :: !After(rows[j], rows[i]))
    && (forall j | 0 <= j < i :: After(rows[i], rows[j]))
  }

  /** Keeps the current row unless the next one is more recent. */
  method WinningRow(rows: seq<SourceRow>) returns (i: nat)
    requires rows != []
    ensures IsWinner(rows, i)
  {
    i := 0;
    for n := 1 to |rows|
      invariant i < n
      invariant forall j | 0 <= j < n :: !After(rows[j], rows[i])
      invariant forall j | 0 <= j < i :: After(rows[i], rows[j])
    {
      if After(rows[n], rows[i]) {
        forall j | 0 <= j < n ensures After(rows[n], rows[j]) {
          AfterIsAWeakOrder(rows[n], rows[i], rows[j]);
          AfterIsAWeakOrder(rows[j], rows[i], rows[j]);
          AfterIsAWeakOrder(rows[n], rows[j], rows[i]);
        }
        i := n;
        AfterIsAWeakOrder(rows[i], rows[i], rows[i]);
        forall j | 0 <= j < n ensures !After(rows[j], rows[i]) {
          AfterIsAWeakOrder(rows[i], rows[j], rows[j]);
        }
      }
    }
  }

  /** Another order of the same rows can only change the winner among tied rows. */
  lemma OrderOnlyBreaksTies(a: seq<SourceRow>, b: seq<SourceRow>, i: nat, j: nat)
    requires multiset(a) == multiset(b) && IsWinner(a, i) && IsWinner(b, j)
    ensures Tied(a[i], b[j])
  {
    SameMembers(a, b);
    assert a[i] in b && b[j] in a;
    AfterIsAWeakOrder(a[i], b[j], a[i]);
  }

  // ----------------------------------------------- outcomes by the row's fields

  /** A row without an end that renews itself. */
  predicate Endless(row: SourceRow) {
    row.effectiveEnd.None? && row.autoRenewable
  }

  predicate IsOfWrongKind(row: SourceRow, kind: Option<ProductKind>) {
    || (kind == Some(Subscription) && row.effectiveEnd.None?)
    || (kind == Some(NonConsumable) && row.effectiveEnd.Some?)
  }

  predicate HasEnded(row: SourceRow, now: Time) {
    row.effectiveEnd.Some? && row.effectiveEnd.value <= now
  }

  predicate HasStart(row: SourceRow) {
    row.start.Some? && row.start.value != 0
  }

  /** Which code a row is refused with. */
  lemma RefusedExactly(row: SourceRow, kind: Option<ProductKind>, now: Time, r: Result<Decision, Code>)
    requires Decides(row, kind, now, r)
    ensures r == Err(UnsupportedProductKind) <==> kind == Some(Consumable)
    ensures r == Err(ProductKindMismatch) <==>
            kind != Some(Consumable) && !Endless(row) && IsOfWrongKind(row, kind)
    ensures r == Err(MissingEffectiveEnd) <==>
            && kind != Some(Consumable)
            && (Endless(row)
                || (!IsOfWrongKind(row, kind) && row.refunded.None? && !HasEnded(row, now)
                    && (!HasStart(row) || (row.effectiveEnd.Some? && row.effectiveEnd.value <= row.start.value))))
  {
  }

  /** What an accepted row grants, and why: each reason with its condition. */
  lemma DecidedExactly(row: SourceRow, kind: Option<ProductKind>, now: Time, r: Result<Decision, Code>)
    requires Decides(row, kind, now, r) && r.Ok?
    ensures var d := r.value; var open := row.refunded.None? && !HasEnded(row, now);
            var ended := row.refunded.None? && HasEnded(row, now);
            var running := open && HasStart(row) && row.start.value <= now;
            var inGrace := row.effectiveEnd.Some? && row.grace.Some? && now < row.grace.value
                           && (row.end.None? || row.end.value <= now);
            && (d.access == Allowed <==> running) && (d.access == Denied <==> !running)
            && (d.reason == Refunded <==> row.refunded.Some?)
            && (d.reason == Paused <==> ended && row.autoResume.Some? && now < row.autoResume.value)
            && (d.reason == BillingIssue <==>
                  ended && !(row.autoResume.Some? && now < row.autoResume.value) && row.billing.Some?)
            && (d.reason == Expired <==>
                  ended && !(row.autoResume.Some? && now < row.autoResume.value) && row.billing.None?)
            && (d.reason == ProviderDecision <==> open && now < row.start.value)
            && (d.reason == GracePeriod <==> running && inGrace)
            && (d.reason == CanceledAtPeriodEnd <==>
                  running && row.effectiveEnd.Some? && !inGrace && row.unsubscribe.Some?)
            && (d.reason == PurchaseValid <==>
                  running && !inGrace && (row.effectiveEnd.None? || row.unsubscribe.None?))
            && (d.period.startsAt == if row.start.Some? then row.start.value else 0)
            && (d.period.endsAt == if HasStart(row) && row.effectiveEnd.Some? && row.start.value < row.effectiveEnd.value
                                   then row.effectiveEnd else None)
            && (d.refundDisagreement <==> row.refunded.Some? && row.effectiveEnd.Some? && now < row.effectiveEnd.value)
  {
  }

  /** `a` is at least as recent: updated later, or at the same time with a later end, where
      an end counts above none, or with the same end and a start no earlier. */
  predicate AtLeastAsRecent(a: SourceRow, b: SourceRow) {
    || TimeOr(a.updated) > TimeOr(b.updated)
    || (TimeOr(a.updated) == TimeOr(b.updated)
        && ((a.effectiveEnd.Some? && (b.effectiveEnd.None? || a.effectiveEnd.value > b.effectiveEnd.value))
            || (a.effectiveEnd == b.effectiveEnd && TimeOr(a.start) >= TimeOr(b.start))))
  }

  /** The winner is the first of the rows that are at least as recent as every other. */
  lemma WinnerIsTheMostRecent(rows: seq<SourceRow>, i: nat)
    requires i < |rows|
    ensures IsWinner(rows, i) <==>
            && (forall j | 0 <= j < |rows| :: AtLeastAsRecent(rows[i], rows[j]))
            && (forall j | 0 <= j < i :: !AtLeastAsRecent(rows[j], rows[i]))
  {
    forall j | 0 <= j < |rows|
      ensures After(rows[j], rows[i]) <==> !AtLeastAsRecent(rows[i], rows[j])
      ensures After(rows[i], rows[j]) <==> !AtLeastAsRecent(rows[j], rows[i])
    {
    }
  }
}
