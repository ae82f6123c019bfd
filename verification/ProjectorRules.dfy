/** The projector's decision in terms of the fields of its inputs: which candidates speak
    for their purchase lineages, which of them ranks first, when the current source is
    kept, and when nothing is written. */
module ProjectorRules {
  import opened Text
  import opened Entitlements
  import opened Projector
  import opened ProjectorLaws

  predicate FromImport(p: Projection) {
    p.kind.ImportGrant?
  }

  function CitedId(p: Projection): string {
    if FromImport(p) then p.importId else p.observationId
  }

  // ------------------------------------------------------- accepted inputs

  predicate RowFine(r: CurrentEntitlement) {
    r.projection.Valid() && ValidIdentifier(r.applicationId)
  }

  ghost predicate RowsFine(rows: seq<CurrentEntitlement>) {
    && (forall r | r in rows :: RowFine(r))
    && forall i, j | 0 <= i < j < |rows| :: rows[i].projection.entitlementId != rows[j].projection.entitlementId
  }

  ghost predicate NamesRow(rows: seq<CurrentEntitlement>, e: string) {
    exists r | r in rows :: r.projection.entitlementId == e
  }

  ghost predicate FirstRepeat(current: seq<CurrentEntitlement>, e: string) {
    exists i | 0 <= i < |current| ::
      RowsFine(current[..i]) && RowFine(current[i]) && current[i].projection.entitlementId == e && NamesRow(current[..i], e)
  }

  lemma {:induction false} RowErrorIsFirst(current: seq<CurrentEntitlement>)
    ensures match CurrentError(current)
            case None => RowsFine(current)
            case Some(CurrentInvalid(i)) => i < |current| && RowsFine(current[..i]) && !RowFine(current[i])
            case Some(DuplicateCurrent(e)) => FirstRepeat(current, e)
            case Some(CandidateInvalid(_)) => false
  {
    if current == [] {
    } else {
      hide CurrentError, RowFine, RowsFine, NamesRow, FirstRepeat;
      var n := |current| - 1;
      RowErrorIsFirst(current[..n]);
      RowStep(current);
      MoreRows(current);
      if CurrentError(current[..n]).Some? {
        match CurrentError(current[..n]).value
        case CurrentInvalid(i) => assert current[..n][..i] == current[..i];
        case DuplicateCurrent(e) => RepeatStays(current, e);
        case CandidateInvalid(_) =>
      }
    }
  }

  lemma MoreRows(current: seq<CurrentEntitlement>)
    requires current != []
    ensures var before, last := current[..|current| - 1], current[|current| - 1];
            && (RowsFine(current) <==>
                  RowsFine(before) && RowFine(last) && !NamesRow(before, last.projection.entitlementId))
            && (RowsFine(before) && RowFine(last) && NamesRow(before, last.projection.entitlementId) ==>
                  FirstRepeat(current, last.projection.entitlementId))
  {
    hide RowFine;
    var before, last := current[..|current| - 1], current[|current| - 1];
    Members(current);
    assert forall i | 0 <= i < |before| :: before[i] == current[i];
    if RowsFine(current) {
      forall r | r in before ensures r.projection.entitlementId != last.projection.entitlementId {
        var i :| 0 <= i < |before| && before[i] == r;
      }
    }
  }

  lemma RepeatStays(current: seq<CurrentEntitlement>, e: string)
    requires current != [] && FirstRepeat(current[..|current| - 1], e)
    ensures FirstRepeat(current, e)
  {
    hide RowFine, RowsFine, NamesRow;
    var before := current[..|current| - 1];
    var i :| 0 <= i < |before| && RowsFine(before[..i]) && RowFine(before[i])
             && before[i].projection.entitlementId == e && NamesRow(before[..i], e);
    assert before[..i] == current[..i] && before[i] == current[i];
  }

  lemma RowStep(current: seq<CurrentEntitlement>)
    requires current != []
    ensures var n := |current| - 1;
            && (CurrentError(current[..n]).Some? ==> CurrentError(current) == CurrentError(current[..n]))
            && (CurrentError(current[..n]).None? ==>
                  CurrentError(current) == if !RowFine(current[n]) then Some(CurrentInvalid(n))
                                           else if NamesRow(current[..n], current[n].projection.entitlementId)
                                             then Some(DuplicateCurrent(current[n].projection.entitlementId))
                                           else None)
  {
    hide Projection.Valid, ValidIdentifier;
    CurrentRows(current[..|current| - 1]);
  }

  lemma {:induction false} CandidateErrorIsFirst(cs: seq<Candidate>)
    ensures match CandidateError(cs)
            case None => forall c | c in cs :: c.Valid()
            case Some(CandidateInvalid(i)) => i < |cs| && !cs[i].Valid() && forall j | 0 <= j < i :: cs[j].Valid()
            case Some(_) => false
  {
    hide Candidate.Valid;
    if cs != [] {
      CandidateErrorIsFirst(cs[..|cs| - 1]);
      Members(cs);
    }
  }

  /** Rows are checked before candidates, in order; the error names the first that is
      invalid or repeats an entitlement, and without any the input is accepted. */
  lemma ErrorNamesTheFirst(current: seq<CurrentEntitlement>, cs: seq<Candidate>)
    ensures match InputError(current, cs)
            case None => RowsFine(current) && forall c | c in cs :: c.Valid()
            case Some(CurrentInvalid(i)) => i < |current| && RowsFine(current[..i]) && !RowFine(current[i])
            case Some(DuplicateCurrent(e)) => FirstRepeat(current, e)
            case Some(CandidateInvalid(i)) =>
              RowsFine(current) && i < |cs| && !cs[i].Valid() && forall j | 0 <= j < i :: cs[j].Valid()
  {
    hide RowsFine, RowFine, FirstRepeat, Candidate.Valid;
    RowErrorIsFirst(current);
    CandidateErrorIsFirst(cs);
  }

  /** A valid candidate has an observation time, identifiers throughout, exactly the id of
      its kind of source, a known access and reason, and a period that ends after it
      starts and does not end without a start. */
  lemma ValidCandidatesAre(c: Candidate)
    ensures c.Valid() <==>
            var p := c.projection;
            && c.observedAt != 0 && ValidIdentifier(c.applicationId)
            && ValidIdentifier(p.projectId) && ValidIdentifier(p.customerId) && ValidIdentifier(p.entitlementId)
            && ValidIdentifier(p.productId) && (p.sourceCustomerId == "" || ValidIdentifier(p.sourceCustomerId))
            && (match p.kind
                case Unspecified => ValidIdentifier(p.observationId) && p.importId == ""
                case StoreObservation => ValidIdentifier(p.observationId) && p.importId == ""
                case ImportGrant => ValidIdentifier(p.importId) && p.observationId == ""
                case OtherKind(_) => false)
            && !p.access.OtherAccess? && !p.reason.OtherReason?
            && (p.period.endsAt.Some? ==> p.period.startsAt != 0 && p.period.startsAt < p.period.endsAt.value)
  {
    hide ValidIdentifier;
  }

  // ---------------------------------------------------------- who may speak

  /** A store observation of the candidate's entitlement, application and product. */
  predicate StoreTwin(d: Candidate, entitlementId: string, applicationId: string, productId: string) {
    && !FromImport(d.projection) && d.projection.entitlementId == entitlementId
    && d.applicationId == applicationId && d.projection.productId == productId
  }

  ghost predicate HasStoreTwin(cs: seq<Candidate>, entitlementId: string, applicationId: string, productId: string) {
    exists d | d in cs :: StoreTwin(d, entitlementId, applicationId, productId)
  }

  /** An import beside a store observation of its product does not count. */
  ghost predicate Speaks(cs: seq<Candidate>, e: string, c: Candidate) {
    && c in cs && c.projection.entitlementId == e
    && !(FromImport(c.projection) && HasStoreTwin(cs, e, c.applicationId, c.projection.productId))
  }

  predicate SameLineage(c: Candidate, d: Candidate) {
    c.applicationId == d.applicationId && c.projection.productId == d.projection.productId && c.lineage == d.lineage
  }

  /** `d` is the later state of a lineage: a store observation before an import, then the
      one observed later, then the smaller id. */
  predicate Later(d: Candidate, c: Candidate) {
    || (!FromImport(d.projection) && FromImport(c.projection))
    || (FromImport(d.projection) == FromImport(c.projection)
        && (d.observedAt > c.observedAt
            || (d.observedAt == c.observedAt && Less(CitedId(d.projection), CitedId(c.projection)))))
  }

  ghost predicate Latest(cs: seq<Candidate>, e: string, c: Candidate) {
    Speaks(cs, e, c) && forall d | Speaks(cs, e, d) && SameLineage(d, c) :: !Later(d, c)
  }

  /** One latest candidate for each lineage that speaks for the entitlement. */
  ghost predicate LatestPerLineage(sources: Sources, cs: seq<Candidate>, e: string) {
    && (forall k | k in sources :: Latest(cs, e, sources[k])
          && k == SourceKey(sources[k].applicationId, sources[k].projection.productId, sources[k].lineage))
    && (forall c | Speaks(cs, e, c) :: SourceKey(c.applicationId, c.projection.productId, c.lineage) in sources)
  }

  lemma LaterIsNewer(d: Candidate, c: Candidate)
    ensures Later(d, c) <==> Newer(d, c)
  {
  }

  lemma SpeakingIsNotSuperseded(cs: seq<Candidate>, e: string, c: Candidate)
    requires forall d | d in cs :: d.projection.IsStore() <==> !FromImport(d.projection)
    ensures Speaks(cs, e, c) <==> c in cs && c.projection.entitlementId == e && !Superseded(c, StoreProducts(cs))
  {
    if c in cs && c.projection.entitlementId == e {
      InStoreProducts(cs, c.Product());
      if HasStoreTwin(cs, e, c.applicationId, c.projection.productId) {
        var d :| d in cs && StoreTwin(d, e, c.applicationId, c.projection.productId);
        assert d.projection.IsStore() && d.Product() == c.Product();
      }
      if d :| d in cs && d.projection.IsStore() && d.Product() == c.Product() {
        assert StoreTwin(d, e, c.applicationId, c.projection.productId);
      }
    }
  }

  lemma ValidKinds(cs: seq<Candidate>)
    requires forall c | c in cs :: c.Valid()
    ensures forall c | c in cs :: c.projection.IsStore() <==> !FromImport(c.projection)
  {
    hide ValidIdentifier, Period.Valid;
    forall c | c in cs ensures c.projection.IsStore() <==> !FromImport(c.projection) {
      assert c.Valid();
    }
  }

  /** The projector's groups are these sources. */
  lemma GroupsHoldTheLatest(cs: seq<Candidate>, e: string)
    requires forall c | c in cs :: c.Valid()
    ensures e in GroupsOf(cs) <==> exists c :: Speaks(cs, e, c)
    ensures e in GroupsOf(cs) ==> LatestPerLineage(GroupsOf(cs)[e], cs, e) && GroupsOf(cs)[e] != map[]
  {
    hide Candidate.Valid, Newer, Later, HasStoreTwin, Superseded, Speaks;
    ValidKinds(cs);
    GroupedIsLatest(cs, StoreProducts(cs));
    forall c ensures Speaks(cs, e, c) <==> c in cs && c.projection.entitlementId == e && !Superseded(c, StoreProducts(cs)) {
      SpeakingIsNotSuperseded(cs, e, c);
    }
    if c :| Speaks(cs, e, c) {
      assert Unbeaten(GroupsOf(cs), c);
    }
    if e in GroupsOf(cs) {
      var k := SomeKeyOf(cs, e);
      GroupMember(cs, e, k);
      assert Speaks(cs, e, GroupsOf(cs)[e][k]);
      GroupIsLatest(cs, e);
    }
  }

  lemma SomeKeyOf(cs: seq<Candidate>, e: string) returns (k: SourceKey)
    requires e in GroupsOf(cs)
    ensures k in GroupsOf(cs)[e] && GroupsOf(cs)[e] != map[]
  {
    GroupedIsLatest(cs, StoreProducts(cs));
    var sources := GroupsOf(cs)[e];
    assert sources.Keys != {};
    k :| k in sources.Keys;
  }

  lemma GroupIsLatest(cs: seq<Candidate>, e: string)
    requires e in GroupsOf(cs)
    requires forall c :: Speaks(cs, e, c) <==> c in cs && c.projection.entitlementId == e && !Superseded(c, StoreProducts(cs))
    ensures LatestPerLineage(GroupsOf(cs)[e], cs, e)
  {
    hide Newer, Later, HasStoreTwin, Superseded, Speaks;
    GroupedIsLatest(cs, StoreProducts(cs));
    var groups := GroupsOf(cs);
    forall k | k in groups[e]
      ensures Latest(cs, e, groups[e][k])
      ensures k == SourceKey(groups[e][k].applicationId, groups[e][k].projection.productId, groups[e][k].lineage)
    {
      GroupMember(cs, e, k);
      forall d | Speaks(cs, e, d) && SameLineage(d, groups[e][k]) ensures !Later(d, groups[e][k]) {
        assert Unbeaten(groups, d);
        LaterIsNewer(d, groups[e][k]);
      }
    }
    forall c | Speaks(cs, e, c) ensures SourceKey(c.applicationId, c.projection.productId, c.lineage) in groups[e] {
      assert Unbeaten(groups, c);
    }
  }

  // ---------------------------------------------------------------- ranking

  predicate EndsNoLater(d: Projection, c: Projection) {
    c.period.endsAt.None? || (d.period.endsAt.Some? && d.period.endsAt.value <= c.period.endsAt.value)
  }

  /** `d` does not rank above `c`: allowed before unresolved before denied; then store
      before import; among allowed ones the later end; then the later observation; then
      the smaller id. */
  predicate NotAbove(d: Candidate, c: Candidate) {
    var p, q := d.projection, c.projection;
    && (p.access.Allowed? ==> q.access.Allowed?)
    && (p.access.Unresolved? ==> !q.access.Denied?)
    && (p.access == q.access && FromImport(q) ==> FromImport(p))
    && (p.access == q.access && FromImport(p) == FromImport(q) ==>
          && (q.access.Allowed? ==> EndsNoLater(p, q))
          && (!q.access.Allowed? || p.period.endsAt == q.period.endsAt ==>
                d.observedAt <= c.observedAt && (d.observedAt == c.observedAt ==> !Less(CitedId(p), CitedId(q)))))
  }

  ghost predicate RanksFirst(sources: Sources, c: Candidate) {
    c in sources.Values && forall k | k in sources :: NotAbove(sources[k], c)
  }

  lemma NotPreferredIsNotAbove(d: Candidate, c: Candidate)
    requires !d.projection.access.OtherAccess? && !c.projection.access.OtherAccess?
    ensures !Preferred(d, c) <==> NotAbove(d, c)
  {
  }

  lemma BestRanksFirst(sources: Sources, c: Candidate)
    requires forall k | k in sources :: !sources[k].projection.access.OtherAccess?
    ensures IsBest(sources, c) <==> RanksFirst(sources, c)
  {
    hide Preferred, NotAbove;
    if c in sources.Values {
      forall k | k in sources ensures !Preferred(sources[k], c) <==> NotAbove(sources[k], c) {
        var j :| j in sources && sources[j] == c;
        NotPreferredIsNotAbove(sources[k], c);
      }
    }
  }

  // --------------------------------------------------------- the current row

  function KeyOf(row: CurrentEntitlement): SourceKey {
    SourceKey(row.applicationId, row.projection.productId, row.lineage)
  }

  /** The row's source is kept when it has the access of the best one and, if allowed,
      lasts as long; but an import row gives way to a store observation. */
  predicate IsKept(row: CurrentEntitlement, own: Candidate, best: Candidate) {
    && own.projection.access == best.projection.access
    && (best.projection.access.Allowed? ==> EndsNoLater(best.projection, own.projection))
    && !(FromImport(row.projection) && !FromImport(best.projection))
  }

  function Chosen(sources: Sources, row: Option<CurrentEntitlement>, best: Candidate): Candidate {
    if row.Some? && KeyOf(row.value) in sources && IsKept(row.value, sources[KeyOf(row.value)], best)
    then sources[KeyOf(row.value)] else best
  }

  predicate AtLeast(a: Access, b: Access) {
    a.Allowed? || b.Denied? || (a.Unresolved? && b.Unresolved?)
  }

  /** The candidates say nothing about the row's own source. */
  ghost predicate NotReported(sources: Sources, cs: seq<Candidate>, row: CurrentEntitlement) {
    && KeyOf(row) !in sources
    && !(FromImport(row.projection)
         && HasStoreTwin(cs, row.projection.entitlementId, row.applicationId, row.projection.productId))
  }

  /** An unreported row of another product stays when its access is as strong. */
  ghost predicate IsPreserved(sources: Sources, cs: seq<Candidate>, row: CurrentEntitlement, c: Candidate) {
    && NotReported(sources, cs, row)
    && !(row.applicationId == c.applicationId && row.projection.productId == c.projection.productId)
    && AtLeast(row.projection.access, c.projection.access)
  }

  ghost predicate RowOf(current: seq<CurrentEntitlement>, e: string, row: Option<CurrentEntitlement>) {
    match row
    case None => !NamesRow(current, e)
    case Some(r) => r in current && r.projection.entitlementId == e
  }

  lemma RowIsCurrent(current: seq<CurrentEntitlement>, e: string, row: Option<CurrentEntitlement>)
    requires RowsFine(current) && RowOf(current, e, row)
    ensures CurrentOf(current, e) == row
  {
    hide RowFine;
    CurrentRows(current);
    if row.Some? {
      var i :| 0 <= i < |current| && current[i] == row.value;
      var j :| 0 <= j < |current| && current[j] == CurrentBy(current)[e];
    }
  }

  lemma ChosenIsStuck(sources: Sources, row: Option<CurrentEntitlement>, best: Candidate)
    requires IsBest(sources, best)
    requires forall k | k in sources :: !sources[k].projection.access.OtherAccess?
    requires best.projection.IsStore() <==> !FromImport(best.projection)
    ensures Stick(row, sources, best) == Chosen(sources, row, best)
  {
    hide Preferred;
    var i :| i in sources && sources[i] == best;
  }

  lemma PreservedIsSkipped(sources: Sources, cs: seq<Candidate>, row: CurrentEntitlement, c: Candidate)
    requires forall d | d in cs :: d.projection.IsStore() <==> !FromImport(d.projection)
    requires !row.projection.access.OtherAccess? && !c.projection.access.OtherAccess?
    ensures Skips(Some(row), sources, StoreProducts(cs), c) <==> IsPreserved(sources, cs, row, c)
  {
    InStoreProducts(cs, row.Product());
    var e, application, product := row.projection.entitlementId, row.applicationId, row.projection.productId;
    if HasStoreTwin(cs, e, application, product) {
      var d :| d in cs && StoreTwin(d, e, application, product);
      assert d.projection.IsStore() && d.Product() == row.Product();
    }
    if d :| d in cs && d.projection.IsStore() && d.Product() == row.Product() {
      assert StoreTwin(d, e, application, product);
    }
  }

  // --------------------------------------------------------------- the rules

  /** What is written for one entitlement, in terms of the inputs alone: from the latest
      candidate of each lineage that speaks, one that ranks first is taken, the row's own
      source is kept if it may be, and nothing is written for a preserved row. */
  lemma WrittenByTheRules(current: seq<CurrentEntitlement>, cs: seq<Candidate>, out: seq<Projection>, e: string,
                          row: Option<CurrentEntitlement>)
      returns (sources: Sources, best: Candidate)
    requires InputError(current, cs).None? && Projects(current, cs, out) && RowOf(current, e, row)
    requires exists c :: Speaks(cs, e, c)
    ensures LatestPerLineage(sources, cs, e) && RanksFirst(sources, best)
    ensures var c := Chosen(sources, row, best);
            && Find(out, e) == (if row.Some? && IsPreserved(sources, cs, row.value, c) then None else Some(c.projection))
  {
    hide Speaks, Latest, Candidate.Valid, InputError, Projects, Preferred, NotAbove, RowOf, RowFine, IsKept, Skips, IsPreserved;
    ErrorNamesTheFirst(current, cs);
    GroupsHoldTheLatest(cs, e);
    RowIsCurrent(current, e, row);
    ValidKinds(cs);
    sources := GroupsOf(cs)[e];
    var c;
    best, c := Selected(current, cs, out, e);
    SourcesAreKnown(cs, e, sources);
    BestRanksFirst(sources, best);
    var i :| i in sources && sources[i] == best;
    ChosenIsStuck(sources, row, best);
    var j :| j in sources && sources[j] == c;
    if row.Some? {
      RowAccessIsKnown(current, e, row.value);
      PreservedIsSkipped(sources, cs, row.value, c);
    } else {
      NoRowNoSkip(sources, StoreProducts(cs), c);
    }
  }

  lemma NoRowNoSkip(sources: Sources, stores: set<ProductKey>, c: Candidate)
    ensures !Skips(None, sources, stores, c)
  {
  }

  lemma RowAccessIsKnown(current: seq<CurrentEntitlement>, e: string, row: CurrentEntitlement)
    requires RowsFine(current) && RowOf(current, e, Some(row))
    ensures !row.projection.access.OtherAccess?
  {
    hide ValidIdentifier, Period.Valid;
    assert RowFine(row);
  }

  lemma SourcesAreKnown(cs: seq<Candidate>, e: string, sources: Sources)
    requires (forall c | c in cs :: c.Valid()) && LatestPerLineage(sources, cs, e)
    ensures forall k | k in sources :: sources[k] in cs && !sources[k].projection.access.OtherAccess?
  {
    hide ValidIdentifier, Period.Valid;
    forall k | k in sources ensures sources[k] in cs && !sources[k].projection.access.OtherAccess? {
      assert Latest(cs, e, sources[k]) && sources[k].Valid();
    }
  }

  /** An entitlement without candidates is not written. */
  lemma SilenceWritesNothing(current: seq<CurrentEntitlement>, cs: seq<Candidate>, out: seq<Projection>, e: string)
    requires InputError(current, cs).None? && Projects(current, cs, out)
    requires forall c | c in cs :: c.projection.entitlementId != e
    ensures Find(out, e).None?
  {
    hide InputError, Candidate.Valid, GroupsOf, HasStoreTwin;
    ErrorNamesTheFirst(current, cs);
    GroupsHoldTheLatest(cs, e);
    assert DecidesFor(current, cs, e, Find(out, e));
  }

  /** Which access wins: allowed if any latest source is allowed, otherwise unresolved if
      any is unresolved, otherwise denied; always for an entitlement without a row, and
      with one whenever its own source is reported. */
  lemma WhichAccessWins(current: seq<CurrentEntitlement>, cs: seq<Candidate>, out: seq<Projection>, e: string,
                        row: Option<CurrentEntitlement>)
      returns (sources: Sources)
    requires InputError(current, cs).None? && Projects(current, cs, out) && RowOf(current, e, row)
    requires exists c :: Speaks(cs, e, c)
    ensures LatestPerLineage(sources, cs, e)
    ensures row.None? || !NotReported(sources, cs, row.value) ==>
              && Find(out, e).Some?
              && (Find(out, e).value.access.Allowed? <==> exists k :: k in sources && sources[k].projection.access.Allowed?)
              && (Find(out, e).value.access.Unresolved? <==>
                    && (forall k | k in sources :: !sources[k].projection.access.Allowed?)
                    && exists k :: k in sources && sources[k].projection.access.Unresolved?)
              && (Find(out, e).value.access.Denied? <==> forall k | k in sources :: sources[k].projection.access.Denied?)
  {
    hide InputError, Projects, RowOf, Speaks, Candidate.Valid, Latest, NotReported;
    var best;
    sources, best := WrittenByTheRules(current, cs, out, e, row);
    ErrorNamesTheFirst(current, cs);
    SourcesAreKnown(cs, e, sources);
    var i :| i in sources && sources[i] == best;
    assert Chosen(sources, row, best).projection.access == best.projection.access;
  }
}
