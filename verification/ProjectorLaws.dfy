/** What the projector promises: a result that depends only on the sets of rows
    and candidates, no wrongful revocation, and access at every instant equal to
    that of the sources behind it. */
module ProjectorLaws {
  import opened Text
  import opened Entitlements
  import opened Projector

  /** The lineage keys the source query builds for import grants. */
  predicate ImportLineage(lineage: string) {
    "import:" <= lineage
  }

  /** A lineage key says whether its source is an import. */
  ghost predicate LineageKinds(cs: seq<Candidate>) {
    forall c | c in cs :: c.projection.IsImport() <==> ImportLineage(c.lineage)
  }

  predicate RowLineageKind(row: Option<CurrentEntitlement>) {
    row.Some? ==> (row.value.projection.IsImport() <==> ImportLineage(row.value.lineage))
  }

  // ------------------------------------------------------- groups and rows

  lemma GroupMember(cs: seq<Candidate>, e: string, k: SourceKey)
    requires e in GroupsOf(cs) && k in GroupsOf(cs)[e]
    ensures var c := GroupsOf(cs)[e][k];
      c in cs && !Superseded(c, StoreProducts(cs)) && c.projection.entitlementId == e && c.Source() == k
  {
    GroupedIsLatest(cs, StoreProducts(cs));
    assert Competes(GroupsOf(cs)[e][k], cs, StoreProducts(cs), e, k);
  }

  lemma BestExists(cs: seq<Candidate>, e: string) returns (best: Candidate)
    requires e in GroupsOf(cs)
    ensures IsBest(GroupsOf(cs)[e], best)
  {
    GroupedIsLatest(cs, StoreProducts(cs));
    best := BestOf(GroupsOf(cs)[e], GroupsOf(cs)[e].Keys);
  }

  lemma {:induction false} BestOf(sources: Sources, keys: set<SourceKey>) returns (best: Candidate)
    requires keys != {} && keys <= sources.Keys
    ensures exists k :: k in keys && best == sources[k]
    ensures forall k | k in keys :: !Preferred(sources[k], best)
    decreases |keys|
  {
    var k :| k in keys;
    PreferredIrreflexive(sources[k]);
    if keys == {k} {
      best := sources[k];
    } else {
      var rest := BestOf(sources, keys - {k});
      best := if Preferred(sources[k], rest) then sources[k] else rest;
      forall j | j in keys && Preferred(sources[j], best) ensures false {
        if Preferred(sources[k], rest) && j != k {
          PreferredTransitive(sources[j], sources[k], rest);
        }
      }
    }
  }

  lemma BestIsUnique(cs: seq<Candidate>, e: string, c: Candidate, d: Candidate)
    requires DistinctIdentities(cs) && e in GroupsOf(cs)
    requires IsBest(GroupsOf(cs)[e], c) && IsBest(GroupsOf(cs)[e], d)
    ensures c == d
  {
    var sources := GroupsOf(cs)[e];
    var i :| i in sources && sources[i] == c;
    var j :| j in sources && sources[j] == d;
    GroupMember(cs, e, i);
    GroupMember(cs, e, j);
    if c != d {
      RankingsAreTotal(cs, c, d);
    }
  }

  lemma SameStoreProducts(a: seq<Candidate>, b: seq<Candidate>)
    requires multiset(a) == multiset(b)
    ensures StoreProducts(a) == StoreProducts(b)
  {
    SameMembers(a, b);
    forall p ensures p in StoreProducts(a) <==> p in StoreProducts(b) {
      InStoreProducts(a, p);
      InStoreProducts(b, p);
    }
  }

  lemma SameGroups(a: seq<Candidate>, b: seq<Candidate>)
    requires multiset(a) == multiset(b) && DistinctIdentities(a)
    ensures GroupsOf(a) == GroupsOf(b)
  {
    SameMembers(a, b);
    SameStoreProducts(a, b);
    GroupedIsLatest(a, StoreProducts(a));
    GroupedIsLatest(b, StoreProducts(b));
    forall e ensures e in GroupsOf(a) <==> e in GroupsOf(b) {
      if e in GroupsOf(a) { GroupTransfers(a, b, e); }
      if e in GroupsOf(b) { GroupTransfers(b, a, e); }
    }
    forall e | e in GroupsOf(a) ensures GroupsOf(a)[e] == GroupsOf(b)[e] {
      SameGroup(a, b, e);
    }
  }

  lemma GroupTransfers(a: seq<Candidate>, b: seq<Candidate>, e: string)
    requires GroupsAreLatest(GroupsOf(a), a, StoreProducts(a)) && GroupsAreLatest(GroupsOf(b), b, StoreProducts(b))
    requires StoreProducts(a) == StoreProducts(b) && (forall x :: x in a <==> x in b)
    requires e in GroupsOf(a)
    ensures e in GroupsOf(b)
  {
    var k :| k in GroupsOf(a)[e];
    GroupMember(a, e, k);
    assert Unbeaten(GroupsOf(b), GroupsOf(a)[e][k]);
  }

  lemma SameGroup(a: seq<Candidate>, b: seq<Candidate>, e: string)
    requires GroupsAreLatest(GroupsOf(a), a, StoreProducts(a)) && GroupsAreLatest(GroupsOf(b), b, StoreProducts(b))
    requires StoreProducts(a) == StoreProducts(b) && (forall x :: x in a <==> x in b)
    requires DistinctIdentities(a)
    requires e in GroupsOf(a) && e in GroupsOf(b)
    ensures GroupsOf(a)[e] == GroupsOf(b)[e]
  {
    forall k: SourceKey ensures SourceAgrees(GroupsOf(a)[e], GroupsOf(b)[e], k) {
      SameSourceAt(a, b, e, k);
    }
    MapsAgree(GroupsOf(a)[e], GroupsOf(b)[e]);
  }

  ghost predicate SourceAgrees(m: Sources, n: Sources, k: SourceKey) {
    (k in m <==> k in n) && (k in m && k in n ==> m[k] == n[k])
  }

  lemma MapsAgree(m: Sources, n: Sources)
    requires forall k: SourceKey :: SourceAgrees(m, n, k)
    ensures m == n
  {
    assert forall k: SourceKey :: k in m ==> SourceAgrees(m, n, k);
    assert forall k: SourceKey :: k in n ==> SourceAgrees(m, n, k);
  }

  lemma SameSourceAt(a: seq<Candidate>, b: seq<Candidate>, e: string, k: SourceKey)
    requires GroupsAreLatest(GroupsOf(a), a, StoreProducts(a)) && GroupsAreLatest(GroupsOf(b), b, StoreProducts(b))
    requires StoreProducts(a) == StoreProducts(b) && (forall x :: x in a <==> x in b)
    requires DistinctIdentities(a)
    requires e in GroupsOf(a) && e in GroupsOf(b)
    ensures SourceAgrees(GroupsOf(a)[e], GroupsOf(b)[e], k)
  {
    if k in GroupsOf(a)[e] { SourceTransfers(a, b, e, k); }
    if k in GroupsOf(b)[e] { SourceTransfers(b, a, e, k); }
    if k in GroupsOf(a)[e] { SameSource(a, b, e, k); }
  }

  lemma SameSource(a: seq<Candidate>, b: seq<Candidate>, e: string, k: SourceKey)
    requires (forall x :: x in a <==> x in b) && DistinctIdentities(a)
    requires e in GroupsOf(a) && e in GroupsOf(b) && k in GroupsOf(a)[e] && k in GroupsOf(b)[e]
    requires !Newer(GroupsOf(a)[e][k], GroupsOf(b)[e][k]) && !Newer(GroupsOf(b)[e][k], GroupsOf(a)[e][k])
    ensures GroupsOf(a)[e][k] == GroupsOf(b)[e][k]
  {
    var c, d := GroupsOf(a)[e][k], GroupsOf(b)[e][k];
    GroupMember(a, e, k);
    GroupMember(b, e, k);
    if c != d {
      RankingsAreTotal(a, c, d);
    }
  }

  lemma SourceTransfers(a: seq<Candidate>, b: seq<Candidate>, e: string, k: SourceKey)
    requires GroupsAreLatest(GroupsOf(b), b, StoreProducts(b))
    requires StoreProducts(a) == StoreProducts(b) && (forall x :: x in a ==> x in b)
    requires e in GroupsOf(a) && e in GroupsOf(b) && k in GroupsOf(a)[e]
    ensures k in GroupsOf(b)[e] && !Newer(GroupsOf(a)[e][k], GroupsOf(b)[e][k])
  {
    GroupMember(a, e, k);
    assert Unbeaten(GroupsOf(b), GroupsOf(a)[e][k]);
  }

  ghost predicate RowsAccepted(rows: multiset<CurrentEntitlement>) {
    forall r | r in rows ::
      && RowAccepted(r) && rows[r] == 1
      && forall q | q in rows && q != r :: q.projection.entitlementId != r.projection.entitlementId
  }

  lemma {:induction false} CurrentRows(current: seq<CurrentEntitlement>)
    ensures forall e | e in CurrentBy(current) :: CurrentBy(current)[e] in current && CurrentBy(current)[e].projection.entitlementId == e
    ensures forall r | r in current :: r.projection.entitlementId in CurrentBy(current)
  {
    if current != [] {
      CurrentRows(current[..|current| - 1]);
      Members(current);
    }
  }

  predicate RowAccepted(r: CurrentEntitlement) {
    r.projection.Valid() && ValidIdentifier(r.applicationId)
  }

  lemma {:induction false} CurrentAccepted(current: seq<CurrentEntitlement>)
    ensures CurrentError(current).None? <==> RowsAccepted(multiset(current))
  {
    hide RowsAccepted, RowAccepted;
    if current == [] {
      NoRowsAccepted();
    } else {
      var n := |current| - 1;
      CurrentAccepted(current[..n]);
      LastRow(current);
      assert current[..n] + [current[n]] == current;
      assert multiset(current) == multiset(current[..n]) + multiset{current[n]};
      AddRow(multiset(current[..n]), current[n]);
    }
  }

  lemma NoRowsAccepted()
    ensures RowsAccepted(multiset{})
  {
  }

  lemma LastRow(current: seq<CurrentEntitlement>)
    requires current != []
    ensures var before, row := current[..|current| - 1], current[|current| - 1];
      CurrentError(current).None? <==>
      && CurrentError(before).None? && RowAccepted(row)
      && !exists r: CurrentEntitlement :: r in multiset(before) && r.projection.entitlementId == row.projection.entitlementId
  {
    hide ValidIdentifier, Projection.Valid;
    var before, row := current[..|current| - 1], current[|current| - 1];
    CurrentRows(before);
    if row.projection.entitlementId in CurrentBy(before) {
      assert CurrentBy(before)[row.projection.entitlementId] in multiset(before);
    }
  }

  lemma AddRow(rows: multiset<CurrentEntitlement>, row: CurrentEntitlement)
    ensures RowsAccepted(rows + multiset{row}) <==>
      && RowsAccepted(rows) && RowAccepted(row)
      && !exists r: CurrentEntitlement :: r in rows && r.projection.entitlementId == row.projection.entitlementId
  {
    hide RowAccepted;
    var more := rows + multiset{row};
    if RowsAccepted(more) {
      assert row in more;
      forall r | r in rows ensures r in more && r != row && rows[r] == more[r] {
        assert more[r] == 1;
      }
    }
  }

  lemma SameCurrent(a: seq<CurrentEntitlement>, b: seq<CurrentEntitlement>, e: string)
    requires multiset(a) == multiset(b) && CurrentError(a).None?
    ensures CurrentOf(a, e) == CurrentOf(b, e)
  {
    CurrentAccepted(a);
    CurrentRows(a);
    CurrentRows(b);
    SameMembers(a, b);
    if e in CurrentBy(a) && e in CurrentBy(b) {
      assert CurrentBy(a)[e] in multiset(a) && CurrentBy(b)[e] in multiset(a);
    }
  }

  lemma {:induction false} CandidatesAccepted(cs: seq<Candidate>)
    ensures CandidateError(cs).None? <==> forall c | c in cs :: c.Valid()
  {
    if cs != [] {
      CandidatesAccepted(cs[..|cs| - 1]);
      Members(cs);
    }
  }

  // ---------------------------------------------------- order independence

  lemma {:induction false} SortedByFind(a: seq<Projection>, b: seq<Projection>)
    requires StrictlySorted(Ids(a)) && StrictlySorted(Ids(b))
    requires forall e :: Find(a, e) == Find(b, e)
    ensures a == b
  {
    if a == [] {
      if b != [] {
        FoundAtHead(b, a);
      }
    } else {
      FoundAtHead(a, b);
      FoundAtHead(b, a);
      SameHead(a, b);
      assert Ids(a[1..]) == Ids(a)[1..] && Ids(b[1..]) == Ids(b)[1..];
      forall g ensures Find(a[1..], g) == Find(b[1..], g) {
        assert Find(a, g) == Find(b, g);
        SortedTailLacksHead(a);
        SortedTailLacksHead(b);
      }
      SortedByFind(a[1..], b[1..]);
      assert a == [a[0]] + a[1..] && b == [b[0]] + b[1..];
    }
  }

  lemma FoundAtHead(a: seq<Projection>, b: seq<Projection>)
    requires a != [] && Find(a, a[0].entitlementId) == Find(b, a[0].entitlementId)
    ensures b != [] && a[0].entitlementId in Ids(b)
  {
    FindFacts(b, a[0].entitlementId);
  }

  lemma SameHead(a: seq<Projection>, b: seq<Projection>)
    requires a != [] && b != [] && StrictlySorted(Ids(a)) && StrictlySorted(Ids(b))
    requires a[0].entitlementId in Ids(b) && b[0].entitlementId in Ids(a)
    requires Find(a, a[0].entitlementId) == Find(b, a[0].entitlementId)
    ensures a[0] == b[0]
  {
    var e, f := a[0].entitlementId, b[0].entitlementId;
    assert Ids(a)[0] == e && Ids(b)[0] == f;
    if e != f {
      var i :| 0 <= i < |a| && Ids(a)[i] == f;
      var j :| 0 <= j < |b| && Ids(b)[j] == e;
      LessAsymmetric(e, f);
    }
  }

  lemma SortedTailLacksHead(a: seq<Projection>)
    requires a != [] && StrictlySorted(Ids(a))
    ensures Find(a[1..], a[0].entitlementId).None?
  {
    FindFacts(a[1..], a[0].entitlementId);
    SortedHasNoDuplicates(Ids(a));
    forall i | 0 <= i < |a| - 1 ensures Ids(a[1..])[i] != a[0].entitlementId {
      assert Ids(a)[i + 1] != Ids(a)[0];
    }
  }

  lemma DecisionIsUnique(current: seq<CurrentEntitlement>, cs: seq<Candidate>, e: string,
                         p: Option<Projection>, q: Option<Projection>)
    requires DistinctIdentities(cs)
    requires DecidesFor(current, cs, e, p) && DecidesFor(current, cs, e, q)
    ensures p == q
  {
    if e in GroupsOf(cs) {
      var sources, stores, row := GroupsOf(cs)[e], StoreProducts(cs), CurrentOf(current, e);
      var c :| IsChosen(row, sources, c) && p == if Skips(row, sources, stores, c) then None else Some(c.projection);
      var d :| IsChosen(row, sources, d) && q == if Skips(row, sources, stores, d) then None else Some(d.projection);
      var b :| IsBest(sources, b) && c == Stick(row, sources, b);
      var b' :| IsBest(sources, b') && d == Stick(row, sources, b');
      BestIsUnique(cs, e, b, b');
    }
  }

  /** Neither the order of the rows, nor of the candidates, nor of any map
      changes whether a call succeeds or what it returns. */
  lemma OrderIndependence(current: seq<CurrentEntitlement>, cs: seq<Candidate>,
                          current': seq<CurrentEntitlement>, cs': seq<Candidate>)
    requires multiset(current) == multiset(current') && multiset(cs) == multiset(cs')
    requires DistinctIdentities(cs)
    ensures InputError(current, cs).None? <==> InputError(current', cs').None?
    ensures forall out, out' | InputError(current, cs).None? && Projects(current, cs, out) && Projects(current', cs', out') :: out == out'
  {
    CurrentAccepted(current);
    CurrentAccepted(current');
    CandidatesAccepted(cs);
    CandidatesAccepted(cs');
    SameMembers(cs, cs');
    forall out, out' | InputError(current, cs).None? && Projects(current, cs, out) && Projects(current', cs', out')
      ensures out == out'
    {
      SameGroups(cs, cs');
      SameStoreProducts(cs, cs');
      forall e: string ensures Find(out, e) == Find(out', e) {
        SameCurrent(current, current', e);
        assert DecidesFor(current', cs', e, Find(out', e));
        assert DecidesFor(current, cs, e, Find(out', e));
        DecisionIsUnique(current, cs, e, Find(out, e), Find(out', e));
      }
      SortedByFind(out, out');
    }
  }

  // ----------------------------------------------------- what was selected

  /** The source behind one written projection. */
  lemma Selected(current: seq<CurrentEntitlement>, cs: seq<Candidate>, out: seq<Projection>, e: string)
    returns (best: Candidate, c: Candidate)
    requires Projects(current, cs, out) && e in GroupsOf(cs)
    ensures IsBest(GroupsOf(cs)[e], best) && c == Stick(CurrentOf(current, e), GroupsOf(cs)[e], best)
    ensures c in GroupsOf(cs)[e].Values
    ensures Find(out, e) == if Skips(CurrentOf(current, e), GroupsOf(cs)[e], StoreProducts(cs), c) then None else Some(c.projection)
  {
    var sources, stores, row := GroupsOf(cs)[e], StoreProducts(cs), CurrentOf(current, e);
    assert DecidesFor(current, cs, e, Find(out, e));
    c :| IsChosen(row, sources, c) && Find(out, e) == if Skips(row, sources, stores, c) then None else Some(c.projection);
    best :| IsBest(sources, best) && c == Stick(row, sources, best);
  }

  /** The entitlement's projection once the result is applied. */
  function Outcome(row: Option<CurrentEntitlement>, written: Option<Projection>): Option<Projection> {
    if written.Some? then written else if row.Some? then Some(row.value.projection) else None
  }

  ghost predicate NothingAllowed(sources: Sources) {
    forall k | k in sources :: !sources[k].projection.access.Allowed?
  }

  /** The row's own source was reported, or some best source is its own product. */
  ghost predicate MayBeReplaced(row: CurrentEntitlement, sources: Sources, stores: set<ProductKey>) {
    Reported(row, sources, stores) || exists b :: IsBest(sources, b) && SameProduct(row, b)
  }

  ghost predicate MustBeReplaced(row: CurrentEntitlement, sources: Sources, stores: set<ProductKey>) {
    Reported(row, sources, stores) || forall b | IsBest(sources, b) :: SameProduct(row, b)
  }

  /** Access never drops below that of any source still in force. An allowed row stops
      being allowed only if no source is allowed and it may be replaced, and always if no
      source is allowed and it must be. */
  lemma NoWrongfulRevocation(current: seq<CurrentEntitlement>, cs: seq<Candidate>, out: seq<Projection>, e: string)
    requires InputError(current, cs).None? && Projects(current, cs, out) && e in GroupsOf(cs)
    ensures var row, sources, stores := CurrentOf(current, e), GroupsOf(cs)[e], StoreProducts(cs);
            var result := Outcome(row, Find(out, e));
            && result.Some?
            && (forall k | k in sources :: Strength(result.value.access) >= Strength(sources[k].projection.access))
            && (row.Some? && row.value.projection.access.Allowed? ==>
                  && (!result.value.access.Allowed? ==> NothingAllowed(sources) && MayBeReplaced(row.value, sources, stores))
                  && (NothingAllowed(sources) && MustBeReplaced(row.value, sources, stores) ==> !result.value.access.Allowed?))
  {
    var best, c := Selected(current, cs, out, e);
    var sources, row := GroupsOf(cs)[e], CurrentOf(current, e);
    StrongestWins(sources, row, best);
    assert IsChosen(row, sources, c);
    CandidatesAccepted(cs);
    var i :| i in sources && sources[i] == c;
    GroupMember(cs, e, i);
    if row.Some? && row.value.projection.access.Allowed? && Find(out, e).Some? && !c.projection.access.Allowed? {
      assert Strength(c.projection.access) < 3;
    }
  }

  /** With distinct ids the best source is one, so an allowed row stops being allowed
      exactly when no source is allowed and it may be replaced. */
  lemma RevokedExactly(current: seq<CurrentEntitlement>, cs: seq<Candidate>, out: seq<Projection>, e: string)
    requires InputError(current, cs).None? && Projects(current, cs, out) && e in GroupsOf(cs) && DistinctIdentities(cs)
    requires CurrentOf(current, e).Some? && CurrentOf(current, e).value.projection.access.Allowed?
    ensures var row, sources, stores := CurrentOf(current, e), GroupsOf(cs)[e], StoreProducts(cs);
            Outcome(row, Find(out, e)).Some?
            && (!Outcome(row, Find(out, e)).value.access.Allowed? <==>
                  NothingAllowed(sources) && MayBeReplaced(row.value, sources, stores))
  {
    NoWrongfulRevocation(current, cs, out, e);
    var row, sources := CurrentOf(current, e), GroupsOf(cs)[e];
    hide InputError, Projects, GroupsOf, StoreProducts, CurrentOf, Reported, IsBest, DistinctIdentities;
    if b :| IsBest(sources, b) && SameProduct(row.value, b) {
      forall c | IsBest(sources, c) ensures c == b {
        BestIsUnique(cs, e, b, c);
      }
    }
  }

  lemma StrongestWins(sources: Sources, row: Option<CurrentEntitlement>, best: Candidate)
    requires IsBest(sources, best)
    ensures var c := Stick(row, sources, best);
      && c in sources.Values
      && (forall k | k in sources :: Strength(c.projection.access) >= Strength(sources[k].projection.access))
      && (c.projection.access.Allowed? <==> exists k :: k in sources && sources[k].projection.access.Allowed?)
  {
    var c := Stick(row, sources, best);
    forall k | k in sources ensures Strength(c.projection.access) >= Strength(sources[k].projection.access) {
      assert !Preferred(sources[k], best);
    }
    var i :| i in sources && sources[i] == c;
  }

  /** No row cites an import whose application product has a store observation. */
  lemma StoreObservationsSupersedeImports(current: seq<CurrentEntitlement>, cs: seq<Candidate>, out: seq<Projection>,
                                          e: string)
    requires Projects(current, cs, out) && e in GroupsOf(cs)
    ensures Find(out, e).Some? ==>
      exists c :: (c in cs && c.projection == Find(out, e).value
        && !(c.projection.IsImport() && c.Product() in StoreProducts(cs)))
    ensures Find(out, e).None? ==>
      (CurrentOf(current, e).Some?
        && !(CurrentOf(current, e).value.projection.IsImport() && CurrentOf(current, e).value.Product() in StoreProducts(cs)))
  {
    var best, c := Selected(current, cs, out, e);
    var i :| i in GroupsOf(cs)[e] && GroupsOf(cs)[e][i] == c;
    GroupMember(cs, e, i);
  }

  // --------------------------------------------------------------- instants

  /** Equal access, equal kind, and equal end when allowed. */
  predicate SameDecision(p: Projection, q: Projection) {
    && p.access == q.access
    && (p.IsImport() <==> q.IsImport())
    && (p.access.Allowed? ==> p.period.endsAt == q.period.endsAt)
  }

  /** A kind and an access value the model of the domain knows. */
  predicate KnownProjection(p: Projection) {
    (p.IsStore() || p.IsImport()) && !p.access.OtherAccess?
  }

  /** What one entitlement's group of valid candidates provides. */
  ghost predicate Grouping(sources: Sources) {
    forall k | k in sources ::
      && sources[k].Source() == k && KnownProjection(sources[k].projection)
      && (sources[k].projection.IsImport() <==> ImportLineage(k.lineage))
  }

  lemma GroupsAreGroupings(current: seq<CurrentEntitlement>, cs: seq<Candidate>, e: string)
    requires InputError(current, cs).None? && LineageKinds(cs) && e in GroupsOf(cs)
    ensures Grouping(GroupsOf(cs)[e])
  {
    CandidatesAccepted(cs);
    forall k | k in GroupsOf(cs)[e]
      ensures GroupsOf(cs)[e][k] in cs && GroupsOf(cs)[e][k].Source() == k
      ensures KnownProjection(GroupsOf(cs)[e][k].projection)
    {
      GroupMember(cs, e, k);
      assert GroupsOf(cs)[e][k].Valid();
    }
  }

  /** Once lineage keys fix the kind, keeping the current source changes neither
      the access, nor the kind, nor the end of an allowed period. */
  lemma StickKeepsDecision(sources: Sources, row: Option<CurrentEntitlement>, best: Candidate)
    requires Grouping(sources) && IsBest(sources, best) && RowLineageKind(row)
    ensures SameDecision(Stick(row, sources, best).projection, best.projection)
  {
    var i :| i in sources && sources[i] == best;
    if Stick(row, sources, best) != best {
      assert !Preferred(sources[row.value.Source()], best);
    }
  }

  /** A source of the best one's kind is never allowed at an instant when the
      best one is not. */
  lemma BestLastsLongest(sources: Sources, best: Candidate, p: Projection, k: SourceKey, now: Time)
    requires IsBest(sources, best) && SameDecision(p, best.projection) && k in sources
    requires sources[k].projection.IsImport() == p.IsImport() || CompareEnd(sources[k].projection, p) <= 0
    requires AllowedAt(sources[k].projection, now)
    ensures AllowedAt(p, now)
  {
    assert !Preferred(sources[k], best);
  }

  /** At every instant the written projection is allowed exactly when some source
      of its kind is allowed. */
  lemma PointwiseAccess(current: seq<CurrentEntitlement>, cs: seq<Candidate>, out: seq<Projection>, e: string,
                        now: Time)
    requires InputError(current, cs).None? && Projects(current, cs, out) && e in GroupsOf(cs) && Find(out, e).Some?
    requires LineageKinds(cs) && RowLineageKind(CurrentOf(current, e))
    ensures var p, sources := Find(out, e).value, GroupsOf(cs)[e];
      AllowedAt(p, now) <==>
        exists k :: (k in sources && sources[k].projection.IsImport() == p.IsImport() && AllowedAt(sources[k].projection, now))
  {
    var best, c := Selected(current, cs, out, e);
    GroupsAreGroupings(current, cs, e);
    PointwiseIn(GroupsOf(cs)[e], CurrentOf(current, e), best, now);
  }

  lemma PointwiseIn(sources: Sources, row: Option<CurrentEntitlement>, best: Candidate, now: Time)
    requires Grouping(sources) && IsBest(sources, best) && RowLineageKind(row)
    ensures var p := Stick(row, sources, best).projection;
      AllowedAt(p, now) <==>
        exists k :: (k in sources && sources[k].projection.IsImport() == p.IsImport() && AllowedAt(sources[k].projection, now))
  {
    var c := Stick(row, sources, best);
    StickKeepsDecision(sources, row, best);
    var i :| i in sources && sources[i] == c;
    if k :| k in sources && sources[k].projection.IsImport() == c.projection.IsImport() && AllowedAt(sources[k].projection, now) {
      BestLastsLongest(sources, best, c.projection, k, now);
    }
  }

  /** An allowed import of another lineage that ends after the store observation
      ranked above it. */
  ghost predicate ImportOutlasts(sources: Sources, p: Projection) {
    && p.access.Allowed? && !p.IsImport()
    && exists k :: (k in sources && sources[k].projection.IsImport()
         && sources[k].projection.access.Allowed? && CompareEnd(sources[k].projection, p) > 0)
  }

  ghost predicate FollowsEverySource(sources: Sources, p: Projection) {
    forall now: Time :: AllowedAt(p, now) <==> SomeSourceAllowedAt(sources, now)
  }

  ghost predicate SomeSourceAllowedAt(sources: Sources, now: Time) {
    exists k :: k in sources && AllowedAt(sources[k].projection, now)
  }

  predicate AllowedStore(c: Candidate) {
    c.projection.access.Allowed? && !c.projection.IsImport()
  }

  /** Some store source is allowed, and an allowed import ends after all such. */
  ghost predicate ImportOutlastsStores(sources: Sources) {
    && (exists k :: k in sources && AllowedStore(sources[k]))
    && exists i :: OutlastsStores(sources, i)
  }

  ghost predicate OutlastsStores(sources: Sources, i: SourceKey) {
    && i in sources && sources[i].projection.IsImport() && sources[i].projection.access.Allowed?
    && forall k | k in sources && AllowedStore(sources[k]) ::
         CompareEnd(sources[i].projection, sources[k].projection) > 0
  }

  lemma OutlastingIsAboutSources(sources: Sources, row: Option<CurrentEntitlement>, best: Candidate)
    requires Grouping(sources) && IsBest(sources, best) && RowLineageKind(row)
    ensures ImportOutlasts(sources, Stick(row, sources, best).projection) <==> ImportOutlastsStores(sources)
  {
    StickKeepsDecision(sources, row, best);
    var c := Stick(row, sources, best);
    var j :| j in sources && sources[j] == c;
    if ImportOutlasts(sources, c.projection) {
      var i :| i in sources && sources[i].projection.IsImport()
        && sources[i].projection.access.Allowed? && CompareEnd(sources[i].projection, c.projection) > 0;
      assert AllowedStore(sources[j]);
      forall k | k in sources && AllowedStore(sources[k])
        ensures CompareEnd(sources[i].projection, sources[k].projection) > 0
      {
        assert !Preferred(sources[k], best);
      }
      assert OutlastsStores(sources, i);
    }
    if ImportOutlastsStores(sources) {
      var k :| k in sources && AllowedStore(sources[k]);
      var i :| OutlastsStores(sources, i);
      assert !Preferred(sources[k], best);
      assert AllowedStore(c);
    }
  }

  /** The written projection follows every source, whatever its kind, at every
      instant exactly when no allowed import ends after every allowed store source. */
  lemma EverySourceIsFollowedUnlessImportOutlasts(
    current: seq<CurrentEntitlement>, cs: seq<Candidate>, out: seq<Projection>, e: string)
    requires InputError(current, cs).None? && Projects(current, cs, out) && e in GroupsOf(cs) && Find(out, e).Some?
    requires LineageKinds(cs) && RowLineageKind(CurrentOf(current, e))
    ensures FollowsEverySource(GroupsOf(cs)[e], Find(out, e).value) <==> !ImportOutlastsStores(GroupsOf(cs)[e])
  {
    var best, c := Selected(current, cs, out, e);
    GroupsAreGroupings(current, cs, e);
    var sources := GroupsOf(cs)[e];
    StickKeepsDecision(sources, CurrentOf(current, e), best);
    OutlastingIsAboutSources(sources, CurrentOf(current, e), best);
    hide ImportOutlastsStores, Grouping, IsBest, FollowsEverySource, GroupsOf, CurrentOf, InputError;
    if ImportOutlasts(sources, c.projection) {
      OutlastedAtEnd(sources, c.projection);
    } else {
      FollowedAlways(sources, best, c);
    }
  }

  lemma FollowedAlways(sources: Sources, best: Candidate, c: Candidate)
    requires IsBest(sources, best) && c in sources.Values && SameDecision(c.projection, best.projection)
    requires !ImportOutlasts(sources, c.projection)
    ensures FollowsEverySource(sources, c.projection)
  {
    hide IsBest, ImportOutlasts, SomeSourceAllowedAt;
    forall now: Time ensures AllowedAt(c.projection, now) <==> SomeSourceAllowedAt(sources, now) {
      FollowedUnlessOutlasted(sources, best, c, now);
    }
  }

  lemma OutlastedAtEnd(sources: Sources, p: Projection)
    requires ImportOutlasts(sources, p)
    ensures !FollowsEverySource(sources, p)
  {
    var k :| k in sources && sources[k].projection.IsImport()
      && sources[k].projection.access.Allowed? && CompareEnd(sources[k].projection, p) > 0;
    var now := p.period.endsAt.value;
    assert AllowedAt(sources[k].projection, now);
    assert SomeSourceAllowedAt(sources, now) && !AllowedAt(p, now);
  }

  lemma FollowedUnlessOutlasted(sources: Sources, best: Candidate, c: Candidate, now: Time)
    requires IsBest(sources, best) && c in sources.Values && SameDecision(c.projection, best.projection)
    requires !ImportOutlasts(sources, c.projection)
    ensures AllowedAt(c.projection, now) <==> SomeSourceAllowedAt(sources, now)
  {
    var i :| i in sources && sources[i] == c;
    if SomeSourceAllowedAt(sources, now) {
      var k :| k in sources && AllowedAt(sources[k].projection, now);
      assert !Preferred(sources[k], best);
      BestLastsLongest(sources, best, c.projection, k, now);
    }
  }

  /** Whatever the stored row was, a reported entitlement is decided as it would
      be from nothing. */
  lemma DecidedAsFromScratch(current: seq<CurrentEntitlement>, cs: seq<Candidate>, out: seq<Projection>,
                             scratch: seq<Projection>, e: string)
    requires Projects(current, cs, out) && Projects([], cs, scratch)
    requires DistinctIdentities(cs) && LineageKinds(cs) && RowLineageKind(CurrentOf(current, e))
    requires InputError(current, cs).None? && e in GroupsOf(cs)
    requires CurrentOf(current, e).Some? ==> Reported(CurrentOf(current, e).value, GroupsOf(cs)[e], StoreProducts(cs))
    ensures Find(out, e).Some? && Find(scratch, e).Some?
    ensures SameDecision(Find(out, e).value, Find(scratch, e).value)
  {
    var best, c := Selected(current, cs, out, e);
    var best', c' := Selected([], cs, scratch, e);
    BestIsUnique(cs, e, best, best');
    GroupsAreGroupings(current, cs, e);
    StickKeepsDecision(GroupsOf(cs)[e], CurrentOf(current, e), best);
  }

  // ---------------------------------------------------------------- examples

  const STORE_UNTIL_10 := Candidate(
    Projection("p", "c", "gold", StoreObservation, "obs", "", "monthly", "c", Allowed, PurchaseValid, Period(1, Some(10))),
    "app", "reference:7", 5)

  const IMPORT_UNTIL_20 := Candidate(
    Projection("p", "c", "gold", ImportGrant, "", "imp", "yearly", "c", Allowed, PurchaseValid, Period(1, Some(20))),
    "app", "import:ab", 5)

  lemma ExampleCandidates()
    ensures STORE_UNTIL_10.Valid() && IMPORT_UNTIL_20.Valid()
  {
  }

  lemma ExampleLineages()
    ensures !ImportLineage(STORE_UNTIL_10.lineage) && ImportLineage(IMPORT_UNTIL_20.lineage)
  {
    assert "reference:7"[0] != "import:"[0];
    assert "import:ab"[..7] == "import:";
  }

  lemma ExampleIsValid(cs: seq<Candidate>)
    requires cs == [STORE_UNTIL_10, IMPORT_UNTIL_20]
    ensures InputError([], cs).None? && DistinctIdentities(cs) && LineageKinds(cs)
  {
    ExampleCandidates();
    ExampleLineages();
    forall c | c in cs ensures c == STORE_UNTIL_10 || c == IMPORT_UNTIL_20 {
    }
    CandidatesAccepted(cs);
  }

  lemma ExampleGroup(cs: seq<Candidate>)
    requires cs == [STORE_UNTIL_10, IMPORT_UNTIL_20]
    ensures "gold" in GroupsOf(cs)
    ensures STORE_UNTIL_10.Source() in GroupsOf(cs)["gold"]
    ensures GroupsOf(cs)["gold"][STORE_UNTIL_10.Source()] == STORE_UNTIL_10
    ensures IMPORT_UNTIL_20.Source() in GroupsOf(cs)["gold"]
    ensures GroupsOf(cs)["gold"][IMPORT_UNTIL_20.Source()] == IMPORT_UNTIL_20
    ensures forall k | k in GroupsOf(cs)["gold"] :: GroupsOf(cs)["gold"][k] in cs
  {
    ExampleSources();
    InStoreProducts(cs, IMPORT_UNTIL_20.Product());
    assert cs[0] == STORE_UNTIL_10 && cs[1] == IMPORT_UNTIL_20;
    ExampleMember(cs, STORE_UNTIL_10);
    ExampleMember(cs, IMPORT_UNTIL_20);
    forall k | k in GroupsOf(cs)["gold"] ensures GroupsOf(cs)["gold"][k] in cs {
      GroupMember(cs, "gold", k);
    }
  }

  lemma ExampleSources()
    ensures STORE_UNTIL_10.Source() != IMPORT_UNTIL_20.Source() && STORE_UNTIL_10.Product() != IMPORT_UNTIL_20.Product()
  {
    assert "monthly"[0] != "yearly"[0];
  }

  lemma ExampleMember(cs: seq<Candidate>, c: Candidate)
    requires c in cs && !Superseded(c, StoreProducts(cs)) && forall d | d in cs && d.Source() == c.Source() :: d == c
    ensures var e := c.projection.entitlementId;
      e in GroupsOf(cs) && c.Source() in GroupsOf(cs)[e] && GroupsOf(cs)[e][c.Source()] == c
  {
    GroupedIsLatest(cs, StoreProducts(cs));
    assert Unbeaten(GroupsOf(cs), c);
    GroupMember(cs, c.projection.entitlementId, c.Source());
  }

  /** A store observation until 10 hides an import of another product until 20. */
  lemma AnImportCanOutlast()
    ensures var cs := [STORE_UNTIL_10, IMPORT_UNTIL_20];
      && InputError([], cs).None? && DistinctIdentities(cs) && LineageKinds(cs)
      && "gold" in GroupsOf(cs) && IsBest(GroupsOf(cs)["gold"], STORE_UNTIL_10)
      && ImportOutlastsStores(GroupsOf(cs)["gold"])
  {
    var cs := [STORE_UNTIL_10, IMPORT_UNTIL_20];
    ExampleIsValid(cs);
    ExampleGroup(cs);
    PreferredIrreflexive(STORE_UNTIL_10);
    assert OutlastsStores(GroupsOf(cs)["gold"], IMPORT_UNTIL_20.Source());
  }
}
