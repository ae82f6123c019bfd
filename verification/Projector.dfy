/** The default entitlement projector: one selected source per entitlement. */
module Projector {
  import opened Text
  import opened Entitlements

  datatype ProjectError = CurrentInvalid(index: nat) | DuplicateCurrent(entitlementId: string) | CandidateInvalid(index: nat)

  type Sources = map<SourceKey, Candidate>

  // ---------------------------------------------------------------- inputs

  function CurrentBy(current: seq<CurrentEntitlement>): map<string, CurrentEntitlement> {
    if current == [] then map[]
    else
      var row := current[|current| - 1];
      CurrentBy(current[..|current| - 1])[row.projection.entitlementId := row]
  }

  function CurrentError(current: seq<CurrentEntitlement>): Option<ProjectError> {
    if current == [] then None
    else
      var before, row := current[..|current| - 1], current[|current| - 1];
      if CurrentError(before).Some? then CurrentError(before)
      else if !row.projection.Valid() || !ValidIdentifier(row.applicationId) then Some(CurrentInvalid(|before|))
      else if row.projection.entitlementId in CurrentBy(before)
        then Some(DuplicateCurrent(row.projection.entitlementId))
      else None
  }

  function CandidateError(cs: seq<Candidate>): Option<ProjectError> {
    if cs == [] then None
    else
      var before := cs[..|cs| - 1];
      if CandidateError(before).Some? then CandidateError(before)
      else if !cs[|before|].Valid() then Some(CandidateInvalid(|before|))
      else None
  }

  /** The first failing check, current rows before candidates. */
  function InputError(current: seq<CurrentEntitlement>, cs: seq<Candidate>): Option<ProjectError> {
    if CurrentError(current).Some? then CurrentError(current) else CandidateError(cs)
  }

  // ------------------------------------------------------------- grouping

  function StoreProducts(cs: seq<Candidate>): set<ProductKey> {
    if cs == [] then {}
    else
      var before, c := StoreProducts(cs[..|cs| - 1]), cs[|cs| - 1];
      if c.projection.IsStore() then before + {c.Product()} else before
  }

  lemma {:induction false} InStoreProducts(cs: seq<Candidate>, p: ProductKey)
    ensures p in StoreProducts(cs) <==> exists c :: c in cs && c.projection.IsStore() && c.Product() == p
  {
    if cs != [] {
      InStoreProducts(cs[..|cs| - 1], p);
      Members(cs);
    }
  }

  /** A store observation supersedes every import of its application product. */
  predicate Superseded(c: Candidate, stores: set<ProductKey>) {
    c.projection.IsImport() && c.Product() in stores
  }

  function AddSource(sources: Sources, c: Candidate): Sources {
    if c.Source() !in sources || Newer(c, sources[c.Source()]) then sources[c.Source() := c] else sources
  }

  function Grouped(cs: seq<Candidate>, stores: set<ProductKey>): map<string, Sources> {
    if cs == [] then map[]
    else
      var groups, c := Grouped(cs[..|cs| - 1], stores), cs[|cs| - 1];
      if Superseded(c, stores) then groups else AddCandidate(groups, c)
  }

  function GroupsOf(cs: seq<Candidate>): map<string, Sources> {
    Grouped(cs, StoreProducts(cs))
  }

  ghost predicate Competes(c: Candidate, cs: seq<Candidate>, stores: set<ProductKey>, e: string, k: SourceKey) {
    c in cs && !Superseded(c, stores) && c.projection.entitlementId == e && c.Source() == k
  }

  /** Some member of the candidate's own source key is not older than it. */
  ghost predicate Unbeaten(groups: map<string, Sources>, c: Candidate) {
    && c.projection.entitlementId in groups
    && c.Source() in groups[c.projection.entitlementId]
    && !Newer(c, groups[c.projection.entitlementId][c.Source()])
  }

  ghost predicate AllCompete(groups: map<string, Sources>, cs: seq<Candidate>, stores: set<ProductKey>) {
    && (forall e | e in groups :: groups[e] != map[])
    && (forall e, k | e in groups && k in groups[e] :: Competes(groups[e][k], cs, stores, e, k))
  }

  /** The groups hold exactly the competing source keys, each with a candidate
      none of its competitors is newer than. */
  ghost predicate GroupsAreLatest(groups: map<string, Sources>, cs: seq<Candidate>, stores: set<ProductKey>) {
    AllCompete(groups, cs, stores) && forall c | c in cs && !Superseded(c, stores) :: Unbeaten(groups, c)
  }

  function AddCandidate(groups: map<string, Sources>, c: Candidate): map<string, Sources> {
    var e := c.projection.entitlementId;
    groups[e := AddSource(if e in groups then groups[e] else map[], c)]
  }

  lemma {:induction false} GroupedIsLatest(cs: seq<Candidate>, stores: set<ProductKey>)
    ensures GroupsAreLatest(Grouped(cs, stores), cs, stores)
  {
    if cs != [] {
      var before, c := cs[..|cs| - 1], cs[|cs| - 1];
      GroupedIsLatest(before, stores);
      Members(cs);
      if !Superseded(c, stores) {
        AddKeepsLatest(Grouped(before, stores), before, cs, c, stores);
      }
    }
  }

  lemma Members<T>(s: seq<T>)
    requires s != []
    ensures forall x :: x in s <==> x in s[..|s| - 1] || x == s[|s| - 1]
  {
    forall x | x in s ensures x in s[..|s| - 1] || x == s[|s| - 1] {
      var i :| 0 <= i < |s| && s[i] == x;
      assert i < |s| - 1 ==> s[..|s| - 1][i] == x;
    }
  }

  lemma AddKeepsLatest(groups: map<string, Sources>, before: seq<Candidate>, cs: seq<Candidate>, c: Candidate,
                       stores: set<ProductKey>)
    requires GroupsAreLatest(groups, before, stores) && !Superseded(c, stores)
    requires forall d :: d in cs <==> d in before || d == c
    ensures GroupsAreLatest(AddCandidate(groups, c), cs, stores)
  {
    AddCompetes(groups, before, cs, c, stores);
    forall d | d in cs && !Superseded(d, stores) ensures Unbeaten(AddCandidate(groups, c), d) {
      AddIsUnbeaten(groups, c);
      if d != c {
        StaysUnbeaten(groups, c, d);
      }
    }
  }

  lemma AddCompetes(groups: map<string, Sources>, before: seq<Candidate>, cs: seq<Candidate>, c: Candidate,
                    stores: set<ProductKey>)
    requires AllCompete(groups, before, stores) && !Superseded(c, stores)
    requires forall d :: d in cs <==> d in before || d == c
    ensures AllCompete(AddCandidate(groups, c), cs, stores)
  {
    var next := AddCandidate(groups, c);
    assert c.Source() in next[c.projection.entitlementId];
    forall e, k | e in next && k in next[e] ensures Competes(next[e][k], cs, stores, e, k) {
      if e in groups && k in groups[e] && next[e][k] == groups[e][k] {
        assert Competes(groups[e][k], before, stores, e, k);
      } else {
        assert next[e][k] == c;
      }
    }
  }

  lemma AddIsUnbeaten(groups: map<string, Sources>, c: Candidate)
    ensures Unbeaten(AddCandidate(groups, c), c)
  {
    NewerIrreflexive(c);
  }

  lemma StaysUnbeaten(groups: map<string, Sources>, c: Candidate, d: Candidate)
    requires Unbeaten(groups, d)
    ensures Unbeaten(AddCandidate(groups, c), d)
  {
    var kept := groups[d.projection.entitlementId][d.Source()];
    if Newer(d, c) && Newer(c, kept) {
      NewerTransitive(d, c, kept);
    }
  }

  // ------------------------------------------------------------ selection

  ghost predicate IsBest(sources: Sources, c: Candidate) {
    c in sources.Values && forall k | k in sources :: !Preferred(sources[k], c)
  }

  /** The current source is kept when it is as strong and lasts as long. */
  function Stick(current: Option<CurrentEntitlement>, sources: Sources, best: Candidate): Candidate {
    if && current.Some?
       && current.value.Source() in sources
       && Strength(sources[current.value.Source()].projection.access) == Strength(best.projection.access)
       && CompareEnd(sources[current.value.Source()].projection, best.projection) >= 0
       && !ImportLosesToStore(current.value.projection, best.projection)
    then sources[current.value.Source()]
    else best
  }

  ghost predicate IsChosen(current: Option<CurrentEntitlement>, sources: Sources, c: Candidate) {
    exists best :: IsBest(sources, best) && c == Stick(current, sources, best)
  }

  /** Whether the candidates carry newer state for the current source; a current
      import is reported once its application product has a store observation. */
  predicate Reported(current: CurrentEntitlement, sources: Sources, stores: set<ProductKey>) {
    current.Source() in sources || (current.projection.IsImport() && current.Product() in stores)
  }

  predicate SameProduct(current: CurrentEntitlement, c: Candidate) {
    current.applicationId == c.applicationId && current.projection.productId == c.projection.productId
  }

  predicate PreservesIndependent(current: CurrentEntitlement, c: Candidate) {
    !SameProduct(current, c) && Strength(current.projection.access) >= Strength(c.projection.access)
  }

  predicate Skips(current: Option<CurrentEntitlement>, sources: Sources, stores: set<ProductKey>, c: Candidate) {
    current.Some? && !Reported(current.value, sources, stores) && PreservesIndependent(current.value, c)
  }

  ghost predicate Decides(current: Option<CurrentEntitlement>, sources: Sources, stores: set<ProductKey>,
                          p: Option<Projection>) {
    exists c :: IsChosen(current, sources, c) && p == if Skips(current, sources, stores, c) then None else Some(c.projection)
  }

  function CurrentOf(current: seq<CurrentEntitlement>, e: string): Option<CurrentEntitlement> {
    if e in CurrentBy(current) then Some(CurrentBy(current)[e]) else None
  }

  ghost predicate DecidesFor(current: seq<CurrentEntitlement>, cs: seq<Candidate>, e: string, p: Option<Projection>) {
    if e in GroupsOf(cs) then Decides(CurrentOf(current, e), GroupsOf(cs)[e], StoreProducts(cs), p) else p.None?
  }

  // --------------------------------------------------------------- output

  function Find(ps: seq<Projection>, e: string): Option<Projection> {
    if ps == [] then None else if ps[0].entitlementId == e then Some(ps[0]) else Find(ps[1..], e)
  }

  function Ids(ps: seq<Projection>): seq<string> {
    seq(|ps|, i requires 0 <= i < |ps| => ps[i].entitlementId)
  }

  /** What one successful call may return: the decision for every entitlement,
      in identifier order. */
  ghost predicate Projects(current: seq<CurrentEntitlement>, cs: seq<Candidate>, out: seq<Projection>) {
    StrictlySorted(Ids(out)) && forall e: string :: DecidesFor(current, cs, e, Find(out, e))
  }

  lemma {:induction false} FindFacts(ps: seq<Projection>, e: string)
    ensures Find(ps, e).Some? <==> e in Ids(ps)
    ensures Find(ps, e).Some? ==> Find(ps, e).value in ps && Find(ps, e).value.entitlementId == e
  {
    if ps != [] {
      FindFacts(ps[1..], e);
      assert Ids(ps) == [ps[0].entitlementId] + Ids(ps[1..]);
    }
  }

  lemma {:induction false} FindAt(ps: seq<Projection>, i: nat)
    requires i < |ps| && NoDuplicates(Ids(ps))
    ensures Find(ps, ps[i].entitlementId) == Some(ps[i])
  {
    if i > 0 {
      assert Ids(ps)[0] != Ids(ps)[i];
      assert Ids(ps[1..]) == Ids(ps)[1..];
      FindAt(ps[1..], i - 1);
    }
  }

  lemma SortedHasNoDuplicates(ids: seq<string>)
    requires StrictlySorted(ids)
    ensures NoDuplicates(ids)
  {
    forall i, j | 0 <= i < j < |ids| ensures ids[i] != ids[j] {
      LessIrreflexive(ids[i]);
    }
  }

  /** Folds one entitlement's sources, in whatever order the map yields them. */
  method ChooseBest(sources: Sources) returns (chosen: Candidate)
    requires sources != map[]
    ensures IsBest(sources, chosen)
  {
    var first :| first in sources;
    chosen := sources[first];
    var left := sources.Keys - {first};
    PreferredIrreflexive(chosen);
    while left != {}
      invariant left <= sources.Keys
      invariant chosen in sources.Values
      invariant forall k | k in sources.Keys - left :: !Preferred(sources[k], chosen)
      decreases left
    {
      var k :| k in left;
      var c := sources[k];
      if Preferred(c, chosen) {
        forall d | d in sources.Keys - left && Preferred(sources[d], c) ensures false {
          PreferredTransitive(sources[d], c, chosen);
        }
        PreferredIrreflexive(c);
        chosen := c;
      }
      left := left - {k};
    }
  }

  method IndexCurrent(current: seq<CurrentEntitlement>)
    returns (r: Result<map<string, CurrentEntitlement>, ProjectError>)
    ensures r.Err? <==> CurrentError(current).Some?
    ensures r.Err? ==> r.error == CurrentError(current).value
    ensures r.Ok? ==> r.value == CurrentBy(current)
  {
    var currentBy: map<string, CurrentEntitlement> := map[];
    for i := 0 to |current|
      invariant CurrentError(current[..i]).None? && currentBy == CurrentBy(current[..i])
    {
      var row := current[i];
      assert current[..i + 1][..i] == current[..i];
      if !row.projection.Valid() || !ValidIdentifier(row.applicationId) {
        FirstCurrentError(current, i + 1);
        return Err(CurrentInvalid(i));
      }
      if row.projection.entitlementId in currentBy {
        FirstCurrentError(current, i + 1);
        return Err(DuplicateCurrent(row.projection.entitlementId));
      }
      currentBy := currentBy[row.projection.entitlementId := row];
    }
    assert current[..|current|] == current;
    return Ok(currentBy);
  }

  method CollectStoreProducts(cs: seq<Candidate>) returns (r: Result<set<ProductKey>, ProjectError>)
    ensures r.Err? <==> CandidateError(cs).Some?
    ensures r.Err? ==> r.error == CandidateError(cs).value
    ensures r.Ok? ==> r.value == StoreProducts(cs)
  {
    var stores: set<ProductKey> := {};
    for i := 0 to |cs|
      invariant CandidateError(cs[..i]).None? && stores == StoreProducts(cs[..i])
    {
      assert cs[..i + 1][..i] == cs[..i];
      if !cs[i].Valid() {
        FirstCandidateError(cs, i + 1);
        return Err(CandidateInvalid(i));
      }
      if cs[i].projection.IsStore() {
        stores := stores + {cs[i].Product()};
      }
    }
    assert cs[..|cs|] == cs;
    return Ok(stores);
  }

  method GroupCandidates(cs: seq<Candidate>, stores: set<ProductKey>) returns (groups: map<string, Sources>)
    ensures groups == Grouped(cs, stores)
  {
    groups := map[];
    for i := 0 to |cs|
      invariant groups == Grouped(cs[..i], stores)
    {
      assert cs[..i + 1][..i] == cs[..i];
      if Superseded(cs[i], stores) {
        continue;
      }
      var e := cs[i].projection.entitlementId;
      groups := groups[e := AddSource(if e in groups then groups[e] else map[], cs[i])];
    }
    assert cs[..|cs|] == cs;
  }

  /** The entitlements whose selection is written, in identifier order. */
  method KeptIds(currentBy: map<string, CurrentEntitlement>, groups: map<string, Sources>,
                 stores: set<ProductKey>, selected: map<string, Candidate>)
    returns (ids: seq<string>)
    requires selected.Keys == groups.Keys
    ensures StrictlySorted(ids)
    ensures forall e :: e in ids <==> (e in selected && !Skips(CurrentIn(currentBy, e), groups[e], stores, selected[e]))
  {
    ids := [];
    var left := selected.Keys;
    while left != {}
      invariant left <= selected.Keys
      invariant NoDuplicates(ids)
      invariant forall e :: e in ids <==>
          (e in selected && e !in left && !Skips(CurrentIn(currentBy, e), groups[e], stores, selected[e]))
      decreases left
    {
      var e :| e in left;
      left := left - {e};
      if !Skips(CurrentIn(currentBy, e), groups[e], stores, selected[e]) {
        ids := ids + [e];
      }
    }
    ids := SortIds(ids);
  }

  method SelectedProjections(ids: seq<string>, selected: map<string, Candidate>) returns (out: seq<Projection>)
    requires forall e | e in ids :: e in selected && selected[e].projection.entitlementId == e
    ensures Ids(out) == ids
    ensures forall i | 0 <= i < |ids| :: out[i] == selected[ids[i]].projection
  {
    out := [];
    for i := 0 to |ids|
      invariant |out| == i
      invariant forall j | 0 <= j < i :: out[j] == selected[ids[j]].projection && out[j].entitlementId == ids[j]
    {
      assert ids[i] in ids;
      out := out + [selected[ids[i]].projection];
    }
  }

  lemma FoundSelection(out: seq<Projection>, ids: seq<string>, selected: map<string, Candidate>, e: string)
    requires StrictlySorted(ids) && Ids(out) == ids
    requires forall f | f in ids :: f in selected
    requires forall i | 0 <= i < |ids| :: out[i] == selected[ids[i]].projection
    ensures Find(out, e) == if e in ids then Some(selected[e].projection) else None
  {
    FindFacts(out, e);
    if e in ids {
      var i :| 0 <= i < |ids| && ids[i] == e;
      SortedHasNoDuplicates(ids);
      FindAt(out, i);
    }
  }

  /** Selects one candidate per entitlement without revoking an independent
      allowed source. */
  method Project(current: seq<CurrentEntitlement>, cs: seq<Candidate>)
    returns (r: Result<seq<Projection>, ProjectError>)
    ensures r.Err? <==> InputError(current, cs).Some?
    ensures r.Err? ==> r.error == InputError(current, cs).value
    ensures r.Ok? ==> Projects(current, cs, r.value)
  {
    var indexed := IndexCurrent(current);
    if indexed.Err? {
      return Err(indexed.error);
    }
    var products := CollectStoreProducts(cs);
    if products.Err? {
      return Err(products.error);
    }
    var currentBy, stores := indexed.value, products.value;
    var groups := GroupCandidates(cs, stores);
    GroupedIsLatest(cs, stores);
    var selected := SelectAll(groups, currentBy);
    var ids := KeptIds(currentBy, groups, stores, selected);
    var out := SelectedProjections(ids, selected);
    SelectionIsProjected(current, cs, groups, stores, selected, ids, out);
    return Ok(out);
  }

  lemma SelectionIsProjected(current: seq<CurrentEntitlement>, cs: seq<Candidate>, groups: map<string, Sources>,
                             stores: set<ProductKey>,
                             selected: map<string, Candidate>, ids: seq<string>, out: seq<Projection>)
    requires groups == GroupsOf(cs) && stores == StoreProducts(cs) && selected.Keys == groups.Keys
    requires forall e | e in groups :: IsChosen(CurrentOf(current, e), groups[e], selected[e])
    requires StrictlySorted(ids) && Ids(out) == ids
    requires forall e :: e in ids <==> (e in selected && !Skips(CurrentOf(current, e), groups[e], stores, selected[e]))
    requires forall i | 0 <= i < |ids| :: out[i] == selected[ids[i]].projection
    ensures Projects(current, cs, out)
  {
    hide IsChosen, Skips;
    forall e: string ensures DecidesFor(current, cs, e, Find(out, e)) {
      FoundSelection(out, ids, selected, e);
    }
  }

  function CurrentIn(currentBy: map<string, CurrentEntitlement>, e: string): Option<CurrentEntitlement> {
    if e in currentBy then Some(currentBy[e]) else None
  }

  method SortIds(ids: seq<string>) returns (sorted: seq<string>)
    requires NoDuplicates(ids)
    ensures StrictlySorted(sorted)
    ensures forall e :: e in sorted <==> e in ids
  {
    SortSorts(ids);
    sorted := Sort(ids);
  }

  method SelectAll(groups: map<string, Sources>, currentBy: map<string, CurrentEntitlement>)
    returns (selected: map<string, Candidate>)
    requires forall e | e in groups :: groups[e] != map[]
    requires forall e, k | e in groups && k in groups[e] :: groups[e][k].projection.entitlementId == e
    ensures selected.Keys == groups.Keys
    ensures forall e | e in groups :: IsChosen(CurrentIn(currentBy, e), groups[e], selected[e])
    ensures forall e | e in groups :: selected[e].projection.entitlementId == e
  {
    selected := map[];
    var left := groups.Keys;
    while left != {}
      invariant left <= groups.Keys && selected.Keys == groups.Keys - left
      invariant forall e | e in selected :: IsChosen(CurrentIn(currentBy, e), groups[e], selected[e])
      invariant forall e | e in selected :: selected[e].projection.entitlementId == e
      decreases left
    {
      var e :| e in left;
      var sources := groups[e];
      var best := ChooseBest(sources);
      var chosen := best;
      if e in currentBy {
        var key := currentBy[e].Source();
        if && key in sources
           && Strength(sources[key].projection.access) == Strength(best.projection.access)
           && CompareEnd(sources[key].projection, best.projection) >= 0
           && !ImportLosesToStore(currentBy[e].projection, best.projection) {
          chosen := sources[key];
        }
      }
      assert chosen == Stick(CurrentIn(currentBy, e), sources, best);
      assert IsChosen(CurrentIn(currentBy, e), sources, chosen);
      selected := selected[e := chosen];
      left := left - {e};
    }
  }

  lemma {:induction false} FirstCurrentError(current: seq<CurrentEntitlement>, n: nat)
    requires n <= |current| && CurrentError(current[..n]).Some?
    ensures CurrentError(current) == CurrentError(current[..n])
  {
    if n < |current| {
      assert current[..|current| - 1][..n] == current[..n];
      FirstCurrentError(current[..|current| - 1], n);
    } else {
      assert current[..n] == current;
    }
  }

  lemma {:induction false} FirstCandidateError(cs: seq<Candidate>, n: nat)
    requires n <= |cs| && CandidateError(cs[..n]).Some?
    ensures CandidateError(cs) == CandidateError(cs[..n])
  {
    if n < |cs| {
      assert cs[..|cs| - 1][..n] == cs[..n];
      FirstCandidateError(cs[..|cs| - 1], n);
    } else {
      assert cs[..n] == cs;
    }
  }
}
