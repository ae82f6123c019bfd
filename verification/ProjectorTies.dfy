/** When the projector's result depends on an order at all: exactly when two ways of
    breaking the ties of its two folds write different projections. */
module ProjectorTies {
  import opened Text
  import opened Counting
  import opened Entitlements
  import opened Projector
  import opened ProjectorLaws

  /** What one choice of a best source writes; none keeps the stored row. */
  function Written(row: Option<CurrentEntitlement>, sources: Sources, stores: set<ProductKey>,
                   best: Candidate): Option<Projection> {
    var c := Stick(row, sources, best);
    if Skips(row, sources, stores, c) then None else Some(c.projection)
  }

  lemma DecidesByABest(row: Option<CurrentEntitlement>, sources: Sources, stores: set<ProductKey>, p: Option<Projection>)
    ensures Decides(row, sources, stores, p) <==>
            exists best :: IsBest(sources, best) && p == Written(row, sources, stores, best)
  {
    hide IsBest, Stick, Skips;
    if Decides(row, sources, stores, p) {
      var c :| IsChosen(row, sources, c) && p == if Skips(row, sources, stores, c) then None else Some(c.projection);
      var best :| IsBest(sources, best) && c == Stick(row, sources, best);
      assert p == Written(row, sources, stores, best);
    }
    if best :| IsBest(sources, best) && p == Written(row, sources, stores, best) {
      assert IsChosen(row, sources, Stick(row, sources, best));
    }
  }

  /** No competitor of its source key is newer. */
  ghost predicate IsLatest(cs: seq<Candidate>, e: string, k: SourceKey, c: Candidate) {
    && Competes(c, cs, StoreProducts(cs), e, k)
    && forall d | Competes(d, cs, StoreProducts(cs), e, k) :: !Newer(d, c)
  }

  /** One way to keep a latest candidate of every source key of an entitlement. */
  ghost predicate LatestSources(cs: seq<Candidate>, e: string, sources: Sources) {
    && sources != map[]
    && (forall k | k in sources :: IsLatest(cs, e, k, sources[k]))
    && (forall c | c in cs && !Superseded(c, StoreProducts(cs)) && c.projection.entitlementId == e :: c.Source() in sources)
  }

  /** Every way of breaking the ties of the two folds writes the same. */
  ghost predicate TiesAgree(current: seq<CurrentEntitlement>, cs: seq<Candidate>) {
    forall e, m, n, b, c |
      LatestSources(cs, e, m) && LatestSources(cs, e, n) && IsBest(m, b) && IsBest(n, c) ::
      Written(CurrentOf(current, e), m, StoreProducts(cs), b) == Written(CurrentOf(current, e), n, StoreProducts(cs), c)
  }

  /** Neither the order of the rows, nor of the candidates, nor of any map changes the
      result. */
  ghost predicate OrderFree(current: seq<CurrentEntitlement>, cs: seq<Candidate>) {
    forall current', cs', out, out' |
      multiset(current) == multiset(current') && multiset(cs) == multiset(cs')
      && Projects(current, cs, out) && Projects(current', cs', out') ::
      out == out'
  }

  // ------------------------------------------------------- groups and ties

  lemma GroupIsLatestSources(groups: map<string, Sources>, cs: seq<Candidate>, e: string)
    requires GroupsAreLatest(groups, cs, StoreProducts(cs)) && e in groups
    ensures LatestSources(cs, e, groups[e])
  {
    hide Superseded, Newer, StoreProducts;
    var sources := groups[e];
    forall k | k in sources ensures IsLatest(cs, e, k, sources[k]) {
      assert Competes(sources[k], cs, StoreProducts(cs), e, k);
      forall d | Competes(d, cs, StoreProducts(cs), e, k) ensures !Newer(d, sources[k]) {
        assert Unbeaten(groups, d);
      }
    }
    forall c | c in cs && !Superseded(c, StoreProducts(cs)) && c.projection.entitlementId == e ensures c.Source() in sources {
      assert Unbeaten(groups, c);
    }
  }

  lemma GroupsAreLatestSources(cs: seq<Candidate>, e: string)
    requires e in GroupsOf(cs)
    ensures LatestSources(cs, e, GroupsOf(cs)[e])
  {
    GroupedIsLatest(cs, StoreProducts(cs));
    hide GroupsAreLatest, LatestSources, StoreProducts, Grouped;
    GroupIsLatestSources(GroupsOf(cs), cs, e);
  }

  lemma LatestSourcesAreGrouped(cs: seq<Candidate>, e: string, m: Sources)
    requires LatestSources(cs, e, m)
    ensures e in GroupsOf(cs)
  {
    var k :| k in m;
    assert IsLatest(cs, e, k, m[k]);
    GroupedIsLatest(cs, StoreProducts(cs));
    assert Unbeaten(GroupsOf(cs), m[k]);
  }

  lemma LatestSourcesAreOrderFree(a: seq<Candidate>, b: seq<Candidate>, e: string, m: Sources)
    requires multiset(a) == multiset(b) && LatestSources(a, e, m)
    ensures LatestSources(b, e, m)
  {
    hide Superseded, Newer, StoreProducts;
    SameMembers(a, b);
    SameStoreProducts(a, b);
    forall k | k in m ensures IsLatest(b, e, k, m[k]) {
      assert IsLatest(a, e, k, m[k]);
      forall d | Competes(d, b, StoreProducts(b), e, k) ensures !Newer(d, m[k]) {
        assert Competes(d, a, StoreProducts(a), e, k);
      }
    }
  }

  /** What a call may return for one entitlement is what some way of breaking ties writes. */
  lemma DecisionBreaksTies(current: seq<CurrentEntitlement>, cs: seq<Candidate>, e: string, p: Option<Projection>)
      returns (b: Candidate)
    requires e in GroupsOf(cs) && DecidesFor(current, cs, e, p)
    ensures IsBest(GroupsOf(cs)[e], b)
    ensures p == Written(CurrentOf(current, e), GroupsOf(cs)[e], StoreProducts(cs), b)
  {
    hide IsBest, Written, GroupsOf, StoreProducts, CurrentOf;
    DecidesByABest(CurrentOf(current, e), GroupsOf(cs)[e], StoreProducts(cs), p);
    b :| IsBest(GroupsOf(cs)[e], b) && p == Written(CurrentOf(current, e), GroupsOf(cs)[e], StoreProducts(cs), b);
  }

  lemma SameDecisionInAnyOrder(current: seq<CurrentEntitlement>, cs: seq<Candidate>,
                               current': seq<CurrentEntitlement>, cs': seq<Candidate>, e: string,
                               p: Option<Projection>, q: Option<Projection>)
    requires TiesAgree(current, cs) && CurrentError(current).None?
    requires multiset(current) == multiset(current') && multiset(cs) == multiset(cs')
    requires DecidesFor(current, cs, e, p) && DecidesFor(current', cs', e, q)
    ensures p == q
  {
    SameCurrent(current, current', e);
    SameStoreProducts(cs, cs');
    if e in GroupsOf(cs) {
      GroupsAreLatestSources(cs, e);
      LatestSourcesAreOrderFree(cs, cs', e, GroupsOf(cs)[e]);
      LatestSourcesAreGrouped(cs', e, GroupsOf(cs)[e]);
    }
    if e in GroupsOf(cs') {
      GroupsAreLatestSources(cs', e);
      LatestSourcesAreOrderFree(cs', cs, e, GroupsOf(cs')[e]);
      LatestSourcesAreGrouped(cs, e, GroupsOf(cs')[e]);
      hide IsBest, Written, GroupsOf, StoreProducts, CurrentOf, LatestSources;
      var b := DecisionBreaksTies(current, cs, e, p);
      var c := DecisionBreaksTies(current', cs', e, q);
    }
  }

  lemma AgreeingTiesAreOrderFree(current: seq<CurrentEntitlement>, cs: seq<Candidate>)
    requires TiesAgree(current, cs) && CurrentError(current).None?
    ensures OrderFree(current, cs)
  {
    hide TiesAgree, DecidesFor, CurrentError;
    forall current', cs', out, out' |
      multiset(current) == multiset(current') && multiset(cs) == multiset(cs')
      && Projects(current, cs, out) && Projects(current', cs', out')
      ensures out == out'
    {
      forall e: string ensures Find(out, e) == Find(out', e) {
        assert DecidesFor(current, cs, e, Find(out, e)) && DecidesFor(current', cs', e, Find(out', e));
        SameDecisionInAnyOrder(current, cs, current', cs', e, Find(out, e), Find(out', e));
      }
      SortedByFind(out, out');
    }
  }

  // ---------------------------------------------------- every call can return

  lemma SomeBest(cs: seq<Candidate>, e: string)
    requires e in GroupsOf(cs)
    ensures exists best :: IsBest(GroupsOf(cs)[e], best)
  {
    var best := BestExists(cs, e);
  }

  ghost function ABest(cs: seq<Candidate>, e: string): (best: Candidate)
    requires e in GroupsOf(cs)
    ensures IsBest(GroupsOf(cs)[e], best)
  {
    SomeBest(cs, e);
    var best :| IsBest(GroupsOf(cs)[e], best);
    best
  }

  ghost predicate BestsOf(cs: seq<Candidate>, bests: map<string, Candidate>) {
    bests.Keys == GroupsOf(cs).Keys && forall e | e in GroupsOf(cs) :: e in bests && IsBest(GroupsOf(cs)[e], bests[e])
  }

  /** The candidate selected for each entitlement under one choice of best sources. */
  function SelectionOf(current: seq<CurrentEntitlement>, groups: map<string, Sources>,
                       bests: map<string, Candidate>): (selected: map<string, Candidate>)
    requires bests.Keys == groups.Keys
    ensures selected.Keys == groups.Keys
  {
    map e | e in groups :: Stick(CurrentOf(current, e), groups[e], bests[e])
  }

  ghost predicate IsKept(current: seq<CurrentEntitlement>, groups: map<string, Sources>, stores: set<ProductKey>,
                   selected: map<string, Candidate>, e: string)
    requires selected.Keys == groups.Keys
  {
    e in selected && !Skips(CurrentOf(current, e), groups[e], stores, selected[e])
  }

  lemma KeptInOrder(current: seq<CurrentEntitlement>, groups: map<string, Sources>, stores: set<ProductKey>,
                    selected: map<string, Candidate>) returns (ids: seq<string>)
    requires selected.Keys == groups.Keys
    ensures StrictlySorted(ids) && forall e :: e in ids <==> IsKept(current, groups, stores, selected, e)
  {
    hide IsKept;
    var kept := set e | e in selected.Keys && IsKept(current, groups, stores, selected, e);
    forall e ensures e in kept <==> IsKept(current, groups, stores, selected, e) {
      KeptIsSelected(current, groups, stores, selected, e);
    }
    var list := Listing(kept);
    SortSorts(list);
    ids := Sort(list);
  }

  lemma KeptIsSelected(current: seq<CurrentEntitlement>, groups: map<string, Sources>, stores: set<ProductKey>,
                       selected: map<string, Candidate>, e: string)
    requires selected.Keys == groups.Keys
    ensures IsKept(current, groups, stores, selected, e) ==> e in selected.Keys
  {
    hide Skips;
  }

  function ProjectionsOf(ids: seq<string>, selected: map<string, Candidate>): (out: seq<Projection>)
    requires forall i | 0 <= i < |ids| :: ids[i] in selected
    ensures |out| == |ids| && forall i | 0 <= i < |ids| :: out[i] == selected[ids[i]].projection
  {
    seq(|ids|, i requires 0 <= i < |ids| => selected[ids[i]].projection)
  }

  lemma SelectionIsChosen(current: seq<CurrentEntitlement>, cs: seq<Candidate>, bests: map<string, Candidate>, e: string)
    requires BestsOf(cs, bests) && e in GroupsOf(cs)
    ensures var selected := SelectionOf(current, GroupsOf(cs), bests);
            && IsChosen(CurrentOf(current, e), GroupsOf(cs)[e], selected[e])
            && selected[e].projection.entitlementId == e
  {
    hide GroupsOf, CurrentOf, Stick, IsBest;
    assert IsBest(GroupsOf(cs)[e], bests[e]);
    SelectedIsOwn(current, cs, e, bests[e]);
  }

  /** The output of one choice of best sources. */
  lemma OutputOf(current: seq<CurrentEntitlement>, cs: seq<Candidate>, bests: map<string, Candidate>)
      returns (out: seq<Projection>)
    requires BestsOf(cs, bests)
    ensures Projects(current, cs, out)
    ensures forall e | e in bests ::
              e in GroupsOf(cs)
              && Find(out, e) == Written(CurrentOf(current, e), GroupsOf(cs)[e], StoreProducts(cs), bests[e])
  {
    var groups, stores := GroupsOf(cs), StoreProducts(cs);
    var selected := SelectionOf(current, groups, bests);
    var ids := KeptInOrder(current, groups, stores, selected);
    hide GroupsOf, StoreProducts, CurrentOf, Skips, Stick, IsBest, Projects, IsChosen, StrictlySorted;
    forall e | e in groups
      ensures IsChosen(CurrentOf(current, e), groups[e], selected[e]) && selected[e].projection.entitlementId == e
    {
      SelectionIsChosen(current, cs, bests, e);
    }
    forall i | 0 <= i < |ids| ensures ids[i] in selected {
      assert ids[i] in ids;
      assert IsKept(current, groups, stores, selected, ids[i]);
    }
    out := ProjectionsOf(ids, selected);
    OutputIs(current, cs, groups, stores, selected, ids, out);
    forall e | e in bests
      ensures e in groups && Find(out, e) == Written(CurrentOf(current, e), groups[e], stores, bests[e])
    {
      FoundSelection(out, ids, selected, e);
    }
  }

  lemma OutputIs(current: seq<CurrentEntitlement>, cs: seq<Candidate>, groups: map<string, Sources>,
                 stores: set<ProductKey>, selected: map<string, Candidate>, ids: seq<string>, out: seq<Projection>)
    requires groups == GroupsOf(cs) && stores == StoreProducts(cs) && selected.Keys == groups.Keys
    requires forall e | e in groups ::
               IsChosen(CurrentOf(current, e), groups[e], selected[e]) && selected[e].projection.entitlementId == e
    requires StrictlySorted(ids) && forall e :: e in ids <==> IsKept(current, groups, stores, selected, e)
    requires |out| == |ids| && forall i | 0 <= i < |ids| :: ids[i] in selected && out[i] == selected[ids[i]].projection
    ensures Ids(out) == ids && Projects(current, cs, out)
  {
    hide GroupsOf, StoreProducts, CurrentOf, Skips, IsChosen, StrictlySorted, Projects;
    assert Ids(out) == ids;
    SelectionIsProjected(current, cs, groups, stores, selected, ids, out);
  }

  lemma SelectedIsOwn(current: seq<CurrentEntitlement>, cs: seq<Candidate>, e: string, best: Candidate)
    requires e in GroupsOf(cs) && IsBest(GroupsOf(cs)[e], best)
    ensures Stick(CurrentOf(current, e), GroupsOf(cs)[e], best).projection.entitlementId == e
  {
    hide GroupsOf, CurrentOf;
    var sources := GroupsOf(cs)[e];
    var c := Stick(CurrentOf(current, e), sources, best);
    var k :| k in sources && sources[k] == c;
    GroupMember(cs, e, k);
  }

  /** Accepted inputs always have a result. */
  lemma ProjectionExists(current: seq<CurrentEntitlement>, cs: seq<Candidate>)
    ensures exists out :: Projects(current, cs, out)
  {
    hide IsBest, GroupsOf;
    var bests := map e | e in GroupsOf(cs) :: ABest(cs, e);
    var out := OutputOf(current, cs, bests);
  }

  /** Every best source of an entitlement is written by some run of the call. */
  lemma OutputWith(current: seq<CurrentEntitlement>, cs: seq<Candidate>, e: string, best: Candidate)
      returns (out: seq<Projection>)
    requires e in GroupsOf(cs) && IsBest(GroupsOf(cs)[e], best)
    ensures Projects(current, cs, out)
    ensures Find(out, e) == Written(CurrentOf(current, e), GroupsOf(cs)[e], StoreProducts(cs), best)
  {
    hide IsBest, Written, CurrentOf, GroupsOf;
    var bests := (map f | f in GroupsOf(cs) :: ABest(cs, f))[e := best];
    out := OutputOf(current, cs, bests);
  }

  // -------------------------------------- every way of breaking ties occurs

  lemma RemoveOne<T>(s: seq<T>, x: T) returns (rest: seq<T>)
    requires x in s
    ensures multiset(s) == multiset(rest) + multiset{x}
  {
    var i :| 0 <= i < |s| && s[i] == x;
    rest := s[..i] + s[i + 1..];
    assert s == s[..i] + [x] + s[i + 1..];
  }

  lemma LastIsNew<T>(s: seq<T>)
    requires s != [] && NoDuplicates(s)
    ensures s[|s| - 1] !in s[..|s| - 1] && NoDuplicates(s[..|s| - 1])
  {
    var fewer := s[..|s| - 1];
    forall i | 0 <= i < |fewer| ensures fewer[i] != s[|s| - 1] {
      assert s[i] != s[|s| - 1];
    }
    forall i, j | 0 <= i < j < |fewer| ensures fewer[i] != fewer[j] {
      assert s[i] != s[j];
    }
  }

  /** Moves distinct members of a sequence to its front. */
  lemma {:induction false} Extract<T>(s: seq<T>, front: seq<T>) returns (rest: seq<T>)
    requires NoDuplicates(front) && forall x | x in front :: x in s
    ensures multiset(s) == multiset(front) + multiset(rest)
    decreases |front|
  {
    if front == [] {
      rest := s;
    } else {
      var fewer, x := front[..|front| - 1], front[|front| - 1];
      LastIsNew(front);
      hide NoDuplicates;
      var more := Extract(s, fewer);
      assert x in front && x in s;
      assert x in multiset(s) && x !in multiset(fewer);
      assert x in multiset(more);
      rest := RemoveOne(more, x);
      assert front == fewer + [x];
    }
  }

  /** The kept candidates of one entitlement, key by key. */
  function Values(m: Sources, keys: seq<SourceKey>): (cs: seq<Candidate>)
    requires forall i | 0 <= i < |keys| :: keys[i] in m
    ensures |cs| == |keys| && forall i | 0 <= i < |cs| :: cs[i] == m[keys[i]]
  {
    seq(|keys|, i requires 0 <= i < |keys| => m[keys[i]])
  }

  /** `m` picks a candidate of the entitlement that is in force for each of its keys. */
  ghost predicate Picks(m: Sources, stores: set<ProductKey>, e: string) {
    forall k | k in m :: m[k].Source() == k && m[k].projection.entitlementId == e && !Superseded(m[k], stores)
  }

  lemma {:induction false} FrontIsGrouped(m: Sources, keys: seq<SourceKey>, stores: set<ProductKey>, e: string)
    requires Picks(m, stores, e) && NoDuplicates(keys) && forall i | 0 <= i < |keys| :: keys[i] in m
    ensures var groups := Grouped(Values(m, keys), stores);
            && (e in groups <==> keys != [])
            && (e in groups ==> forall k :: (k in groups[e] <==> k in keys) && (k in keys ==> k in groups[e] && groups[e][k] == m[k]))
  {
    hide Superseded, Newer;
    if keys != [] {
      var fewer, k := keys[..|keys| - 1], keys[|keys| - 1];
      FrontIsGrouped(m, fewer, stores, e);
      var cs := Values(m, keys);
      assert cs[..|cs| - 1] == Values(m, fewer);
      assert m[k].Source() == k;
      assert forall i | 0 <= i < |fewer| :: keys[i] != keys[|keys| - 1];
      assert forall x :: x in keys <==> x in fewer || x == k by {
        Members(keys);
      }
    }
  }

  /** Later candidates that are not newer leave an entitlement's group alone. */
  lemma {:induction false} RestKeepsGroup(a: seq<Candidate>, b: seq<Candidate>, stores: set<ProductKey>, e: string, m: Sources)
    requires e in Grouped(a, stores) && Grouped(a, stores)[e] == m
    requires forall d | d in b && !Superseded(d, stores) && d.projection.entitlementId == e ::
               d.Source() in m && !Newer(d, m[d.Source()])
    ensures e in Grouped(a + b, stores) && Grouped(a + b, stores)[e] == m
    decreases |b|
  {
    hide Superseded, Newer;
    if b == [] {
      assert a + b == a;
    } else {
      var fewer, d := b[..|b| - 1], b[|b| - 1];
      assert d in b;
      RestKeepsGroup(a, fewer, stores, e, m);
      assert (a + b)[..|a + b| - 1] == a + fewer && (a + b)[|a + b| - 1] == d;
    }
  }

  lemma LatestPicks(cs: seq<Candidate>, e: string, m: Sources)
    requires LatestSources(cs, e, m)
    ensures Picks(m, StoreProducts(cs), e) && forall k | k in m :: m[k] in cs
  {
    hide Superseded, Newer, StoreProducts;
    forall k | k in m
      ensures m[k].Source() == k && m[k].projection.entitlementId == e && !Superseded(m[k], StoreProducts(cs)) && m[k] in cs
    {
      assert IsLatest(cs, e, k, m[k]);
    }
  }

  lemma NoneIsNewer(cs: seq<Candidate>, e: string, m: Sources, d: Candidate)
    requires LatestSources(cs, e, m) && d in cs
    requires !Superseded(d, StoreProducts(cs)) && d.projection.entitlementId == e
    ensures d.Source() in m && !Newer(d, m[d.Source()])
  {
    hide Superseded, Newer, StoreProducts;
    assert IsLatest(cs, e, d.Source(), m[d.Source()]);
    assert Competes(d, cs, StoreProducts(cs), e, d.Source());
  }

  lemma ListedValues(cs: seq<Candidate>, e: string, m: Sources) returns (keys: seq<SourceKey>)
    requires LatestSources(cs, e, m)
    ensures NoDuplicates(keys) && keys != [] && (forall i | 0 <= i < |keys| :: keys[i] in m)
    ensures forall k | k in m :: k in keys
    ensures NoDuplicates(Values(m, keys)) && forall c | c in Values(m, keys) :: c in cs
  {
    keys := Listing(m.Keys);
    LatestPicks(cs, e, m);
    NotEmpty(cs, e, m);
    hide LatestSources, StoreProducts, Superseded, Newer;
    var k :| k in m;
    assert k in keys;
    forall i | 0 <= i < |keys| ensures keys[i] in m {
      assert keys[i] in keys;
    }
    var front := Values(m, keys);
    forall i, j | 0 <= i < j < |front| ensures front[i] != front[j] {
      assert front[i].Source() == keys[i] && front[j].Source() == keys[j];
    }
  }

  lemma ListedGroup(cs: seq<Candidate>, e: string, m: Sources, keys: seq<SourceKey>)
    requires LatestSources(cs, e, m)
    requires NoDuplicates(keys) && keys != [] && (forall i | 0 <= i < |keys| :: keys[i] in m) && forall k | k in m :: k in keys
    ensures var groups := Grouped(Values(m, keys), StoreProducts(cs)); e in groups && groups[e] == m
  {
    LatestPicks(cs, e, m);
    FrontIsGrouped(m, keys, StoreProducts(cs), e);
    hide LatestSources, StoreProducts, Grouped, Values, Picks;
    MapsEqual(Grouped(Values(m, keys), StoreProducts(cs))[e], m);
  }

  lemma MapsEqual(a: Sources, b: Sources)
    requires forall k :: k in a <==> k in b
    requires forall k | k in b :: k in a && a[k] == b[k]
    ensures a == b
  {
  }

  /** Some order of the candidates keeps exactly the given latest sources. */
  lemma Realized(cs: seq<Candidate>, e: string, m: Sources) returns (cs': seq<Candidate>)
    requires LatestSources(cs, e, m)
    ensures multiset(cs) == multiset(cs') && e in GroupsOf(cs') && GroupsOf(cs')[e] == m
  {
    hide LatestSources, StoreProducts, Superseded, Newer, Grouped, Values;
    var stores := StoreProducts(cs);
    var keys := ListedValues(cs, e, m);
    var front := Values(m, keys);
    var rest := Extract(cs, front);
    cs' := front + rest;
    assert multiset(cs') == multiset(front) + multiset(rest);
    SameMembers(cs, cs');
    SameStoreProducts(cs, cs');
    ListedGroup(cs, e, m, keys);
    forall d | d in rest && !Superseded(d, stores) && d.projection.entitlementId == e
      ensures d.Source() in m && !Newer(d, m[d.Source()])
    {
      assert d in cs';
      NoneIsNewer(cs, e, m, d);
    }
    RestKeepsGroup(front, rest, stores, e, m);
  }

  lemma NotEmpty(cs: seq<Candidate>, e: string, m: Sources)
    requires LatestSources(cs, e, m)
    ensures m != map[]
  {
  }

  /** Some order of the candidates writes what a way of breaking ties writes. */
  lemma Attained(current: seq<CurrentEntitlement>, cs: seq<Candidate>, e: string, m: Sources, b: Candidate)
      returns (cs': seq<Candidate>, out: seq<Projection>)
    requires LatestSources(cs, e, m) && IsBest(m, b)
    ensures multiset(cs) == multiset(cs') && Projects(current, cs', out)
    ensures Find(out, e) == Written(CurrentOf(current, e), m, StoreProducts(cs), b)
  {
    hide LatestSources, IsBest, Written, GroupsOf, StoreProducts, CurrentOf, Projects;
    cs' := Realized(cs, e, m);
    SameStoreProducts(cs, cs');
    out := OutputWith(current, cs', e, b);
  }

  lemma SameInOrder(current: seq<CurrentEntitlement>, cs: seq<Candidate>, cs': seq<Candidate>,
                    out: seq<Projection>, out': seq<Projection>)
    requires OrderFree(current, cs) && multiset(cs) == multiset(cs')
    requires Projects(current, cs, out) && Projects(current, cs', out')
    ensures out == out'
  {
    hide Projects;
    assert multiset(current) == multiset(current);
  }

  lemma OrderFreeTiesAgree(current: seq<CurrentEntitlement>, cs: seq<Candidate>)
    requires OrderFree(current, cs)
    ensures TiesAgree(current, cs)
  {
    forall e, m, n, b, c |
      LatestSources(cs, e, m) && LatestSources(cs, e, n) && IsBest(m, b) && IsBest(n, c)
      ensures Written(CurrentOf(current, e), m, StoreProducts(cs), b) == Written(CurrentOf(current, e), n, StoreProducts(cs), c)
    {
      hide LatestSources, IsBest, Written, StoreProducts, CurrentOf, Projects, OrderFree;
      ProjectionExists(current, cs);
      var out :| Projects(current, cs, out);
      var cs1, out1 := Attained(current, cs, e, m, b);
      var cs2, out2 := Attained(current, cs, e, n, c);
      SameInOrder(current, cs, cs1, out, out1);
      SameInOrder(current, cs, cs2, out, out2);
    }
  }

  /** The result of an accepted call is independent of every order exactly when all ways
      of breaking the ties of its folds write the same. */
  lemma OrderMattersExactlyForTies(current: seq<CurrentEntitlement>, cs: seq<Candidate>)
    requires InputError(current, cs).None?
    ensures OrderFree(current, cs) <==> TiesAgree(current, cs)
  {
    hide OrderFree, TiesAgree;
    if TiesAgree(current, cs) {
      AgreeingTiesAreOrderFree(current, cs);
    }
    if OrderFree(current, cs) {
      OrderFreeTiesAgree(current, cs);
    }
  }

  /** Distinct ids leave no tie to break. */
  lemma DistinctIdentitiesLeaveNoTies(current: seq<CurrentEntitlement>, cs: seq<Candidate>)
    requires InputError(current, cs).None? && DistinctIdentities(cs)
    ensures TiesAgree(current, cs)
  {
    hide InputError, Projects, DistinctIdentities, TiesAgree;
    forall current', cs', out, out' |
      multiset(current) == multiset(current') && multiset(cs) == multiset(cs')
      && Projects(current, cs, out) && Projects(current', cs', out')
      ensures out == out'
    {
      OrderIndependence(current, cs, current', cs');
    }
    OrderFreeTiesAgree(current, cs);
  }

  // --------------------------------------------------------------- example

  /** Two sources of different products that cite one id tie, and either may be written:
      without distinct ids the map order can decide the result. */
  lemma EqualIdentitiesTie(c: Candidate) returns (d: Candidate, out: seq<Projection>, out': seq<Projection>)
    requires c.Valid()
    ensures d == c.(projection := c.projection.(productId := c.projection.productId + "'"))
    ensures InputError([], [c, d]).None?
    ensures Projects([], [c, d], out) && Projects([], [c, d], out') && out != out'
  {
    d := c.(projection := c.projection.(productId := c.projection.productId + "'"));
    var cs := [c, d];
    var e := c.projection.entitlementId;
    TiedIsValid(c, d);
    CandidatesAccepted(cs);
    TiedGroup(c, d);
    TiedAreBest(c, d);
    hide IsBest, GroupsOf, StoreProducts, Projects;
    assert CurrentOf([], e) == None;
    out := OutputWith([], cs, e, c);
    out' := OutputWith([], cs, e, d);
    assert c.projection.productId != d.projection.productId;
  }

  lemma TiedIsValid(c: Candidate, d: Candidate)
    requires c.Valid() && d == c.(projection := c.projection.(productId := c.projection.productId + "'"))
    ensures d.Valid() && c.Source() != d.Source() && c.Product() != d.Product()
  {
    var p, q := c.projection.productId, d.projection.productId;
    assert |q| == |p| + 1 && q[|q| - 1] == '\'';
    assert ValidIdentifier(q) by {
      forall i | 0 <= i < |q| ensures !IsControl(q[i]) {
        if i < |p| {
          assert q[i] == p[i];
        }
      }
    }
  }

  lemma TiedGroup(c: Candidate, d: Candidate)
    requires c.Valid() && d == c.(projection := c.projection.(productId := c.projection.productId + "'"))
    requires c.Source() != d.Source() && c.Product() != d.Product()
    ensures var e := c.projection.entitlementId;
            && e in GroupsOf([c, d])
            && c.Source() in GroupsOf([c, d])[e] && GroupsOf([c, d])[e][c.Source()] == c
            && d.Source() in GroupsOf([c, d])[e] && GroupsOf([c, d])[e][d.Source()] == d
            && forall k | k in GroupsOf([c, d])[e] :: GroupsOf([c, d])[e][k] == c || GroupsOf([c, d])[e][k] == d
  {
    var cs, e := [c, d], c.projection.entitlementId;
    InStoreProducts(cs, c.Product());
    InStoreProducts(cs, d.Product());
    assert cs[0] == c && cs[1] == d;
    hide GroupsOf, StoreProducts, Candidate.Valid;
    ExampleMember(cs, c);
    ExampleMember(cs, d);
    forall k | k in GroupsOf(cs)[e] ensures GroupsOf(cs)[e][k] == c || GroupsOf(cs)[e][k] == d {
      GroupMember(cs, e, k);
    }
  }

  lemma TiedAreBest(c: Candidate, d: Candidate)
    requires d == c.(projection := c.projection.(productId := c.projection.productId + "'"))
    requires var e := c.projection.entitlementId;
             && e in GroupsOf([c, d])
             && c.Source() in GroupsOf([c, d])[e] && GroupsOf([c, d])[e][c.Source()] == c
             && d.Source() in GroupsOf([c, d])[e] && GroupsOf([c, d])[e][d.Source()] == d
             && forall k | k in GroupsOf([c, d])[e] :: GroupsOf([c, d])[e][k] == c || GroupsOf([c, d])[e][k] == d
    ensures IsBest(GroupsOf([c, d])[c.projection.entitlementId], c)
    ensures IsBest(GroupsOf([c, d])[c.projection.entitlementId], d)
  {
    LessIrreflexive(c.projection.SourceIdentity());
    hide GroupsOf;
  }
}
