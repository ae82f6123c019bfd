/** Writing planned subscribers through the identity store. */
module ImportApply {
  import opened Text
  import opened Identity
  import opened ImportPlan
  import opened ImportRows

  datatype ImportError = SubscriberConflict | Failed(error: Error)

  const IMPORT_ACTOR := "revenuecat-import"

  function AliasFor(projectId: string, canonicalId: string, alias: string): AliasWrite {
    AliasWrite(projectId, canonicalId, alias, Admin, IMPORT_ACTOR)
  }

  function AsImportError(error: Error): ImportError {
    if error == Conflict then SubscriberConflict else Failed(error)
  }

  /** The customer a subscriber's grants go to: the one its id resolves to, or a
      new one. */
  function ImportCustomer(s: Tables, projectId: string, customerId: string, externalId: string): (Tables,
                          Result<string, ImportError>) {
    match Resolve(s, projectId, externalId)
    case Ok(resolution) => (s, Ok(resolution.canonicalId))
    case Err(error) =>
      if error != NotFound then (s, Err(Failed(error)))
      else match AfterPut(s, customerId, projectId, externalId)
        case (t, Ok(id)) => (t, Ok(id))
        case (t, Err(putError)) => (s, Err(AsImportError(putError)))
  }

  function AttachAliases(s: Tables, projectId: string, canonicalId: string, aliases: seq<string>): Result<Tables,
                         ImportError> {
    if aliases == [] then Ok(s)
    else match AttachAliases(s, projectId, canonicalId, aliases[..|aliases| - 1])
      case Err(error) => Err(error)
      case Ok(t) => match AfterAlias(t, AliasFor(projectId, canonicalId, aliases[|aliases| - 1]))
        case (t', Ok(_)) => Ok(t')
        case (t', Err(error)) => Err(AsImportError(error))
  }

  /** One subscriber transaction: the customer and every alias, or nothing. */
  function AfterSubscriber(s: Tables, projectId: string, customerId: string, d: Draft): (Tables, Result<string,
                           ImportError>) {
    match ImportCustomer(s, projectId, customerId, d.externalId)
    case (t, Err(error)) => (s, Err(error))
    case (t, Ok(id)) => match AttachAliases(t, projectId, id, UniqueAliases(d.externalId, d.aliases))
      case Ok(t') => (t', Ok(id))
      case Err(error) => (s, Err(error))
  }

  method ApplySubscriber(store: IdentityStore, projectId: string, customerId: string,
                         d: Draft) returns (r: Result<string, ImportError>)
    modifies store
    ensures (store.State(), r) == AfterSubscriber(old(store.State()), projectId, customerId, d)
  {
    hide AfterAlias, AfterPut, Resolve, UniqueAliases, AliasFor, AsImportError;
    var saved := store.State();
    var id: string;
    var resolved := store.ResolveCustomer(projectId, d.externalId);
    if resolved.Ok? {
      id := resolved.value.canonicalId;
    } else if resolved.error != NotFound {
      return Err(Failed(resolved.error));
    } else {
      var put := store.PutCustomer(customerId, projectId, d.externalId);
      if put.Err? {
        Rollback(store, saved);
        return Err(AsImportError(put.error));
      }
      id := put.value;
    }
    ghost var start := store.State();
    var aliases := UniqueAliasesOf(d.externalId, d.aliases);
    for i := 0 to |aliases|
      invariant AttachAliases(start, projectId, id, aliases[..i]) == Ok(store.State())
    {
      assert aliases[..i + 1][..i] == aliases[..i];
      var attached := store.PutCustomerAlias(AliasFor(projectId, id, aliases[i]));
      if attached.Err? {
        AttachErrorLasts(start, projectId, id, aliases, i + 1);
        Rollback(store, saved);
        return Err(AsImportError(attached.error));
      }
    }
    assert aliases[..|aliases|] == aliases;
    return Ok(id);
  }

  method Rollback(store: IdentityStore, saved: Tables)
    modifies store
    ensures store.State() == saved
  {
    store.customers, store.primary := saved.customers, saved.primary;
    store.aliases, store.merges := saved.aliases, saved.merges;
  }

  lemma {:induction false} AttachErrorLasts(s: Tables, projectId: string, id: string, aliases: seq<string>, n: nat)
    requires n <= |aliases| && AttachAliases(s, projectId, id, aliases[..n]).Err?
    ensures AttachAliases(s, projectId, id, aliases) == AttachAliases(s, projectId, id, aliases[..n])
  {
    if n < |aliases| {
      assert aliases[..|aliases| - 1][..n] == aliases[..n];
      AttachErrorLasts(s, projectId, id, aliases[..|aliases| - 1], n);
    } else {
      assert aliases[..n] == aliases;
    }
  }

  // ------------------------------------------------- planner and store together

  /** The customer id derived from an external id is valid and never shared. */
  ghost predicate FreshIds(customerId: string -> string) {
    && (forall e | ValidIdentifier(e) :: ValidIdentifier(customerId(e)))
    && (forall e, f | customerId(e) == customerId(f) :: e == f)
  }

  /** A draft the planner turns into a subscriber it applies. */
  ghost predicate Planned(drafts: seq<Draft>, d: Draft) {
    && d in drafts && !Conflicted(drafts, d.externalId) && ValidIdentifier(d.externalId)
    && forall a | a in UniqueAliases(d.externalId, d.aliases) :: ValidIdentifier(a)
  }

  /** Only planned subscribers have been written, each as its own customer. */
  ghost predicate Clean(s: Tables, projectId: string, customerId: string -> string, drafts: seq<Draft>) {
    && (forall k | k in s.primary ::
         k.projectId == projectId && s.primary[k] == customerId(k.externalId) && IsPlannedId(drafts, k.externalId))
    && (forall id | id in s.customers ::
         s.customers[id].mergedInto.None? && s.customers[id].Key() in s.primary && s.primary[s.customers[id].Key()] == id)
    && (forall k | k in s.primary :: s.primary[k] in s.customers && s.customers[s.primary[k]].Key() == k)
    && (forall k | k in s.aliases :: k.projectId == projectId && AliasPlanned(s, customerId, drafts, projectId, k))
  }

  ghost predicate IsPlannedId(drafts: seq<Draft>, externalId: string) {
    exists d :: Planned(drafts, d) && d.externalId == externalId
  }

  ghost predicate AliasPlanned(s: Tables, customerId: string -> string, drafts: seq<Draft>, projectId: string,
                               k: ExternalKey)
    requires k in s.aliases
  {
    exists d :: Planned(drafts, d) && Claims(d, k.externalId)
      && ExternalKey(projectId, d.externalId) in s.primary && s.aliases[k] == customerId(d.externalId)
  }

  /** A planned id is never another planned draft's alias, and a planned alias
      belongs to one canonical id. */
  lemma PlannedNeverOverlap(drafts: seq<Draft>, d: Draft, other: Draft, alias: string)
    requires Planned(drafts, d) && Planned(drafts, other) && Claims(d, alias)
    ensures other.externalId != alias
    ensures Claims(other, alias) ==> other.externalId == d.externalId
  {
    UniqueAliasesAre(d.externalId, d.aliases);
    if other.externalId == alias || (Claims(other, alias) && other.externalId != d.externalId) {
      assert Overlap(d, alias, other);
    }
  }

  /** A planned subscriber finds its own customer or adds it. */
  lemma CustomerOutcome(s: Tables, projectId: string, customerId: string -> string, drafts: seq<Draft>, d: Draft)
    requires FreshIds(customerId) && ValidIdentifier(projectId)
    requires Clean(s, projectId, customerId, drafts) && Planned(drafts, d)
    ensures var (t, r) := ImportCustomer(s, projectId, customerId(d.externalId), d.externalId);
      var key := ExternalKey(projectId, d.externalId);
      && r == Ok(customerId(d.externalId)) && key !in s.aliases
      && (if key in s.primary then t == s else customerId(d.externalId) !in s.customers && t == WithCustomer(s, projectId, customerId, d.externalId))
  {
    var key := ExternalKey(projectId, d.externalId);
    if key in s.aliases {
      assert AliasPlanned(s, customerId, drafts, projectId, key);
      var other :| Planned(drafts, other) && Claims(other, key.externalId)
        && ExternalKey(projectId, other.externalId) in s.primary && s.aliases[key] == customerId(other.externalId);
      PlannedNeverOverlap(drafts, other, d, key.externalId);
    }
  }

  function WithCustomer(s: Tables, projectId: string, customerId: string -> string, externalId: string): Tables {
    s.(customers := s.customers[customerId(externalId) := Customer(projectId, externalId, None)],
       primary := s.primary[ExternalKey(projectId, externalId) := customerId(externalId)])
  }

  lemma CustomerKeepsClean(s: Tables, projectId: string, customerId: string -> string, drafts: seq<Draft>, d: Draft)
    requires Clean(s, projectId, customerId, drafts) && Planned(drafts, d)
    requires ExternalKey(projectId, d.externalId) !in s.primary && customerId(d.externalId) !in s.customers
    ensures Clean(WithCustomer(s, projectId, customerId, d.externalId), projectId, customerId, drafts)
  {
    var t := WithCustomer(s, projectId, customerId, d.externalId);
    hide Planned, Claims;
    assert IsPlannedId(drafts, d.externalId);
    forall k | k in t.aliases ensures AliasPlanned(t, customerId, drafts, projectId, k) {
      assert AliasPlanned(s, customerId, drafts, projectId, k);
    }
  }

  lemma CustomerIsImported(s: Tables, projectId: string, customerId: string -> string, drafts: seq<Draft>, d: Draft)
    requires FreshIds(customerId) && ValidIdentifier(projectId)
    requires Clean(s, projectId, customerId, drafts) && Planned(drafts, d)
    ensures var (t, r) := ImportCustomer(s, projectId, customerId(d.externalId), d.externalId);
      && r == Ok(customerId(d.externalId)) && Clean(t, projectId, customerId, drafts)
      && ExternalKey(projectId, d.externalId) in t.primary
      && (forall k | k in s.primary :: k in t.primary) && t.aliases == s.aliases
  {
    hide Clean, Planned, FreshIds, ImportCustomer;
    CustomerOutcome(s, projectId, customerId, drafts, d);
    if ExternalKey(projectId, d.externalId) !in s.primary {
      CustomerKeepsClean(s, projectId, customerId, drafts, d);
    }
  }

  /** An alias write for a planned subscriber either finds the alias already its
      own or adds it. */
  lemma AliasOutcome(s: Tables, projectId: string, customerId: string -> string, drafts: seq<Draft>, d: Draft,
                     alias: string)
    requires FreshIds(customerId) && ValidIdentifier(projectId)
    requires Clean(s, projectId, customerId, drafts) && Planned(drafts, d) && Claims(d, alias)
    requires ExternalKey(projectId, d.externalId) in s.primary
    ensures var (t, r) := AfterAlias(s, AliasFor(projectId, customerId(d.externalId), alias));
      var key := ExternalKey(projectId, alias);
      && r.Ok? && key !in s.primary
      && (if key in s.aliases then t == s && s.aliases[key] == customerId(d.externalId)
          else t == s.(aliases := s.aliases[key := customerId(d.externalId)]))
  {
    var key := ExternalKey(projectId, alias);
    hide IsControl, IsSpace;
    UniqueAliasesAre(d.externalId, d.aliases);
    ActorIsValid();
    assert ById(s, projectId, customerId(d.externalId)).Some?;
    if key in s.primary {
      assert IsPlannedId(drafts, alias);
      var other :| Planned(drafts, other) && other.externalId == alias;
      PlannedNeverOverlap(drafts, d, other, alias);
    } else if key in s.aliases {
      assert AliasPlanned(s, customerId, drafts, projectId, key);
      var other :| Planned(drafts, other) && Claims(other, alias)
        && ExternalKey(projectId, other.externalId) in s.primary && s.aliases[key] == customerId(other.externalId);
      PlannedNeverOverlap(drafts, d, other, alias);
    }
  }

  lemma ActorIsValid()
    ensures ValidIdentifier(IMPORT_ACTOR)
  {
  }

  lemma AliasKeepsClean(s: Tables, projectId: string, customerId: string -> string, drafts: seq<Draft>, d: Draft,
                        alias: string)
    requires Clean(s, projectId, customerId, drafts) && Planned(drafts, d) && Claims(d, alias)
    requires ExternalKey(projectId, d.externalId) in s.primary
    ensures Clean(s.(aliases := s.aliases[ExternalKey(projectId, alias) := customerId(d.externalId)]), projectId, customerId, drafts)
  {
    var key := ExternalKey(projectId, alias);
    var t := s.(aliases := s.aliases[key := customerId(d.externalId)]);
    forall k | k in t.aliases ensures k.projectId == projectId && AliasPlanned(t, customerId, drafts, projectId, k) {
      if k != key { assert AliasPlanned(s, customerId, drafts, projectId, k); }
    }
  }

  ghost predicate AliasesKept(s: Tables, t: Tables) {
    t.primary == s.primary && forall k | k in s.aliases :: k in t.aliases && t.aliases[k] == s.aliases[k]
  }

  ghost predicate OwnsAliases(t: Tables, projectId: string, id: string, aliases: seq<string>) {
    forall a | a in aliases :: ExternalKey(projectId, a) in t.aliases && t.aliases[ExternalKey(projectId, a)] == id
  }

  lemma AliasStep(s: Tables, projectId: string, customerId: string -> string, drafts: seq<Draft>, d: Draft,
                  alias: string)
    requires FreshIds(customerId) && ValidIdentifier(projectId)
    requires Clean(s, projectId, customerId, drafts) && Planned(drafts, d) && Claims(d, alias)
    requires ExternalKey(projectId, d.externalId) in s.primary
    ensures var (t, r) := AfterAlias(s, AliasFor(projectId, customerId(d.externalId), alias));
      && r.Ok? && Clean(t, projectId, customerId, drafts) && AliasesKept(s, t)
      && ExternalKey(projectId, alias) in t.aliases && t.aliases[ExternalKey(projectId, alias)] == customerId(d.externalId)
  {
    hide Clean, Planned;
    AliasOutcome(s, projectId, customerId, drafts, d, alias);
    AliasKeepsClean(s, projectId, customerId, drafts, d, alias);
  }

  lemma {:induction false} AliasesAreAttached(s: Tables, projectId: string, customerId: string -> string,
                                              drafts: seq<Draft>, d: Draft, aliases: seq<string>)
    requires FreshIds(customerId) && ValidIdentifier(projectId)
    requires Clean(s, projectId, customerId, drafts) && Planned(drafts, d) && (forall a | a in aliases :: Claims(d, a))
    requires ExternalKey(projectId, d.externalId) in s.primary
    ensures var r := AttachAliases(s, projectId, customerId(d.externalId), aliases);
      && r.Ok? && Clean(r.value, projectId, customerId, drafts)
      && AliasesKept(s, r.value) && OwnsAliases(r.value, projectId, customerId(d.externalId), aliases)
  {
    hide Clean, Planned, Claims, AfterAlias, FreshIds;
    if aliases != [] {
      var n := |aliases| - 1;
      AliasesAreAttached(s, projectId, customerId, drafts, d, aliases[..n]);
      var t := AttachAliases(s, projectId, customerId(d.externalId), aliases[..n]).value;
      AliasStep(t, projectId, customerId, drafts, d, aliases[n]);
      assert forall a | a in aliases :: a in aliases[..n] || a == aliases[n];
    }
  }

  /** Every claim of a written subscriber leads to its own customer. */
  ghost predicate Imported(s: Tables, projectId: string, customerId: string -> string, d: Draft) {
    && ExternalKey(projectId, d.externalId) in s.primary
    && OwnsAliases(s, projectId, customerId(d.externalId), UniqueAliases(d.externalId, d.aliases))
  }

  lemma SubscriberIsImported(s: Tables, projectId: string, customerId: string -> string, drafts: seq<Draft>, d: Draft)
    requires FreshIds(customerId) && ValidIdentifier(projectId)
    requires Clean(s, projectId, customerId, drafts) && Planned(drafts, d)
    ensures var (t, r) := AfterSubscriber(s, projectId, customerId(d.externalId), d);
      && r == Ok(customerId(d.externalId)) && Clean(t, projectId, customerId, drafts)
      && Imported(t, projectId, customerId, d)
      && forall e | Imported(s, projectId, customerId, e) :: Imported(t, projectId, customerId, e)
  {
    CustomerIsImported(s, projectId, customerId, drafts, d);
    var mid := ImportCustomer(s, projectId, customerId(d.externalId), d.externalId).0;
    AliasesAreAttached(mid, projectId, customerId, drafts, d, UniqueAliases(d.externalId, d.aliases));
    var t := AfterSubscriber(s, projectId, customerId(d.externalId), d).0;
    forall e | Imported(s, projectId, customerId, e) ensures Imported(t, projectId, customerId, e) {
      assert OwnsAliases(s, projectId, customerId(e.externalId), UniqueAliases(e.externalId, e.aliases));
    }
  }

  /** Applies planned subscribers one transaction at a time. */
  function ApplyAll(s: Tables, projectId: string, customerId: string -> string, applied: seq<Draft>): (Tables,
                    seq<Result<string, ImportError>>) {
    if applied == [] then (s, [])
    else
      var n := |applied| - 1;
      var (t, rs) := ApplyAll(s, projectId, customerId, applied[..n]);
      var (t', r) := AfterSubscriber(t, projectId, customerId(applied[n].externalId), applied[n]);
      (t', rs + [r])
  }

  lemma EmptyIsClean(projectId: string, customerId: string -> string, drafts: seq<Draft>)
    ensures Clean(EMPTY, projectId, customerId, drafts)
  {
  }

  lemma {:induction false} PlannedAreImported(drafts: seq<Draft>, projectId: string, customerId: string -> string,
                                              applied: seq<Draft>)
    requires FreshIds(customerId) && ValidIdentifier(projectId)
    requires forall d | d in applied :: Planned(drafts, d)
    ensures var (t, rs) := ApplyAll(EMPTY, projectId, customerId, applied);
      && |rs| == |applied| && Clean(t, projectId, customerId, drafts)
      && (forall i | 0 <= i < |applied| :: rs[i] == Ok(customerId(applied[i].externalId)))
      && (forall d | d in applied :: Imported(t, projectId, customerId, d))
  {
    hide Clean, Planned, AfterSubscriber, Imported, FreshIds;
    EmptyIsClean(projectId, customerId, drafts);
    if applied != [] {
      var n := |applied| - 1;
      forall d | d in applied[..n] ensures d in applied {
      }
      PlannedAreImported(drafts, projectId, customerId, applied[..n]);
      var before := ApplyAll(EMPTY, projectId, customerId, applied[..n]).0;
      SubscriberIsImported(before, projectId, customerId, drafts, applied[n]);
      assert forall d | d in applied :: d in applied[..n] || d == applied[n];
    }
  }

  predicate ResolvesTo(s: Tables, projectId: string, externalId: string, id: string) {
    var r := Resolve(s, projectId, externalId);
    r.Ok? && r.value.canonicalId == id
  }

  predicate OwnId(d: Draft, externalId: string) {
    externalId == d.externalId || externalId in UniqueAliases(d.externalId, d.aliases)
  }

  lemma ImportedResolves(s: Tables, projectId: string, customerId: string -> string, drafts: seq<Draft>, d: Draft,
                         externalId: string)
    requires FreshIds(customerId) && ValidIdentifier(projectId)
    requires Clean(s, projectId, customerId, drafts) && Planned(drafts, d) && Imported(s, projectId, customerId, d)
    requires OwnId(d, externalId)
    ensures ResolvesTo(s, projectId, externalId, customerId(d.externalId))
  {
    if externalId != d.externalId {
      assert Claims(d, externalId);
      assert AliasFor(projectId, customerId(d.externalId), externalId).canonicalId == customerId(d.externalId);
      AliasOutcome(s, projectId, customerId, drafts, d, externalId);
    }
  }

  /** Whatever unmarked subscribers are applied to an empty store, and in whatever
      order, none conflicts, and afterwards the id and every alias of each resolve
      to its own customer. */
  lemma UnmarkedSubscribersNeverConflict(drafts: seq<Draft>, projectId: string,
                                         customerId: string -> string, applied: seq<Draft>)
    requires FreshIds(customerId) && ValidIdentifier(projectId)
    requires forall d | d in applied :: Planned(drafts, d)
    ensures var (t, rs) := ApplyAll(EMPTY, projectId, customerId, applied);
      && |rs| == |applied|
      && (forall i | 0 <= i < |applied| :: rs[i] == Ok(customerId(applied[i].externalId)))
      && (forall d, externalId | d in applied && OwnId(d, externalId) ::
           ResolvesTo(t, projectId, externalId, customerId(d.externalId)))
  {
    hide Clean, Planned, ApplyAll, Imported, FreshIds, OwnId, ResolvesTo;
    PlannedAreImported(drafts, projectId, customerId, applied);
    var (t, rs) := ApplyAll(EMPTY, projectId, customerId, applied);
    forall d, externalId | d in applied && OwnId(d, externalId)
      ensures ResolvesTo(t, projectId, externalId, customerId(d.externalId))
    {
      ImportedResolves(t, projectId, customerId, drafts, d, externalId);
    }
  }

  /** The planner finds its marker exactly on the refused drafts and on those whose own
      rows already have its shape. */
  lemma MarkerIsReadBack(drafts: seq<Draft>, marked: seq<Draft>, i: nat)
    requires i < |drafts| == |marked|
    requires forall j | 0 <= j < |drafts| :: marked[j] == Marked(drafts[j], Conflicted(drafts, drafts[j].externalId))
    ensures HasConflict(marked[i]) <==> HasConflict(drafts[i]) || Conflicted(drafts, drafts[i].externalId)
    ensures HasConflict(marked[i]) <==>
            exists row | row in marked[i].rows :: row.ambiguousProduct && row.productIdentifier == "" && |row.entitlementIds| == 0
  {
    hide Conflicted;
    var rows, more := drafts[i].rows, marked[i].rows;
    assert forall j | 0 <= j < |rows| :: more[j] == rows[j];
    if Conflicted(drafts, drafts[i].externalId) {
      assert more[|rows|] == MarkerRow(drafts[i].line);
    }
  }
}
