/** Customer identity: primary ids, aliases, and append-only merges. Each
    operation is one transaction: it commits its result or changes nothing. */
module Identity {
  import opened Text

  datatype ExternalKey = ExternalKey(projectId: string, externalId: string)

  datatype Customer = Customer(projectId: string, externalId: string, mergedInto: Option<string>) {
    function Key(): ExternalKey {
      ExternalKey(projectId, externalId)
    }
  }

  /** One merge audit row. */
  datatype AuditRow = AuditRow(id: string, projectId: string, canonicalId: string, sourceId: string, idempotencyKey: string)

  /** The identity tables; `primary` is the unique index on (project, external id). */
  datatype Tables = Tables(
    customers: map<string, Customer>,
    primary: map<ExternalKey, string>,
    aliases: map<ExternalKey, string>,
    merges: seq<AuditRow>)

  const EMPTY := Tables(map[], map[], map[], [])

  datatype Match = PrimaryMatch | AliasMatch | MergedMatch

  datatype Resolution = Resolution(canonicalId: string, match_: Match)

  datatype Error = Invalid | NotFound | Conflict | EntitlementConflict

  datatype Role = Admin | Application | OtherRole(text: string)

  datatype AliasWrite = AliasWrite(projectId: string, canonicalId: string, externalId: string, role: Role, actorKeyId: string) {
    predicate Valid() {
      && ValidIdentifier(projectId) && ValidIdentifier(canonicalId) && ValidIdentifier(externalId)
      && !role.OtherRole? && ValidIdentifier(actorKeyId)
    }
  }

  datatype MergeWrite = MergeWrite(projectId: string, canonicalId: string, sourceId: string, idempotencyKey: string, actorKeyId: string) {
    predicate Valid() {
      && ValidIdentifier(projectId) && ValidIdentifier(canonicalId) && ValidIdentifier(sourceId)
      && ValidIdentifier(idempotencyKey) && ValidIdentifier(actorKeyId)
    }
  }

  datatype MergeResult = MergeResult(merge: AuditRow, replay: bool)

  // ---------------------------------------------------------------- lookups

  function ById(s: Tables, projectId: string, id: string): Option<Customer> {
    if id in s.customers && s.customers[id].projectId == projectId then Some(s.customers[id]) else None
  }

  function MergeByKey(merges: seq<AuditRow>, projectId: string, key: string): Option<AuditRow> {
    if merges == [] then None
    else if merges[0].projectId == projectId && merges[0].idempotencyKey == key then Some(merges[0])
    else MergeByKey(merges[1..], projectId, key)
  }

  function MergeBySource(merges: seq<AuditRow>, sourceId: string): Option<AuditRow> {
    if merges == [] then None
    else if merges[0].sourceId == sourceId then Some(merges[0])
    else MergeBySource(merges[1..], sourceId)
  }

  predicate OwnsAlias(s: Tables, projectId: string, id: string) {
    exists k | k in s.aliases :: k.projectId == projectId && s.aliases[k] == id
  }

  predicate OwnsMerge(s: Tables, projectId: string, id: string) {
    exists c | c in s.customers :: s.customers[c].projectId == projectId && s.customers[c].mergedInto == Some(id)
  }

  // ------------------------------------------------------------- operations

  /** Maps one external id to its canonical customer. */
  function Resolve(s: Tables, projectId: string, externalId: string): Result<Resolution, Error> {
    var key := ExternalKey(projectId, externalId);
    if !ValidIdentifier(projectId) || !ValidIdentifier(externalId) then Err(Invalid)
    else if key in s.primary && s.primary[key] in s.customers then
      var id := s.primary[key];
      match s.customers[id].mergedInto
      case None => Ok(Resolution(id, PrimaryMatch))
      case Some(target) => Canonical(s, projectId, target, MergedMatch)
    else if key in s.aliases then Canonical(s, projectId, s.aliases[key], AliasMatch)
    else Err(NotFound)
  }

  /** One hop ends at a customer that is not merged itself. */
  function Canonical(s: Tables, projectId: string, id: string, match_: Match): Result<Resolution, Error> {
    match ById(s, projectId, id)
    case None => Err(NotFound)
    case Some(target) => if target.mergedInto.Some? then Err(Conflict) else Ok(Resolution(id, match_))
  }

  /** Creates one external identity or returns the existing one. */
  function AfterPut(s: Tables, id: string, projectId: string, externalId: string): (Tables, Result<string, Error>) {
    var key := ExternalKey(projectId, externalId);
    if !ValidIdentifier(id) || !ValidIdentifier(projectId) || !ValidIdentifier(externalId) then (s, Err(Invalid))
    else if key in s.aliases then (s, Err(Conflict))
    else if key in s.primary then (s, Ok(s.primary[key]))
    else if id in s.customers then (s, Err(Conflict))
    else (s.(customers := s.customers[id := Customer(projectId, externalId, None)], primary := s.primary[key := id]), Ok(id))
  }

  /** Attaches one external id to a canonical customer. */
  function AfterAlias(s: Tables, w: AliasWrite): (Tables, Result<Resolution, Error>) {
    if !w.Valid() then (s, Err(Invalid))
    else match ById(s, w.projectId, w.canonicalId)
      case None => (s, Err(NotFound))
      case Some(canonical) =>
        if canonical.mergedInto.Some? then (s, Err(Conflict))
        else if canonical.externalId == w.externalId then (s, Ok(Resolution(w.canonicalId, PrimaryMatch)))
        else match Resolve(s, w.projectId, w.externalId)
          case Ok(resolved) =>
            if resolved.canonicalId != w.canonicalId then (s, Err(Conflict)) else (s, Ok(resolved))
          case Err(error) =>
            if error != NotFound then (s, Err(error))
            else (s.(aliases := s.aliases[ExternalKey(w.projectId, w.externalId) := w.canonicalId]),
                  Ok(Resolution(w.canonicalId, AliasMatch)))
  }

  /** Records one merge or returns the stored audit row. `mergeId` is the random
      audit id, `entitlementConflict` whether both customers hold one allowed
      entitlement. */
  function AfterMerge(s: Tables, w: MergeWrite, mergeId: string, entitlementConflict: bool): (Tables,
                      Result<MergeResult, Error>) {
    if !w.Valid() then (s, Err(Invalid))
    else if w.canonicalId == w.sourceId then (s, Err(Conflict))
    else if ById(s, w.projectId, w.canonicalId).None? || ById(s, w.projectId, w.sourceId).None? then (s, Err(NotFound))
    else match MergeByKey(s.merges, w.projectId, w.idempotencyKey)
      case Some(byKey) =>
        if byKey.canonicalId != w.canonicalId || byKey.sourceId != w.sourceId then (s, Err(Conflict))
        else (s, Ok(MergeResult(byKey, true)))
      case None => match MergeBySource(s.merges, w.sourceId)
        case Some(bySource) =>
          if bySource.projectId != w.projectId || bySource.canonicalId != w.canonicalId then (s, Err(Conflict))
          else (s, Ok(MergeResult(bySource, true)))
        case None => RecordMerge(s, w, mergeId, entitlementConflict)
  }

  function RecordMerge(s: Tables, w: MergeWrite, mergeId: string, entitlementConflict: bool): (Tables,
                       Result<MergeResult, Error>)
    requires ById(s, w.projectId, w.canonicalId).Some? && ById(s, w.projectId, w.sourceId).Some?
  {
    var canonical, source := ById(s, w.projectId, w.canonicalId).value, ById(s, w.projectId, w.sourceId).value;
    if canonical.mergedInto.Some? || source.mergedInto.Some? then (s, Err(Conflict))
    else if OwnsAlias(s, w.projectId, w.sourceId) || OwnsMerge(s, w.projectId, w.sourceId) then (s, Err(Conflict))
    else if entitlementConflict then (s, Err(EntitlementConflict))
    else if exists m | m in s.merges :: m.id == mergeId then (s, Err(Conflict))
    else if !ValidIdentifier(mergeId) then (s, Err(Invalid))
    else
      var merge := AuditRow(mergeId, w.projectId, w.canonicalId, w.sourceId, w.idempotencyKey);
      (s.(customers := s.customers[w.sourceId := source.(mergedInto := Some(w.canonicalId))], merges := s.merges + [merge]),
       Ok(MergeResult(merge, false)))
  }

  /** A canonical customer and every customer merged directly into it. */
  function Members(s: Tables, projectId: string, canonicalId: string): set<string> {
    set c | c in s.customers && s.customers[c].projectId == projectId && (c == canonicalId || s.customers[c].mergedInto == Some(canonicalId))
  }

  function Closure(s: Tables, projectId: string, id: string): Result<(string, set<string>), Error> {
    match ById(s, projectId, id)
    case None => Ok((id, {id}))
    case Some(customer) =>
      if customer.mergedInto.None? then Ok((id, Members(s, projectId, id)))
      else match ById(s, projectId, customer.mergedInto.value)
        case None => Err(NotFound)
        case Some(target) =>
          if target.mergedInto.Some? then Err(Conflict)
          else Ok((customer.mergedInto.value, Members(s, projectId, customer.mergedInto.value)))
  }

  function InClosure(s: Tables, projectId: string, canonicalId: string, candidateId: string): Result<bool, Error> {
    if !ValidIdentifier(projectId) || !ValidIdentifier(canonicalId) || !ValidIdentifier(candidateId) then Err(Invalid)
    else if candidateId == canonicalId then
      if ById(s, projectId, canonicalId).None? then Err(NotFound) else Ok(true)
    else match ById(s, projectId, candidateId)
      case None => Ok(false)
      case Some(candidate) => Ok(candidate.mergedInto == Some(canonicalId))
  }

  /** The identity tables as the store updates them in place. */
  class IdentityStore {
    var customers: map<string, Customer>
    var primary: map<ExternalKey, string>
    var aliases: map<ExternalKey, string>
    var merges: seq<AuditRow>

    constructor ()
      ensures State() == EMPTY
    {
      customers, primary, aliases, merges := map[], map[], map[], [];
    }

    function State(): Tables
      reads this
    {
      Tables(customers, primary, aliases, merges)
    }

    method ResolveCustomer(projectId: string, externalId: string) returns (r: Result<Resolution, Error>)
      ensures r == Resolve(State(), projectId, externalId)
    {
      if !ValidIdentifier(projectId) || !ValidIdentifier(externalId) {
        return Err(Invalid);
      }
      var key := ExternalKey(projectId, externalId);
      if key in primary && primary[key] in customers {
        var id := primary[key];
        if customers[id].mergedInto.None? {
          return Ok(Resolution(id, PrimaryMatch));
        }
        return Canonical(State(), projectId, customers[id].mergedInto.value, MergedMatch);
      }
      if key !in aliases {
        return Err(NotFound);
      }
      return Canonical(State(), projectId, aliases[key], AliasMatch);
    }

    method PutCustomer(id: string, projectId: string, externalId: string) returns (r: Result<string, Error>)
      modifies this
      ensures (State(), r) == AfterPut(old(State()), id, projectId, externalId)
    {
      if !ValidIdentifier(id) || !ValidIdentifier(projectId) || !ValidIdentifier(externalId) {
        return Err(Invalid);
      }
      var key := ExternalKey(projectId, externalId);
      if key in aliases {
        return Err(Conflict);
      }
      if key !in primary {
        if id in customers {
          return Err(Conflict);
        }
        customers := customers[id := Customer(projectId, externalId, None)];
        primary := primary[key := id];
      }
      return Ok(primary[key]);
    }

    method PutCustomerAlias(w: AliasWrite) returns (r: Result<Resolution, Error>)
      modifies this
      ensures (State(), r) == AfterAlias(old(State()), w)
    {
      if !w.Valid() {
        return Err(Invalid);
      }
      if ById(State(), w.projectId, w.canonicalId).None? {
        return Err(NotFound);
      }
      var canonical := customers[w.canonicalId];
      if canonical.mergedInto.Some? {
        return Err(Conflict);
      }
      if canonical.externalId == w.externalId {
        return Ok(Resolution(w.canonicalId, PrimaryMatch));
      }
      var resolved := ResolveCustomer(w.projectId, w.externalId);
      if resolved.Ok? {
        if resolved.value.canonicalId != w.canonicalId {
          return Err(Conflict);
        }
        return resolved;
      }
      if resolved.error != NotFound {
        return resolved;
      }
      aliases := aliases[ExternalKey(w.projectId, w.externalId) := w.canonicalId];
      return Ok(Resolution(w.canonicalId, AliasMatch));
    }

    method MergeCustomers(w: MergeWrite, mergeId: string, entitlementConflict: bool) returns (r: Result<MergeResult,
                          Error>)
      modifies this
      ensures (State(), r) == AfterMerge(old(State()), w, mergeId, entitlementConflict)
    {
      if !w.Valid() {
        return Err(Invalid);
      }
      if w.canonicalId == w.sourceId {
        return Err(Conflict);
      }
      if ById(State(), w.projectId, w.canonicalId).None? || ById(State(), w.projectId, w.sourceId).None? {
        return Err(NotFound);
      }
      var byKey := MergeByKey(merges, w.projectId, w.idempotencyKey);
      if byKey.Some? {
        if byKey.value.canonicalId != w.canonicalId || byKey.value.sourceId != w.sourceId {
          return Err(Conflict);
        }
        return Ok(MergeResult(byKey.value, true));
      }
      var bySource := MergeBySource(merges, w.sourceId);
      if bySource.Some? {
        if bySource.value.projectId != w.projectId || bySource.value.canonicalId != w.canonicalId {
          return Err(Conflict);
        }
        return Ok(MergeResult(bySource.value, true));
      }
      if customers[w.canonicalId].mergedInto.Some? || customers[w.sourceId].mergedInto.Some? {
        return Err(Conflict);
      }
      if OwnsAlias(State(), w.projectId, w.sourceId) || OwnsMerge(State(), w.projectId, w.sourceId) {
        return Err(Conflict);
      }
      if entitlementConflict {
        return Err(EntitlementConflict);
      }
      if exists m | m in merges :: m.id == mergeId {
        return Err(Conflict);
      }
      if !ValidIdentifier(mergeId) {
        return Err(Invalid);
      }
      customers := customers[w.sourceId := customers[w.sourceId].(mergedInto := Some(w.canonicalId))];
      var merge := AuditRow(mergeId, w.projectId, w.canonicalId, w.sourceId, w.idempotencyKey);
      merges := merges + [merge];
      return Ok(MergeResult(merge, false));
    }

    /** Lists a closure row by row. */
    method CustomerClosure(projectId: string, id: string) returns (r: Result<(string, set<string>), Error>)
      ensures r == Closure(State(), projectId, id)
    {
      if ById(State(), projectId, id).None? {
        return Ok((id, {id}));
      }
      var canonicalId := id;
      if customers[id].mergedInto.Some? {
        canonicalId := customers[id].mergedInto.value;
        if ById(State(), projectId, canonicalId).None? {
          return Err(NotFound);
        }
        if customers[canonicalId].mergedInto.Some? {
          return Err(Conflict);
        }
      }
      var members: set<string> := {};
      var left := customers.Keys;
      while left != {}
        invariant left <= customers.Keys
        invariant members == Members(State(), projectId, canonicalId) - left
        decreases left
      {
        var c :| c in left;
        left := left - {c};
        if customers[c].projectId == projectId && (c == canonicalId || customers[c].mergedInto == Some(canonicalId)) {
          members := members + {c};
        }
      }
      assert members == Members(State(), projectId, canonicalId);
      return Ok((canonicalId, members));
    }
  }
}
