/** Stored financial reports: saving one, superseding the accepted one of a period, and
    reviving an older file. Every operation is one transaction. */
module FinancialImports {
  import opened Text
  import opened ReportAmounts

  /** What a report covers. Dates are UTC civil days. */
  datatype Scope = Scope(project: string, provider: string, kind: string, start: int, end: int)

  datatype Status = Accepted | Unrecognized | Rejected | Superseded

  datatype Import = Import(scope: Scope, digest: string, status: Status, reason: string, supersedes: Option<string>)

  datatype Draft = Draft(scope: Scope, digest: string, status: Status, reason: string, totals: seq<IdentifierTotal>)

  datatype ImportError = NotFound | Conflict | NotAccepted | ScopeMismatch | Amounts(error: AmountError)

  /** The imports by id, and the amount rows of each accepted import. */
  datatype Tables = Tables(imports: map<string, Import>, amounts: map<string, Rows>)

  const EMPTY := Tables(map[], map[])

  /** The production applications of a project and provider when a draft is stored. */
  type Directory = (string, string) -> seq<Application>

  type Outcome = Result<(string, bool), ImportError>

  predicate Stored(t: Tables, id: string, scope: Scope, digest: string) {
    id in t.imports && t.imports[id].scope == scope && t.imports[id].digest == digest
  }

  predicate Current(t: Tables, id: string, scope: Scope) {
    id in t.imports && t.imports[id].scope == scope && t.imports[id].status == Accepted
  }

  ghost predicate PeriodTaken(t: Tables, scope: Scope) {
    exists id :: Current(t, id, scope)
  }

  ghost function FindByDigest(t: Tables, scope: Scope, digest: string): (r: Option<string>)
    ensures r.Some? ==> Stored(t, r.value, scope, digest)
    ensures r.None? ==> forall id :: !Stored(t, id, scope, digest)
  {
    if id :| Stored(t, id, scope, digest) then Some(id) else None
  }

  /** At most one accepted import covers a scope. */
  ghost predicate OneAccepted(imports: map<string, Import>) {
    forall a, b | a in imports && b in imports :: SamePeriodAccepted(imports[a], imports[b]) ==> a == b
  }

  predicate SamePeriodAccepted(a: Import, b: Import) {
    a.status == Accepted && b.status == Accepted && a.scope == b.scope
  }

  /** A file is stored once per scope. */
  ghost predicate FilesDiffer(imports: map<string, Import>) {
    forall a, b | a in imports && b in imports :: SameFile(imports[a], imports[b]) ==> a == b
  }

  predicate SameFile(a: Import, b: Import) {
    a.scope == b.scope && a.digest == b.digest
  }

  /** Exactly the accepted imports have amount rows. */
  ghost predicate AmountsOfAccepted(t: Tables) {
    forall id :: id in t.amounts <==> id in t.imports && t.imports[id].status == Accepted
  }

  ghost predicate LinksAreStored(imports: map<string, Import>) {
    forall id | id in imports && imports[id].supersedes.Some? ::
      imports[id].supersedes.value in imports && imports[id].supersedes.value != id
  }

  /** What every transaction keeps. */
  ghost predicate Inv(t: Tables) {
    OneAccepted(t.imports) && FilesDiffer(t.imports) && AmountsOfAccepted(t) && LinksAreStored(t.imports)
  }

  // ------------------------------------------------- what each operation does

  function Without<T>(m: map<string, T>, k: string): map<string, T> {
    m - {k}
  }

  /** Inserts a new file: the unique period index and the amount resolution may refuse it. */
  ghost function Inserted(t: Tables, draft: Draft, supersedes: Option<string>, directory: Directory, id: string)
    : Result<Tables, ImportError>
  {
    if id in t.imports then Err(Conflict)
    else
      var imports := t.imports[id := Import(draft.scope, draft.digest, draft.status, draft.reason, supersedes)];
      if draft.status != Accepted then Ok(t.(imports := imports))
      else if PeriodTaken(t, draft.scope) then Err(Conflict)
      else
        match Resolved(directory(draft.scope.project, draft.scope.provider), draft.totals)
        case Err(e) => Err(Amounts(e))
        case Ok(rows) => Ok(Tables(imports, t.amounts[id := rows]))
  }

  /** The insert does nothing when the file is stored already, and returns that import. */
  ghost function InsertedOrFound(t: Tables, draft: Draft, supersedes: Option<string>, directory: Directory, id: string)
    : Result<(Tables, string, bool), ImportError>
  {
    match FindByDigest(t, draft.scope, draft.digest)
    case Some(existing) => Ok((t, existing, false))
    case None =>
      match Inserted(t, draft, supersedes, directory, id)
      case Err(e) => Err(e)
      case Ok(after) => Ok((after, id, true))
  }

  function Marked(t: Tables, id: string): Tables
    requires id in t.imports
  {
    Tables(t.imports[id := t.imports[id].(status := Superseded, reason := "superseded")], Without(t.amounts, id))
  }

  /** Makes an older import the accepted one and rewrites its amounts. */
  ghost function Revived(t: Tables, id: string, supersedes: string, draft: Draft, directory: Directory)
    : Result<Tables, ImportError>
    requires id in t.imports
  {
    if t.imports[id].status == Accepted || PeriodTaken(t, t.imports[id].scope) then Err(Conflict)
    else
      match Resolved(directory(draft.scope.project, draft.scope.provider), draft.totals)
      case Err(e) => Err(Amounts(e))
      case Ok(rows) =>
        Ok(Tables(t.imports[id := t.imports[id].(status := Accepted, reason := "", supersedes := Some(supersedes))],
                  t.amounts[id := rows]))
  }

  ghost function AfterSave(t: Tables, draft: Draft, directory: Directory, id: string): (Tables, Outcome) {
    match FindByDigest(t, draft.scope, draft.digest)
    case Some(existing) => (t, Ok((existing, false)))
    case None =>
      if draft.status == Accepted && PeriodTaken(t, draft.scope) then (t, Err(Conflict))
      else
        match InsertedOrFound(t, draft, None, directory, id)
        case Err(e) => (t, Err(e))
        case Ok((after, stored, created)) => (after, Ok((stored, created)))
  }

  predicate SameScope(a: Scope, b: Scope) {
    a.provider == b.provider && a.kind == b.kind && a.start == b.start && a.end == b.end
  }

  /** The checks before a replacement, which leave out the draft's project. */
  function SupersedeError(t: Tables, project: string, current: string, draft: Draft): Option<ImportError> {
    if current !in t.imports || t.imports[current].scope.project != project then Some(NotFound)
    else if t.imports[current].status != Accepted then Some(NotAccepted)
    else if !SameScope(t.imports[current].scope, draft.scope) then Some(ScopeMismatch)
    else if draft.status != Accepted then Some(NotAccepted)
    else None
  }

  ghost function AfterSupersede(t: Tables, project: string, current: string, draft: Draft, directory: Directory,
                                id: string)
    : (Tables, Outcome)
  {
    match SupersedeError(t, project, current, draft)
    case Some(e) => (t, Err(e))
    case None =>
      match FindByDigest(t, draft.scope, draft.digest)
      case Some(existing) =>
        if existing == current then (t, Ok((existing, false)))
        else (
          match Revived(Marked(t, current), existing, current, draft, directory)
          case Err(e) => (t, Err(e))
          case Ok(after) =>
            // the revived import is read back under the project asked for
            if draft.scope.project != project then (t, Err(NotFound)) else (after, Ok((existing, true)))
        )
      case None =>
        match InsertedOrFound(Marked(t, current), draft, Some(current), directory, id)
        case Err(e) => (t, Err(e))
        case Ok((after, stored, created)) => (after, Ok((stored, created)))
  }

  lemma MarkingKeepsFiles(t: Tables, id: string)
    requires FilesDiffer(t.imports) && id in t.imports
    ensures FilesDiffer(Marked(t, id).imports)
  {
    forall a, b | a in t.imports && b in t.imports && SameFile(Marked(t, id).imports[a], Marked(t, id).imports[b])
      ensures a == b
    {
      assert SameFile(t.imports[a], t.imports[b]);
    }
  }

  // ------------------------------------------------------------- the store

  class FinancialReportStore {
    var imports: map<string, Import>
    var amounts: map<string, Rows>

    function Snapshot(): Tables
      reads this
    {
      Tables(imports, amounts)
    }

    constructor ()
      ensures Snapshot() == EMPTY
    {
      imports, amounts := map[], map[];
    }

    method FindFinancialReportByDigest(scope: Scope, digest: string) returns (r: Option<string>)
      requires FilesDiffer(imports)
      ensures r == FindByDigest(Snapshot(), scope, digest)
    {
      var t := Snapshot();
      if exists id :: id in t.imports && Stored(t, id, scope, digest) {
        var id :| id in t.imports && Stored(t, id, scope, digest);
        r := Some(id);
      } else {
        assert forall id :: Stored(t, id, scope, digest) ==> id in t.imports;
        r := None;
      }
    }

    method AcceptedPeriodAvailable(scope: Scope) returns (free: bool)
      ensures free <==> !PeriodTaken(Snapshot(), scope)
    {
      var t := Snapshot();
      free := !exists id :: id in t.imports && Current(t, id, scope);
      if free {
        assert forall id :: Current(t, id, scope) ==> id in t.imports;
      } else {
        var id :| id in t.imports && Current(t, id, scope);
      }
    }

    /** Does nothing when the file is stored already; a refusal may leave a partial write
        for the caller to roll back. */
    method InsertFinancialReport(draft: Draft, supersedes: Option<string>, directory: Directory, id: string)
      returns (r: Outcome)
      requires FilesDiffer(imports)
      modifies this
      ensures match InsertedOrFound(old(Snapshot()), draft, supersedes, directory, id)
              case Err(e) => r == Err(e)
              case Ok((after, stored, created)) => r == Ok((stored, created)) && Snapshot() == after
    {
      hide Current, Resolved, FilesDiffer;
      var existing := FindFinancialReportByDigest(draft.scope, draft.digest);
      if existing.Some? {
        return Ok((existing.value, false));
      }
      if id in imports {
        return Err(Conflict);
      }
      var free := AcceptedPeriodAvailable(draft.scope);
      if draft.status == Accepted && !free {
        return Err(Conflict);
      }
      imports := imports[id := Import(draft.scope, draft.digest, draft.status, draft.reason, supersedes)];
      if draft.status != Accepted {
        return Ok((id, true));
      }
      var resolved := ResolveFinancialReportAmounts(directory(draft.scope.project, draft.scope.provider), draft.totals);
      if resolved.Err? {
        return Err(Amounts(resolved.error));
      }
      amounts := amounts[id := resolved.value];
      return Ok((id, true));
    }

    /** Supersedes an accepted import; any other is a conflict. */
    method MarkFinancialReportSuperseded(id: string) returns (failed: Option<ImportError>)
      modifies this
      ensures failed == if id in old(imports) && old(imports)[id].status == Accepted then None else Some(Conflict)
      ensures failed.None? ==> Snapshot() == Marked(old(Snapshot()), id)
    {
      amounts := Without(amounts, id);
      if id !in imports || imports[id].status != Accepted {
        return Some(Conflict);
      }
      imports := imports[id := imports[id].(status := Superseded, reason := "superseded")];
      return None;
    }

    method ReviveFinancialReport(id: string, supersedes: string, draft: Draft, directory: Directory)
      returns (r: Option<ImportError>)
      requires id in imports
      modifies this
      ensures match Revived(old(Snapshot()), id, supersedes, draft, directory)
              case Err(e) => r == Some(e)
              case Ok(after) => r == None && Snapshot() == after
      ensures id in imports && imports[id].scope == old(imports[id].scope)
    {
      hide Current, Resolved;
      if imports[id].status == Accepted {
        return Some(Conflict);
      }
      var free := AcceptedPeriodAvailable(imports[id].scope);
      if !free {
        return Some(Conflict);
      }
      ghost var before := Snapshot();
      imports := imports[id := imports[id].(status := Accepted, reason := "", supersedes := Some(supersedes))];
      amounts := Without(amounts, id);
      var resolved := ResolveFinancialReportAmounts(directory(draft.scope.project, draft.scope.provider), draft.totals);
      if resolved.Err? {
        return Some(Amounts(resolved.error));
      }
      amounts := amounts[id := resolved.value];
      assert amounts == before.amounts[id := resolved.value];
      return None;
    }

    /** Inserts one draft, or returns the import of the same file. */
    method SaveFinancialReport(draft: Draft, directory: Directory, id: string) returns (r: Outcome)
      requires Inv(Snapshot())
      modifies this
      ensures (Snapshot(), r) == AfterSave(old(Snapshot()), draft, directory, id)
    {
      hide FilesDiffer, InsertedOrFound, PeriodTaken;
      var existing := FindFinancialReportByDigest(draft.scope, draft.digest);
      if existing.Some? {
        return Ok((existing.value, false));
      }
      if draft.status == Accepted {
        var free := AcceptedPeriodAvailable(draft.scope);
        if !free {
          return Err(Conflict);
        }
      }
      var before := Snapshot();
      r := InsertFinancialReport(draft, None, directory, id);
      if r.Err? {
        Rollback(before);
      }
    }

    /** Replaces the accepted import with a newer draft, reviving an older file if the
        draft is one. */
    method SupersedeFinancialReport(project: string, importID: string, draft: Draft, directory: Directory, id: string)
      returns (r: Outcome)
      requires Inv(Snapshot())
      modifies this
      ensures (Snapshot(), r) == AfterSupersede(old(Snapshot()), project, importID, draft, directory, id)
    {
      hide FilesDiffer, InsertedOrFound, Revived, SameScope;
      var t := Snapshot();
      if importID !in imports || imports[importID].scope.project != project {
        return Err(NotFound);
      }
      if imports[importID].status != Accepted {
        return Err(NotAccepted);
      }
      if !SameScope(imports[importID].scope, draft.scope) {
        return Err(ScopeMismatch);
      }
      if draft.status != Accepted {
        return Err(NotAccepted);
      }
      var existing := FindFinancialReportByDigest(draft.scope, draft.digest);
      if existing.Some? {
        if existing.value == importID {
          return Ok((importID, false));
        }
        var failed := MarkFinancialReportSuperseded(importID);
        if failed.None? {
          failed := ReviveFinancialReport(existing.value, importID, draft, directory);
        }
        if failed.Some? {
          Rollback(t);
          return Err(failed.value);
        }
        if imports[existing.value].scope.project != project {
          Rollback(t);
          return Err(NotFound);
        }
        return Ok((existing.value, true));
      }
      MarkingKeepsFiles(t, importID);
      var failed := MarkFinancialReportSuperseded(importID);
      r := Err(Conflict);
      if failed.None? {
        r := InsertFinancialReport(draft, Some(importID), directory, id);
      }
      if r.Err? {
        Rollback(t);
      }
    }

    method Rollback(t: Tables)
      modifies this
      ensures Snapshot() == t
    {
      imports, amounts := t.imports, t.amounts;
    }
  }
}
