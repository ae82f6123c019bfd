/** What every run of saves and replacements keeps. */
module FinancialRuns {
  import opened Text
  import opened ReportAmounts
  import opened FinancialImports

  datatype Op =
    | Save(draft: Draft, directory: Directory, id: string)
    | Supersede(project: string, current: string, draft: Draft, directory: Directory, id: string)

  ghost function Apply(t: Tables, op: Op): (Tables, Outcome) {
    match op
    case Save(draft, directory, id) => AfterSave(t, draft, directory, id)
    case Supersede(project, current, draft, directory, id) =>
      AfterSupersede(t, project, current, draft, directory, id)
  }

  ghost function Run(t: Tables, ops: seq<Op>): Tables {
    if ops == [] then t else Apply(Run(t, ops[..|ops| - 1]), ops[|ops| - 1]).0
  }

  lemma EmptyInv()
    ensures Inv(EMPTY)
  {
  }

  /** Superseding one accepted import frees its period and nothing else. */
  lemma MarkedFreesItsPeriod(t: Tables, id: string, scope: Scope)
    requires id in t.imports
    ensures PeriodTaken(Marked(t, id), scope) <==> exists other :: other != id && Current(t, other, scope)
  {
    var m := Marked(t, id);
    if other :| Current(m, other, scope) {
      assert other != id && Current(t, other, scope);
    }
    if other :| other != id && Current(t, other, scope) {
      assert Current(m, other, scope);
    }
  }

  lemma PutKeepsOneAccepted(imports: map<string, Import>, id: string, put: Import)
    requires OneAccepted(imports)
    requires forall other | other in imports && other != id :: !SamePeriodAccepted(imports[other], put)
    ensures OneAccepted(imports[id := put])
  {
  }

  lemma PutKeepsFiles(imports: map<string, Import>, id: string, put: Import)
    requires FilesDiffer(imports)
    requires forall other | other in imports && other != id :: !SameFile(imports[other], put)
    ensures FilesDiffer(imports[id := put])
  {
  }

  lemma PutKeepsLinks(imports: map<string, Import>, id: string, put: Import)
    requires LinksAreStored(imports)
    requires put.supersedes.Some? ==> put.supersedes.value in imports && put.supersedes.value != id
    ensures LinksAreStored(imports[id := put])
  {
  }

  lemma SameFileStays(imports: map<string, Import>, id: string, put: Import)
    requires FilesDiffer(imports) && id in imports && SameFile(imports[id], put)
    ensures FilesDiffer(imports[id := put])
  {
    forall other | other in imports && other != id ensures !SameFile(imports[other], put) {
      assert !SameFile(imports[other], imports[id]);
    }
    PutKeepsFiles(imports, id, put);
  }

  lemma MarkedKeepsInv(t: Tables, id: string)
    requires Inv(t) && id in t.imports
    ensures Inv(Marked(t, id))
  {
    var put := t.imports[id].(status := Superseded, reason := "superseded");
    PutKeepsOneAccepted(t.imports, id, put);
    SameFileStays(t.imports, id, put);
  }

  lemma NoOtherAccepted(t: Tables, scope: Scope)
    requires !PeriodTaken(t, scope)
    ensures forall other | other in t.imports && t.imports[other].scope == scope :: t.imports[other].status != Accepted
  {
    forall other | other in t.imports && t.imports[other].scope == scope ensures t.imports[other].status != Accepted {
      assert !Current(t, other, scope);
    }
  }

  lemma NoOtherFile(t: Tables, scope: Scope, digest: string)
    requires forall other :: !Stored(t, other, scope, digest)
    ensures forall other | other in t.imports && t.imports[other].scope == scope :: t.imports[other].digest != digest
  {
    forall other | other in t.imports && t.imports[other].scope == scope ensures t.imports[other].digest != digest {
      assert !Stored(t, other, scope, digest);
    }
  }

  lemma InsertedShape(t: Tables, draft: Draft, supersedes: Option<string>, directory: Directory, id: string)
    requires Inserted(t, draft, supersedes, directory, id).Ok?
    ensures var n := Inserted(t, draft, supersedes, directory, id).value;
            && id !in t.imports
            && n.imports == t.imports[id := Import(draft.scope, draft.digest, draft.status, draft.reason, supersedes)]
            && (draft.status == Accepted ==>
                  !PeriodTaken(t, draft.scope) && id in n.amounts && n.amounts == t.amounts[id := n.amounts[id]])
            && (draft.status != Accepted ==> n.amounts == t.amounts)
  {
    hide Resolved, PeriodTaken;
  }

  lemma PutKeepsAmounts(t: Tables, n: Tables, id: string, put: Import)
    requires AmountsOfAccepted(t) && n.imports == t.imports[id := put]
    requires put.status == Accepted ==> id in n.amounts && n.amounts == t.amounts[id := n.amounts[id]]
    requires put.status != Accepted ==> n.amounts == t.amounts && id !in t.imports
    ensures AmountsOfAccepted(n)
  {
  }

  lemma InsertedKeepsInv(t: Tables, draft: Draft, supersedes: Option<string>, directory: Directory, id: string)
    requires Inv(t) && Inserted(t, draft, supersedes, directory, id).Ok?
    requires forall other :: !Stored(t, other, draft.scope, draft.digest)
    requires supersedes.Some? ==> supersedes.value in t.imports
    ensures Inv(Inserted(t, draft, supersedes, directory, id).value)
  {
    InsertedShape(t, draft, supersedes, directory, id);
    NoOtherFile(t, draft.scope, draft.digest);
    if draft.status == Accepted {
      NoOtherAccepted(t, draft.scope);
    }
    hide Inserted, PeriodTaken, OneAccepted, FilesDiffer, AmountsOfAccepted, LinksAreStored, Stored;
    var put := Import(draft.scope, draft.digest, draft.status, draft.reason, supersedes);
    PutKeepsOneAccepted(t.imports, id, put);
    PutKeepsFiles(t.imports, id, put);
    PutKeepsLinks(t.imports, id, put);
    PutKeepsAmounts(t, Inserted(t, draft, supersedes, directory, id).value, id, put);
  }

  lemma RevivedShape(t: Tables, id: string, supersedes: string, draft: Draft, directory: Directory)
    requires id in t.imports && Revived(t, id, supersedes, draft, directory).Ok?
    ensures var n := Revived(t, id, supersedes, draft, directory).value;
            && n.imports
               == t.imports[id := t.imports[id].(status := Accepted, reason := "", supersedes := Some(supersedes))]
            && !PeriodTaken(t, t.imports[id].scope)
            && id in n.amounts && n.amounts == t.amounts[id := n.amounts[id]]
  {
    hide Resolved, PeriodTaken;
  }

  lemma RevivedKeepsInv(t: Tables, id: string, supersedes: string, draft: Draft, directory: Directory)
    requires Inv(t) && id in t.imports && supersedes in t.imports && supersedes != id
    requires Revived(t, id, supersedes, draft, directory).Ok?
    ensures Inv(Revived(t, id, supersedes, draft, directory).value)
  {
    RevivedShape(t, id, supersedes, draft, directory);
    NoOtherAccepted(t, t.imports[id].scope);
    hide Revived, PeriodTaken, OneAccepted, FilesDiffer, AmountsOfAccepted, LinksAreStored;
    var put := t.imports[id].(status := Accepted, reason := "", supersedes := Some(supersedes));
    PutKeepsOneAccepted(t.imports, id, put);
    SameFileStays(t.imports, id, put);
    PutKeepsLinks(t.imports, id, put);
    PutKeepsAmounts(t, Revived(t, id, supersedes, draft, directory).value, id, put);
  }

  lemma MarkedKeepsDigests(t: Tables, id: string, scope: Scope, digest: string)
    requires id in t.imports
    ensures forall other :: Stored(Marked(t, id), other, scope, digest) <==> Stored(t, other, scope, digest)
  {
  }

  /** One step keeps the invariant. */
  lemma StepKeepsInv(t: Tables, op: Op)
    requires Inv(t)
    ensures Inv(Apply(t, op).0)
  {
    hide Inv, Inserted, Revived, Stored, PeriodTaken, SameScope;
    match op
    case Save(draft, directory, id) =>
      if FindByDigest(t, draft.scope, draft.digest).None? && Inserted(t, draft, None, directory, id).Ok? {
        InsertedKeepsInv(t, draft, None, directory, id);
      }
    case Supersede(project, current, draft, directory, id) =>
      if SupersedeError(t, project, current, draft).None? {
        var m := Marked(t, current);
        MarkedKeepsInv(t, current);
        MarkedKeepsDigests(t, current, draft.scope, draft.digest);
        match FindByDigest(t, draft.scope, draft.digest) {
          case Some(existing) =>
            StoredIsImport(t, existing, draft.scope, draft.digest);
            if existing != current && Revived(m, existing, current, draft, directory).Ok? {
              RevivedKeepsInv(m, existing, current, draft, directory);
            }
          case None =>
            if Inserted(m, draft, Some(current), directory, id).Ok? {
              InsertedKeepsInv(m, draft, Some(current), directory, id);
            }
        }
      }
  }

  lemma StoredIsImport(t: Tables, id: string, scope: Scope, digest: string)
    requires Stored(t, id, scope, digest)
    ensures id in t.imports && t.imports[id].scope == scope && t.imports[id].digest == digest
  {
  }

  /** At most one accepted import per scope, amount rows for exactly the accepted imports,
      one import per file, and replacement links to other stored imports, in every run. */
  lemma {:induction false} RunKeepsInv(t: Tables, ops: seq<Op>)
    requires Inv(t)
    ensures Inv(Run(t, ops))
    decreases |ops|
  {
    if ops != [] {
      hide Inv, Apply;
      RunKeepsInv(t, ops[..|ops| - 1]);
      StepKeepsInv(Run(t, ops[..|ops| - 1]), ops[|ops| - 1]);
    }
  }

  // ------------------------------------------------------------ idempotence

  /** Saving a stored file again changes nothing and returns the stored import. */
  lemma ResaveIsANoOp(t: Tables, draft: Draft, directory: Directory, id: string, stored: string)
    requires Inv(t) && Stored(t, stored, draft.scope, draft.digest)
    ensures AfterSave(t, draft, directory, id) == (t, Ok((stored, false)))
  {
    var found := FindByDigest(t, draft.scope, draft.digest);
    assert SameFile(t.imports[found.value], t.imports[stored]);
  }

  ghost predicate KeepsFiles(t: Tables, n: Tables) {
    forall id | id in t.imports :: id in n.imports && SameFile(t.imports[id], n.imports[id])
  }

  /** Imports are never deleted and never change their scope or file. */
  lemma StepKeepsFiles(t: Tables, op: Op)
    ensures KeepsFiles(t, Apply(t, op).0)
  {
    hide Inserted, Revived, PeriodTaken, SameScope;
    match op
    case Save(draft, directory, id) =>
      if FindByDigest(t, draft.scope, draft.digest).None? && Inserted(t, draft, None, directory, id).Ok? {
        InsertedShape(t, draft, None, directory, id);
      }
    case Supersede(project, current, draft, directory, id) =>
      if SupersedeError(t, project, current, draft).None? {
        var m := Marked(t, current);
        match FindByDigest(t, draft.scope, draft.digest) {
          case Some(existing) =>
            StoredIsImport(t, existing, draft.scope, draft.digest);
            if existing != current && Revived(m, existing, current, draft, directory).Ok? {
              RevivedShape(m, existing, current, draft, directory);
            }
          case None =>
            if Inserted(m, draft, Some(current), directory, id).Ok? {
              InsertedShape(m, draft, Some(current), directory, id);
            }
        }
      }
  }

  lemma {:induction false} RunKeepsFiles(t: Tables, ops: seq<Op>)
    ensures KeepsFiles(t, Run(t, ops))
    decreases |ops|
  {
    if ops != [] {
      hide Apply;
      RunKeepsFiles(t, ops[..|ops| - 1]);
      StepKeepsFiles(Run(t, ops[..|ops| - 1]), ops[|ops| - 1]);
    }
  }

  /** However many operations later, saving the file of a stored import again returns
      that import and changes nothing. */
  lemma StoredFilesStayKnown(t: Tables, ops: seq<Op>, stored: string, draft: Draft, directory: Directory, id: string)
    requires Inv(t) && Stored(t, stored, draft.scope, draft.digest)
    ensures AfterSave(Run(t, ops), draft, directory, id) == (Run(t, ops), Ok((stored, false)))
  {
    RunKeepsInv(t, ops);
    RunKeepsFiles(t, ops);
    ResaveIsANoOp(Run(t, ops), draft, directory, id, stored);
  }

  /** The outcomes of a save, each exactly when: the stored import of the same file, a
      conflict with the accepted import of the period or with the id, an amount error, or
      a new import whose amounts are the resolved ones when it is accepted. */
  lemma SaveOutcomes(t: Tables, draft: Draft, directory: Directory, id: string)
    requires Inv(t)
    ensures var (n, r) := AfterSave(t, draft, directory, id);
            var known := exists stored :: Stored(t, stored, draft.scope, draft.digest);
            var taken := id in t.imports || (draft.status == Accepted && PeriodTaken(t, draft.scope));
            var resolved := Resolved(directory(draft.scope.project, draft.scope.provider), draft.totals);
            && (r.Ok? && !r.value.1 <==> known)
            && (r == Err(Conflict) <==> !known && taken)
            && (r.Err? && r.error.Amounts? <==> !known && !taken && draft.status == Accepted && resolved.Err?)
            && (r.Ok? && r.value.1 ==>
                  && r.value.0 == id
                  && n.imports == t.imports[id := Import(draft.scope, draft.digest, draft.status, draft.reason, None)]
                  && (draft.status == Accepted ==> resolved.Ok? && n.amounts == t.amounts[id := resolved.value])
                  && (draft.status != Accepted ==> n.amounts == t.amounts))
            && (!(r.Ok? && r.value.1) ==> n == t)
  {
    hide Resolved, PeriodTaken, Inv, Stored;
  }

  // ------------------------------------------------------------ supersession

  lemma OnlyAccepted(t: Tables, current: string, scope: Scope)
    requires Inv(t) && Current(t, current, scope)
    ensures forall other :: Current(t, other, scope) ==> other == current
    ensures !PeriodTaken(Marked(t, current), scope)
  {
    forall other | Current(t, other, scope) ensures other == current {
      assert SamePeriodAccepted(t.imports[other], t.imports[current]);
    }
    MarkedFreesItsPeriod(t, current, scope);
  }

  /** Reviving an older file of the import's own project always finds it unaccepted and
      its period free; so does inserting a new file. Only the random id or the amounts
      can fail. */
  lemma ReplacementNeverConflicts(t: Tables, project: string, current: string, draft: Draft, directory: Directory,
                                  id: string)
    requires Inv(t) && draft.scope.project == project && SupersedeError(t, project, current, draft).None?
    requires id !in t.imports
    ensures AfterSupersede(t, project, current, draft, directory, id).1 != Err(Conflict)
    ensures FindByDigest(t, draft.scope, draft.digest).Some? ==>
              var existing := FindByDigest(t, draft.scope, draft.digest).value;
              existing != current ==>
                && Marked(t, current).imports[existing].status != Accepted
                && !PeriodTaken(Marked(t, current), Marked(t, current).imports[existing].scope)
  {
    hide Resolved, PeriodTaken, OneAccepted, FilesDiffer, AmountsOfAccepted, LinksAreStored;
    OnlyAccepted(t, current, draft.scope);
    if existing :| FindByDigest(t, draft.scope, draft.digest) == Some(existing) && existing != current {
      assert !Current(t, existing, draft.scope);
    }
  }

  /** A successful replacement leaves its own import accepted, with exactly the resolved
      amounts, and the old one superseded, without amounts and linked from it. */
  lemma ReplacementTakesOver(t: Tables, project: string, current: string, draft: Draft, directory: Directory,
                             id: string)
    requires Inv(t) && current in t.imports
    requires AfterSupersede(t, project, current, draft, directory, id).1.Ok?
    requires AfterSupersede(t, project, current, draft, directory, id).1.value.1
    ensures var (n, r) := AfterSupersede(t, project, current, draft, directory, id);
            var winner := r.value.0;
            && t.imports[current].status == Accepted && t.imports[current].scope.project == project
            && SameScope(t.imports[current].scope, draft.scope) && draft.status == Accepted
            && winner != current && Current(n, winner, draft.scope) && n.imports[winner].digest == draft.digest
            && n.imports[winner].supersedes == Some(current)
            && winner in n.amounts
            && Resolved(directory(draft.scope.project, draft.scope.provider), draft.totals) == Ok(n.amounts[winner])
            && n.imports[current] == t.imports[current].(status := Superseded, reason := "superseded")
            && current !in n.amounts
            && n.imports.Keys == t.imports.Keys + {winner}
            && n.imports[winner].reason == (if winner in t.imports then "" else draft.reason)
            && (forall other | other in t.imports && other != current && other != winner ::
                  n.imports[other] == t.imports[other])
            && (forall other | other != current && other != winner :: other in n.amounts <==> other in t.amounts)
            && (forall other | other in t.amounts && other != current && other != winner ::
                  n.amounts[other] == t.amounts[other])
  {
    hide Resolved, PeriodTaken, OneAccepted, FilesDiffer, AmountsOfAccepted, LinksAreStored, SameScope;
  }

  // ------------------------------------------------ when a replacement succeeds

  predicate Covers(i: Import, draft: Draft) {
    && i.scope.provider == draft.scope.provider && i.scope.kind == draft.scope.kind
    && i.scope.start == draft.scope.start && i.scope.end == draft.scope.end
  }

  /** The checks: an accepted import of the project, and an accepted draft for what it
      covers. */
  predicate MayReplace(t: Tables, project: string, current: string, draft: Draft) {
    && current in t.imports && t.imports[current].scope.project == project && t.imports[current].status == Accepted
    && Covers(t.imports[current], draft) && draft.status == Accepted
  }

  ghost predicate IsNewFile(t: Tables, draft: Draft) {
    forall other :: !Stored(t, other, draft.scope, draft.digest)
  }

  /** The import a replacement makes accepted: the older one with the draft's file, or a
      new one for a new file. */
  ghost predicate TakesOver(t: Tables, current: string, draft: Draft, id: string, winner: string) {
    winner != current
    && (Stored(t, winner, draft.scope, draft.digest) || (winner == id && id !in t.imports && IsNewFile(t, draft)))
  }

  /** Inside its own project a replacement makes `w` accepted exactly when the checks pass,
      the totals resolve and `w` is the older import of the file or a fresh one for a new
      file; for the import's own file it returns that import, and nothing changes. */
  lemma ReplacementSucceedsExactly(t: Tables, project: string, current: string, draft: Draft, directory: Directory,
                                   id: string)
    requires Inv(t) && draft.scope.project == project
    ensures var (n, r) := AfterSupersede(t, project, current, draft, directory, id);
            var resolved := Resolved(directory(project, draft.scope.provider), draft.totals);
            && (forall w :: r == Ok((w, true)) <==>
                  MayReplace(t, project, current, draft) && resolved.Ok? && TakesOver(t, current, draft, id, w))
            && (forall w :: r == Ok((w, false)) <==>
                  MayReplace(t, project, current, draft) && w == current && t.imports[current].digest == draft.digest)
            && (!(r.Ok? && r.value.1) ==> n == t)
  {
    hide Resolved, PeriodTaken, OneAccepted, AmountsOfAccepted, LinksAreStored;
    UncreatedChangesNothing(t, project, current, draft, directory, id);
    if MayReplace(t, project, current, draft) {
      OnlyAccepted(t, current, draft.scope);
      StoredIsUnique(t, draft.scope, draft.digest);
      var found := FindByDigest(t, draft.scope, draft.digest);
      if found.Some? && found.value != current {
        assert !Current(t, found.value, draft.scope);
      }
      assert Stored(t, current, draft.scope, draft.digest) <==> t.imports[current].digest == draft.digest;
    }
  }

  lemma StoredIsUnique(t: Tables, scope: Scope, digest: string)
    requires FilesDiffer(t.imports)
    ensures forall a, b :: Stored(t, a, scope, digest) && Stored(t, b, scope, digest) ==> a == b
  {
    forall a, b | Stored(t, a, scope, digest) && Stored(t, b, scope, digest) ensures a == b {
      assert SameFile(t.imports[a], t.imports[b]);
    }
  }

  /** Every way a replacement inside its project is refused, in the order of the checks. */
  lemma ReplacementIsRefusedExactly(t: Tables, project: string, current: string, draft: Draft, directory: Directory,
                                    id: string)
    requires Inv(t) && draft.scope.project == project
    ensures var (n, r) := AfterSupersede(t, project, current, draft, directory, id);
            var resolved := Resolved(directory(project, draft.scope.provider), draft.totals);
            var found := current in t.imports && t.imports[current].scope.project == project;
            && (r == Err(NotFound) <==> !found)
            && (r == Err(NotAccepted) <==>
                  found && (t.imports[current].status != Accepted
                            || (Covers(t.imports[current], draft) && draft.status != Accepted)))
            && (r == Err(ScopeMismatch) <==>
                  found && t.imports[current].status == Accepted && !Covers(t.imports[current], draft))
            && (r == Err(Conflict) <==>
                  MayReplace(t, project, current, draft) && IsNewFile(t, draft) && id in t.imports)
            && (forall e :: r == Err(Amounts(e)) <==>
                  MayReplace(t, project, current, draft) && resolved == Err(e)
                  && exists w :: TakesOver(t, current, draft, id, w))
  {
    hide Resolved, PeriodTaken, OneAccepted, AmountsOfAccepted, LinksAreStored;
    if MayReplace(t, project, current, draft) {
      OnlyAccepted(t, current, draft.scope);
      StoredIsUnique(t, draft.scope, draft.digest);
      MarkedKeepsDigests(t, current, draft.scope, draft.digest);
      var found := FindByDigest(t, draft.scope, draft.digest);
      if found.Some? && found.value != current {
        assert !Current(t, found.value, draft.scope);
        assert TakesOver(t, current, draft, id, found.value);
      } else if found.Some? {
        assert forall w :: !TakesOver(t, current, draft, id, w);
      } else if id !in t.imports {
        assert TakesOver(t, current, draft, id, id);
      } else {
        assert forall w :: !TakesOver(t, current, draft, id, w);
      }
    }
  }

  // --------------------------------------- when a period keeps its acceptance

  predicate StaysInProject(op: Op) {
    op.Supersede? ==> op.draft.scope.project == op.project
  }

  /** Unless it creates a new accepted import, a replacement changes nothing. */
  lemma UncreatedChangesNothing(t: Tables, project: string, current: string, draft: Draft, directory: Directory, id: string)
    ensures var (n, r) := AfterSupersede(t, project, current, draft, directory, id);
            !(r.Ok? && r.value.1) ==> n == t
  {
    hide Inserted, Revived, SameScope, Stored;
    if current in t.imports {
      MarkedKeepsDigests(t, current, draft.scope, draft.digest);
    }
  }

  lemma EmptiedAcrossProjects(t: Tables, project: string, current: string, draft: Draft,
                              directory: Directory, id: string, scope: Scope)
    requires Inv(t) && Current(t, current, scope) && draft.scope.project != project
    requires AfterSupersede(t, project, current, draft, directory, id).1.Ok?
    requires AfterSupersede(t, project, current, draft, directory, id).1.value.1
    ensures !PeriodTaken(AfterSupersede(t, project, current, draft, directory, id).0, scope)
  {
    OnlyAccepted(t, current, scope);
    ReplacementTakesOver(t, project, current, draft, directory, id);
    var (n, r) := AfterSupersede(t, project, current, draft, directory, id);
    StepKeepsFiles(t, Supersede(project, current, draft, directory, id));
    OnlyKnownImports(t, project, current, draft, directory, id);
    hide AfterSupersede, Resolved, Inv;
    forall other ensures !Current(n, other, scope) {
      if other in t.imports && other != current && other != r.value.0 {
        assert !Current(t, other, scope);
      }
    }
  }

  /** A replacement stores nothing but its winner. */
  lemma OnlyKnownImports(t: Tables, project: string, current: string, draft: Draft, directory: Directory, id: string)
    requires AfterSupersede(t, project, current, draft, directory, id).1.Ok?
    ensures var (n, r) := AfterSupersede(t, project, current, draft, directory, id);
            forall other | other in n.imports :: other in t.imports || other == r.value.0
  {
    hide Resolved, PeriodTaken, SameScope;
  }

  lemma PeriodIsLostByTheOutcome(t: Tables, project: string, current: string, draft: Draft,
                                 directory: Directory, id: string, scope: Scope)
    requires Inv(t) && Current(t, current, scope)
    ensures var (n, r) := AfterSupersede(t, project, current, draft, directory, id);
            PeriodTaken(n, scope) <==> !(r.Ok? && r.value.1 && draft.scope.project != project)
  {
    var (n, r) := AfterSupersede(t, project, current, draft, directory, id);
    UncreatedChangesNothing(t, project, current, draft, directory, id);
    hide AfterSupersede, Inv;
    if r.Ok? && r.value.1 {
      if draft.scope.project == project {
        ReplacementTakesOver(t, project, current, draft, directory, id);
        assert draft.scope == scope;
        assert Current(n, r.value.0, scope);
      } else {
        EmptiedAcrossProjects(t, project, current, draft, directory, id, scope);
      }
    } else {
      assert Current(n, current, scope);
    }
  }

  /** The replacements that empty a period: the draft passes every check with a new file,
      but is made for another project, whose own period is free. */
  ghost predicate LeavesTheProject(t: Tables, project: string, scope: Scope, draft: Draft, directory: Directory, id: string) {
    && scope.project == project && SameScope(scope, draft.scope) && draft.status == Accepted
    && draft.scope.project != project
    && (forall other :: !Stored(t, other, draft.scope, draft.digest))
    && id !in t.imports && !PeriodTaken(t, draft.scope)
    && Resolved(directory(draft.scope.project, draft.scope.provider), draft.totals).Ok?
  }

  /** A replacement takes its import's period out of acceptance exactly when the draft
      leaves the project: the checks do not compare the two projects. */
  lemma PeriodIsLostExactlyAcrossProjects(t: Tables, project: string, current: string, draft: Draft,
                                          directory: Directory, id: string, scope: Scope)
    requires Inv(t) && Current(t, current, scope)
    ensures !PeriodTaken(AfterSupersede(t, project, current, draft, directory, id).0, scope)
            <==> LeavesTheProject(t, project, scope, draft, directory, id)
  {
    PeriodIsLostByTheOutcome(t, project, current, draft, directory, id, scope);
    MarkedFreesItsPeriod(t, current, draft.scope);
    if scope.project == project && draft.scope.project != project {
      assert PeriodTaken(Marked(t, current), draft.scope) <==> PeriodTaken(t, draft.scope) by {
        if other :| Current(t, other, draft.scope) {
          assert other != current;
        }
      }
    }
    hide Resolved, OneAccepted, FilesDiffer, AmountsOfAccepted, LinksAreStored, PeriodTaken;
  }

  lemma UntouchedPeriod(t: Tables, op: Op, x: string, scope: Scope)
    requires Inv(t) && Current(t, x, scope) && (op.Supersede? ==> op.current != x)
    ensures Current(Apply(t, op).0, x, scope)
  {
    hide Resolved, PeriodTaken, OneAccepted, FilesDiffer, AmountsOfAccepted, LinksAreStored;
    match op
    case Save(draft, directory, id) =>
    case Supersede(project, current, draft, directory, id) =>
      var (n, r) := AfterSupersede(t, project, current, draft, directory, id);
      if r.Ok? && r.value.1 {
        ReplacementTakesOver(t, project, current, draft, directory, id);
        StepKeepsFiles(t, op);
        if x != r.value.0 {
          assert n.imports[x] == t.imports[x];
        } else {
          assert SameFile(t.imports[x], n.imports[x]);
        }
      }
  }

  lemma StepKeepsPeriods(t: Tables, op: Op, scope: Scope)
    requires Inv(t) && PeriodTaken(t, scope) && StaysInProject(op)
    ensures PeriodTaken(Apply(t, op).0, scope)
  {
    var x :| Current(t, x, scope);
    if op.Supersede? && op.current == x {
      PeriodIsLostByTheOutcome(t, op.project, op.current, op.draft, op.directory, op.id, scope);
    } else {
      UntouchedPeriod(t, op, x, scope);
    }
  }

  /** In runs whose drafts stay in the project they are filed under, a period once
      accepted always has exactly one accepted import. */
  lemma {:induction false} PeriodStaysAccepted(t: Tables, ops: seq<Op>, scope: Scope)
    requires Inv(t) && PeriodTaken(t, scope) && forall op | op in ops :: StaysInProject(op)
    ensures exists id :: Current(Run(t, ops), id, scope)
                         && forall other :: Current(Run(t, ops), other, scope) ==> other == id
    decreases |ops|
  {
    hide Apply, Inv, Current;
    RunKeepsInv(t, ops);
    RunKeepsPeriods(t, ops, scope);
    var id :| Current(Run(t, ops), id, scope);
    OnlyAccepted(Run(t, ops), id, scope);
  }

  lemma {:induction false} RunKeepsPeriods(t: Tables, ops: seq<Op>, scope: Scope)
    requires Inv(t) && PeriodTaken(t, scope) && forall op | op in ops :: StaysInProject(op)
    ensures PeriodTaken(Run(t, ops), scope)
    decreases |ops|
  {
    if ops != [] {
      hide Apply, Inv, PeriodTaken, StaysInProject;
      var front, last := ops[..|ops| - 1], ops[|ops| - 1];
      assert last in ops;
      RunKeepsPeriods(t, front, scope);
      RunKeepsInv(t, front);
      StepKeepsPeriods(Run(t, front), last, scope);
    }
  }

  /** A draft filed under one project but made for another takes the first project's
      period out of acceptance. */
  lemma ADraftOfAnotherProjectLosesThePeriod(directory: Directory) returns (t: Tables, draft: Draft, scope: Scope)
    ensures Inv(t) && PeriodTaken(t, scope) && scope.project == "p" && draft.scope.project == "q"
    ensures var (n, r) := AfterSupersede(t, "p", "a", draft, directory, "b");
            r == Ok(("b", true)) && !PeriodTaken(n, scope)
  {
    scope := Scope("p", "apple_app_store", "apple_financial_consolidated", 1, 2);
    var first := Import(scope, "old", Accepted, "", None);
    t := Tables(map["a" := first], map["a" := map[]]);
    draft := Draft(scope.(project := "q"), "new", Accepted, "", []);
    assert Current(t, "a", scope);
    forall id ensures !Current(Marked(t, "a"), id, draft.scope) {
    }
    PeriodIsLostExactlyAcrossProjects(t, "p", "a", draft, directory, "b", scope);
  }
}
