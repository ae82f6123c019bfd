/** Which production applications the chosen reports cover. */
module Coverage {
  import opened Text
  import opened ReportAmounts
  import opened Revenue

  // -------------------------------------------------------- choosing imports

  predicate InPeriod(report: AcceptedImport, period: Option<(int, int)>) {
    period.Some? ==> report.start == period.value.0 && report.end == period.value.1
  }

  predicate Eligible(report: AcceptedImport, period: Option<(int, int)>, provider: string) {
    report.provider == provider && InPeriod(report, period)
  }

  /** The provider's first eligible import. */
  function FirstOf(imports: seq<AcceptedImport>, period: Option<(int, int)>, provider: string): Option<AcceptedImport> {
    if imports == [] then None
    else
      var front := FirstOf(imports[..|imports| - 1], period, provider);
      if front.Some? then front
      else if Eligible(imports[|imports| - 1], period, provider) then Some(imports[|imports| - 1])
      else None
  }

  ghost predicate Chosen(imports: seq<AcceptedImport>, period: Option<(int, int)>, chosen: map<string,
                         AcceptedImport>) {
    forall p :: FirstOf(imports, period, p) == if p in chosen then Some(chosen[p]) else None
  }

  /** Keeps the first import of each provider, or of the requested period only. */
  method ChooseFinancialImports(imports: seq<AcceptedImport>, period: Option<(int, int)>)
    returns (chosen: map<string, AcceptedImport>)
    ensures Chosen(imports, period, chosen)
  {
    hide InPeriod;
    chosen := map[];
    for n := 0 to |imports|
      invariant Chosen(imports[..n], period, chosen)
    {
      var report := imports[n];
      assert imports[..n + 1][..n] == imports[..n];
      if !InPeriod(report, period) {
        continue;
      }
      if report.provider in chosen {
        continue;
      }
      chosen := chosen[report.provider := report];
    }
    assert imports[..|imports|] == imports;
  }

  lemma {:induction false} FirstOfIs(imports: seq<AcceptedImport>, period: Option<(int, int)>,
                                     provider: string) returns (i: nat)
    requires FirstOf(imports, period, provider).Some?
    ensures i < |imports| && FirstOf(imports, period, provider) == Some(imports[i])
    ensures Eligible(imports[i], period, provider)
    ensures forall j | 0 <= j < i :: !Eligible(imports[j], period, provider)
  {
    hide Eligible;
    var front := imports[..|imports| - 1];
    if FirstOf(front, period, provider).Some? {
      i := FirstOfIs(front, period, provider);
      assert forall j | 0 <= j < i :: front[j] == imports[j];
    } else {
      i := |imports| - 1;
      NoFirst(front, period, provider);
      assert forall j | 0 <= j < i :: front[j] == imports[j];
    }
  }

  lemma {:induction false} NoFirst(imports: seq<AcceptedImport>, period: Option<(int, int)>, provider: string)
    ensures FirstOf(imports, period, provider).None? <==>
            forall j | 0 <= j < |imports| :: !Eligible(imports[j], period, provider)
  {
    hide Eligible;
    if imports != [] {
      var front := imports[..|imports| - 1];
      NoFirst(front, period, provider);
      assert forall j | 0 <= j < |front| :: front[j] == imports[j];
    }
  }

  /** The order imports are listed in: latest period first, then newest. */
  predicate Later(a: AcceptedImport, b: AcceptedImport) {
    if a.end != b.end then a.end > b.end
    else if a.start != b.start then a.start > b.start
    else if a.createdAt != b.createdAt then a.createdAt > b.createdAt
    else Less(b.id, a.id)
  }

  ghost predicate LatestFirst(imports: seq<AcceptedImport>) {
    forall i, j | 0 <= i < j < |imports| && imports[i].provider == imports[j].provider :: Later(imports[i], imports[j])
  }

  /** A provider has a chosen import exactly when one is eligible, and it is then the
      latest accepted one of the provider and period. */
  lemma ChosenIsLatest(imports: seq<AcceptedImport>, period: Option<(int, int)>, chosen: map<string, AcceptedImport>,
                       provider: string)
    requires LatestFirst(imports) && Chosen(imports, period, chosen)
    ensures provider in chosen <==> exists r :: r in imports && Eligible(r, period, provider)
    ensures provider in chosen ==> chosen[provider] in imports && Eligible(chosen[provider], period, provider)
    ensures provider in chosen ==>
              forall other | other in imports && Eligible(other, period, provider) ::
                other == chosen[provider] || Later(chosen[provider], other)
  {
    hide Later, InPeriod;
    NoFirst(imports, period, provider);
    assert FirstOf(imports, period, provider).None? <==> provider !in chosen;
    if provider in chosen {
      var i := FirstOfIs(imports, period, provider);
      forall other | other in imports && Eligible(other, period, provider)
        ensures other == chosen[provider] || Later(chosen[provider], other)
      {
        var j :| 0 <= j < |imports| && imports[j] == other;
        assert j >= i;
        if j > i {
          assert Later(imports[i], imports[j]);
        }
      }
    }
  }

  /** The import is the provider's and, if a period is asked for, is for that period. */
  predicate IsFor(report: AcceptedImport, period: Option<(int, int)>, provider: string) {
    report.provider == provider && (period.None? || (report.start, report.end) == period.value)
  }

  /** No other import that could be chosen is for a later period, or a newer one for it. */
  lemma ChosenIsTheNewest(imports: seq<AcceptedImport>, period: Option<(int, int)>, chosen: map<string, AcceptedImport>,
                          provider: string)
    requires LatestFirst(imports) && Chosen(imports, period, chosen)
    ensures provider in chosen <==> exists r :: r in imports && IsFor(r, period, provider)
    ensures provider in chosen ==>
              && chosen[provider] in imports && IsFor(chosen[provider], period, provider)
              && forall other | other in imports && IsFor(other, period, provider) ::
                   var c := chosen[provider];
                   && other.end <= c.end
                   && (other.end == c.end ==> other.start <= c.start)
                   && (other.end == c.end && other.start == c.start ==> other.createdAt <= c.createdAt)
  {
    ChosenIsLatest(imports, period, chosen, provider);
    forall r ensures IsFor(r, period, provider) <==> Eligible(r, period, provider) {
    }
    hide Chosen, LatestFirst, Eligible, IsFor;
  }

  // ------------------------------------------------------ covering a provider

  datatype ProviderCoverage = ProviderCoverage(matched: bool, complete: bool, zeroFilled: seq<string>)

  ghost predicate DistinctApplications(apps: seq<ProductionApplication>) {
    forall i, j | 0 <= i < j < |apps| :: apps[i].id != apps[j].id
  }

  ghost predicate HasRow(rows: seq<Amount>, application: string) {
    exists row | row in rows :: row.application == application
  }

  /** The provider's applications without an amount row, in listing order. */
  function MissingOf(apps: seq<ProductionApplication>, provider: string, covered: set<string>): seq<string> {
    if apps == [] then []
    else
      var last := apps[|apps| - 1];
      MissingOf(apps[..|apps| - 1], provider, covered)
      + if last.provider == provider && last.id !in covered then [last.id] else []
  }

  predicate IsApplication(apps: seq<ProductionApplication>, provider: string, id: string) {
    ProductionApplication(id, provider) in apps
  }

  lemma {:induction false} MissingAre(apps: seq<ProductionApplication>, provider: string, covered: set<string>)
    requires DistinctApplications(apps)
    ensures NoDuplicates(MissingOf(apps, provider, covered))
    ensures forall id :: id in MissingOf(apps, provider, covered) <==>
              IsApplication(apps, provider, id) && id !in covered
  {
    if apps != [] {
      var front, last := apps[..|apps| - 1], apps[|apps| - 1];
      MissingAre(front, provider, covered);
      assert apps == front + [last];
      forall id | id in MissingOf(front, provider, covered) ensures id != last.id {
        assert ProductionApplication(id, provider) in front;
      }
    }
  }

  ghost predicate Covers(apps: seq<ProductionApplication>, provider: string, rows: seq<Amount>, c: ProviderCoverage) {
    && (c.matched <==> (exists id :: IsApplication(apps, provider, id) && HasRow(rows, id))
                       || forall id :: !IsApplication(apps, provider, id))
    && (c.complete <==> c.matched && forall id | IsApplication(apps, provider, id) :: HasRow(rows, id))
    && StrictlySorted(c.zeroFilled)
    && (forall id :: id in c.zeroFilled <==> c.matched && IsApplication(apps, provider, id) && !HasRow(rows, id))
  }

  method CoveredApplications(rows: seq<Amount>) returns (covered: set<string>)
    ensures forall id :: id in covered <==> HasRow(rows, id)
  {
    covered := {};
    for i := 0 to |rows|
      invariant forall id :: id in covered <==> exists j :: 0 <= j < i && rows[j].application == id
    {
      covered := covered + {rows[i].application};
    }
    forall id ensures id in covered <==> HasRow(rows, id) {
      if id in covered {
        var j :| 0 <= j < |rows| && rows[j].application == id;
        assert rows[j] in rows;
      }
      if HasRow(rows, id) {
        var row :| row in rows && row.application == id;
        var j :| 0 <= j < |rows| && rows[j] == row;
      }
    }
  }

  function CountOf(apps: seq<ProductionApplication>, provider: string): nat {
    if apps == [] then 0
    else CountOf(apps[..|apps| - 1], provider) + if apps[|apps| - 1].provider == provider then 1 else 0
  }

  function CountCovered(apps: seq<ProductionApplication>, provider: string, covered: set<string>): nat {
    if apps == [] then 0
    else
      var last := apps[|apps| - 1];
      CountCovered(apps[..|apps| - 1], provider, covered)
      + if last.provider == provider && last.id in covered then 1 else 0
  }

  /** Classifies a provider's applications against its amount rows. */
  method ProviderReportCoverage(apps: seq<ProductionApplication>, provider: string, rows: seq<Amount>)
    returns (c: ProviderCoverage)
    requires DistinctApplications(apps)
    ensures Covers(apps, provider, rows, c)
  {
    hide HasRow;
    var covered := CoveredApplications(rows);
    var providerApps, matched := 0, 0;
    var missing: seq<string> := [];
    for i := 0 to |apps|
      invariant missing == MissingOf(apps[..i], provider, covered)
      invariant providerApps == CountOf(apps[..i], provider)
      invariant matched == CountCovered(apps[..i], provider, covered)
    {
      var application := apps[i];
      assert apps[..i + 1][..i] == apps[..i];
      if application.provider != provider {
        continue;
      }
      providerApps := providerApps + 1;
      if application.id in covered {
        matched := matched + 1;
        continue;
      }
      missing := missing + [application.id];
    }
    assert apps[..|apps|] == apps;
    ClassifiedCovers(apps, provider, rows, covered);
    return Classify(providerApps, matched, missing);
  }

  function Classify(providerApps: nat, matched: nat, missing: seq<string>): ProviderCoverage {
    if providerApps == 0 then ProviderCoverage(true, true, [])
    else if matched == 0 then ProviderCoverage(false, false, [])
    else if missing == [] then ProviderCoverage(true, true, [])
    else ProviderCoverage(true, false, Sort(missing))
  }

  lemma ClassifiedCovers(apps: seq<ProductionApplication>, provider: string, rows: seq<Amount>, covered: set<string>)
    requires DistinctApplications(apps) && forall id :: id in covered <==> HasRow(rows, id)
    ensures Covers(apps, provider, rows,
                   Classify(CountOf(apps, provider), CountCovered(apps, provider, covered), MissingOf(apps, provider, covered)))
  {
    hide HasRow;
    MissingAre(apps, provider, covered);
    CountsAre(apps, provider, covered);
    hide DistinctApplications, IsApplication, CountOf, CountCovered, MissingOf;
    var missing := MissingOf(apps, provider, covered);
    assert missing != [] ==> missing[0] in missing;
    if CountOf(apps, provider) > 0 && CountCovered(apps, provider, covered) > 0 && missing != [] {
      SortSorts(missing);
    }
  }

  lemma {:induction false} CountsAre(apps: seq<ProductionApplication>, provider: string, covered: set<string>)
    ensures CountOf(apps, provider) > 0 <==> exists id :: IsApplication(apps, provider, id)
    ensures CountCovered(apps, provider, covered) > 0 <==> exists id :: IsApplication(apps, provider, id) && id in covered
  {
    if apps != [] {
      var front, last := apps[..|apps| - 1], apps[|apps| - 1];
      CountsAre(front, provider, covered);
      assert apps == front + [last];
      assert forall id :: IsApplication(apps, provider, id) <==>
                            IsApplication(front, provider, id) || last == ProductionApplication(id, provider);
      assert last == ProductionApplication(last.id, last.provider);
    }
  }
}
