/** Recognized revenue over all production providers: every production application is
    covered by a row, zero-filled, or under an uncovered provider. */
module Recognition {
  import opened Text
  import opened ReportAmounts
  import opened Revenue
  import opened Coverage

  datatype Recognition = Recognition(
    amounts: seq<Recognized>, uncovered: seq<string>, zeroFilled: seq<string>, allCovered: bool)

  /** What the recognition reads: the applications, the chosen imports and their rows. */
  datatype Books = Books(
    apps: seq<ProductionApplication>,
    chosen: map<string, AcceptedImport>,
    rows: map<string, seq<Amount>>)
  {
    ghost predicate Valid() {
      DistinctApplications(apps)
    }

    function RowsOf(provider: string): seq<Amount> {
      var id := if provider in chosen then chosen[provider].id else "";
      if id in rows then rows[id] else []
    }

    ghost predicate IsProvider(provider: string) {
      exists id :: IsApplication(apps, provider, id)
    }

    /** The provider lacks the right report, a matching application or an exact sum. */
    ghost predicate Uncovered(provider: string) {
      || KindForProvider(provider).None?
      || provider !in chosen
      || Some(chosen[provider].kind) != KindForProvider(provider)
      || (forall id :: IsApplication(apps, provider, id) ==> !HasRow(RowsOf(provider), id))
      || !AllSummable(RowsOf(provider))
    }

    ghost predicate ZeroFilled(provider: string, id: string) {
      !Uncovered(provider) && IsApplication(apps, provider, id) && !HasRow(RowsOf(provider), id)
    }

    ghost predicate Covered(id: string) {
      exists provider :: !Uncovered(provider) && IsApplication(apps, provider, id) && HasRow(RowsOf(provider), id)
    }
  }

  method ProductionProviders(apps: seq<ProductionApplication>) returns (providers: seq<string>)
    ensures StrictlySorted(providers)
    ensures forall p :: p in providers <==> exists id :: IsApplication(apps, p, id)
  {
    providers := [];
    for i := 0 to |apps|
      invariant NoDuplicates(providers)
      invariant forall p :: p in providers <==> CountOf(apps[..i], p) > 0
    {
      assert apps[..i + 1][..i] == apps[..i];
      if apps[i].provider in providers {
        continue;
      }
      providers := providers + [apps[i].provider];
    }
    assert apps[..|apps|] == apps;
    forall p ensures p in providers <==> exists id :: IsApplication(apps, p, id) {
      CountsAre(apps, p, {});
    }
    SortSorts(providers);
    providers := Sort(providers);
  }

  datatype Verdict = NotCovered | CoveredBy(amounts: seq<Recognized>, complete: bool, zeroFilled: seq<string>)

  ghost predicate Judges(b: Books, provider: string, v: Verdict) {
    && (v.NotCovered? <==> b.Uncovered(provider))
    && (v.CoveredBy? ==>
          && provider in b.chosen
          && Recognizes(v.amounts, provider, b.chosen[provider], b.RowsOf(provider))
          && (v.complete <==> v.zeroFilled == [])
          && StrictlySorted(v.zeroFilled)
          && forall id :: id in v.zeroFilled <==> b.ZeroFilled(provider, id))
  }

  /** One provider: uncovered, or its amounts and zero-filled applications. */
  method RecognizeProvider(b: Books, provider: string) returns (v: Verdict)
    requires b.Valid() && b.IsProvider(provider)
    ensures Judges(b, provider, v)
  {
    hide IsApplication, HasRow, Recognizes, AllSummable, DistinctApplications, StrictlySorted;
    var kind := KindForProvider(provider);
    var rows := b.RowsOf(provider);
    var coverage := ProviderReportCoverage(b.apps, provider, rows);
    if kind.None? || provider !in b.chosen || Some(b.chosen[provider].kind) != kind || !coverage.matched {
      return NotCovered;
    }
    var report := b.chosen[provider];
    var summed := SumRecognizedAmounts(provider, report, rows);
    if summed.None? {
      return NotCovered;
    }
    CompleteMeansNoneMissing(coverage, b.apps, provider, rows);
    return CoveredBy(summed.value, coverage.complete, coverage.zeroFilled);
  }

  lemma CompleteMeansNoneMissing(c: ProviderCoverage, apps: seq<ProductionApplication>, provider: string,
                                 rows: seq<Amount>)
    requires Covers(apps, provider, rows, c) && c.matched
    ensures c.complete <==> c.zeroFilled == []
  {
    hide IsApplication, HasRow, StrictlySorted;
    if c.zeroFilled != [] {
      assert c.zeroFilled[0] in c.zeroFilled;
    }
  }

  // ------------------------------------------------------- all the providers

  /** The recognized amounts of one provider. */
  function AmountsOf(amounts: seq<Recognized>, provider: string): seq<Recognized> {
    if amounts == [] then []
    else
      var last := amounts[|amounts| - 1];
      AmountsOf(amounts[..|amounts| - 1], provider) + if last.provider == provider then [last] else []
  }

  lemma {:induction false} AmountsOfSplit(a: seq<Recognized>, b: seq<Recognized>, provider: string)
    ensures AmountsOf(a + b, provider) == AmountsOf(a, provider) + AmountsOf(b, provider)
    decreases |b|
  {
    if b == [] {
      assert a + b == a;
    } else {
      AmountsOfSplit(a, b[..|b| - 1], provider);
      assert (a + b)[..|a + b| - 1] == a + b[..|b| - 1];
    }
  }

  lemma {:induction false} AmountsOfOne(amounts: seq<Recognized>, owner: string, provider: string)
    requires forall i | 0 <= i < |amounts| :: amounts[i].provider == owner
    ensures AmountsOf(amounts, provider) == if provider == owner then amounts else []
  {
    if amounts != [] {
      AmountsOfOne(amounts[..|amounts| - 1], owner, provider);
      assert amounts == amounts[..|amounts| - 1] + [amounts[|amounts| - 1]];
    }
  }

  /** A provider's amounts are its exact recognized totals, or none when uncovered. */
  ghost predicate ExactFor(b: Books, provider: string, amounts: seq<Recognized>) {
    if b.Uncovered(provider) then amounts == []
    else provider in b.chosen && Recognizes(amounts, provider, b.chosen[provider], b.RowsOf(provider))
  }

  ghost predicate ZeroFilledIn(b: Books, providers: seq<string>, id: string) {
    exists p :: p in providers && b.ZeroFilled(p, id)
  }

  /** What recognition returns for the providers read so far. */
  ghost predicate RecognizesAll(b: Books, providers: seq<string>, r: Recognition) {
    && StrictlySorted(r.uncovered)
    && (forall p :: p in r.uncovered <==> p in providers && b.Uncovered(p))
    && (forall id :: id in r.zeroFilled <==> ZeroFilledIn(b, providers, id))
    && (forall p | p in providers :: ExactFor(b, p, AmountsOf(r.amounts, p)))
    && (forall p | p !in providers :: AmountsOf(r.amounts, p) == [])
    && (r.allCovered <==> r.uncovered == [] && r.zeroFilled == [])
  }

  lemma LastIsLargest(providers: seq<string>, p: string, uncovered: seq<string>)
    requires StrictlySorted(providers + [p]) && StrictlySorted(uncovered)
    requires forall q | q in uncovered :: q in providers
    ensures StrictlySorted(uncovered + [p]) && p !in providers
  {
    var all := providers + [p];
    forall i | 0 <= i < |providers| ensures Less(providers[i], p) {
      assert all[i] == providers[i] && all[|providers|] == p;
      assert Less(all[i], all[|providers|]);
    }
    LessIrreflexive(p);
    forall i | 0 <= i < |uncovered| ensures Less(uncovered[i], p) {
      assert uncovered[i] in providers;
    }
  }

  lemma UncoveredStep(b: Books, providers: seq<string>, p: string, r: Recognition)
    requires StrictlySorted(providers + [p]) && RecognizesAll(b, providers, r) && b.Uncovered(p)
    ensures RecognizesAll(b, providers + [p], r.(uncovered := r.uncovered + [p], allCovered := false))
  {
    LastIsLargest(providers, p, r.uncovered);
    hide StrictlySorted, ExactFor, b.Uncovered;
    forall id ensures ZeroFilledIn(b, providers + [p], id) <==> ZeroFilledIn(b, providers, id) {
      if q :| q in providers && b.ZeroFilled(q, id) {
        assert q in providers + [p];
      }
    }
    assert ExactFor(b, p, []) by {
      NothingForUncovered(b, p);
    }
  }

  lemma NothingForUncovered(b: Books, p: string)
    requires b.Uncovered(p)
    ensures ExactFor(b, p, [])
  {
    hide b.Uncovered, Recognizes;
  }

  lemma RecognizesOwn(b: Books, p: string, amounts: seq<Recognized>)
    requires !b.Uncovered(p) && p in b.chosen && Recognizes(amounts, p, b.chosen[p], b.RowsOf(p))
    ensures ExactFor(b, p, amounts) && forall i | 0 <= i < |amounts| :: amounts[i].provider == p
  {
    hide b.Uncovered, SumsTo, CurrencyRows, StrictlySorted;
  }

  lemma AddedAmounts(b: Books, providers: seq<string>, p: string, amounts: seq<Recognized>, own: seq<Recognized>,
                     q: string)
    requires p !in providers
    requires forall x | x in providers :: ExactFor(b, x, AmountsOf(amounts, x))
    requires forall x | x !in providers :: AmountsOf(amounts, x) == []
    requires ExactFor(b, p, own) && forall i | 0 <= i < |own| :: own[i].provider == p
    ensures q in providers + [p] ==> ExactFor(b, q, AmountsOf(amounts + own, q))
    ensures q !in providers + [p] ==> AmountsOf(amounts + own, q) == []
  {
    hide ExactFor, AmountsOf;
    AmountsOfSplit(amounts, own, q);
    AmountsOfOne(own, p, q);
    if q == p {
      assert AmountsOf(amounts, q) == [];
      assert [] + own == own;
    } else {
      assert AmountsOf(amounts, q) + [] == AmountsOf(amounts, q);
    }
  }

  lemma AddedZeroFilled(b: Books, providers: seq<string>, p: string, id: string)
    ensures ZeroFilledIn(b, providers + [p], id) <==> ZeroFilledIn(b, providers, id) || b.ZeroFilled(p, id)
  {
    hide b.ZeroFilled;
    if q :| q in providers && b.ZeroFilled(q, id) {
      assert q in providers + [p];
    }
    if b.ZeroFilled(p, id) {
      assert p in providers + [p];
    }
  }

  lemma AmountsStep(b: Books, providers: seq<string>, p: string, r: Recognition, own: seq<Recognized>)
    requires p !in providers && RecognizesAll(b, providers, r)
    requires ExactFor(b, p, own) && forall i | 0 <= i < |own| :: own[i].provider == p
    ensures forall q | q in providers + [p] :: ExactFor(b, q, AmountsOf(r.amounts + own, q))
    ensures forall q | q !in providers + [p] :: AmountsOf(r.amounts + own, q) == []
  {
    hide StrictlySorted, ExactFor, AmountsOf, b.Uncovered, b.ZeroFilled, ZeroFilledIn;
    forall q ensures q in providers + [p] ==> ExactFor(b, q, AmountsOf(r.amounts + own, q))
      ensures q !in providers + [p] ==> AmountsOf(r.amounts + own, q) == []
    {
      AddedAmounts(b, providers, p, r.amounts, own, q);
    }
  }

  lemma ZeroFilledStep(b: Books, providers: seq<string>, p: string, before: seq<string>, own: seq<string>)
    requires forall id :: id in before <==> ZeroFilledIn(b, providers, id)
    requires forall id :: id in own <==> b.ZeroFilled(p, id)
    ensures forall id :: id in before + own <==> ZeroFilledIn(b, providers + [p], id)
    ensures before + own == [] <==> before == [] && own == []
  {
    hide b.ZeroFilled, ZeroFilledIn;
    forall id ensures id in before + own <==> ZeroFilledIn(b, providers + [p], id) {
      AddedZeroFilled(b, providers, p, id);
    }
  }

  lemma CoveredStep(b: Books, providers: seq<string>, p: string, r: Recognition, v: Verdict)
    requires p !in providers && RecognizesAll(b, providers, r) && v.CoveredBy? && Judges(b, p, v)
    ensures RecognizesAll(b, providers + [p],
                          r.(amounts := r.amounts + v.amounts, zeroFilled := r.zeroFilled + v.zeroFilled,
                             allCovered := r.allCovered && v.complete))
  {
    RecognizesOwn(b, p, v.amounts);
    AmountsStep(b, providers, p, r, v.amounts);
    ZeroFilledStep(b, providers, p, r.zeroFilled, v.zeroFilled);
    hide StrictlySorted, ExactFor, AmountsOf, Recognizes, b.Uncovered, b.ZeroFilled, ZeroFilledIn;
  }

  lemma SortedPrefix(s: seq<string>, i: nat)
    requires i < |s| && StrictlySorted(s)
    ensures s[..i + 1] == s[..i] + [s[i]] && StrictlySorted(s[..i] + [s[i]]) && s[i] !in s[..i]
  {
    var t := s[..i] + [s[i]];
    assert t == s[..i + 1];
    forall j, k | 0 <= j < k < |t| ensures Less(t[j], t[k]) {
      assert Less(s[j], s[k]);
    }
    forall j | 0 <= j < i ensures s[j] != s[i] {
      assert Less(s[j], s[i]);
      LessIrreflexive(s[i]);
    }
  }

  lemma NothingYet(b: Books)
    ensures RecognizesAll(b, [], Recognition([], [], [], true))
  {
  }

  /** What recognition returns: the uncovered providers in order, exact amounts for each
      of the others, and the applications these zero-fill. */
  ghost predicate RecognizesProviders(b: Books, r: Recognition) {
    && StrictlySorted(r.uncovered)
    && (forall p :: p in r.uncovered <==> b.IsProvider(p) && b.Uncovered(p))
    && (forall id :: id in r.zeroFilled <==> exists p :: b.ZeroFilled(p, id))
    && (forall p :: if b.IsProvider(p) then ExactFor(b, p, AmountsOf(r.amounts, p)) else AmountsOf(r.amounts, p) == [])
    && (r.allCovered <==> r.uncovered == [] && r.zeroFilled == [])
  }

  lemma AllProvidersRead(b: Books, providers: seq<string>, r: Recognition)
    requires RecognizesAll(b, providers, r) && forall p :: p in providers <==> b.IsProvider(p)
    ensures RecognizesProviders(b, r)
  {
    hide StrictlySorted, ExactFor, AmountsOf, b.Uncovered, IsApplication, HasRow;
    forall id ensures ZeroFilledIn(b, providers, id) <==> exists p :: b.ZeroFilled(p, id) {
      if p :| b.ZeroFilled(p, id) {
        assert b.IsProvider(p);
      }
    }
    hide b.IsProvider, b.ZeroFilled, ZeroFilledIn;
  }

  /** Sums each provider report that matched a production application, and lists what
      stays uncovered or zero-filled. */
  method RecognizeProviderAmounts(b: Books) returns (r: Recognition)
    requires b.Valid()
    ensures RecognizesProviders(b, r)
  {
    var all := ProductionProviders(b.apps);
    var amounts: seq<Recognized> := [];
    var uncovered: seq<string> := [];
    var zeroFilled: seq<string> := [];
    var allCovered := true;
    NothingYet(b);
    hide RecognizesAll, Judges, StrictlySorted, b.Valid;
    assert all[..0] == [];
    for i := 0 to |all|
      invariant RecognizesAll(b, all[..i], Recognition(amounts, uncovered, zeroFilled, allCovered))
    {
      var provider := all[i];
      assert provider in all;
      SortedPrefix(all, i);
      var before := Recognition(amounts, uncovered, zeroFilled, allCovered);
      var verdict := RecognizeProvider(b, provider);
      if verdict.NotCovered? {
        NotCoveredMeans(b, provider, verdict);
        UncoveredStep(b, all[..i], provider, before);
        allCovered := false;
        uncovered := uncovered + [provider];
        continue;
      }
      CoveredStep(b, all[..i], provider, before, verdict);
      amounts := amounts + verdict.amounts;
      if !verdict.complete {
        allCovered := false;
      }
      zeroFilled := zeroFilled + verdict.zeroFilled;
    }
    assert all[..|all|] == all;
    r := Recognition(amounts, uncovered, zeroFilled, allCovered);
    AllProvidersRead(b, all, r);
  }

  lemma NotCoveredMeans(b: Books, provider: string, v: Verdict)
    requires Judges(b, provider, v) && v.NotCovered?
    ensures b.Uncovered(provider)
  {
    hide b.Uncovered;
  }

  // ------------------------------------------------------------- partition

  ghost predicate UnderUncovered(b: Books, r: Recognition, id: string) {
    exists p :: p in r.uncovered && IsApplication(b.apps, p, id)
  }

  lemma OneProvider(b: Books, id: string, p: string, q: string)
    requires b.Valid() && IsApplication(b.apps, p, id) && IsApplication(b.apps, q, id)
    ensures p == q
  {
    var i :| 0 <= i < |b.apps| && b.apps[i] == ProductionApplication(id, p);
    var j :| 0 <= j < |b.apps| && b.apps[j] == ProductionApplication(id, q);
  }

  /** Every production application is exactly one of: covered by an amount row of its
      provider's chosen report, zero-filled, or under an uncovered provider. */
  lemma CoveragePartitions(b: Books, r: Recognition, provider: string, id: string)
    requires b.Valid() && RecognizesProviders(b, r)
    requires IsApplication(b.apps, provider, id)
    ensures UnderUncovered(b, r, id) <==> b.Uncovered(provider)
    ensures id in r.zeroFilled <==> !b.Uncovered(provider) && !HasRow(b.RowsOf(provider), id)
    ensures b.Covered(id) <==> !b.Uncovered(provider) && HasRow(b.RowsOf(provider), id)
  {
    assert b.IsProvider(provider);
    hide b.Uncovered, b.Valid, HasRow, StrictlySorted, ExactFor, IsApplication;
    if UnderUncovered(b, r, id) {
      var p :| p in r.uncovered && IsApplication(b.apps, p, id);
      OneProvider(b, id, provider, p);
    }
    if id in r.zeroFilled {
      var p :| b.ZeroFilled(p, id);
      OneProvider(b, id, provider, p);
    } else {
      assert !b.ZeroFilled(provider, id);
    }
    if b.Covered(id) {
      var p :| !b.Uncovered(p) && IsApplication(b.apps, p, id) && HasRow(b.RowsOf(p), id);
      OneProvider(b, id, provider, p);
    }
  }

  /** Everything counts as covered exactly when every production application has an
      amount row in its provider's chosen report and every such report sums exactly. */
  lemma AllCoveredExactly(b: Books, r: Recognition)
    requires b.Valid() && RecognizesProviders(b, r)
    ensures r.allCovered <==> forall p, id | IsApplication(b.apps, p, id) :: b.Covered(id)
  {
    hide b.Uncovered, b.Valid, HasRow, StrictlySorted, ExactFor, IsApplication, b.Covered, b.ZeroFilled;
    if r.allCovered {
      forall p, id | IsApplication(b.apps, p, id) ensures b.Covered(id) {
        CoveragePartitions(b, r, p, id);
        assert p !in r.uncovered;
        assert b.IsProvider(p);
      }
    } else if r.uncovered != [] {
      var p := r.uncovered[0];
      assert p in r.uncovered;
      var id :| IsApplication(b.apps, p, id);
      CoveragePartitions(b, r, p, id);
    } else {
      var id := r.zeroFilled[0];
      assert id in r.zeroFilled;
      var p :| b.ZeroFilled(p, id);
      ZeroFilledIsApplication(b, p, id);
      CoveragePartitions(b, r, p, id);
    }
  }

  lemma ZeroFilledIsApplication(b: Books, p: string, id: string)
    requires b.ZeroFilled(p, id)
    ensures IsApplication(b.apps, p, id)
  {
    hide b.Uncovered, HasRow;
  }

  /** A provider counts only with its own kind of report, and only the three stores have
      one. */
  lemma OnlyItsOwnReportCounts(b: Books, provider: string)
    requires !b.Uncovered(provider)
    ensures provider in b.chosen
    ensures (provider == "apple_app_store" && b.chosen[provider].kind == "apple_financial_consolidated")
            || (provider == "google_play" && b.chosen[provider].kind == "google_play_earnings")
            || (provider == "huawei_appgallery" && b.chosen[provider].kind == "huawei_settlement")
    ensures exists id :: IsApplication(b.apps, provider, id) && HasRow(b.RowsOf(provider), id)
    ensures AllSummable(b.RowsOf(provider))
  {
    hide AllSummable, HasRow, IsApplication;
  }

  /** Only a missing or other report, a report without a row of the provider's applications,
      or one that does not add up leaves a store's provider uncovered. */
  lemma UncoveredForAReason(b: Books, provider: string)
    requires b.Uncovered(provider)
    requires provider in {"apple_app_store", "google_play", "huawei_appgallery"}
    ensures provider !in b.chosen
            || (provider == "apple_app_store" && b.chosen[provider].kind != "apple_financial_consolidated")
            || (provider == "google_play" && b.chosen[provider].kind != "google_play_earnings")
            || (provider == "huawei_appgallery" && b.chosen[provider].kind != "huawei_settlement")
            || (forall id :: IsApplication(b.apps, provider, id) ==> !HasRow(b.RowsOf(provider), id))
            || !AllSummable(b.RowsOf(provider))
  {
    hide AllSummable, HasRow, IsApplication;
  }
}
