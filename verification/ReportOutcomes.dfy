/** When exactly the totals of a report resolve to amounts, and what refuses them. */
module ReportOutcomes {
  import opened Text
  import opened Decimal
  import opened DecimalText
  import opened AppleReport
  import opened ReportAmounts

  /** Some of the totals is the application's in this currency. */
  ghost predicate HasTotalOf(apps: seq<Application>, totals: seq<IdentifierTotal>, application: string, currency: string) {
    exists u | u in totals :: Belongs(apps, u, application, currency)
  }

  /** The sum of the minor units, if all totals carry them and no partial sum overflows. */
  function MinorsOf(apps: seq<Application>, totals: seq<IdentifierTotal>, application: string, currency: string): Option<Int64> {
    var sum := MatchedMinor(apps, totals, application, currency);
    if sum.Some? && PartialMinorsFit(apps, totals, application, currency) && IsInt64(sum.value)
    then (var minor: Int64 := sum.value; Some(minor)) else None
  }

  predicate Reads(amount: Number) {
    ParseDecimal(Printed(amount)).Ok?
  }

  /** A further total of an application joins those before it: at their scale, as a
      decimal that can be read back, like their sum, and with minor units, if the whole
      has any, that match it. */
  ghost predicate Joins(apps: seq<Application>, before: seq<IdentifierTotal>, t: IdentifierTotal, application: string)
    requires t.amount.Exact?
  {
    var sum := MatchedSum(apps, before, application, t.currency);
    var minor := MinorsOf(apps, before + [t], application, t.currency);
    && (forall u | u in before && Belongs(apps, u, application, t.currency) :: u.amount.scale == t.amount.scale)
    && Reads(Exact(sum, t.amount.scale)) && Reads(t.amount)
    && (minor.Some? ==> MinorUnitsMatch(Exact(sum + t.amount.coefficient, t.amount.scale), minor.value))
  }

  /** A total with an identifier, an exact amount, a three-letter currency and, if it has
      minor units, ones that match the amount. */
  predicate IsWellFormed(t: IdentifierTotal) {
    && t.providerApplication != "" && t.amount.Exact?
    && |t.currency| == 3 && (forall i | 0 <= i < 3 :: 'A' <= t.currency[i] <= 'Z')
    && (t.minorUnits.Some? ==> MinorUnitsMatch(t.amount, t.minorUnits.value))
  }

  lemma ValidIsWellFormed(t: IdentifierTotal)
    ensures ValidTotal(t) <==> IsWellFormed(t)
  {
    hide MinorUnitsMatch;
  }

  /** What the total at hand needs: to be well formed, to have at most one application, and
      to join that application's totals before it. */
  ghost predicate Fits(apps: seq<Application>, before: seq<IdentifierTotal>, t: IdentifierTotal) {
    && IsWellFormed(t) && |Matching(apps, t.providerApplication)| <= 1
    && forall application ::
         Belongs(apps, t, application, t.currency) && HasTotalOf(apps, before, application, t.currency) ==>
           Joins(apps, before, t, application)
  }

  ghost predicate OneScale(apps: seq<Application>, totals: seq<IdentifierTotal>) {
    forall u, v, application | u in totals && v in totals && u.currency == v.currency
                               && Belongs(apps, u, application, u.currency) && Belongs(apps, v, application, v.currency) ::
      u.amount.scale == v.amount.scale
  }

  lemma StoredExactlyIfMatched(rows: Rows, apps: seq<Application>, totals: seq<IdentifierTotal>, t: IdentifierTotal,
                               application: string)
    requires ExactRows(rows, apps, totals) && ValidTotal(t) && Belongs(apps, t, application, t.currency)
    ensures var key := Key(application, t.currency);
            && (key in rows <==> HasTotalOf(apps, totals, application, t.currency))
            && (key in rows ==> rows[key].application == application && rows[key].currency == t.currency
                                && ExactRow(rows[key], apps, totals))
  {
    hide Key, Matching, Printed, MinorUnitsMatch, ExactRow;
    var key := Key(application, t.currency);
    if key in rows {
      var a := rows[key];
      RowHasATotal(a, apps, totals);
      KeyIsInjective(application, t.currency, a.application, a.currency);
    }
  }

  lemma RowHasATotal(a: Amount, apps: seq<Application>, totals: seq<IdentifierTotal>)
    requires ExactRow(a, apps, totals)
    ensures HasTotalOf(apps, totals, a.application, a.currency) && ValidCurrency(a.currency)
  {
    hide Printed, MinorUnitsMatch, Belongs, ValidCurrency;
  }

  lemma MergeFits(a: Amount, apps: seq<Application>, before: seq<IdentifierTotal>, t: IdentifierTotal)
    requires ExactRow(a, apps, before) && ValidTotal(t) && Belongs(apps, t, a.application, a.currency)
    requires OneScale(apps, before)
    ensures Merge(a, AmountOf(a.application, t)).Ok? <==> Joins(apps, before, t, a.application)
    ensures Merge(a, AmountOf(a.application, t)).Err? ==> Merge(a, AmountOf(a.application, t)) == Err(InvalidAmount)
  {
    hide ParseDecimal, Printed, MinorUnitsMatch, Matching, OneScale, ValidCurrency;
    var sum := MatchedSum(apps, before, a.application, a.currency);
    var left, right: Number := Exact(sum, a.scale), t.amount;
    ScaleIsThatOfAll(a, apps, before);
    SumsGrow(apps, before, t, a.application, a.currency);
    MinorsCombine(a, apps, before, t);
    if Reads(left) {
      PrintedParses(left);
    }
    if Reads(right) {
      PrintedParses(right);
    }
    hide MatchedSum, MatchedMinor, PartialMinorsFit, MinorsOf, CombineMinorUnits, Belongs;
    var some := SomeTotal(a, apps, before);
  }

  lemma SomeTotal(a: Amount, apps: seq<Application>, totals: seq<IdentifierTotal>) returns (u: IdentifierTotal)
    requires ExactRow(a, apps, totals)
    ensures u in totals && Belongs(apps, u, a.application, a.currency) && u.amount.scale == a.scale
  {
    hide Printed, MinorUnitsMatch, Matching, ValidCurrency;
    u :| u in totals && Belongs(apps, u, a.application, a.currency) && u.amount.scale == a.scale;
  }

  lemma ScaleIsThatOfAll(a: Amount, apps: seq<Application>, totals: seq<IdentifierTotal>)
    requires ExactRow(a, apps, totals) && OneScale(apps, totals)
    ensures forall u | u in totals && Belongs(apps, u, a.application, a.currency) :: u.amount.scale == a.scale
  {
    hide ExactRow, Matching;
    var some := SomeTotal(a, apps, totals);
    forall u | u in totals && Belongs(apps, u, a.application, a.currency) ensures u.amount.scale == a.scale {
      assert u.currency == a.currency && some.currency == a.currency;
    }
  }

  lemma MinorsCombine(a: Amount, apps: seq<Application>, before: seq<IdentifierTotal>, t: IdentifierTotal)
    requires ExactRow(a, apps, before) && Belongs(apps, t, a.application, a.currency)
    ensures CombineMinorUnits(a.minorUnits, t.minorUnits) == MinorsOf(apps, before + [t], a.application, a.currency)
  {
    hide Printed, MinorUnitsMatch, Belongs, ValidCurrency, ScaleOfSome;
    SumsGrow(apps, before, t, a.application, a.currency);
  }

  /** One total is taken exactly when it fits those before it. */
  lemma TakenExactlyIfItFits(rows: Rows, apps: seq<Application>, before: seq<IdentifierTotal>, t: IdentifierTotal)
    requires ExactRows(rows, apps, before) && OneScale(apps, before)
    ensures ResolveOne(apps, rows, t).Ok? <==> Fits(apps, before, t)
    ensures ResolveOne(apps, rows, t).Err? ==>
              ResolveOne(apps, rows, t).error
              == if IsWellFormed(t) && |Matching(apps, t.providerApplication)| > 1 then Ambiguous else InvalidAmount
  {
    ValidIsWellFormed(t);
    hide IsWellFormed, ExactRows, ValidTotal, Merge, Key, Joins, HasTotalOf, OneScale, Matching, MinorUnitsMatch, Printed;
    if ValidTotal(t) && |Matching(apps, t.providerApplication)| == 1 {
      var application := Matching(apps, t.providerApplication)[0];
      assert Matching(apps, t.providerApplication) == [application];
      ValidIsExact(t);
      StoredExactlyIfMatched(rows, apps, before, t, application);
      if Key(application, t.currency) in rows {
        MergeFits(rows[Key(application, t.currency)], apps, before, t);
      }
    } else if ValidTotal(t) {
      ValidIsExact(t);
    }
  }

  lemma ValidIsExact(t: IdentifierTotal)
    requires ValidTotal(t)
    ensures t.amount.Exact?
  {
  }

  lemma FittingKeepsOneScale(apps: seq<Application>, before: seq<IdentifierTotal>, t: IdentifierTotal)
    requires OneScale(apps, before) && Fits(apps, before, t)
    ensures OneScale(apps, before + [t])
  {
    hide Matching, Reads, MinorUnitsMatch;
    forall u, v, application | u in before + [t] && v in before + [t] && u.currency == v.currency
      && Belongs(apps, u, application, u.currency) && Belongs(apps, v, application, v.currency)
      ensures u.amount.scale == v.amount.scale
    {
      if u !in before || v !in before {
        ScalesAgree(apps, before, t, u, application);
        ScalesAgree(apps, before, t, v, application);
      }
    }
  }

  lemma ScalesAgree(apps: seq<Application>, before: seq<IdentifierTotal>, t: IdentifierTotal, u: IdentifierTotal, application: string)
    requires Fits(apps, before, t) && u in before + [t] && u.currency == t.currency
    requires Belongs(apps, u, application, u.currency) && Belongs(apps, t, application, t.currency)
    ensures u.amount.scale == t.amount.scale
  {
    hide Matching, Reads, MinorUnitsMatch;
    if u in before {
      assert HasTotalOf(apps, before, application, t.currency);
      assert Joins(apps, before, t, application);
    }
  }

  ghost predicate AllFit(apps: seq<Application>, totals: seq<IdentifierTotal>) {
    forall i | 0 <= i < |totals| :: Fits(apps, totals[..i], totals[i])
  }

  /** The first total that does not fit, and the error it gives: ambiguous if it is valid
      but has several applications, and an invalid amount in every other case. */
  ghost predicate FirstMisfit(apps: seq<Application>, totals: seq<IdentifierTotal>, i: nat, e: AmountError) {
    && i < |totals| && !Fits(apps, totals[..i], totals[i]) && AllFit(apps, totals[..i])
    && e == if IsWellFormed(totals[i]) && |Matching(apps, totals[i].providerApplication)| > 1 then Ambiguous else InvalidAmount
  }

  lemma AllFitStep(apps: seq<Application>, totals: seq<IdentifierTotal>)
    requires totals != []
    ensures var n := |totals| - 1; AllFit(apps, totals) <==> AllFit(apps, totals[..n]) && Fits(apps, totals[..n], totals[n])
  {
    hide Fits;
    var n := |totals| - 1;
    assert forall i | 0 <= i < n :: totals[..n][..i] == totals[..i] && totals[..n][i] == totals[i];
  }

  lemma MisfitStays(apps: seq<Application>, totals: seq<IdentifierTotal>, n: nat, i: nat, e: AmountError)
    requires n <= |totals| && FirstMisfit(apps, totals[..n], i, e)
    ensures FirstMisfit(apps, totals, i, e)
  {
    hide Fits, AllFit, IsWellFormed, Matching;
    assert totals[..n][..i] == totals[..i] && totals[..n][i] == totals[i];
  }

  /** A report resolves exactly when each of its totals fits those before it; otherwise the
      first that does not refuses it. */
  lemma {:induction false} ResolvesExactly(apps: seq<Application>, totals: seq<IdentifierTotal>)
    ensures Resolved(apps, totals).Ok? <==> AllFit(apps, totals)
    ensures Resolved(apps, totals).Ok? ==> OneScale(apps, totals)
    ensures Resolved(apps, totals).Err? ==> exists i: nat :: FirstMisfit(apps, totals, i, Resolved(apps, totals).error)
  {
    if totals == [] {
      NoTotalsOneScale(apps);
    } else {
      hide Fits, OneScale, IsWellFormed, Matching, ResolveOne, ExactRows, AllFit, FirstMisfit;
      var n := |totals| - 1;
      var front, last := totals[..n], totals[n];
      ResolvesExactly(apps, front);
      AllFitStep(apps, totals);
      if Resolved(apps, front).Ok? {
        ResolvedIsExact(apps, front);
        TakenExactlyIfItFits(Resolved(apps, front).value, apps, front, last);
        if Fits(apps, front, last) {
          FittingKeepsOneScale(apps, front, last);
          assert front + [last] == totals;
        } else {
          IsFirstMisfit(apps, totals, Resolved(apps, totals).error);
        }
      } else {
        var i: nat :| FirstMisfit(apps, front, i, Resolved(apps, front).error);
        MisfitStays(apps, totals, n, i, Resolved(apps, front).error);
      }
    }
  }

  lemma IsFirstMisfit(apps: seq<Application>, totals: seq<IdentifierTotal>, e: AmountError)
    requires totals != [] && AllFit(apps, totals[..|totals| - 1])
    requires var last := totals[|totals| - 1];
             && !Fits(apps, totals[..|totals| - 1], last)
             && e == if IsWellFormed(last) && |Matching(apps, last.providerApplication)| > 1 then Ambiguous else InvalidAmount
    ensures FirstMisfit(apps, totals, |totals| - 1, e)
  {
  }

  lemma NoTotalsOneScale(apps: seq<Application>)
    ensures OneScale(apps, [])
  {
  }

  /** Which applications a total matches. */
  lemma {:induction false} MatchingAre(apps: seq<Application>, identifier: string)
    ensures forall id :: id in Matching(apps, identifier) <==>
              exists i :: 0 <= i < |apps| && apps[i].providerApplication == identifier && apps[i].id == id
  {
    if apps != [] {
      var front, last := apps[..|apps| - 1], apps[|apps| - 1];
      MatchingAre(front, identifier);
      assert forall i | 0 <= i < |front| :: front[i] == apps[i];
    }
  }

  /** A stored row carries the states of a report that includes commission and does not
      itemize tax. */
  lemma StoredStates(apps: seq<Application>, totals: seq<IdentifierTotal>, k: string)
    requires Resolved(apps, totals).Ok? && k in Resolved(apps, totals).value
    ensures var a := Resolved(apps, totals).value[k];
            a.commission == "included" && a.tax == "not_itemized" && k == Key(a.application, a.currency)
  {
    ResolvedIsExact(apps, totals);
  }
}
