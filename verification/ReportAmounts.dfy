/** Matching report totals to production applications, and adding them up. */
module ReportAmounts {
  import opened Text
  import opened Digits
  import opened Decimal
  import opened DecimalText
  import opened AppleReport

  /** One stored total of an application in a currency. */
  datatype Amount = Amount(
    application: string,
    currency: string,
    amountDecimal: string,
    scale: nat,
    minorUnits: Option<Int64>,
    commission: string,
    tax: string)

  /** One summed store identifier and currency, before it is matched. */
  datatype IdentifierTotal = IdentifierTotal(
    providerApplication: string, currency: string, amount: Decimal, minorUnits: Option<Int64>)

  datatype AmountError = InvalidAmount | Ambiguous

  /** A production application of one project and provider. */
  datatype Application = Application(id: string, providerApplication: string)

  const INCLUDED := "included"
  const NOT_ITEMIZED := "not_itemized"

  /** The sum of two 64-bit integers, or none when it does not fit; no step of the
      computation itself overflows. */
  function AddInt64(left: Int64, right: Int64): (sum: Option<Int64>)
    ensures sum.Some? <==> IsInt64(left + right)
    ensures sum.Some? ==> sum.value == left + right
  {
    if right > 0 && left > INT64_MAX - right then None
    else if right < 0 && left < INT64_MIN - right then None
    else var sum: Int64 := left + right; Some(sum)
  }

  predicate MatchesBelow(amount: Number, minor: int, exponent: nat) {
    exponent > 0
    && (MatchesBelow(amount, minor, exponent - 1) || MinorUnits(amount, exponent - 1) == Ok(Some(minor)))
  }

  /** Some exponent up to the scale gives these minor units. */
  predicate MinorUnitsMatch(amount: Number, minor: int) {
    MatchesBelow(amount, minor, amount.scale + 1)
  }

  method FinancialMinorUnitsMatch(amount: Number, minor: int) returns (r: bool)
    ensures r <==> MinorUnitsMatch(amount, minor)
  {
    for exponent := 0 to amount.scale + 1
      invariant !MatchesBelow(amount, minor, exponent)
    {
      var candidate := ExactMinorUnits(amount, exponent);
      if candidate == Ok(Some(minor)) {
        MatchesLater(amount, minor, exponent + 1, amount.scale + 1);
        return true;
      }
    }
    return false;
  }

  lemma {:induction false} MatchesLater(amount: Number, minor: int, e: nat, f: nat)
    requires e <= f && MatchesBelow(amount, minor, e)
    ensures MatchesBelow(amount, minor, f)
  {
    if e < f {
      MatchesLater(amount, minor, e, f - 1);
    }
  }

  ghost predicate Dropped(amount: Number, minor: int, k: nat) {
    k <= amount.scale && amount.coefficient == minor * Pow10(k)
  }

  lemma {:induction false} MatchesBelowMeaning(amount: Number, minor: Int64, e: nat)
    requires e <= amount.scale + 1
    ensures MatchesBelow(amount, minor, e) <==> exists k :: amount.scale - e < k && Dropped(amount, minor, k)
  {
    hide Pow10, MinorUnits;
    if e > 0 {
      MatchesBelowMeaning(amount, minor, e - 1);
      MinorUnitsAreExact(amount, e - 1, minor);
      var last := amount.scale - (e - 1);
      if MinorUnits(amount, e - 1) == Ok(Some(minor)) {
        assert Dropped(amount, minor, last);
      }
      if k :| amount.scale - e < k && Dropped(amount, minor, k) {
        if k == last {
          assert amount.coefficient == minor * Pow10(last);
        }
      }
    }
  }

  /** Minor units match a decimal exactly when they differ from its coefficient by a
      power of ten no finer than its scale. */
  lemma MinorUnitsMatchMeaning(amount: Number, minor: Int64)
    ensures MinorUnitsMatch(amount, minor) <==> exists k :: Dropped(amount, minor, k)
  {
    MatchesBelowMeaning(amount, minor, amount.scale + 1);
  }

  // --------------------------------------------------------------- merging

  function CombineMinorUnits(left: Option<Int64>, right: Option<Int64>): Option<Int64> {
    if left.None? || right.None? then None else AddInt64(left.value, right.value)
  }

  function Merge(left: Amount, right: Amount): Result<Amount, AmountError> {
    match ParseDecimal(left.amountDecimal)
    case Err(_) => Err(InvalidAmount)
    case Ok(l) =>
      match ParseDecimal(right.amountDecimal)
      case Err(_) => Err(InvalidAmount)
      case Ok(r) =>
        match Add(l, r)
        case Err(_) => Err(InvalidAmount)
        case Ok(summed) =>
          var minor := CombineMinorUnits(left.minorUnits, right.minorUnits);
          if minor.Some? && !MinorUnitsMatch(summed, minor.value) then Err(InvalidAmount)
          else
            Ok(left.(amountDecimal := Printed(summed), scale := summed.scale, minorUnits := minor))
  }

  predicate ValidTotal(total: IdentifierTotal) {
    && total.providerApplication != "" && total.amount.Exact?
    && ValidCurrency(total.currency)
    && (total.minorUnits.Some? ==> MinorUnitsMatch(total.amount, total.minorUnits.value))
  }

  function Matching(apps: seq<Application>, identifier: string): seq<string> {
    if apps == [] then []
    else
      Matching(apps[..|apps| - 1], identifier)
      + if apps[|apps| - 1].providerApplication == identifier then [apps[|apps| - 1].id] else []
  }

  function AmountOf(application: string, total: IdentifierTotal): Amount
    requires total.amount.Exact?
  {
    Amount(application, total.currency, Printed(total.amount), total.amount.scale, total.minorUnits,
           INCLUDED, NOT_ITEMIZED)
  }

  type Rows = map<string, Amount>

  /** One total: dropped without a match, merged with one, refused with several. */
  function ResolveOne(apps: seq<Application>, resolved: Rows, total: IdentifierTotal): Result<Rows, AmountError> {
    if !ValidTotal(total) then Err(InvalidAmount)
    else
      var applications := Matching(apps, total.providerApplication);
      if applications == [] then Ok(resolved)
      else if |applications| > 1 then Err(Ambiguous)
      else
        var key := Key(applications[0], total.currency);
        var amount := AmountOf(applications[0], total);
        if key !in resolved then Ok(resolved[key := amount])
        else
          match Merge(resolved[key], amount)
          case Err(e) => Err(e)
          case Ok(merged) => Ok(resolved[key := merged])
  }

  function Resolved(apps: seq<Application>, totals: seq<IdentifierTotal>): Result<Rows, AmountError> {
    if totals == [] then Ok(map[])
    else
      match Resolved(apps, totals[..|totals| - 1])
      case Err(e) => Err(e)
      case Ok(resolved) => ResolveOne(apps, resolved, totals[|totals| - 1])
  }

  lemma {:induction false} FirstErrorStands(apps: seq<Application>, totals: seq<IdentifierTotal>, i: nat)
    requires i <= |totals| && Resolved(apps, totals[..i]).Err?
    ensures Resolved(apps, totals) == Resolved(apps, totals[..i])
    decreases |totals|
  {
    if i == |totals| {
      assert totals[..i] == totals;
    } else {
      assert totals[..|totals| - 1][..i] == totals[..i];
      FirstErrorStands(apps, totals[..|totals| - 1], i);
    }
  }

  /** Resolves the totals one by one over the matches of each identifier. */
  method ResolveFinancialReportAmounts(apps: seq<Application>, totals: seq<IdentifierTotal>)
    returns (r: Result<Rows, AmountError>)
    ensures r == Resolved(apps, totals)
  {
    hide MinorUnitsMatch, ValidCurrency, Merge, Key, Printed, Matching;
    var resolved: Rows := map[];
    for i := 0 to |totals|
      invariant Resolved(apps, totals[..i]) == Ok(resolved)
    {
      var total := totals[i];
      assert totals[..i + 1][..i] == totals[..i];
      assert Resolved(apps, totals[..i + 1]) == ResolveOne(apps, resolved, total);
      if ResolveOne(apps, resolved, total).Err? {
        FirstErrorStands(apps, totals, i + 1);
      }
      if !ValidTotal(total) {
        return Err(InvalidAmount);
      }
      var applications := Matching(apps, total.providerApplication);
      if applications == [] {
        continue;
      }
      if |applications| > 1 {
        return Err(Ambiguous);
      }
      var key := Key(applications[0], total.currency);
      var amount := AmountOf(applications[0], total);
      if key !in resolved {
        resolved := resolved[key := amount];
        continue;
      }
      var merged := Merge(resolved[key], amount);
      if merged.Err? {
        return Err(merged.error);
      }
      resolved := resolved[key := merged.value];
    }
    assert totals[..|totals|] == totals;
    return Ok(resolved);
  }

  // ------------------------------------------------- what resolution keeps

  /** A total is one of an application's when that is its only match. */
  predicate Belongs(apps: seq<Application>, total: IdentifierTotal, application: string, currency: string) {
    total.amount.Exact? && total.currency == currency
    && Matching(apps, total.providerApplication) == [application]
  }

  function MatchedSum(apps: seq<Application>, totals: seq<IdentifierTotal>, application: string,
                      currency: string): int {
    if totals == [] then 0
    else
      var last := totals[|totals| - 1];
      MatchedSum(apps, totals[..|totals| - 1], application, currency)
      + if Belongs(apps, last, application, currency) then last.amount.coefficient else 0
  }

  /** The sum of the minor units, when every total of the application carries them. */
  function MatchedMinor(apps: seq<Application>, totals: seq<IdentifierTotal>, application: string,
                        currency: string): Option<int> {
    if totals == [] then Some(0)
    else
      var last := totals[|totals| - 1];
      var front := MatchedMinor(apps, totals[..|totals| - 1], application, currency);
      if !Belongs(apps, last, application, currency) then front
      else if front.None? || last.minorUnits.None? then None
      else Some(front.value + last.minorUnits.value)
  }

  /** No partial sum of these minor units leaves the 64-bit range. */
  predicate PartialMinorsFit(apps: seq<Application>, totals: seq<IdentifierTotal>, application: string, currency: string) {
    totals == []
    || (PartialMinorsFit(apps, totals[..|totals| - 1], application, currency)
        && var sum := MatchedMinor(apps, totals, application, currency); sum.Some? ==> IsInt64(sum.value))
  }

  /** Some total of the application and currency has this scale. */
  ghost predicate ScaleOfSome(application: string, currency: string, scale: nat, apps: seq<Application>,
                              totals: seq<IdentifierTotal>) {
    exists t | t in totals :: Belongs(apps, t, application, currency) && t.amount.scale == scale
  }

  lemma ScaleOfSomeMore(application: string, currency: string, scale: nat, apps: seq<Application>,
                        totals: seq<IdentifierTotal>, last: IdentifierTotal)
    requires ScaleOfSome(application, currency, scale, apps, totals)
             || (Belongs(apps, last, application, currency) && last.amount.scale == scale)
    ensures ScaleOfSome(application, currency, scale, apps, totals + [last])
  {
    hide Matching;
    assert last in totals + [last];
    if ScaleOfSome(application, currency, scale, apps, totals) {
      var t :| t in totals && Belongs(apps, t, application, currency) && t.amount.scale == scale;
      assert t in totals + [last];
    }
  }

  ghost predicate ExactRow(a: Amount, apps: seq<Application>, totals: seq<IdentifierTotal>) {
    && ScaleOfSome(a.application, a.currency, a.scale, apps, totals)
    && ValidCurrency(a.currency) && a.commission == INCLUDED && a.tax == NOT_ITEMIZED
    && a.amountDecimal == Printed(Exact(MatchedSum(apps, totals, a.application, a.currency), a.scale))
    && (a.minorUnits.Some? <==>
          MatchedMinor(apps, totals, a.application, a.currency).Some?
          && PartialMinorsFit(apps, totals, a.application, a.currency))
    && (a.minorUnits.Some? ==>
          MatchedMinor(apps, totals, a.application, a.currency) == Some(a.minorUnits.value)
          && MinorUnitsMatch(Exact(MatchedSum(apps, totals, a.application, a.currency), a.scale), a.minorUnits.value))
  }

  ghost predicate ExactRows(rows: Rows, apps: seq<Application>, totals: seq<IdentifierTotal>) {
    && (forall k | k in rows ::
          k == Key(rows[k].application, rows[k].currency) && ExactRow(rows[k], apps, totals))
    && (forall t, application | t in totals && Belongs(apps, t, application, t.currency) ::
          Key(application, t.currency) in rows)
    && (forall t | t in totals :: ValidTotal(t) && |Matching(apps, t.providerApplication)| <= 1)
  }

  lemma {:induction false} AbsentSumsToZero(
    apps: seq<Application>, totals: seq<IdentifierTotal>, application: string, currency: string)
    requires forall t | t in totals :: !Belongs(apps, t, application, currency)
    ensures MatchedSum(apps, totals, application, currency) == 0
    ensures MatchedMinor(apps, totals, application, currency) == Some(0)
    ensures PartialMinorsFit(apps, totals, application, currency)
  {
    hide Belongs;
    if totals != [] {
      assert totals[|totals| - 1] in totals;
      AbsentSumsToZero(apps, totals[..|totals| - 1], application, currency);
    }
  }

  lemma MergeParts(a: Amount, b: Amount, d: Number, e: Number)
    requires a.amountDecimal == Printed(d) && b.amountDecimal == Printed(e) && Merge(a, b).Ok?
    ensures var m := Merge(a, b).value;
            && d.scale == e.scale && m.scale == d.scale
            && m.amountDecimal == Printed(Exact(d.coefficient + e.coefficient, d.scale))
            && m.minorUnits == CombineMinorUnits(a.minorUnits, b.minorUnits)
            && (m.minorUnits.Some? ==>
                  MinorUnitsMatch(Exact(d.coefficient + e.coefficient, d.scale), m.minorUnits.value))
            && m == a.(amountDecimal := m.amountDecimal, scale := m.scale, minorUnits := m.minorUnits)
  {
    hide ParseDecimal, Printed, MinorUnitsMatch;
    PrintedParses(d);
    PrintedParses(e);
  }

  lemma SumsGrow(apps: seq<Application>, totals: seq<IdentifierTotal>, last: IdentifierTotal,
                 application: string, currency: string)
    requires Belongs(apps, last, application, currency)
    ensures MatchedSum(apps, totals + [last], application, currency)
         == MatchedSum(apps, totals, application, currency) + last.amount.coefficient
    ensures MatchedMinor(apps, totals, application, currency).Some? && last.minorUnits.Some? ==>
              MatchedMinor(apps, totals + [last], application, currency)
              == Some(MatchedMinor(apps, totals, application, currency).value + last.minorUnits.value)
    ensures MatchedMinor(apps, totals, application, currency).None? || last.minorUnits.None? ==>
              MatchedMinor(apps, totals + [last], application, currency).None?
    ensures PartialMinorsFit(apps, totals + [last], application, currency) <==>
            PartialMinorsFit(apps, totals, application, currency)
            && var sum := MatchedMinor(apps, totals + [last], application, currency);
               sum.Some? ==> IsInt64(sum.value)
  {
    var all := totals + [last];
    assert all[..|all| - 1] == totals && all[|all| - 1] == last;
  }

  lemma MergeAdds(a: Amount, apps: seq<Application>, totals: seq<IdentifierTotal>, last: IdentifierTotal)
    requires ExactRow(a, apps, totals) && ValidTotal(last) && Belongs(apps, last, a.application, a.currency)
    requires Merge(a, AmountOf(a.application, last)).Ok?
    ensures ExactRow(Merge(a, AmountOf(a.application, last)).value, apps, totals + [last])
    ensures var m := Merge(a, AmountOf(a.application, last)).value;
            m.application == a.application && m.currency == a.currency
  {
    hide Printed, MinorUnitsMatch, ValidCurrency, Matching, Merge, MatchedSum, MatchedMinor, PartialMinorsFit, ScaleOfSome;
    ScaleOfSomeMore(a.application, a.currency, a.scale, apps, totals, last);
    SumsGrow(apps, totals, last, a.application, a.currency);
    var d := Exact(MatchedSum(apps, totals, a.application, a.currency), a.scale);
    MergeParts(a, AmountOf(a.application, last), d, last.amount);
  }

  lemma {:induction false} FittingSumFits(
    apps: seq<Application>, totals: seq<IdentifierTotal>, application: string, currency: string)
    requires PartialMinorsFit(apps, totals, application, currency)
    ensures var sum := MatchedMinor(apps, totals, application, currency); sum.Some? ==> IsInt64(sum.value)
  {
  }

  lemma OtherRowsStay(a: Amount, apps: seq<Application>, totals: seq<IdentifierTotal>, last: IdentifierTotal)
    requires ExactRow(a, apps, totals) && !Belongs(apps, last, a.application, a.currency)
    ensures ExactRow(a, apps, totals + [last])
  {
    hide Printed, MinorUnitsMatch, ValidCurrency, Belongs, ScaleOfSome;
    ScaleOfSomeMore(a.application, a.currency, a.scale, apps, totals, last);
    if PartialMinorsFit(apps, totals, a.application, a.currency) {
      FittingSumFits(apps, totals, a.application, a.currency);
    }
    var all := totals + [last];
    assert all[..|all| - 1] == totals && all[|all| - 1] == last;
  }

  lemma NewRow(application: string, apps: seq<Application>, totals: seq<IdentifierTotal>, last: IdentifierTotal)
    requires ValidTotal(last) && Belongs(apps, last, application, last.currency)
    requires forall t | t in totals :: !Belongs(apps, t, application, last.currency)
    ensures ExactRow(AmountOf(application, last), apps, totals + [last])
  {
    hide Printed, MinorUnitsMatch, ValidCurrency, Belongs, ScaleOfSome;
    ScaleOfSomeMore(application, last.currency, last.amount.scale, apps, totals, last);
    var all := totals + [last];
    assert all[..|all| - 1] == totals && all[|all| - 1] == last;
    AbsentSumsToZero(apps, totals, application, last.currency);
    assert last.amount == Exact(0 + last.amount.coefficient, last.amount.scale);
  }

  lemma RowStep(rows: Rows, apps: seq<Application>, totals: seq<IdentifierTotal>, last: IdentifierTotal, k: string)
    requires ExactRows(rows, apps, totals) && ResolveOne(apps, rows, last).Ok?
    requires k in ResolveOne(apps, rows, last).value
    ensures var a := ResolveOne(apps, rows, last).value[k];
            k == Key(a.application, a.currency) && ExactRow(a, apps, totals + [last])
  {
    hide Printed, MinorUnitsMatch, ValidCurrency, Matching, Key, Merge, ExactRow;
    var applications := Matching(apps, last.providerApplication);
    assert ValidCurrency(last.currency);
    if applications == [] {
      OtherRowsStay(rows[k], apps, totals, last);
    } else {
      var application := applications[0];
      assert applications == [application];
      if k == Key(application, last.currency) && k in rows {
        CurrencyOf(rows[k], apps, totals);
        KeyIsInjective(application, last.currency, rows[k].application, rows[k].currency);
        MergeAdds(rows[k], apps, totals, last);
      } else if k == Key(application, last.currency) {
        forall t | t in totals ensures !Belongs(apps, t, application, last.currency) {
        }
        NewRow(application, apps, totals, last);
      } else {
        OtherRowsStay(rows[k], apps, totals, last);
      }
    }
  }

  lemma CurrencyOf(a: Amount, apps: seq<Application>, totals: seq<IdentifierTotal>)
    requires ExactRow(a, apps, totals)
    ensures ValidCurrency(a.currency)
  {
  }

  lemma RowsStep(rows: Rows, apps: seq<Application>, totals: seq<IdentifierTotal>, last: IdentifierTotal)
    requires ExactRows(rows, apps, totals) && ResolveOne(apps, rows, last).Ok?
    ensures ExactRows(ResolveOne(apps, rows, last).value, apps, totals + [last])
  {
    hide Printed, MinorUnitsMatch, ValidCurrency, Matching, Key, Merge, ExactRow;
    var after := ResolveOne(apps, rows, last).value;
    forall k | k in after
      ensures k == Key(after[k].application, after[k].currency) && ExactRow(after[k], apps, totals + [last])
    {
      RowStep(rows, apps, totals, last, k);
    }
    forall t, application | t in totals + [last] && Belongs(apps, t, application, t.currency)
      ensures Key(application, t.currency) in after
    {
      if t in totals {
        assert Key(application, t.currency) in rows;
      }
    }
  }

  /** On success every application and currency holds exactly the sum of the totals that
      match it alone; totals that match no application are dropped and one that matches
      several would have refused the report. */
  lemma {:induction false} ResolvedIsExact(apps: seq<Application>, totals: seq<IdentifierTotal>)
    requires Resolved(apps, totals).Ok?
    ensures ExactRows(Resolved(apps, totals).value, apps, totals)
  {
    if totals != [] {
      var front, last := totals[..|totals| - 1], totals[|totals| - 1];
      ResolvedIsExact(apps, front);
      hide ExactRows, ResolveOne;
      RowsStep(Resolved(apps, front).value, apps, front, last);
      assert totals == front + [last];
    }
  }

  lemma {:induction false} AmbiguousOnlyIfShared(apps: seq<Application>, totals: seq<IdentifierTotal>)
    requires Resolved(apps, totals) == Err(Ambiguous)
    ensures exists t | t in totals :: |Matching(apps, t.providerApplication)| > 1
  {
    hide ValidTotal, Matching, Merge;
    if totals != [] {
      var front, last := totals[..|totals| - 1], totals[|totals| - 1];
      if Resolved(apps, front) == Err(Ambiguous) {
        AmbiguousOnlyIfShared(apps, front);
        var t :| t in front && |Matching(apps, t.providerApplication)| > 1;
        assert t in totals;
      } else {
        MergeIsNeverAmbiguous();
        assert last in totals;
      }
    }
  }

  lemma MergeIsNeverAmbiguous()
    ensures forall a, b :: Merge(a, b) != Err(Ambiguous)
  {
    hide ParseDecimal, Printed, MinorUnitsMatch;
  }
}
