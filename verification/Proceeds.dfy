/** From the lines of an Apple report to recognized revenue: what an accepted file is
    worth once it is saved, matched to applications and summed. */
module Proceeds {
  import opened Text
  import opened Decimal
  import opened DecimalText
  import opened AppleReport
  import opened AppleReportLaws
  import opened AppleReportTheorems
  import opened ReportAmounts
  import opened Revenue
  import FI = FinancialImports
  import FinancialRuns

  // ------------------------------------------------ grouping keeps the sum

  /** An amount under an optional key. */
  type Item<K> = (Option<K>, int)

  function Weigh<K(==)>(items: seq<Item<K>>, key: K): int {
    if items == [] then 0
    else
      Weigh(items[..|items| - 1], key)
      + if items[|items| - 1].0 == Some(key) then items[|items| - 1].1 else 0
  }

  /** The sum over the items whose key is one of the given. */
  function WeighIn<K(==)>(items: seq<Item<K>>, keys: seq<K>): int {
    if items == [] then 0
    else
      var (key, weight) := items[|items| - 1];
      WeighIn(items[..|items| - 1], keys) + if key.Some? && key.value in keys then weight else 0
  }

  function SumOver<K(==)>(items: seq<Item<K>>, keys: seq<K>): int {
    if keys == [] then 0
    else SumOver(items, keys[..|keys| - 1]) + Weigh(items, keys[|keys| - 1])
  }

  lemma {:induction false} NoKeysWeighNothing<K>(items: seq<Item<K>>)
    ensures WeighIn(items, []) == 0
  {
    if items != [] {
      NoKeysWeighNothing(items[..|items| - 1]);
    }
  }

  lemma {:induction false} OneMoreKey<K>(items: seq<Item<K>>, keys: seq<K>, key: K)
    requires key !in keys
    ensures WeighIn(items, keys + [key]) == WeighIn(items, keys) + Weigh(items, key)
  {
    if items != [] {
      OneMoreKey(items[..|items| - 1], keys, key);
    }
  }

  /** Summing key by key is summing once over the items of those keys. */
  lemma {:induction false} GroupingKeepsTheSum<K>(items: seq<Item<K>>, keys: seq<K>)
    requires NoDuplicates(keys)
    ensures SumOver(items, keys) == WeighIn(items, keys)
    decreases |keys|
  {
    if keys == [] {
      NoKeysWeighNothing(items);
    } else {
      var fewer, last := keys[..|keys| - 1], keys[|keys| - 1];
      GroupingKeepsTheSum(items, fewer);
      assert keys == fewer + [last];
      assert last !in fewer by {
        assert forall i | 0 <= i < |fewer| :: keys[i] != keys[|keys| - 1];
      }
      OneMoreKey(items, fewer, last);
    }
  }

  // ------------------------------------------------------ rows of the file

  predicate HasOneApplication(apps: seq<Application>, identifier: string) {
    |Matching(apps, identifier)| == 1
  }

  /** The sum of the extended shares, in one currency, of the rows whose identifier has
      exactly one application. */
  function RecognizableSum(es: seq<Entry>, apps: seq<Application>, currency: string): int {
    if es == [] then 0
    else
      var last := es[|es| - 1];
      RecognizableSum(es[..|es| - 1], apps, currency)
      + if last.currency == currency && HasOneApplication(apps, last.identifier) then last.amount.coefficient else 0
  }

  function EntryItems(es: seq<Entry>, currency: string): seq<Item<string>> {
    if es == [] then []
    else
      var last := es[|es| - 1];
      EntryItems(es[..|es| - 1], currency)
      + [(if last.currency == currency then Some(last.identifier) else None, last.amount.coefficient)]
  }

  lemma LastItem<K>(items: seq<Item<K>>, item: Item<K>)
    ensures (items + [item])[..|items + [item]| - 1] == items && (items + [item])[|items + [item]| - 1] == item
  {
  }

  lemma {:induction false} EntryItemsWeigh(es: seq<Entry>, identifier: string, currency: string)
    ensures Weigh(EntryItems(es, currency), identifier) == Sum(es, identifier, currency)
  {
    if es != [] {
      var last := es[|es| - 1];
      EntryItemsWeigh(es[..|es| - 1], identifier, currency);
      LastItem(EntryItems(es[..|es| - 1], currency),
               (if last.currency == currency then Some(last.identifier) else None, last.amount.coefficient));
    }
  }

  lemma {:induction false} EntryItemsWeighIn(es: seq<Entry>, apps: seq<Application>, currency: string, keys: seq<string>)
    requires forall e | e in es && e.currency == currency :: e.identifier in keys <==> HasOneApplication(apps, e.identifier)
    ensures WeighIn(EntryItems(es, currency), keys) == RecognizableSum(es, apps, currency)
  {
    hide HasOneApplication;
    if es != [] {
      var last := es[|es| - 1];
      assert last in es;
      EntryItemsWeighIn(es[..|es| - 1], apps, currency, keys);
      LastItem(EntryItems(es[..|es| - 1], currency),
               (if last.currency == currency then Some(last.identifier) else None, last.amount.coefficient));
    }
  }

  // -------------------------------------------------------- totals of the file

  /** A parsed total as the draft carries it. */
  function AsIdentifierTotal(t: Total): IdentifierTotal {
    IdentifierTotal(t.identifier, t.currency, t.amount,
                    if t.minorUnits.Some? && IsInt64(t.minorUnits.value)
                    then (var minor: Int64 := t.minorUnits.value; Some(minor)) else None)
  }

  function AsIdentifierTotals(totals: seq<Total>): (result: seq<IdentifierTotal>)
    ensures |result| == |totals| && forall i | 0 <= i < |totals| :: result[i] == AsIdentifierTotal(totals[i])
  {
    seq(|totals|, i requires 0 <= i < |totals| => AsIdentifierTotal(totals[i]))
  }

  predicate Counts(apps: seq<Application>, t: Total, currency: string) {
    t.currency == currency && HasOneApplication(apps, t.identifier)
  }

  /** The identifiers of the totals in one currency that have one application. */
  function CountedIds(totals: seq<Total>, apps: seq<Application>, currency: string): seq<string> {
    if totals == [] then []
    else
      var last := totals[|totals| - 1];
      CountedIds(totals[..|totals| - 1], apps, currency) + if Counts(apps, last, currency) then [last.identifier] else []
  }

  function CountedSum(totals: seq<Total>, apps: seq<Application>, currency: string): int {
    if totals == [] then 0
    else
      var last := totals[|totals| - 1];
      CountedSum(totals[..|totals| - 1], apps, currency) + if Counts(apps, last, currency) then last.amount.coefficient else 0
  }

  ghost predicate IsCounted(totals: seq<Total>, apps: seq<Application>, currency: string, id: string) {
    exists t | t in totals :: Counts(apps, t, currency) && t.identifier == id
  }

  lemma IsCountedStep(totals: seq<Total>, apps: seq<Application>, currency: string, id: string)
    requires totals != []
    ensures var front, last := totals[..|totals| - 1], totals[|totals| - 1];
            IsCounted(totals, apps, currency, id)
            <==> IsCounted(front, apps, currency, id) || (Counts(apps, last, currency) && last.identifier == id)
  {
    hide Counts;
    var front, last := totals[..|totals| - 1], totals[|totals| - 1];
    assert totals == front + [last];
    if t :| t in totals && Counts(apps, t, currency) && t.identifier == id {
      assert t in front || t == last;
    }
    assert last in totals;
  }

  lemma {:induction false} CountedIdsAre(totals: seq<Total>, apps: seq<Application>, currency: string)
    requires Distinct(totals)
    ensures NoDuplicates(CountedIds(totals, apps, currency))
    ensures forall id :: id in CountedIds(totals, apps, currency) <==> IsCounted(totals, apps, currency, id)
  {
    hide HasOneApplication;
    if totals != [] {
      var front, last := totals[..|totals| - 1], totals[|totals| - 1];
      forall i, j | 0 <= i < j < |front|
        ensures front[i].identifier != front[j].identifier || front[i].currency != front[j].currency
      {
        assert front[i] == totals[i] && front[j] == totals[j];
      }
      CountedIdsAre(front, apps, currency);
      forall id ensures id in CountedIds(totals, apps, currency) <==> IsCounted(totals, apps, currency, id) {
        IsCountedStep(totals, apps, currency, id);
        assert id in CountedIds(front, apps, currency) <==> IsCounted(front, apps, currency, id);
        assert CountedIds(totals, apps, currency)
            == CountedIds(front, apps, currency) + if Counts(apps, last, currency) then [last.identifier] else [];
      }
      if Counts(apps, last, currency) {
        forall t | t in front && Counts(apps, t, currency) ensures t.identifier != last.identifier {
          var i :| 0 <= i < |front| && front[i] == t;
          assert totals[i] == t && totals[|totals| - 1] == last;
        }
        assert !IsCounted(front, apps, currency, last.identifier);
        assert last.identifier !in CountedIds(front, apps, currency);
      }
    }
  }

  lemma {:induction false} CountedSumIsSumOver(totals: seq<Total>, es: seq<Entry>, apps: seq<Application>, currency: string)
    requires forall t | t in totals :: t.amount.coefficient == Sum(es, t.identifier, t.currency)
    ensures CountedSum(totals, apps, currency)
         == SumOver(EntryItems(es, currency), CountedIds(totals, apps, currency))
  {
    hide HasOneApplication;
    if totals != [] {
      var front, last := totals[..|totals| - 1], totals[|totals| - 1];
      assert last in totals;
      CountedSumIsSumOver(front, es, apps, currency);
      if Counts(apps, last, currency) {
        var ids := CountedIds(front, apps, currency) + [last.identifier];
        assert ids[..|ids| - 1] == CountedIds(front, apps, currency);
        EntryItemsWeigh(es, last.identifier, currency);
      } else {
        assert CountedIds(totals, apps, currency) == CountedIds(front, apps, currency);
      }
    }
  }

  lemma OrderedAreDistinct(totals: seq<Total>)
    requires Ordered(totals)
    ensures Distinct(totals)
  {
    forall i, j | 0 <= i < j < |totals|
      ensures totals[i].identifier != totals[j].identifier || totals[i].currency != totals[j].currency
    {
      assert Before(totals[i], totals[j]);
      LessIrreflexive(totals[i].currency);
    }
  }

  /** The counted totals of a report are worth the recognizable rows of its file. */
  lemma CountedTotalsAreTheRows(totals: seq<Total>, es: seq<Entry>, config: Config, apps: seq<Application>, currency: string)
    requires ExactTotals(totals, es, config)
    ensures CountedSum(totals, apps, currency) == RecognizableSum(es, apps, currency)
  {
    hide HasOneApplication, MinorUnits;
    OrderedAreDistinct(totals);
    CountedIdsAre(totals, apps, currency);
    forall t | t in totals ensures t.amount.coefficient == Sum(es, t.identifier, t.currency) {
      assert ExactTotal(t, es, config);
    }
    CountedSumIsSumOver(totals, es, apps, currency);
    var ids := CountedIds(totals, apps, currency);
    GroupingKeepsTheSum(EntryItems(es, currency), ids);
    forall e | e in es && e.currency == currency ensures e.identifier in ids <==> HasOneApplication(apps, e.identifier) {
      assert HasTotal(totals, e.identifier, e.currency);
      var t :| t in totals && t.identifier == e.identifier && t.currency == e.currency;
      assert Counts(apps, t, currency) <==> HasOneApplication(apps, e.identifier);
      assert e.identifier in ids <==> IsCounted(totals, apps, currency, e.identifier);
    }
    EntryItemsWeighIn(es, apps, currency, ids);
  }

  // ------------------------------------------------------------ stored rows

  /** Which application a total counts for, in one currency. */
  function MatchOf(apps: seq<Application>, t: IdentifierTotal, currency: string): Option<string> {
    if t.amount.Exact? && t.currency == currency && |Matching(apps, t.providerApplication)| == 1
    then Some(Matching(apps, t.providerApplication)[0]) else None
  }

  function TotalItems(totals: seq<IdentifierTotal>, apps: seq<Application>, currency: string): seq<Item<string>> {
    if totals == [] then []
    else
      var last := totals[|totals| - 1];
      TotalItems(totals[..|totals| - 1], apps, currency)
      + [(MatchOf(apps, last, currency), if last.amount.Exact? then last.amount.coefficient else 0)]
  }

  lemma BelongsByMatch(apps: seq<Application>, t: IdentifierTotal, application: string, currency: string)
    ensures Belongs(apps, t, application, currency) <==> MatchOf(apps, t, currency) == Some(application)
  {
    hide Matching;
    var found := Matching(apps, t.providerApplication);
    if |found| == 1 {
      assert found == [found[0]];
    }
  }

  lemma {:induction false} TotalItemsWeigh(totals: seq<IdentifierTotal>, apps: seq<Application>, application: string,
                                           currency: string)
    ensures Weigh(TotalItems(totals, apps, currency), application) == MatchedSum(apps, totals, application, currency)
  {
    hide Matching, Belongs, MatchOf;
    if totals != [] {
      var last := totals[|totals| - 1];
      TotalItemsWeigh(totals[..|totals| - 1], apps, application, currency);
      BelongsByMatch(apps, last, application, currency);
      LastItem(TotalItems(totals[..|totals| - 1], apps, currency),
               (MatchOf(apps, last, currency), if last.amount.Exact? then last.amount.coefficient else 0));
      BelongingIsExact(apps, last, application, currency);
    }
  }

  lemma BelongingIsExact(apps: seq<Application>, t: IdentifierTotal, application: string, currency: string)
    ensures Belongs(apps, t, application, currency) ==> t.amount.Exact?
  {
    hide Matching;
  }

  lemma {:induction false} TotalItemsWeighIn(totals: seq<Total>, apps: seq<Application>, currency: string, keys: seq<string>)
    requires forall t | t in totals && Counts(apps, t, currency) :: Matching(apps, t.identifier)[0] in keys
    ensures WeighIn(TotalItems(AsIdentifierTotals(totals), apps, currency), keys) == CountedSum(totals, apps, currency)
  {
    hide Matching;
    if totals != [] {
      var front, last := totals[..|totals| - 1], totals[|totals| - 1];
      assert last in totals;
      TotalItemsWeighIn(front, apps, currency, keys);
      var all := AsIdentifierTotals(totals);
      assert all[..|all| - 1] == AsIdentifierTotals(front);
      var item := (MatchOf(apps, all[|all| - 1], currency), last.amount.coefficient);
      LastItem(TotalItems(AsIdentifierTotals(front), apps, currency), item);
    }
  }

  /** The rows of an import as they are read back: each stored row once, in any order. */
  ghost predicate ListsStored(rows: seq<Amount>, stored: Rows) {
    NoDuplicates(rows) && forall a :: a in rows <==> a in stored.Values
  }

  function ApplicationsOf(rows: seq<Amount>): (ids: seq<string>)
    ensures |ids| == |rows| && forall i | 0 <= i < |ids| :: ids[i] == rows[i].application
  {
    seq(|rows|, i requires 0 <= i < |rows| => rows[i].application)
  }

  lemma {:induction false} CurrencyRowsDiffer(rows: seq<Amount>, currency: string)
    requires NoDuplicates(rows)
    ensures NoDuplicates(CurrencyRows(rows, currency))
  {
    if rows != [] {
      var front, last := rows[..|rows| - 1], rows[|rows| - 1];
      forall i, j | 0 <= i < j < |front| ensures front[i] != front[j] {
        assert rows[i] != rows[j];
      }
      CurrencyRowsDiffer(front, currency);
      CurrencyRowsAre(front, currency);
      forall a | a in front ensures a != last {
        var i :| 0 <= i < |front| && front[i] == a;
        assert rows[i] != rows[|rows| - 1];
      }
    }
  }

  lemma {:induction false} RowsSumOverTotals(rows: seq<Amount>, apps: seq<Application>, totals: seq<IdentifierTotal>,
                                             currency: string)
    requires forall i | 0 <= i < |rows| ::
               && Revenue.Parses(rows[i])
               && Parsed(rows[i]).coefficient == MatchedSum(apps, totals, rows[i].application, currency)
    ensures AllParse(rows)
    ensures CoefficientSum(rows) == SumOver(TotalItems(totals, apps, currency), ApplicationsOf(rows))
  {
    hide ParseDecimal;
    if rows != [] {
      var front, last := rows[..|rows| - 1], rows[|rows| - 1];
      RowsSumOverTotals(front, apps, totals, currency);
      TotalItemsWeigh(totals, apps, last.application, currency);
      var ids := ApplicationsOf(rows);
      assert ids[..|ids| - 1] == ApplicationsOf(front);
    }
  }

  // ---------------------------------------------------------- the whole path

  lemma StoredRowParses(a: Amount, apps: seq<Application>, totals: seq<IdentifierTotal>)
    requires ExactRow(a, apps, totals) && Revenue.Parses(a)
    ensures Parsed(a) == Exact(MatchedSum(apps, totals, a.application, a.currency), a.scale)
  {
    hide ParseDecimal, Printed, MinorUnitsMatch, ScaleOfSome;
    PrintedParses(Exact(MatchedSum(apps, totals, a.application, a.currency), a.scale));
  }

  /** The stored rows of one currency have different applications. */
  lemma ApplicationsDiffer(rows: seq<Amount>, stored: Rows, apps: seq<Application>, totals: seq<IdentifierTotal>,
                           currency: string)
    requires ListsStored(rows, stored) && ExactRows(stored, apps, totals)
    ensures NoDuplicates(ApplicationsOf(CurrencyRows(rows, currency)))
  {
    hide ExactRow, Matching, Key, ValidTotal, Belongs;
    var some := CurrencyRows(rows, currency);
    CurrencyRowsAre(rows, currency);
    CurrencyRowsDiffer(rows, currency);
    forall i, j | 0 <= i < j < |some| ensures some[i].application != some[j].application {
      assert some[i] in rows && some[j] in rows;
      var k :| k in stored && stored[k] == some[i];
      var l :| l in stored && stored[l] == some[j];
      assert some[i] != some[j];
    }
  }

  /** Each counted total's application has a stored row in the currency. */
  lemma CountedAreStored(rows: seq<Amount>, stored: Rows, apps: seq<Application>, totals: seq<Total>, currency: string, t: Total)
    requires ListsStored(rows, stored) && ExactRows(stored, apps, AsIdentifierTotals(totals))
    requires t in totals && Counts(apps, t, currency)
    ensures Matching(apps, t.identifier)[0] in ApplicationsOf(CurrencyRows(rows, currency))
    ensures HasCurrency(rows, currency)
  {
    hide ExactRow, Matching, Printed, MinorUnitsMatch;
    var application := Matching(apps, t.identifier)[0];
    assert Matching(apps, t.identifier) == [application];
    var i :| 0 <= i < |totals| && totals[i] == t;
    var total := AsIdentifierTotals(totals)[i];
    assert total in AsIdentifierTotals(totals) && Belongs(apps, total, application, total.currency);
    var k := Key(application, currency);
    assert k in stored;
    var a := stored[k];
    StoredAt(stored, apps, AsIdentifierTotals(totals), application, currency, total);
    assert a in rows;
    CurrencyRowsAre(rows, currency);
    var some := CurrencyRows(rows, currency);
    var j :| 0 <= j < |some| && some[j] == a;
    assert ApplicationsOf(some)[j] == application;
  }

  lemma StoredAt(stored: Rows, apps: seq<Application>, totals: seq<IdentifierTotal>, application: string, currency: string,
                 total: IdentifierTotal)
    requires ExactRows(stored, apps, totals) && total in totals && total.currency == currency
    requires Key(application, currency) in stored
    ensures stored[Key(application, currency)].application == application
    ensures stored[Key(application, currency)].currency == currency
  {
    hide Key, Printed, MinorUnitsMatch, Matching, ScaleOfSome;
    var a := stored[Key(application, currency)];
    KeyIsInjective(application, currency, a.application, a.currency);
  }

  /** What one currency's rows add up to. */
  lemma StoredCurrencySum(rows: seq<Amount>, stored: Rows, apps: seq<Application>, totals: seq<Total>, currency: string)
    requires ListsStored(rows, stored) && ExactRows(stored, apps, AsIdentifierTotals(totals))
    requires AllParse(CurrencyRows(rows, currency))
    ensures CoefficientSum(CurrencyRows(rows, currency)) == CountedSum(totals, apps, currency)
  {
    hide ExactRow, Matching, ParseDecimal, Key, ValidTotal, Belongs;
    var some := CurrencyRows(rows, currency);
    var its := AsIdentifierTotals(totals);
    CurrencyRowsAre(rows, currency);
    forall i | 0 <= i < |some|
      ensures Revenue.Parses(some[i]) && Parsed(some[i]).coefficient == MatchedSum(apps, its, some[i].application, currency)
    {
      assert some[i] in rows && some[i] in some;
      var k :| k in stored && stored[k] == some[i];
      StoredRowParses(some[i], apps, its);
    }
    RowsSumOverTotals(some, apps, its, currency);
    ApplicationsDiffer(rows, stored, apps, its, currency);
    GroupingKeepsTheSum(TotalItems(its, apps, currency), ApplicationsOf(some));
    forall t | t in totals && Counts(apps, t, currency) ensures Matching(apps, t.identifier)[0] in ApplicationsOf(some) {
      CountedAreStored(rows, stored, apps, totals, currency, t);
    }
    TotalItemsWeighIn(totals, apps, currency, ApplicationsOf(some));
  }

  /** Some row in the currency has an identifier with exactly one application. */
  ghost predicate Recognizable(es: seq<Entry>, apps: seq<Application>, currency: string) {
    exists e | e in es :: e.currency == currency && HasOneApplication(apps, e.identifier)
  }

  ghost predicate CommonScale(es: seq<Entry>, currency: string, scale: nat) {
    forall e | e in es && e.currency == currency :: e.amount.scale == scale
  }

  /** A stored row comes from recognizable rows of the file and has their scale. */
  lemma StoredRowIsOfTheFile(a: Amount, apps: seq<Application>, totals: seq<Total>, es: seq<Entry>, config: Config)
    requires ExactRow(a, apps, AsIdentifierTotals(totals)) && ExactTotals(totals, es, config)
    ensures Recognizable(es, apps, a.currency) && CommonScale(es, a.currency, a.scale)
  {
    hide Matching, Printed, MinorUnitsMatch, MinorUnits, Ordered, ValidCurrency;
    var its := AsIdentifierTotals(totals);
    var it :| it in its && Belongs(apps, it, a.application, a.currency) && it.amount.scale == a.scale;
    var i :| 0 <= i < |its| && its[i] == it;
    assert totals[i] in totals && ExactTotal(totals[i], es, config);
    var e :| e in es && e.identifier == totals[i].identifier && e.currency == totals[i].currency;
    assert HasOneApplication(apps, e.identifier);
  }

  /** Every recognizable row's currency has a stored row. */
  lemma RecognizableIsStored(rows: seq<Amount>, stored: Rows, apps: seq<Application>, totals: seq<Total>, es: seq<Entry>,
                             config: Config, currency: string)
    requires ListsStored(rows, stored) && ExactRows(stored, apps, AsIdentifierTotals(totals))
    requires ExactTotals(totals, es, config) && Recognizable(es, apps, currency)
    ensures HasCurrency(rows, currency)
  {
    hide Matching, ExactRows, ListsStored, Ordered, MinorUnits;
    var e :| e in es && e.currency == currency && HasOneApplication(apps, e.identifier);
    assert HasTotal(totals, e.identifier, e.currency);
    var t :| t in totals && t.identifier == e.identifier && t.currency == currency;
    CountedAreStored(rows, stored, apps, totals, currency, t);
  }

  lemma StoredRowsAreMarked(rows: seq<Amount>, stored: Rows, apps: seq<Application>, totals: seq<IdentifierTotal>,
                            currency: string)
    requires ListsStored(rows, stored) && ExactRows(stored, apps, totals)
    ensures Marked(CurrencyRows(rows, currency))
    ensures forall a | a in CurrencyRows(rows, currency) :: ExactRow(a, apps, totals) && a.currency == currency
  {
    hide Matching, Printed, MinorUnitsMatch, MinorUnits, ScaleOfSome, Key, ValidTotal, Belongs;
    CurrencyRowsAre(rows, currency);
    forall a | a in CurrencyRows(rows, currency) ensures ExactRow(a, apps, totals) && a.commission == INCLUDED {
      assert a in rows;
      var k :| k in stored && stored[k] == a;
    }
  }

  lemma RowsOfOneFileAreAddable(rows: seq<Amount>, stored: Rows, apps: seq<Application>, totals: seq<Total>, es: seq<Entry>,
                                config: Config, currency: string)
    requires ListsStored(rows, stored) && ExactRows(stored, apps, AsIdentifierTotals(totals))
    requires ExactTotals(totals, es, config) && AllParse(CurrencyRows(rows, currency))
    ensures Addable(CurrencyRows(rows, currency))
  {
    hide ListsStored, ExactRows, ExactTotals, CurrencyRows, ParseDecimal, Matching, MatchedSum, Printed, MinorUnitsMatch,
         HasOneApplication, MatchedMinor, PartialMinorsFit, ScaleOfSome;
    var some, its := CurrencyRows(rows, currency), AsIdentifierTotals(totals);
    StoredRowsAreMarked(rows, stored, apps, its, currency);
    forall i | 0 <= i < |some|
      ensures Parsed(some[i]).scale == Parsed(some[0]).scale
              && some[i].commission == some[0].commission && some[i].tax == some[0].tax
    {
      assert some[i] in some && some[0] in some;
      StoredRowParses(some[i], apps, its);
      StoredRowParses(some[0], apps, its);
      StoredRowIsOfTheFile(some[i], apps, totals, es, config);
      StoredRowIsOfTheFile(some[0], apps, totals, es, config);
    }
  }

  /** The rows stored for one file add up in every currency exactly when each reads back
      as a decimal; their scales and states never disagree. */
  lemma StoredFileSums(rows: seq<Amount>, stored: Rows, apps: seq<Application>, totals: seq<Total>, es: seq<Entry>,
                       config: Config)
    requires ListsStored(rows, stored) && ExactRows(stored, apps, AsIdentifierTotals(totals))
    requires ExactTotals(totals, es, config)
    ensures AllSummable(rows) <==> AllParse(rows)
  {
    hide ListsStored, ExactRows, ExactTotals, CurrencyRows, Revenue.Parses, Marked, Counted, Addable;
    if AllParse(rows) {
      forall currency | HasCurrency(rows, currency) ensures CurrencySums(rows, currency) {
        CurrencyRowsAre(rows, currency);
        StoredRowsAreMarked(rows, stored, apps, AsIdentifierTotals(totals), currency);
        MarkedRowsAreCounted(CurrencyRows(rows, currency));
        var some := CurrencyRows(rows, currency);
        forall i | 0 <= i < |some| ensures Revenue.Parses(some[i]) {
          assert some[i] in some;
          var j :| 0 <= j < |rows| && rows[j] == some[i];
        }
        RowsOfOneFileAreAddable(rows, stored, apps, totals, es, config, currency);
      }
    }
    if AllSummable(rows) {
      forall i | 0 <= i < |rows| ensures Revenue.Parses(rows[i]) {
        assert rows[i] in rows;
        CurrencyRowsAre(rows, rows[i].currency);
        assert CurrencySums(rows, rows[i].currency);
        var some := CurrencyRows(rows, rows[i].currency);
        var j :| 0 <= j < |some| && some[j] == rows[i];
      }
    }
  }

  /** A recognized total is the exact sum of the recognizable rows in its currency. */
  ghost predicate WorthItsRows(a: Recognized, es: seq<Entry>, apps: seq<Application>) {
    && Recognizable(es, apps, a.currency)
    && CommonScale(es, a.currency, a.amount.scale)
    && a.amount.coefficient == RecognizableSum(es, apps, a.currency)
  }

  lemma RecognizedIsWorthItsRows(a: Recognized, provider: string, report: AcceptedImport, rows: seq<Amount>, stored: Rows,
                                 apps: seq<Application>, totals: seq<Total>, es: seq<Entry>, config: Config)
    requires ListsStored(rows, stored) && ExactRows(stored, apps, AsIdentifierTotals(totals))
    requires ExactTotals(totals, es, config) && RecognizedFor(a, provider, report, rows)
    ensures WorthItsRows(a, es, apps)
  {
    hide ExactRows, ExactRow, ExactTotals, ListsStored, SumsTo, Marked, Recognizable, CommonScale, RecognizableSum,
         CurrencyRows, CoefficientSum, CountedSum, MinorTotal, Addable, ParseDecimal, MatchedSum, Counted;
    var some := CurrencyRows(rows, a.currency);
    StoredRowsAreMarked(rows, stored, apps, AsIdentifierTotals(totals), a.currency);
    StoredRowsSumInFull(some, CurrencySum(a.amount, a.minorUnits, a.commission, a.tax));
    StoredCurrencySum(rows, stored, apps, totals, a.currency);
    CountedTotalsAreTheRows(totals, es, config, apps, a.currency);
    assert some[0] in some;
    StoredRowParses(some[0], apps, AsIdentifierTotals(totals));
    StoredRowIsOfTheFile(some[0], apps, totals, es, config);
  }

  lemma WorthMeansRecognizable(a: Recognized, es: seq<Entry>, apps: seq<Application>)
    requires WorthItsRows(a, es, apps)
    ensures Recognizable(es, apps, a.currency)
  {
  }

  /** The amount rows of an import as they are read back. */
  ghost predicate ReadBack(t: FI.Tables, id: string, rows: seq<Amount>) {
    id in t.amounts && ListsStored(rows, t.amounts[id])
  }

  /** From the file to the revenue: a report that is accepted, saved and recognized is
      worth, in each currency, exactly the sum of its rows whose identifier belongs to one
      application, and no currency with such a row is missing. */
  lemma FileToRevenue(lines: seq<string>, h: nat, config: Config, r: Result<Report, Failure>, t: FI.Tables,
                      draft: FI.Draft, directory: FI.Directory, id: string, rows: seq<Amount>, amounts: seq<Recognized>,
                      provider: string, report: AcceptedImport)
    requires HeaderAt(lines, h) && AppleReport.Parses(lines, config, r) && r.Ok?
    requires FI.Inv(t) && draft.status == FI.Accepted && draft.totals == AsIdentifierTotals(r.value.totals)
    requires FI.AfterSave(t, draft, directory, id).1 == Ok((id, true))
    requires ReadBack(FI.AfterSave(t, draft, directory, id).0, id, rows)
    requires Recognizes(amounts, provider, report, rows)
    ensures var es, apps := AppleReportTheorems.Rows(lines, h, config), directory(draft.scope.project, draft.scope.provider);
            && (forall i | 0 <= i < |amounts| :: WorthItsRows(amounts[i], es, apps))
            && (forall currency :: currency in Currencies(amounts) <==> Recognizable(es, apps, currency))
  {
    hide AppleReportTheorems.Rows, AppleReport.Parses, InOrder, ExactTotals, SamePeriod, FI.Inv, FI.AfterSave, Resolved,
         ExactRows, ListsStored, RecognizedFor, WorthItsRows, Recognizable, StrictlySorted, HasCurrency, Blank;
    var es, apps := AppleReportTheorems.Rows(lines, h, config), directory(draft.scope.project, draft.scope.provider);
    var totals := r.value.totals;
    AcceptedExactly(lines, h, config, r);
    FinancialRuns.SaveOutcomes(t, draft, directory, id);
    ResolvedIsExact(apps, draft.totals);
    var stored := FI.AfterSave(t, draft, directory, id).0.amounts[id];
    forall i | 0 <= i < |amounts| ensures WorthItsRows(amounts[i], es, apps) {
      RecognizedIsWorthItsRows(amounts[i], provider, report, rows, stored, apps, totals, es, config);
    }
    forall currency ensures currency in Currencies(amounts) <==> Recognizable(es, apps, currency) {
      if Recognizable(es, apps, currency) {
        RecognizableIsStored(rows, stored, apps, totals, es, config, currency);
      }
      if currency in Currencies(amounts) {
        var i :| 0 <= i < |Currencies(amounts)| && Currencies(amounts)[i] == currency;
        WorthMeansRecognizable(amounts[i], es, apps);
      }
    }
  }
}
