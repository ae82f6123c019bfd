/** Recognized revenue: which accepted import speaks for each provider, its exact sums per
    currency, and which production applications it covers. */
module Revenue {
  import opened Text
  import opened Digits
  import opened Decimal
  import opened ReportAmounts

  datatype AcceptedImport = AcceptedImport(
    id: string, provider: string, kind: string, start: int, end: int, createdAt: int)

  datatype Recognized = Recognized(
    provider: string, kind: string, start: int, end: int,
    currency: string, amount: Number, minorUnits: Option<Int64>, commission: string, tax: string)

  datatype ProductionApplication = ProductionApplication(id: string, provider: string)

  function KindForProvider(provider: string): Option<string> {
    if provider == "apple_app_store" then Some("apple_financial_consolidated")
    else if provider == "google_play" then Some("google_play_earnings")
    else if provider == "huawei_appgallery" then Some("huawei_settlement")
    else None
  }

  // -------------------------------------------------------- summing one currency

  /** Stored rows carry a commission state; the sum takes an empty one for "no row yet". */
  predicate Marked(rows: seq<Amount>) {
    forall i | 0 <= i < |rows| :: rows[i].commission != ""
  }

  /** The first row with a commission state, or else the last row. */
  function FirstMarked(rows: seq<Amount>): (f: nat)
    requires rows != []
    ensures f < |rows|
  {
    if |rows| == 1 then 0
    else
      var f := FirstMarked(rows[..|rows| - 1]);
      if rows[f].commission != "" then f else |rows| - 1
  }

  /** The rows the total counts: an empty commission state restarts it. */
  function Counted(rows: seq<Amount>): (counted: seq<Amount>)
    requires rows != []
    ensures counted != []
  {
    rows[FirstMarked(rows)..]
  }

  lemma {:induction false} MarkedRowsAreCounted(rows: seq<Amount>)
    requires rows != [] && Marked(rows)
    ensures Counted(rows) == rows
  {
    if |rows| > 1 {
      MarkedRowsAreCounted(rows[..|rows| - 1]);
      FirstOfWhole(rows[..|rows| - 1]);
    }
  }

  lemma FirstOfWhole(rows: seq<Amount>)
    requires rows != [] && Counted(rows) == rows
    ensures FirstMarked(rows) == 0
  {
    assert |Counted(rows)| == |rows| - FirstMarked(rows);
  }

  lemma CountedStep(rows: seq<Amount>)
    requires |rows| > 1
    ensures var front, last := rows[..|rows| - 1], rows[|rows| - 1];
            && Counted(front)[0] == front[FirstMarked(front)]
            && (Counted(front)[0].commission == "" ==> Counted(rows) == [last] && Counted(front) == [front[|front| - 1]])
            && (Counted(front)[0].commission != "" ==> Counted(rows) == Counted(front) + [last])
  {
    var front := rows[..|rows| - 1];
    if front[FirstMarked(front)].commission == "" {
      UnmarkedIsLast(front);
    }
  }

  lemma UnmarkedIsLast(rows: seq<Amount>)
    requires rows != [] && rows[FirstMarked(rows)].commission == ""
    ensures FirstMarked(rows) == |rows| - 1
  {
  }

  predicate Parses(row: Amount) {
    ParseDecimal(row.amountDecimal).Ok?
  }

  function Parsed(row: Amount): Number
    requires Parses(row)
  {
    ParseDecimal(row.amountDecimal).value
  }

  /** Rows that can be added: they read, share a scale and carry the same states. */
  ghost predicate Addable(rows: seq<Amount>) {
    forall i | 0 <= i < |rows| ::
      && Parses(rows[i])
      && Parses(rows[0]) && Parsed(rows[i]).scale == Parsed(rows[0]).scale
      && rows[i].commission == rows[0].commission && rows[i].tax == rows[0].tax
  }

  predicate AllParse(rows: seq<Amount>) {
    forall i | 0 <= i < |rows| :: Parses(rows[i])
  }

  /** Every row reads, and the counted ones can be added. */
  ghost predicate Summable(rows: seq<Amount>)
    requires rows != []
  {
    AllParse(rows) && Addable(Counted(rows))
  }

  function CoefficientSum(rows: seq<Amount>): int
    requires forall i | 0 <= i < |rows| :: Parses(rows[i])
  {
    if rows == [] then 0 else CoefficientSum(rows[..|rows| - 1]) + Parsed(rows[|rows| - 1]).coefficient
  }

  function MinorSum(rows: seq<Amount>): int {
    if rows == [] then 0
    else
      MinorSum(rows[..|rows| - 1])
      + if rows[|rows| - 1].minorUnits.Some? then rows[|rows| - 1].minorUnits.value else 0
  }

  ghost predicate MinorUnitsComplete(rows: seq<Amount>) {
    forall i | 0 <= i < |rows| :: rows[i].minorUnits.Some?
  }

  /** No partial sum leaves the 64-bit range. */
  ghost predicate PartialSumsFit(rows: seq<Amount>) {
    forall k | 0 < k <= |rows| :: IsInt64(MinorSum(rows[..k]))
  }

  ghost predicate MinorTotal(rows: seq<Amount>, minor: Option<Int64>) {
    && (minor.Some? <==> MinorUnitsComplete(rows) && PartialSumsFit(rows))
    && (minor.Some? ==> minor.value == MinorSum(rows))
  }

  lemma AddableStep(rows: seq<Amount>)
    requires |rows| > 1
    ensures var front, last := rows[..|rows| - 1], rows[|rows| - 1];
            Addable(rows) <==>
              Addable(front) && Parses(last) && Parsed(last).scale == Parsed(rows[0]).scale
              && last.commission == rows[0].commission && last.tax == rows[0].tax
  {
    hide ParseDecimal;
    var front := rows[..|rows| - 1];
    if Addable(rows) {
      forall i | 0 <= i < |front|
        ensures Parses(front[i]) && Parses(front[0]) && Parsed(front[i]).scale == Parsed(front[0]).scale
                && front[i].commission == front[0].commission && front[i].tax == front[0].tax
      {
        assert front[i] == rows[i];
      }
    }
    if Addable(front) {
      assert Parses(front[0]);
      forall i | 0 <= i < |front|
        ensures Parses(rows[i]) && Parsed(rows[i]).scale == Parsed(rows[0]).scale
                && rows[i].commission == rows[0].commission && rows[i].tax == rows[0].tax
      {
        assert front[i] == rows[i];
      }
    }
  }

  lemma MinorStep(rows: seq<Amount>)
    requires rows != []
    ensures var front, last := rows[..|rows| - 1], rows[|rows| - 1];
            && (MinorUnitsComplete(rows) <==> MinorUnitsComplete(front) && last.minorUnits.Some?)
            && (PartialSumsFit(rows) <==> PartialSumsFit(front) && IsInt64(MinorSum(rows)))
  {
    var front := rows[..|rows| - 1];
    assert forall i | 0 <= i < |front| :: front[i] == rows[i];
    assert rows[..|rows|] == rows;
    forall k | 0 < k <= |front| ensures front[..k] == rows[..k] {
    }
    if PartialSumsFit(rows) {
      forall k | 0 < k <= |front| ensures IsInt64(MinorSum(front[..k])) {
        assert IsInt64(MinorSum(rows[..k]));
      }
    }
    if PartialSumsFit(front) && IsInt64(MinorSum(rows)) {
      forall k | 0 < k <= |rows| ensures IsInt64(MinorSum(rows[..k])) {
        if k < |rows| {
          assert IsInt64(MinorSum(front[..k]));
        }
      }
    }
  }

  datatype CurrencySum = CurrencySum(total: Number, minorUnits: Option<Int64>, commission: string, tax: string)

  ghost predicate SumsTo(rows: seq<Amount>, sum: CurrencySum)
    requires rows != []
  {
    var counted := Counted(rows);
    && Summable(rows)
    && Parses(counted[0])
    && sum.total == Exact(CoefficientSum(counted), Parsed(counted[0]).scale)
    && MinorTotal(rows, sum.minorUnits)
    && sum.commission == counted[0].commission && sum.tax == counted[0].tax
  }

  predicate SameStates(a: Amount, b: Amount) {
    a.commission == b.commission && a.tax == b.tax
  }

  /** One more row: it restarts an unmarked total, and must fit a marked one. */
  lemma SummableStep(rows: seq<Amount>)
    requires |rows| > 1
    ensures var front, last := rows[..|rows| - 1], rows[|rows| - 1];
            var first := Counted(front)[0];
            Summable(rows) <==>
              && Summable(front) && Parses(last)
              && (first.commission == "" || (SameStates(first, last) && Parsed(first).scale == Parsed(last).scale))
  {
    hide ParseDecimal, FirstMarked, Parses, Parsed;
    var front, last := rows[..|rows| - 1], rows[|rows| - 1];
    CountedStep(rows);
    AllParseStep(rows);
    if Counted(front)[0].commission == "" {
      OneRowIsAddable(last);
      OneRowIsAddable(front[|front| - 1]);
      assert AllParse(front) ==> Parses(front[|front| - 1]);
    } else {
      var counted := Counted(rows);
      assert counted[..|counted| - 1] == Counted(front) && counted[|counted| - 1] == last;
      AddableStep(counted);
    }
  }

  lemma AllParseStep(rows: seq<Amount>)
    requires rows != []
    ensures AllParse(rows) <==> AllParse(rows[..|rows| - 1]) && Parses(rows[|rows| - 1])
  {
    hide Parses;
    var front := rows[..|rows| - 1];
    assert forall i | 0 <= i < |front| :: front[i] == rows[i];
  }

  lemma OneRowIsAddable(row: Amount)
    ensures Addable([row]) <==> Parses(row)
  {
    hide Parses, Parsed;
    assert [row][0] == row;
  }

  lemma {:induction false} SummablePrefix(rows: seq<Amount>, n: nat)
    requires 0 < n <= |rows| && Summable(rows)
    ensures Summable(rows[..n])
    decreases |rows|
  {
    hide Summable, Counted, Parses, Parsed;
    if n == |rows| {
      assert rows[..n] == rows;
    } else {
      SummableStep(rows);
      assert rows[..|rows| - 1][..n] == rows[..n];
      SummablePrefix(rows[..|rows| - 1], n);
    }
  }

  /** Adds the rows of one currency. */
  method SumCurrency(rows: seq<Amount>) returns (r: Option<CurrencySum>)
    requires rows != []
    ensures r.Some? <==> Summable(rows)
    ensures r.Some? ==> SumsTo(rows, r.value)
  {
    hide ParseDecimal, MinorUnitsComplete, PartialSumsFit, IsInt64, Summable, Counted;
    var total: Number := Exact(0, 0);
    var minorValid := true;
    var running: Int64 := 0;
    var commission, tax := "", "";
    for index := 0 to |rows|
      invariant index == 0 ==> commission == "" && minorValid
      invariant index > 0 ==> Summable(rows[..index]) && Totals(rows[..index], total, commission, tax)
      invariant index > 0 ==> (minorValid <==> MinorUnitsComplete(rows[..index]) && PartialSumsFit(rows[..index]))
      invariant index > 0 && minorValid ==> running == MinorSum(rows[..index])
    {
      var row := rows[index];
      ghost var upTo := rows[..index + 1];
      assert upTo[..index] == rows[..index] && upTo[index] == row;
      MinorStep(upTo);
      TotalsStep(upTo, total, commission, tax);
      if Summable(rows) {
        SummablePrefix(rows, index + 1);
      }
      var parsed := ParseDecimal(row.amountDecimal);
      if parsed.Err? {
        return None;
      }
      if commission == "" {
        commission, tax, total := row.commission, row.tax, parsed.value;
      } else if commission != row.commission || tax != row.tax {
        return None;
      } else {
        var summed := Add(total, parsed.value);
        if summed.Err? {
          return None;
        }
        total := summed.value;
      }
      if row.minorUnits.None? {
        minorValid := false;
        continue;
      }
      if !minorValid {
        continue;
      }
      if index == 0 {
        FirstMinor(upTo);
        running := row.minorUnits.value;
        continue;
      }
      var next := AddInt64(running, row.minorUnits.value);
      if next.None? {
        minorValid := false;
        continue;
      }
      running := next.value;
    }
    assert rows[..|rows|] == rows;
    r := Some(CurrencySum(total, if minorValid then Some(running) else None, commission, tax));
    TotalsSum(rows, r.value);
  }

  /** The running total and states after some rows. */
  ghost predicate Totals(rows: seq<Amount>, total: Number, commission: string, tax: string)
    requires rows != []
  {
    var counted := Counted(rows);
    && AllParse(counted)
    && total == Exact(CoefficientSum(counted), Parsed(counted[0]).scale)
    && commission == counted[0].commission && tax == counted[0].tax
  }

  lemma TotalsSum(rows: seq<Amount>, sum: CurrencySum)
    requires rows != [] && Summable(rows) && Totals(rows, sum.total, sum.commission, sum.tax)
    requires MinorTotal(rows, sum.minorUnits)
    ensures SumsTo(rows, sum)
  {
    hide ParseDecimal, MinorTotal;
  }

  /** What one more row does to the running total. */
  lemma TotalsStep(rows: seq<Amount>, total: Number, commission: string, tax: string)
    requires rows != []
    requires |rows| > 1 ==>
               Summable(rows[..|rows| - 1]) && Totals(rows[..|rows| - 1], total, commission, tax)
    requires |rows| == 1 ==> commission == ""
    ensures var last := rows[|rows| - 1];
            Summable(rows) <==>
              Parses(last) && (commission == ""
                               || (commission == last.commission && tax == last.tax && total.scale == Parsed(last).scale))
    ensures var last := rows[|rows| - 1];
            Summable(rows) ==>
              if commission == "" then Totals(rows, Parsed(last), last.commission, last.tax)
              else Totals(rows, Exact(total.coefficient + Parsed(last).coefficient, total.scale), commission, tax)
  {
    hide ParseDecimal, FirstMarked, Parses, Parsed;
    var last := rows[|rows| - 1];
    OneRowIsAddable(last);
    OneRowSums(last);
    if |rows| == 1 {
      assert Counted(rows) == [last] && rows == [last];
    } else {
      var front := rows[..|rows| - 1];
      CountedStep(rows);
      SummableStep(rows);
      AllParseStep(rows);
      if commission != "" {
        var counted := Counted(rows);
        assert counted[..|counted| - 1] == Counted(front) && counted[|counted| - 1] == last;
        AllParseStep(counted);
      }
    }
  }

  lemma OneRowSums(row: Amount)
    ensures Parses(row) ==> AllParse([row]) && CoefficientSum([row]) == Parsed(row).coefficient
  {
    hide ParseDecimal;
    assert [row][..0] == [] && [row][0] == row;
  }

  lemma FirstMinor(rows: seq<Amount>)
    requires |rows| == 1
    ensures MinorUnitsComplete(rows) && PartialSumsFit(rows) <==> rows[0].minorUnits.Some?
    ensures rows[0].minorUnits.Some? ==> MinorSum(rows) == rows[0].minorUnits.value
  {
    assert rows[..0] == [] && rows[..1] == rows;
    assert MinorSum(rows) == if rows[0].minorUnits.Some? then rows[0].minorUnits.value else 0;
    forall n | 0 < n <= |rows| ensures IsInt64(MinorSum(rows[..n])) {
      assert rows[..n] == rows;
    }
  }

  /** For rows that all carry a commission state, as the writer stores them, the total is
      the exact sum of all of them. */
  lemma StoredRowsSumInFull(rows: seq<Amount>, sum: CurrencySum)
    requires rows != [] && Marked(rows) && SumsTo(rows, sum)
    ensures Addable(rows) && AllParse(rows)
    ensures sum.total == Exact(CoefficientSum(rows), Parsed(rows[0]).scale)
    ensures MinorTotal(rows, sum.minorUnits)
    ensures sum.commission == rows[0].commission && sum.tax == rows[0].tax
  {
    hide ParseDecimal, MinorTotal;
    MarkedRowsAreCounted(rows);
  }

  /** The coefficient is the minor units with `k` more digits. */
  predicate ScaledBy(coefficient: int, minor: int, k: nat) {
    coefficient == minor * Pow10(k)
  }

  /** The row's coefficient is its minor units with `k` more digits. */
  predicate ScaledRow(row: Amount, k: nat) {
    && Parses(row) && row.minorUnits.Some?
    && ScaledBy(Parsed(row).coefficient, row.minorUnits.value, k)
  }

  lemma {:induction false} ScaledSums(rows: seq<Amount>, k: nat)
    requires forall i | 0 <= i < |rows| :: ScaledRow(rows[i], k)
    ensures AllParse(rows) && ScaledBy(CoefficientSum(rows), MinorSum(rows), k)
  {
    hide ParseDecimal, Pow10;
    if rows != [] {
      ScaledSums(rows[..|rows| - 1], k);
      Distribute(MinorSum(rows[..|rows| - 1]), rows[|rows| - 1].minorUnits.value, Pow10(k));
    }
  }

  /** The row's minor units are those of its decimal at the exponent. */
  predicate MatchesAt(row: Amount, exponent: nat) {
    && Parses(row) && row.minorUnits.Some?
    && MinorUnits(Parsed(row), exponent) == Ok(Some(row.minorUnits.value))
  }

  lemma MatchingRowIsScaled(row: Amount, exponent: nat)
    requires MatchesAt(row, exponent)
    ensures Parsed(row).scale >= exponent && ScaledRow(row, Parsed(row).scale - exponent)
  {
    hide ParseDecimal, Pow10, MinorUnits;
    MinorUnitsAreExact(Parsed(row), exponent, row.minorUnits.value);
  }

  lemma ScaledTotalMatches(total: Number, exponent: nat, minor: Int64)
    requires total.scale >= exponent && ScaledBy(total.coefficient, minor, total.scale - exponent)
    ensures MinorUnits(total, exponent) == Ok(Some(minor))
  {
    hide Pow10, MinorUnits;
    MinorUnitsAreExact(total, exponent, minor);
  }

  /** If at one exponent each row's minor units are those of its decimal, the reported
      minor units are those of the reported total at that exponent. */
  lemma CommonExponentCarriesOver(rows: seq<Amount>, sum: CurrencySum, exponent: nat)
    requires rows != [] && Marked(rows) && SumsTo(rows, sum) && sum.minorUnits.Some?
    requires forall i | 0 <= i < |rows| :: MatchesAt(rows[i], exponent)
    ensures MinorUnits(sum.total, exponent) == Ok(Some(sum.minorUnits.value))
  {
    StoredRowsSumInFull(rows, sum);
    hide ParseDecimal, Pow10, MinorUnits, MinorUnitsComplete, PartialSumsFit, Counted, SumsTo, ScaledRow, ScaledBy, MatchesAt;
    MatchingRowIsScaled(rows[0], exponent);
    var k := Parsed(rows[0]).scale - exponent;
    forall i | 0 <= i < |rows| ensures ScaledRow(rows[i], k) {
      MatchingRowIsScaled(rows[i], exponent);
    }
    ScaledSums(rows, k);
    ScaledTotalMatches(sum.total, exponent, sum.minorUnits.value);
  }

  lemma Distribute(a: int, b: int, p: int)
    ensures (a + b) * p == a * p + b * p
  {
  }

  // ------------------------------------------------------- summing a report

  function CurrencyRows(rows: seq<Amount>, currency: string): seq<Amount> {
    if rows == [] then []
    else
      var last := rows[|rows| - 1];
      CurrencyRows(rows[..|rows| - 1], currency) + if last.currency == currency then [last] else []
  }

  ghost predicate HasCurrency(rows: seq<Amount>, currency: string) {
    exists row | row in rows :: row.currency == currency
  }

  lemma {:induction false} CurrencyRowsAre(rows: seq<Amount>, currency: string)
    ensures forall row :: row in CurrencyRows(rows, currency) <==> row in rows && row.currency == currency
    ensures CurrencyRows(rows, currency) != [] <==> HasCurrency(rows, currency)
  {
    if rows != [] {
      var front, last := rows[..|rows| - 1], rows[|rows| - 1];
      CurrencyRowsAre(front, currency);
      assert rows == front + [last];
      if CurrencyRows(rows, currency) != [] {
        assert CurrencyRows(rows, currency)[0] in rows;
      }
    }
  }

  ghost predicate RecognizedFor(a: Recognized, provider: string, report: AcceptedImport, rows: seq<Amount>) {
    && a.provider == provider && a.kind == report.kind && a.start == report.start && a.end == report.end
    && CurrencyRows(rows, a.currency) != []
    && SumsTo(CurrencyRows(rows, a.currency), CurrencySum(a.amount, a.minorUnits, a.commission, a.tax))
  }

  function Currencies(amounts: seq<Recognized>): seq<string> {
    seq(|amounts|, i requires 0 <= i < |amounts| => amounts[i].currency)
  }

  ghost predicate AllSummable(rows: seq<Amount>) {
    forall currency | HasCurrency(rows, currency) :: CurrencySums(rows, currency)
  }

  ghost predicate CurrencySums(rows: seq<Amount>, currency: string) {
    CurrencyRows(rows, currency) != [] && Summable(CurrencyRows(rows, currency))
  }

  /** One total per currency of the rows, in currency order. */
  ghost predicate Recognizes(amounts: seq<Recognized>, provider: string, report: AcceptedImport, rows: seq<Amount>) {
    && StrictlySorted(Currencies(amounts))
    && (forall currency :: currency in Currencies(amounts) <==> HasCurrency(rows, currency))
    && (forall i | 0 <= i < |amounts| :: RecognizedFor(amounts[i], provider, report, rows))
  }

  /** Groups the rows by currency. */
  method GroupByCurrency(rows: seq<Amount>) returns (grouped: map<string, seq<Amount>>)
    ensures forall c :: c in grouped <==> HasCurrency(rows, c)
    ensures forall c | c in grouped :: grouped[c] == CurrencyRows(rows, c)
  {
    grouped := map[];
    for i := 0 to |rows|
      invariant forall c :: c in grouped <==> CurrencyRows(rows[..i], c) != []
      invariant forall c | c in grouped :: grouped[c] == CurrencyRows(rows[..i], c)
    {
      var row := rows[i];
      assert rows[..i + 1][..i] == rows[..i];
      var group := if row.currency in grouped then grouped[row.currency] else [];
      grouped := grouped[row.currency := group + [row]];
    }
    assert rows[..|rows|] == rows;
    forall c ensures c in grouped <==> HasCurrency(rows, c) {
      CurrencyRowsAre(rows, c);
    }
  }

  /** The keys of a map in any order, each once. */
  method Keys<T>(m: map<string, T>) returns (keys: seq<string>)
    ensures NoDuplicates(keys) && forall k :: k in keys <==> k in m
  {
    keys := [];
    var left := m.Keys;
    while left != {}
      invariant left <= m.Keys && NoDuplicates(keys)
      invariant forall k :: k in keys <==> k in m.Keys - left
    {
      var k :| k in left;
      assert k !in keys;
      keys := keys + [k];
      left := left - {k};
    }
  }

  function RecognizedOf(provider: string, report: AcceptedImport, currency: string, s: CurrencySum): (a: Recognized)
    ensures a.currency == currency
  {
    Recognized(provider, report.kind, report.start, report.end, currency, s.total, s.minorUnits, s.commission, s.tax)
  }

  lemma IsRecognizedFor(provider: string, report: AcceptedImport, rows: seq<Amount>, currency: string, s: CurrencySum)
    requires CurrencyRows(rows, currency) != [] && SumsTo(CurrencyRows(rows, currency), s)
    ensures RecognizedFor(RecognizedOf(provider, report, currency, s), provider, report, rows)
  {
    hide SumsTo, CurrencyRows;
  }

  /** Totals one provider's covered applications, without converting currency. */
  method SumRecognizedAmounts(provider: string, report: AcceptedImport, rows: seq<Amount>)
    returns (r: Option<seq<Recognized>>)
    ensures r.Some? <==> AllSummable(rows)
    ensures r.Some? ==> Recognizes(r.value, provider, report, rows)
  {
    hide Summable, SumsTo, CurrencyRows, HasCurrency, RecognizedFor;
    var grouped := GroupByCurrency(rows);
    var currencies := Keys(grouped);
    SortSorts(currencies);
    currencies := Sort(currencies);
    var amounts: seq<Recognized> := [];
    for i := 0 to |currencies|
      invariant |amounts| == i && Currencies(amounts) == currencies[..i]
      invariant forall j | 0 <= j < i :: CurrencySums(rows, currencies[j])
      invariant forall j | 0 <= j < i :: RecognizedFor(amounts[j], provider, report, rows)
    {
      var currency := currencies[i];
      assert currency in currencies;
      CurrencyRowsAre(rows, currency);
      var sum := SumCurrency(grouped[currency]);
      if sum.None? {
        return None;
      }
      var amount := RecognizedOf(provider, report, currency, sum.value);
      IsRecognizedFor(provider, report, rows, currency, sum.value);
      amounts := amounts + [amount];
    }
    assert currencies[..|currencies|] == currencies;
    forall c | HasCurrency(rows, c) ensures CurrencySums(rows, c) {
      assert c in currencies;
    }
    return Some(amounts);
  }
}
