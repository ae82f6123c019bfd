/** What the Apple consolidated parser guarantees: which files it accepts, that the totals
    are exact, and when the order of the rows matters. */
module AppleReportLaws {
  import opened Text
  import opened Decimal
  import opened AppleReport

  /** One data row as the totals see it. */
  datatype Entry = Entry(start: int, end: int, identifier: string, currency: string, amount: Number)

  /** A line read on its own, apart from the rows before it. */
  function EntryOf(line: string, columns: Columns, width: nat, config: Config): Option<Entry>
    requires HasColumns(columns, width)
  {
    var fields := SplitFields(line);
    if |fields| != width then None
    else
      match Period(fields, columns, 0, config)
      case Err(_) => None
      case Ok((start, end)) =>
        match ReadSale(fields, columns, 0)
        case Err(_) => None
        case Ok(sale) => Some(Entry(start, end, sale.identifier, sale.currency, sale.extended))
  }

  ghost predicate AllRead(body: seq<string>, columns: Columns, width: nat, config: Config)
    requires HasColumns(columns, width)
  {
    forall i | 0 <= i < |body| :: Blank(body[i]) || EntryOf(body[i], columns, width, config).Some?
  }

  /** The data rows among some lines. */
  function Entries(body: seq<string>, columns: Columns, width: nat, config: Config): seq<Entry>
    requires HasColumns(columns, width)
  {
    if body == [] then []
    else
      var front := Entries(body[..|body| - 1], columns, width, config);
      var line := body[|body| - 1];
      if Blank(line) then front
      else
        match EntryOf(line, columns, width, config)
        case None => front
        case Some(e) => front + [e]
  }

  predicate SamePeriod(a: Entry, b: Entry) {
    a.start == b.start && a.end == b.end
  }

  /** Once a row has fixed the period, every later row repeats it. A row that starts on
      the zero day does not fix it. */
  ghost predicate PeriodsAgree(es: seq<Entry>) {
    forall i, j | 0 <= i < j < |es| :: es[i].start == ZERO_DAY || SamePeriod(es[i], es[j])
  }

  ghost predicate ScaleFits(es: seq<Entry>, e: Entry) {
    forall a | a in es :: a.currency == e.currency ==> a.amount.scale == e.amount.scale
  }

  ghost predicate ScalesAgree(es: seq<Entry>) {
    forall e | e in es :: ScaleFits(es, e)
  }

  predicate Matches(e: Entry, identifier: string, currency: string) {
    e.identifier == identifier && e.currency == currency
  }

  /** The sum of the extended shares of the rows of one identifier and currency. */
  function Sum(es: seq<Entry>, identifier: string, currency: string): int {
    if es == [] then 0
    else
      Sum(es[..|es| - 1], identifier, currency)
      + if Matches(es[|es| - 1], identifier, currency) then es[|es| - 1].amount.coefficient else 0
  }

  ghost predicate Has(es: seq<Entry>, identifier: string, currency: string) {
    exists e | e in es :: Matches(e, identifier, currency)
  }

  /** What the running state says about the rows read so far. */
  ghost predicate Describes(p: Progress, es: seq<Entry>) {
    && p.dataRows == |es|
    && p.start == (if es == [] then ZERO_DAY else es[|es| - 1].start)
    && p.end == (if es == [] then ZERO_DAY else es[|es| - 1].end)
    && ScalesDescribe(p.scales, es) && TotalsDescribe(p.totals, es)
  }

  ghost predicate ScalesDescribe(scales: map<string, nat>, es: seq<Entry>) {
    && (forall e | e in es :: e.currency in scales && scales[e.currency] == e.amount.scale)
    && (forall c | c in scales :: exists e | e in es :: e.currency == c)
  }

  ghost predicate Totalled(a: Accumulator, es: seq<Entry>) {
    && Has(es, a.identifier, a.currency)
    && a.amount.coefficient == Sum(es, a.identifier, a.currency)
    && (forall e | e in es :: e.currency == a.currency ==> e.amount.scale == a.amount.scale)
  }

  ghost predicate TotalsDescribe(totals: map<string, Accumulator>, es: seq<Entry>) {
    && (forall e | e in es :: ValidCurrency(e.currency) && Key(e.identifier, e.currency) in totals)
    && (forall k | k in totals ::
          k == Key(totals[k].identifier, totals[k].currency) && ValidCurrency(totals[k].currency)
          && Totalled(totals[k], es))
  }

  lemma Last<T>(s: seq<T>, x: T)
    ensures (s + [x])[..|s + [x]| - 1] == s && (s + [x])[|s + [x]| - 1] == x
    ensures forall y :: y in s + [x] <==> y in s || y == x
  {
  }

  predicate Records(e: Entry, sale: Sale) {
    e.identifier == sale.identifier && e.currency == sale.currency && e.amount == sale.extended
  }

  lemma ScaleCheck(scales: map<string, nat>, es: seq<Entry>, sale: Sale, e: Entry)
    requires ScalesDescribe(scales, es) && Records(e, sale)
    ensures MixesScales(scales, sale) <==> !ScaleFits(es, e)
  {
    if sale.currency in scales {
      var a :| a in es && a.currency == sale.currency;
    }
  }

  lemma ScalesStep(scales: map<string, nat>, es: seq<Entry>, e: Entry)
    requires ScalesDescribe(scales, es) && ScaleFits(es, e)
    ensures ScalesDescribe(scales[e.currency := e.amount.scale], es + [e])
  {
    Last(es, e);
    var after := scales[e.currency := e.amount.scale];
    forall c | c in after ensures exists x | x in es + [e] :: x.currency == c {
      if c == e.currency {
        assert e in es + [e];
      } else {
        var x :| x in es && x.currency == c;
        assert x in es + [e];
      }
    }
  }

  lemma HasMore(es: seq<Entry>, e: Entry, identifier: string, currency: string)
    ensures Has(es + [e], identifier, currency) <==> Has(es, identifier, currency) || Matches(e, identifier, currency)
  {
    Last(es, e);
    if Has(es, identifier, currency) {
      var x :| x in es && Matches(x, identifier, currency);
      assert x in es + [e];
    }
    if Matches(e, identifier, currency) {
      assert e in es + [e];
    }
  }

  lemma TotalledStep(a: Accumulator, es: seq<Entry>, e: Entry)
    requires Totalled(a, es) && ScaleFits(es, e)
    ensures !Matches(e, a.identifier, a.currency) ==> Totalled(a, es + [e])
    ensures Matches(e, a.identifier, a.currency) ==>
              Totalled(a.(amount := Exact(a.amount.coefficient + e.amount.coefficient, e.amount.scale)), es + [e])
  {
    Last(es, e);
    HasMore(es, e, a.identifier, a.currency);
    var x :| x in es && Matches(x, a.identifier, a.currency);
    forall y | y in es + [e] && y.currency == a.currency ensures y.amount.scale == a.amount.scale {
      if y == e {
        assert x.currency == e.currency;
      }
    }
  }

  lemma {:induction false} NoneSumsToZero(es: seq<Entry>, identifier: string, currency: string)
    requires !Has(es, identifier, currency)
    ensures Sum(es, identifier, currency) == 0
  {
    if es != [] {
      var front, last := es[..|es| - 1], es[|es| - 1];
      assert last in es;
      forall e | e in front ensures !Matches(e, identifier, currency) {
        assert e in es;
      }
      NoneSumsToZero(front, identifier, currency);
    }
  }

  lemma NewTotal(es: seq<Entry>, e: Entry)
    requires !Has(es, e.identifier, e.currency) && ScaleFits(es, e)
    ensures Totalled(Accumulator(e.identifier, e.currency, e.amount), es + [e])
  {
    Last(es, e);
    HasMore(es, e, e.identifier, e.currency);
    NoneSumsToZero(es, e.identifier, e.currency);
  }

  /** Once the currency's scale is checked, adding to the accumulator cannot fail. */
  lemma AccumulatorNeverMixesScales(totals: map<string, Accumulator>, es: seq<Entry>, sale: Sale, e: Entry)
    requires TotalsDescribe(totals, es) && Records(e, sale) && ScaleFits(es, e) && ValidCurrency(sale.currency)
    ensures AddTotal(totals, sale).Some?
  {
    hide ValidCurrency, Key;
    var key := Key(sale.identifier, sale.currency);
    if key in totals {
      var a := totals[key];
      KeyIsInjective(a.identifier, a.currency, sale.identifier, sale.currency);
      var x :| x in es && Matches(x, a.identifier, a.currency);
      assert x.amount.scale == a.amount.scale;
    }
  }

  /** Posting one sale adds it to its own total and leaves the others alone. */
  lemma TotalsStep(totals: map<string, Accumulator>, es: seq<Entry>, sale: Sale, e: Entry)
    requires TotalsDescribe(totals, es) && Records(e, sale) && ScaleFits(es, e) && ValidCurrency(sale.currency)
    requires AddTotal(totals, sale).Some?
    ensures TotalsDescribe(AddTotal(totals, sale).value, es + [e])
  {
    hide ValidCurrency, Key, Totalled, ScaleFits;
    Last(es, e);
    var after := AddTotal(totals, sale).value;
    forall k | k in after
      ensures k == Key(after[k].identifier, after[k].currency) && ValidCurrency(after[k].currency)
              && Totalled(after[k], es + [e])
    {
      TotalStep(totals, es, sale, e, k);
    }
  }

  lemma TotalStep(totals: map<string, Accumulator>, es: seq<Entry>, sale: Sale, e: Entry, k: string)
    requires TotalsDescribe(totals, es) && Records(e, sale) && ScaleFits(es, e) && ValidCurrency(sale.currency)
    requires AddTotal(totals, sale).Some? && k in AddTotal(totals, sale).value
    ensures var a := AddTotal(totals, sale).value[k];
            k == Key(a.identifier, a.currency) && ValidCurrency(a.currency) && Totalled(a, es + [e])
  {
    hide ValidCurrency, Key, Totalled, ScaleFits;
    if k in totals {
      var a := totals[k];
      TotalledStep(a, es, e);
      if Key(sale.identifier, sale.currency) == k {
        KeyIsInjective(a.identifier, a.currency, sale.identifier, sale.currency);
      }
    } else {
      forall x | x in es ensures !Matches(x, e.identifier, e.currency) {
        assert Key(x.identifier, x.currency) in totals;
      }
      NewTotal(es, e);
    }
  }

  // ----------------------------------------------------- which rows are read

  ghost predicate Reads(fields: seq<string>, columns: Columns, name: string, d: Number)
    requires HasColumn(columns, |fields|, name)
  {
    ParseDecimal(Cell(fields, columns, name)) == Ok(d)
  }

  /** A sale does not lose money and a return does not gain any. */
  predicate SignFits(mark: string, extended: Number) {
    (mark == "S" && extended.coefficient >= 0) || (mark == "R" && extended.coefficient <= 0)
  }

  lemma SaleSignMeaning(mark: string, extended: Number, row: nat)
    ensures SaleSign(mark, extended, row).None? <==> SignFits(mark, extended)
  {
  }

  lemma ProductsMatch(quantity: Number, share: Number, extended: Number)
    ensures Compare(Mul(quantity, share), extended) == 0 <==> Value(quantity) * Value(share) == Value(extended)
  {
    hide Compare, Value, Mul;
    MulIsExact(quantity, share);
    CompareIsRational(Mul(quantity, share), extended);
  }

  ghost predicate AmountsFit(fields: seq<string>, columns: Columns, quantity: Number, share: Number, extended: Number)
    requires HasColumns(columns, |fields|)
  {
    && Reads(fields, columns, QUANTITY, quantity)
    && Reads(fields, columns, PARTNER_SHARE, share)
    && Reads(fields, columns, EXTENDED_PARTNER_SHARE, extended)
    && SignFits(Cell(fields, columns, SALE_OR_RETURN), extended)
    && Value(quantity) * Value(share) == Value(extended)
  }

  /** A row's amounts are accepted exactly when it has an identifier, every money column
      reads exactly, both currencies are valid, the sign fits the sale marker and the
      extended share is the quantity times the share as a rational number. */
  lemma SaleReadsExactly(fields: seq<string>, columns: Columns, row: nat)
    requires HasColumns(columns, |fields|)
    ensures ReadSale(fields, columns, row).Ok? <==>
            && Cell(fields, columns, IDENTIFIER) != ""
            && (exists d: Number :: Reads(fields, columns, CUSTOMER_PRICE, d))
            && ValidCurrency(Cell(fields, columns, PARTNER_SHARE_CURRENCY))
            && ValidCurrency(Cell(fields, columns, CUSTOMER_CURRENCY))
            && exists quantity, share, extended :: AmountsFit(fields, columns, quantity, share, extended)
    ensures ReadSale(fields, columns, row).Ok? ==>
              var sale := ReadSale(fields, columns, row).value;
              && sale.identifier == Cell(fields, columns, IDENTIFIER)
              && sale.currency == Cell(fields, columns, PARTNER_SHARE_CURRENCY)
              && Reads(fields, columns, EXTENDED_PARTNER_SHARE, sale.extended)
  {
    hide ValidCurrency, Compare, Mul, SaleSign, SignFits, Value, Reads, Money, Cell;
    var q, s, x, c := Money(fields, columns, row, QUANTITY), Money(fields, columns, row, PARTNER_SHARE),
      Money(fields, columns, row, EXTENDED_PARTNER_SHARE), Money(fields, columns, row, CUSTOMER_PRICE);
    MoneyReads(fields, columns, row, QUANTITY);
    MoneyReads(fields, columns, row, PARTNER_SHARE);
    MoneyReads(fields, columns, row, EXTENDED_PARTNER_SHARE);
    MoneyReads(fields, columns, row, CUSTOMER_PRICE);
    if q.Ok? && s.Ok? && x.Ok? {
      SaleSignMeaning(Cell(fields, columns, SALE_OR_RETURN), x.value, row);
      ProductsMatch(q.value, s.value, x.value);
      assert AmountsFit(fields, columns, q.value, s.value, x.value) <==>
             SaleSign(Cell(fields, columns, SALE_OR_RETURN), x.value, row).None?
             && Compare(Mul(q.value, s.value), x.value) == 0;
    }
  }

  lemma MoneyReads(fields: seq<string>, columns: Columns, row: nat, name: string)
    requires HasColumn(columns, |fields|, name)
    ensures forall d: Number :: Reads(fields, columns, name, d) <==> Money(fields, columns, row, name) == Ok(d)
    ensures Money(fields, columns, row, name).Ok? <==> exists d: Number :: Reads(fields, columns, name, d)
  {
    hide ParseDigits, Unsigned, TrimSpace, Cell;
    var m := Money(fields, columns, row, name);
    if m.Ok? {
      assert Reads(fields, columns, name, m.value);
    }
  }

  // ---------------------------------------------------- which files are read

  lemma RowNumberOnlyLabels(fields: seq<string>, columns: Columns, row: nat, config: Config)
    requires HasColumns(columns, |fields|)
    ensures Period(fields, columns, row, config).Ok? <==> Period(fields, columns, 0, config).Ok?
    ensures Period(fields, columns, row, config).Ok? ==>
              Period(fields, columns, row, config) == Period(fields, columns, 0, config)
    ensures ReadSale(fields, columns, row).Ok? <==> ReadSale(fields, columns, 0).Ok?
    ensures ReadSale(fields, columns, row).Ok? ==> ReadSale(fields, columns, row) == ReadSale(fields, columns, 0)
  {
    hide ParseDecimal, Compare, ValidCurrency;
  }

  predicate PeriodFits(es: seq<Entry>, e: Entry) {
    es == [] || es[|es| - 1].start == ZERO_DAY || SamePeriod(es[|es| - 1], e)
  }

  lemma PeriodsStep(es: seq<Entry>, e: Entry)
    ensures PeriodsAgree(es + [e]) <==> PeriodsAgree(es) && PeriodFits(es, e)
  {
    var more := es + [e];
    assert forall i | 0 <= i < |es| :: more[i] == es[i];
    assert more[|es|] == e;
    if PeriodsAgree(more) {
      forall i, j | 0 <= i < j < |es| ensures es[i].start == ZERO_DAY || SamePeriod(es[i], es[j]) {
        assert more[i].start == ZERO_DAY || SamePeriod(more[i], more[j]);
      }
    }
    if PeriodsAgree(es) && PeriodFits(es, e) {
      forall i, j | 0 <= i < j < |more| ensures more[i].start == ZERO_DAY || SamePeriod(more[i], more[j]) {
        if j < |es| {
          assert es[i].start == ZERO_DAY || SamePeriod(es[i], es[j]);
        } else if i < |es| - 1 {
          assert es[i].start == ZERO_DAY || SamePeriod(es[i], es[|es| - 1]);
        }
      }
    }
  }

  lemma ScalesAgreeStep(es: seq<Entry>, e: Entry)
    ensures ScalesAgree(es + [e]) <==> ScalesAgree(es) && ScaleFits(es, e)
  {
    Last(es, e);
    if ScalesAgree(es + [e]) {
      assert ScaleFits(es + [e], e);
      forall x | x in es ensures ScaleFits(es, x) {
        assert ScaleFits(es + [e], x);
      }
    }
    if ScalesAgree(es) && ScaleFits(es, e) {
      forall x | x in es + [e] ensures ScaleFits(es + [e], x) {
        if x != e {
          assert ScaleFits(es, x);
        }
      }
    }
  }

  ghost predicate ReadsRow(es: seq<Entry>, line: string, columns: Columns, width: nat, config: Config)
    requires HasColumns(columns, width)
  {
    && |es| + 1 <= config.rowLimit
    && EntryOf(line, columns, width, config).Some?
    && PeriodFits(es, EntryOf(line, columns, width, config).value)
    && ScaleFits(es, EntryOf(line, columns, width, config).value)
  }

  /** A data row is accepted exactly when it reads on its own, repeats the period and
      keeps the scale of its currency, within the row limit. */
  lemma RowStep(p: Progress, es: seq<Entry>, line: string, row: nat, columns: Columns, width: nat, config: Config)
    requires HasColumns(columns, width) && p.columns == Some(columns) && p.width == width
    requires Describes(p, es) && !Blank(line)
    ensures ReadLine(p, line, row, config).Ok? <==> ReadsRow(es, line, columns, width, config)
    ensures ReadLine(p, line, row, config).Ok? ==>
              var q := ReadLine(p, line, row, config).value;
              && q.columns == p.columns && q.width == p.width
              && Describes(q, es + [EntryOf(line, columns, width, config).value])
  {
    hide ScalesDescribe, TotalsDescribe, HasColumns, Period, ReadSale, ScaleFits, MixesScales, AddTotal, ValidCurrency;
    var fields := SplitFields(line);
    if |fields| == width && Period(fields, columns, row, config).Ok? && ReadSale(fields, columns, row).Ok? {
      RowNumberOnlyLabels(fields, columns, row, config);
      SaleIsExact(fields, columns, row);
      var sale := ReadSale(fields, columns, row).value;
      var e := EntryOf(line, columns, width, config).value;
      Last(es, e);
      ScaleCheck(p.scales, es, sale, e);
      if ScaleFits(es, e) {
        AccumulatorNeverMixesScales(p.totals, es, sale, e);
        TotalsStep(p.totals, es, sale, e);
        ScalesStep(p.scales, es, e);
      }
    } else if |fields| == width {
      RowNumberOnlyLabels(fields, columns, row, config);
    }
  }

  ghost predicate BodyReads(body: seq<string>, columns: Columns, width: nat, config: Config)
    requires HasColumns(columns, width)
  {
    var es := Entries(body, columns, width, config);
    && AllRead(body, columns, width, config)
    && |es| <= config.rowLimit
    && PeriodsAgree(es) && ScalesAgree(es)
  }

  lemma BodyStep(body: seq<string>, columns: Columns, width: nat, config: Config)
    requires HasColumns(columns, width) && body != []
    ensures var front, line := body[..|body| - 1], body[|body| - 1];
            var es := Entries(front, columns, width, config);
            BodyReads(body, columns, width, config) <==>
              BodyReads(front, columns, width, config) && (Blank(line) || ReadsRow(es, line, columns, width, config))
  {
    hide HasColumns, ScalesAgree, PeriodsAgree, PeriodFits, ScaleFits, Blank, EntryOf;
    var front, line := body[..|body| - 1], body[|body| - 1];
    var es := Entries(front, columns, width, config);
    if AllRead(front, columns, width, config) && (Blank(line) || EntryOf(line, columns, width, config).Some?) {
      forall i | 0 <= i < |body| ensures Blank(body[i]) || EntryOf(body[i], columns, width, config).Some? {
        if i < |front| {
          assert body[i] == front[i];
        }
      }
    }
    if AllRead(body, columns, width, config) {
      forall i | 0 <= i < |front| ensures Blank(front[i]) || EntryOf(front[i], columns, width, config).Some? {
        assert body[i] == front[i];
      }
    }
    if !Blank(line) && EntryOf(line, columns, width, config).Some? {
      PeriodsStep(es, EntryOf(line, columns, width, config).value);
      ScalesAgreeStep(es, EntryOf(line, columns, width, config).value);
    }
  }

  ghost predicate ScannedTo(r: Result<Progress, Failure>, columns: Columns, width: nat, es: seq<Entry>) {
    r.Ok? ==> r.value.columns == Some(columns) && r.value.width == width && Describes(r.value, es)
  }

  lemma EntriesStep(body: seq<string>, columns: Columns, width: nat, config: Config)
    requires HasColumns(columns, width) && body != []
    ensures var front, line := body[..|body| - 1], body[|body| - 1];
            var es := Entries(front, columns, width, config);
            && (Blank(line) ==> Entries(body, columns, width, config) == es)
            && (!Blank(line) && EntryOf(line, columns, width, config).Some? ==>
                  Entries(body, columns, width, config) == es + [EntryOf(line, columns, width, config).value])
  {
    hide EntryOf, Blank, HasColumns;
  }

  /** The lines after the header are read exactly when the body is in order, and the
      running state then describes its rows. */
  lemma {:induction false} ScanBody(lines: seq<string>, h: nat, columns: Columns, width: nat, config: Config)
    requires HasColumns(columns, width) && config.rowLimit > 0 && h < |lines|
    requires Scan(lines[..h + 1], config) == Ok(INITIAL.(columns := Some(columns), width := width))
    ensures Scan(lines, config).Ok? <==> BodyReads(lines[h + 1..], columns, width, config)
    ensures ScannedTo(Scan(lines, config), columns, width, Entries(lines[h + 1..], columns, width, config))
    decreases |lines|
  {
    if |lines| == h + 1 {
      assert lines[..h + 1] == lines && lines[h + 1..] == [];
      EmptyBody(columns, width, config);
    } else {
      hide *;
      var front := lines[..|lines| - 1];
      assert front[..h + 1] == lines[..h + 1];
      ScanBody(front, h, columns, width, config);
      var body := lines[h + 1..];
      assert body[..|body| - 1] == front[h + 1..] && body[|body| - 1] == lines[|lines| - 1];
      ScanBodyStep(lines, body, columns, width, config);
    }
  }

  lemma ScanBodyStep(lines: seq<string>, body: seq<string>, columns: Columns, width: nat, config: Config)
    requires HasColumns(columns, width) && lines != [] && body != [] && body[|body| - 1] == lines[|lines| - 1]
    requires Scan(lines[..|lines| - 1], config).Ok? <==> BodyReads(body[..|body| - 1], columns, width, config)
    requires ScannedTo(Scan(lines[..|lines| - 1], config), columns, width,
                       Entries(body[..|body| - 1], columns, width, config))
    ensures Scan(lines, config).Ok? <==> BodyReads(body, columns, width, config)
    ensures ScannedTo(Scan(lines, config), columns, width, Entries(body, columns, width, config))
  {
    hide *;
    var front, line := lines[..|lines| - 1], lines[|lines| - 1];
    var es := Entries(body[..|body| - 1], columns, width, config);
    ScanStep(lines, config);
    BodyStep(body, columns, width, config);
    EntriesStep(body, columns, width, config);
    ReadsRowReads(es, line, columns, width, config);
    if Scan(front, config).Ok? {
      var p := Scan(front, config).value;
      ScannedState(p, columns, width, es);
      ScanRow(p, es, line, |lines|, columns, width, config);
    } else {
      ScannedFailure(Scan(lines, config), columns, width, Entries(body, columns, width, config));
    }
  }

  lemma ScanStep(lines: seq<string>, config: Config)
    requires lines != []
    ensures var front, line := lines[..|lines| - 1], lines[|lines| - 1];
            && (Scan(front, config).Err? ==> Scan(lines, config).Err?)
            && (Scan(front, config).Ok? ==> Ready(Scan(front, config).value))
            && (Scan(front, config).Ok? ==>
                  Scan(lines, config) == ReadLine(Scan(front, config).value, line, |lines|, config))
  {
    hide ReadLine, Ready;
  }

  lemma ReadsRowReads(es: seq<Entry>, line: string, columns: Columns, width: nat, config: Config)
    requires HasColumns(columns, width)
    ensures ReadsRow(es, line, columns, width, config) ==> EntryOf(line, columns, width, config).Some?
  {
    hide HasColumns, EntryOf;
  }

  lemma ScannedState(p: Progress, columns: Columns, width: nat, es: seq<Entry>)
    requires ScannedTo(Ok(p), columns, width, es)
    ensures p.columns == Some(columns) && p.width == width && Describes(p, es)
  {
    hide Describes;
  }

  lemma ScannedFailure(r: Result<Progress, Failure>, columns: Columns, width: nat, es: seq<Entry>)
    requires r.Err?
    ensures ScannedTo(r, columns, width, es)
  {
  }

  lemma EmptyBody(columns: Columns, width: nat, config: Config)
    requires HasColumns(columns, width) && config.rowLimit > 0
    ensures BodyReads([], columns, width, config)
    ensures ScannedTo(Ok(INITIAL.(columns := Some(columns), width := width)), columns, width, [])
  {
  }

  lemma ScanRow(p: Progress, es: seq<Entry>, line: string, row: nat, columns: Columns, width: nat, config: Config)
    requires HasColumns(columns, width) && p.columns == Some(columns) && p.width == width && Describes(p, es)
    ensures ReadLine(p, line, row, config).Ok? <==> Blank(line) || ReadsRow(es, line, columns, width, config)
    ensures Blank(line) ==> ReadLine(p, line, row, config) == Ok(p)
    ensures !Blank(line) && ReadsRow(es, line, columns, width, config) ==>
              ScannedTo(ReadLine(p, line, row, config), columns, width,
                        es + [EntryOf(line, columns, width, config).value])
    ensures ReadLine(p, line, row, config).Err? ==>
              forall any :: ScannedTo(ReadLine(p, line, row, config), columns, width, any)
  {
    if !Blank(line) {
      RowStep(p, es, line, row, columns, width, config);
    }
  }
}
