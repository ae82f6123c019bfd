/** The checks of the consolidated parser as one table: a row, a header or a file fails with
    the first check that it does not pass. */
module AppleReportChecks {
  import opened Text
  import opened Decimal
  import opened AppleReport
  import opened AppleReportLaws
  import opened AppleReportTheorems

  datatype Check = Check(passes: bool, failure: Failure)

  ghost predicate FailsAt(checks: seq<Check>, k: nat, f: Failure) {
    && k < |checks| && !checks[k].passes && f == checks[k].failure
    && forall j | 0 <= j < k :: checks[j].passes
  }

  ghost predicate FailsWith(checks: seq<Check>, f: Failure) {
    exists k: nat :: FailsAt(checks, k, f)
  }

  ghost predicate AllPass(checks: seq<Check>) {
    forall j | 0 <= j < |checks| :: checks[j].passes
  }

  /** A list of checks passes, or fails in one way. */
  lemma ChecksDecide(checks: seq<Check>, f: Failure, g: Failure)
    ensures FailsWith(checks, f) ==> !AllPass(checks)
    ensures FailsWith(checks, f) && FailsWith(checks, g) ==> f == g
  {
    if FailsWith(checks, f) && FailsWith(checks, g) {
      var j: nat :| FailsAt(checks, j, f);
      var k: nat :| FailsAt(checks, k, g);
    }
  }

  // ------------------------------------------------------------------ fields

  /** A field is what stands between two tabs, without the white space around it. */
  lemma {:induction false} FieldsAreTrimmed(fields: seq<string>, i: nat)
    requires i < |fields|
    ensures TrimAll(fields)[i] == TrimSpace(fields[i])
  {
    if i < |fields| - 1 {
      FieldsAreTrimmed(fields[..|fields| - 1], i);
    }
  }

  lemma LineFields(line: string, i: nat)
    requires i < |Split(line)|
    ensures |SplitFields(line)| == |Split(line)| && SplitFields(line)[i] == TrimSpace(Split(line)[i])
  {
    FieldsAreTrimmed(Split(line), i);
  }

  /** Exactly the lines of nothing but white space are skipped. */
  lemma BlankLinesAre(line: string)
    ensures Blank(line) <==> AllSpace(line)
  {
    hide TrimSpace, IsSpace;
    var before, after := TrimSpaceIs(line);
    if TrimSpace(line) == "" {
      assert line == before + after;
    } else {
      assert line[|before|] == TrimSpace(line)[0];
    }
  }

  // -------------------------------------------------------------------- rows

  function NumberIn(text: string): Option<Number> {
    match ParseDecimal(text)
    case Ok(d) => Some(d)
    case Err(_) => None
  }

  predicate IsCode(code: string) {
    |code| == 3 && 'A' <= code[0] <= 'Z' && 'A' <= code[1] <= 'Z' && 'A' <= code[2] <= 'Z'
  }

  /** The row's own period, and the one the rows before it fixed. */
  ghost function PeriodChecks(p: Progress, start: Option<int>, end: Option<int>, row: nat): seq<Check> {
    [
      Check(start.Some?, Failure(row, "Start Date", "date_invalid")),
      Check(end.Some?, Failure(row, "End Date", "date_invalid")),
      Check(start.Some? && end.Some? && start.value <= end.value, Failure(row, "End Date", "period_invalid")),
      Check(p.start == ZERO_DAY || (Some(p.start) == start && Some(p.end) == end), Failure(row, "Start Date", "mixed_period"))
    ]
  }

  /** The row's identifier, amounts and currencies. */
  ghost function SaleChecks(cell: string -> string, row: nat): seq<Check> {
    var quantity, share := NumberIn(cell("Quantity")), NumberIn(cell("Partner Share"));
    var extended, price := NumberIn(cell("Extended Partner Share")), NumberIn(cell("Customer Price"));
    var mark := cell("Sale or Return");
    [
      Check(cell("Apple Identifier") != "", Failure(row, "Apple Identifier", "identifier_missing")),
      Check(quantity.Some?, Failure(row, "Quantity", "money_invalid")),
      Check(share.Some?, Failure(row, "Partner Share", "money_invalid")),
      Check(extended.Some?, Failure(row, "Extended Partner Share", "money_invalid")),
      Check(price.Some?, Failure(row, "Customer Price", "money_invalid")),
      Check(IsCode(cell("Partner Share Currency")), Failure(row, "Partner Share Currency", "currency_invalid")),
      Check(IsCode(cell("Customer Currency")), Failure(row, "Customer Currency", "currency_invalid")),
      Check(mark == "S" || mark == "R", Failure(row, "Sale or Return", "sale_return_invalid")),
      Check(extended.Some? && (mark == "S" ==> extended.value.coefficient >= 0) && (mark == "R" ==> extended.value.coefficient <= 0),
            Failure(row, "Extended Partner Share", "sale_return_sign")),
      Check(quantity.Some? && share.Some? && extended.Some? && Value(quantity.value) * Value(share.value) == Value(extended.value),
            Failure(row, "Extended Partner Share", "quantity_mismatch"))
    ]
  }

  ghost function CellsOf(fields: seq<string>, columns: Columns): string -> string {
    name => if name in columns && columns[name] < |fields| then fields[columns[name]] else ""
  }

  lemma CurrencyIsACode(code: string)
    ensures ValidCurrency(code) <==> IsCode(code)
  {
  }

  /** The period of a row is read, and repeats the one before it, exactly when the period
      checks pass; otherwise the first of them that fails is reported. */
  lemma PeriodIsChecked(p: Progress, fields: seq<string>, columns: Columns, row: nat, config: Config, f: Failure)
    requires HasColumns(columns, |fields|)
    ensures var cell := CellsOf(fields, columns);
            var start, end := config.dates(cell("Start Date")), config.dates(cell("End Date"));
            var checks, read := PeriodChecks(p, start, end, row), Period(fields, columns, row, config);
            var repeats := p.start == ZERO_DAY || (read.Ok? && read.value == (p.start, p.end));
            && (AllPass(checks) <==> read.Ok? && repeats)
            && (FailsWith(checks, f) <==>
                  read == Err(f) || (read.Ok? && !repeats && f == Failure(row, "Start Date", "mixed_period")))
            && (read.Ok? ==> Some(read.value.0) == start && Some(read.value.1) == end)
  {
    var cell := CellsOf(fields, columns);
    var start, end := config.dates(cell("Start Date")), config.dates(cell("End Date"));
    var checks, read := PeriodChecks(p, start, end, row), Period(fields, columns, row, config);
    if read.Err? {
      var k := if start.None? then 0 else if end.None? then 1 else 2;
      assert FailsAt(checks, k, read.error);
      ChecksDecide(checks, read.error, f);
    } else if p.start != ZERO_DAY && read.value != (p.start, p.end) {
      assert FailsAt(checks, 3, Failure(row, "Start Date", "mixed_period"));
      ChecksDecide(checks, Failure(row, "Start Date", "mixed_period"), f);
    } else {
      assert AllPass(checks);
      ChecksDecide(checks, f, f);
    }
  }

  lemma SaleFailsAt(fields: seq<string>, columns: Columns, row: nat) returns (k: nat)
    requires HasColumns(columns, |fields|)
    ensures var checks := SaleChecks(CellsOf(fields, columns), row);
            && (ReadSale(fields, columns, row).Err? ==> FailsAt(checks, k, ReadSale(fields, columns, row).error))
            && (ReadSale(fields, columns, row).Ok? ==> AllPass(checks))
  {
    hide ParseDecimal, ValidCurrency, IsCode, Compare, Mul, Value, NumberIn;
    var cell := CellsOf(fields, columns);
    CurrencyIsACode(cell("Partner Share Currency"));
    CurrencyIsACode(cell("Customer Currency"));
    NumbersAreMoney(fields, columns, row);
    var quantity, share, extended := NumberIn(cell("Quantity")), NumberIn(cell("Partner Share")), NumberIn(cell("Extended Partner Share"));
    if quantity.Some? && share.Some? && extended.Some? {
      ProductsMatch(quantity.value, share.value, extended.value);
    }
    hide HasColumns, CellsOf, Money;
    k := if cell("Apple Identifier") == "" then 0
         else if quantity.None? then 1
         else if share.None? then 2
         else if extended.None? then 3
         else if NumberIn(cell("Customer Price")).None? then 4
         else if !IsCode(cell("Partner Share Currency")) then 5
         else if !IsCode(cell("Customer Currency")) then 6
         else if cell("Sale or Return") != "S" && cell("Sale or Return") != "R" then 7
         else if SaleSign(cell("Sale or Return"), extended.value, row).Some? then 8
         else 9;
  }

  lemma NumbersAreMoney(fields: seq<string>, columns: Columns, row: nat)
    requires HasColumns(columns, |fields|)
    ensures var cell := CellsOf(fields, columns);
            && Cell(fields, columns, IDENTIFIER) == cell("Apple Identifier")
            && Cell(fields, columns, PARTNER_SHARE_CURRENCY) == cell("Partner Share Currency")
            && Cell(fields, columns, CUSTOMER_CURRENCY) == cell("Customer Currency")
            && Cell(fields, columns, SALE_OR_RETURN) == cell("Sale or Return")
            && MoneyIs(Money(fields, columns, row, QUANTITY), NumberIn(cell("Quantity")), row, "Quantity")
            && MoneyIs(Money(fields, columns, row, PARTNER_SHARE), NumberIn(cell("Partner Share")), row, "Partner Share")
            && MoneyIs(Money(fields, columns, row, EXTENDED_PARTNER_SHARE), NumberIn(cell("Extended Partner Share")), row,
                       "Extended Partner Share")
            && MoneyIs(Money(fields, columns, row, CUSTOMER_PRICE), NumberIn(cell("Customer Price")), row, "Customer Price")
  {
    hide ParseDecimal;
  }

  predicate MoneyIs(read: Result<Number, Failure>, number: Option<Number>, row: nat, column: string) {
    match number
    case Some(d) => read == Ok(d)
    case None => read == Err(Failure(row, column, "money_invalid"))
  }

  /** A row's sale is read exactly when its checks pass, and is then what its cells say;
      otherwise the first check that fails is reported. */
  lemma SaleIsChecked(fields: seq<string>, columns: Columns, row: nat, f: Failure)
    requires HasColumns(columns, |fields|)
    ensures var cell := CellsOf(fields, columns); var checks, read := SaleChecks(cell, row), ReadSale(fields, columns, row);
            && (AllPass(checks) <==> read.Ok?)
            && (FailsWith(checks, f) <==> read == Err(f))
            && (read.Ok? ==>
                  && read.value.identifier == cell("Apple Identifier") && read.value.currency == cell("Partner Share Currency")
                  && Some(read.value.extended) == NumberIn(cell("Extended Partner Share")))
  {
    var checks, read := SaleChecks(CellsOf(fields, columns), row), ReadSale(fields, columns, row);
    var k := SaleFailsAt(fields, columns, row);
    SaleCells(fields, columns, row);
    hide ReadSale, SaleChecks;
    if read.Err? {
      assert FailsWith(checks, read.error);
      ChecksDecide(checks, read.error, f);
    } else {
      ChecksDecide(checks, f, f);
    }
  }

  lemma SaleCells(fields: seq<string>, columns: Columns, row: nat)
    requires HasColumns(columns, |fields|)
    ensures var cell, read := CellsOf(fields, columns), ReadSale(fields, columns, row);
            read.Ok? ==>
              && read.value.identifier == cell("Apple Identifier") && read.value.currency == cell("Partner Share Currency")
              && Some(read.value.extended) == NumberIn(cell("Extended Partner Share"))
  {
    hide ParseDecimal, ValidCurrency, Compare, Mul, SaleSign, NumberIn;
    NumbersAreMoney(fields, columns, row);
    hide Money, Cell;
  }

  /** A data row is refused for the row limit, for its width, by its period, by its sale, or
      for another scale of its currency, in this order. */
  lemma RowIsChecked(p: Progress, fields: seq<string>, row: nat, config: Config, f: Failure)
    requires p.columns.Some? && HasColumns(p.columns.value, p.width)
    ensures var columns := p.columns.value; var cell := CellsOf(fields, columns);
            var period := PeriodChecks(p, config.dates(cell("Start Date")), config.dates(cell("End Date")), row);
            var sale, extended := SaleChecks(cell, row), NumberIn(cell("Extended Partner Share"));
            var mixed := extended.Some? && cell("Partner Share Currency") in p.scales
                         && p.scales[cell("Partner Share Currency")] != extended.value.scale;
            var r := Accept(p, fields, row, config);
            && (p.dataRows >= config.rowLimit ==> r == Err(Failure(row, "", "row_limit")))
            && (p.dataRows < config.rowLimit && |fields| != p.width ==> r == Err(Failure(row, "", "truncated_row")))
            && (p.dataRows < config.rowLimit && |fields| == p.width ==>
                  && (FailsWith(period, f) ==> r == Err(f))
                  && (AllPass(period) && FailsWith(sale, f) ==> r == Err(f))
                  && (AllPass(period) && AllPass(sale) && mixed ==>
                        r == Err(Failure(row, "Extended Partner Share", "mixed_scale"))))
  {
    hide Period, ReadSale, SaleChecks, PeriodChecks, AllPass, FailsWith, HasColumns, AddTotal, NumberIn;
    if p.dataRows < config.rowLimit && |fields| == p.width {
      PeriodIsChecked(p, fields, p.columns.value, row, config, f);
      SaleIsChecked(fields, p.columns.value, row, f);
    }
  }

  // ------------------------------------------------------------------- header

  /** The columns before the `i`-th are named and different, and the `i`-th is not. */
  ghost predicate FirstBadColumn(fields: seq<string>, i: nat) {
    i < |fields| && "" !in fields[..i] && NoDuplicates(fields[..i]) && (fields[i] == "" || fields[i] in fields[..i])
  }

  lemma {:induction false} IndexingFails(fields: seq<string>) returns (i: nat)
    ensures IndexColumns(fields).Err? ==>
              && FirstBadColumn(fields, i)
              && IndexColumns(fields).error
                 == if fields[i] == "" then Failure(1, "", "header_invalid") else Failure(1, fields[i], "duplicate_column")
  {
    i := 0;
    if fields != [] {
      var front, last := fields[..|fields| - 1], fields[|fields| - 1];
      if IndexColumns(front).Err? {
        i := IndexingFails(front);
        assert front[..i] == fields[..i];
      } else {
        i := |front|;
        ColumnsAreIndexed(front);
      }
    }
  }

  /** Why a header is refused: its first column that is empty or repeated, or a column of
      the detailed report, or the first required column that is missing. */
  lemma HeaderIsChecked(fields: seq<string>)
    requires Header(fields).Err?
    ensures var f := Header(fields).error;
            || (fields == [] && f == Failure(1, "", "header_missing"))
            || (exists i: nat :: FirstBadColumn(fields, i)
                  && f == (if fields[i] == "" then Failure(1, "", "header_invalid") else Failure(1, fields[i], "duplicate_column")))
            || (exists j | 0 <= j < |REJECTED| ::
                  REJECTED[j] in fields && f == Failure(1, REJECTED[j], "detailed_report")
                  && forall i | 0 <= i < j :: REJECTED[i] !in fields)
            || (exists j | 0 <= j < |REQUIRED| ::
                  REQUIRED[j] !in fields && f == Failure(1, REQUIRED[j], "header_invalid")
                  && forall i | 0 <= i < j :: REQUIRED[i] in fields)
  {
    if fields != [] {
      var i := IndexingFails(fields);
      ColumnsAreIndexed(fields);
      if IndexColumns(fields).Ok? {
        var columns := IndexColumns(fields).value;
        if FirstPresent(REJECTED, columns).Some? {
          var j := PresentAt(REJECTED, columns);
        } else {
          var j := MissingAt(REQUIRED, columns);
        }
      }
    }
  }

  lemma {:induction false} PresentAt(names: seq<string>, columns: Columns) returns (j: nat)
    requires FirstPresent(names, columns).Some?
    ensures j < |names| && names[j] in columns && FirstPresent(names, columns) == Some(names[j])
    ensures forall i | 0 <= i < j :: names[i] !in columns
  {
    if names[0] in columns {
      j := 0;
    } else {
      var rest := PresentAt(names[1..], columns);
      j := rest + 1;
      assert forall i | 1 <= i < j :: names[i] == names[1..][i - 1];
    }
  }

  lemma {:induction false} MissingAt(names: seq<string>, columns: Columns) returns (j: nat)
    requires FirstMissing(names, columns).Some?
    ensures j < |names| && names[j] !in columns && FirstMissing(names, columns) == Some(names[j])
    ensures forall i | 0 <= i < j :: names[i] in columns
  {
    if names[0] !in columns {
      j := 0;
    } else {
      var rest := MissingAt(names[1..], columns);
      j := rest + 1;
      assert forall i | 1 <= i < j :: names[i] == names[1..][i - 1];
    }
  }

  // -------------------------------------------------------------- whole files

  /** The first line that is refused decides what the file is refused with. */
  lemma FirstRefusedLineIsReported(lines: seq<string>, i: nat, config: Config, p: Progress, r: Result<Report, Failure>)
    requires i < |lines| && config.rowLimit > 0 && Scan(lines[..i], config) == Ok(p)
    requires ReadLine(p, lines[i], i + 1, config).Err? && Parses(lines, config, r)
    ensures r == Err(ReadLine(p, lines[i], i + 1, config).error)
  {
    hide ReadLine;
    assert lines[..i + 1][..i] == lines[..i];
    assert Scan(lines[..i + 1], config) == ReadLine(p, lines[i], i + 1, config);
    FirstFailureStands(lines, i + 1, config);
  }

  /** A file without data, without a row limit, without a period, or with a total that has
      no minor units is refused as such. */
  lemma FilesAreRefusedAtTheEnd(lines: seq<string>, h: nat, config: Config, r: Result<Report, Failure>)
    requires Parses(lines, config, r)
    ensures config.rowLimit <= 0 ==> r == Err(Failure(0, "", "row_limit"))
    ensures config.rowLimit > 0 && (forall i | 0 <= i < |lines| :: Blank(lines[i])) ==> r == Err(Failure(0, "", "header_missing"))
    ensures config.rowLimit > 0 && HeaderAt(lines, h) && Header(SplitFields(lines[h])).Ok?
            && HasColumns(Header(SplitFields(lines[h])).value, |SplitFields(lines[h])|)
            && BodyReads(lines[h + 1..], Header(SplitFields(lines[h])).value, |SplitFields(lines[h])|, config) ==>
              var es := Rows(lines, h, config);
              && (es == [] || es[|es| - 1].start == ZERO_DAY ==> r == Err(Failure(0, "Start Date", "period_missing")))
              && (es != [] && es[|es| - 1].start != ZERO_DAY && !MinorUnitsExist(es, config) ==>
                    r == Err(Failure(0, "Extended Partner Share", "minor_unit_scale")))
  {
    hide Blank, Header, SplitFields, HasColumns, BodyReads, Entries, Lists, MinorUnitsFit, MinorUnitsExist,
         ScalesDescribe, TotalsDescribe;
    if config.rowLimit > 0 {
      if forall i | 0 <= i < |lines| :: Blank(lines[i]) {
        BlankLinesAreSkipped(lines, config);
      }
      if HeaderAt(lines, h) && Header(SplitFields(lines[h])).Ok? {
        ScanHeader(lines, h, config);
        var fields := SplitFields(lines[h]);
        var columns := Header(fields).value;
        ScanBody(lines, h, columns, |fields|, config);
        if Scan(lines, config).Ok? {
          MinorUnitsAgree(Scan(lines, config).value.totals, Rows(lines, h, config), config);
        }
      }
    }
  }

  /** The totals of an accepted report are in the order of their identifiers, and those of
      one identifier in the order of their currencies. */
  lemma TotalsAreSorted(lines: seq<string>, h: nat, config: Config, r: Result<Report, Failure>, i: nat, j: nat)
    requires HeaderAt(lines, h) && Parses(lines, config, r) && r.Ok? && i < j < |r.value.totals|
    ensures var a, b := r.value.totals[i], r.value.totals[j];
            Less(a.identifier, b.identifier) || (a.identifier == b.identifier && Less(a.currency, b.currency))
  {
    hide Parses, InOrder, Rows, ExactTotal;
    AcceptedExactly(lines, h, config, r);
    assert Before(r.value.totals[i], r.value.totals[j]);
  }
}
