/** A concrete report whose acceptance depends on the order of its rows. */
module AppleReportExample {
  import opened Text
  import opened Counting
  import opened Decimal
  import opened DecimalText
  import opened AppleReport
  import opened AppleReportLaws
  import opened AppleReportTheorems

  // ------------------------------------------------- every file has an outcome

  function TotalOf(a: Accumulator, config: Config): Total
    requires MinorUnitsOf(a, config).Ok?
  {
    Total(a.identifier, a.currency, a.amount, MinorUnitsOf(a, config).value)
  }

  function TotalsOf(totals: map<string, Accumulator>, keys: seq<string>, config: Config): (list: seq<Total>)
    requires forall i | 0 <= i < |keys| :: keys[i] in totals && MinorUnitsOf(totals[keys[i]], config).Ok?
    ensures |list| == |keys| && forall i | 0 <= i < |keys| :: list[i] == TotalOf(totals[keys[i]], config)
  {
    seq(|keys|, i requires 0 <= i < |keys| => TotalOf(totals[keys[i]], config))
  }

  lemma ListingExists(totals: map<string, Accumulator>, config: Config) returns (listed: seq<Total>)
    requires WellKeyed(totals) && MinorUnitsFit(totals, config)
    ensures Lists(listed, totals, config)
  {
    hide MinorUnits, ValidCurrency, Before, Key;
    var keys := Listing(totals.Keys);
    forall i | 0 <= i < |keys| ensures keys[i] in totals && MinorUnitsOf(totals[keys[i]], config).Ok? {
      assert keys[i] in keys;
    }
    var list := TotalsOf(totals, keys, config);
    forall i, j | 0 <= i < j < |list|
      ensures list[i].identifier != list[j].identifier || list[i].currency != list[j].currency
    {
      assert keys[i] != keys[j];
    }
    SortOrders(list);
    listed := SortTotals(list);
    forall t | t in listed
      ensures Key(t.identifier, t.currency) in totals && Listed(t, totals[Key(t.identifier, t.currency)], config)
    {
      assert t in list;
      var i :| 0 <= i < |list| && list[i] == t;
    }
    forall k | k in totals ensures HasKey(listed, k) {
      assert k in keys;
      var i :| 0 <= i < |keys| && keys[i] == k;
      assert list[i] in list && list[i] in listed;
    }
  }

  lemma OutcomeExists(lines: seq<string>, config: Config) returns (r: Result<Report, Failure>)
    ensures Parses(lines, config, r)
  {
    hide Lists, MinorUnitsFit, WellKeyed;
    if config.rowLimit <= 0 {
      r := Err(Failure(0, "", "row_limit"));
    } else {
      match Scan(lines, config) {
        case Err(failure) => r := Err(failure);
        case Ok(p) =>
          if p.columns.None? {
            r := Err(Failure(0, "", "header_missing"));
          } else if p.start == ZERO_DAY {
            r := Err(Failure(0, START_DATE, "period_missing"));
          } else if !MinorUnitsFit(p.totals, config) {
            r := Err(Failure(0, EXTENDED_PARTNER_SHARE, "minor_unit_scale"));
          } else {
            TotalsAreKeyed(lines, config);
            var listed := ListingExists(p.totals, config);
            r := Ok(Report(p.start, p.end, listed));
          }
      }
    }
  }

  // ------------------------------------------------------------ plain lines

  /** A cell as it stands in a line: no tab and no surrounding space. */
  predicate PlainCell(cell: string) {
    '\t' !in cell && Trimmed(cell)
  }

  lemma TrimmedStays(s: string)
    requires Trimmed(s)
    ensures TrimSpace(s) == s
  {
  }

  lemma {:induction false} SplitCell(front: string, cell: string)
    requires '\t' !in cell
    ensures Split(front + "\t" + cell) == Split(front) + [cell]
    decreases |cell|
  {
    var line := front + "\t" + cell;
    if cell == "" {
      assert line[..|line| - 1] == front;
    } else {
      var shorter, c := cell[..|cell| - 1], cell[|cell| - 1];
      assert c in cell && forall x | x in shorter :: x in cell;
      SplitCell(front, shorter);
      assert line[..|line| - 1] == front + "\t" + shorter;
      assert shorter + [c] == cell;
    }
  }

  lemma {:induction false} SplitOneCell(cell: string)
    requires '\t' !in cell
    ensures Split(cell) == [cell]
  {
    if cell != "" {
      var shorter := cell[..|cell| - 1];
      assert cell[|cell| - 1] in cell && forall x | x in shorter :: x in cell;
      SplitOneCell(shorter);
      assert shorter + [cell[|cell| - 1]] == cell;
    }
  }

  lemma {:induction false} JoinedSplits(cells: seq<string>)
    requires cells != [] && forall i | 0 <= i < |cells| :: PlainCell(cells[i])
    ensures Split(Joined(cells)) == cells
  {
    if |cells| == 1 {
      SplitOneCell(cells[0]);
    } else {
      var front, last := cells[..|cells| - 1], cells[|cells| - 1];
      JoinedSplits(front);
      SplitCell(Joined(front), last);
      assert cells == front + [last];
    }
  }

  lemma {:induction false} PlainStays(cells: seq<string>)
    requires forall i | 0 <= i < |cells| :: PlainCell(cells[i])
    ensures TrimAll(cells) == cells
  {
    if cells != [] {
      PlainStays(cells[..|cells| - 1]);
      TrimmedStays(cells[|cells| - 1]);
      assert cells == cells[..|cells| - 1] + [cells[|cells| - 1]];
    }
  }

  lemma PlainLine(cells: seq<string>)
    requires cells != [] && forall i | 0 <= i < |cells| :: PlainCell(cells[i])
    ensures SplitFields(Joined(cells)) == cells
  {
    JoinedSplits(cells);
    PlainStays(cells);
  }

  /** A line that starts with a visible cell is not blank. */
  lemma {:induction false} JoinedStarts(cells: seq<string>)
    requires cells != [] && cells[0] != ""
    ensures Joined(cells) != "" && Joined(cells)[0] == cells[0][0]
  {
    if |cells| > 1 {
      JoinedStarts(cells[..|cells| - 1]);
    }
  }

  lemma {:induction false} TrimRightKeepsFirst(s: string)
    requires s != "" && !IsSpace(s[0])
    ensures TrimRight(s) != ""
  {
    if IsSpace(s[|s| - 1]) {
      TrimRightKeepsFirst(s[..|s| - 1]);
    }
  }

  lemma JoinedIsNotBlank(cells: seq<string>)
    requires cells != [] && cells[0] != "" && !IsSpace(cells[0][0])
    ensures !Blank(Joined(cells))
  {
    JoinedStarts(cells);
    TrimRightKeepsFirst(Joined(cells));
  }

  // ------------------------------------------------------------- the example

  /** A sale of one at one, whose period starts on the given day. */
  function SaleCells(start: string): seq<string> {
    [start, "9", "app", "1", "1", "1", "USD", "S", "1", "USD"]
  }

  const DATES: string -> Option<int> := text => if text == "0" then Some(ZERO_DAY) else if text == "5" then Some(5) else Some(9)

  const CONFIG := Config(10, DATES, map[])

  function ExampleFile(): seq<string> {
    [Joined(REQUIRED), Joined(SaleCells("0")), Joined(SaleCells("5"))]
  }

  lemma RequiredArePlain(i: nat)
    requires i < |REQUIRED|
    ensures PlainCell(REQUIRED[i]) && REQUIRED[i] != "" && !IsSpace(REQUIRED[i][0])
  {
  }

  lemma RequiredLengths()
    ensures |REQUIRED| == 10
    ensures |START_DATE| == 10 && |END_DATE| == 8 && |IDENTIFIER| == 16 && |QUANTITY| == 8 && |PARTNER_SHARE| == 13
    ensures |EXTENDED_PARTNER_SHARE| == 22 && |PARTNER_SHARE_CURRENCY| == 22 && |SALE_OR_RETURN| == 14
    ensures |CUSTOMER_PRICE| == 14 && |CUSTOMER_CURRENCY| == 17
    ensures END_DATE[0] != QUANTITY[0] && EXTENDED_PARTNER_SHARE[0] != PARTNER_SHARE_CURRENCY[0]
    ensures SALE_OR_RETURN[0] != CUSTOMER_PRICE[0]
  {
  }

  lemma RequiredDiffer(i: nat, j: nat)
    requires i < j < |REQUIRED|
    ensures REQUIRED[i] != REQUIRED[j]
  {
    RequiredLengths();
  }

  lemma RejectedAreNotRequired(i: nat, j: nat)
    requires i < |REJECTED| && j < |REQUIRED|
    ensures REJECTED[i] != REQUIRED[j]
  {
    RequiredLengths();
    assert |REJECTED[0]| == 16 && |REJECTED[1]| == 15 && |REJECTED[2]| == 10;
    assert REJECTED[0][0] != IDENTIFIER[0] && REJECTED[2][0] != START_DATE[0];
  }

  /** The required columns alone are a header, each at its own place. */
  lemma RequiredIsAHeader()
    ensures Header(REQUIRED).Ok? && HasColumns(Header(REQUIRED).value, |REQUIRED|)
    ensures forall i | 0 <= i < |REQUIRED| :: REQUIRED[i] in Header(REQUIRED).value && Header(REQUIRED).value[REQUIRED[i]] == i
  {
    hide PlainCell, IndexColumns;
    forall i, j | 0 <= i < j < |REQUIRED| ensures REQUIRED[i] != REQUIRED[j] {
      RequiredDiffer(i, j);
    }
    forall i | 0 <= i < |REQUIRED| ensures REQUIRED[i] != "" {
      RequiredArePlain(i);
    }
    forall i | 0 <= i < |REJECTED| ensures REJECTED[i] !in REQUIRED {
      forall j | 0 <= j < |REQUIRED| ensures REJECTED[i] != REQUIRED[j] {
        RejectedAreNotRequired(i, j);
      }
    }
    HeaderIsTheContract(REQUIRED);
    var columns := Header(REQUIRED).value;
    forall i | 0 <= i < |REQUIRED| ensures REQUIRED[i] in columns && columns[REQUIRED[i]] == i {
      ColumnPlace(columns, i);
    }
  }

  lemma ColumnPlace(columns: Columns, i: nat)
    requires i < |REQUIRED| && Header(REQUIRED) == Ok(columns)
    ensures REQUIRED[i] in columns && columns[REQUIRED[i]] == i
  {
    hide IndexColumns;
    HeaderIsTheContract(REQUIRED);
    IndexedColumn(columns, i);
    var j := columns[REQUIRED[i]];
    if j < i {
      RequiredDiffer(j, i);
    } else if i < j {
      RequiredDiffer(i, j);
    }
  }

  lemma IndexedColumn(columns: Columns, i: nat)
    requires i < |REQUIRED| && Header(REQUIRED) == Ok(columns)
    ensures REQUIRED[i] in columns
  {
    hide IndexColumns, FirstPresent;
  }

  lemma OneParses()
    ensures ParseDecimal("1") == Ok(Exact(1, 0))
  {
    assert "1" == Numeral("", "1", "");
    assert "1" + "" == "1" && "1"[..0] == "";
    ParseNumeral("1", "", "1", "");
  }

  lemma CellsAre(columns: Columns, cells: seq<string>)
    requires |cells| == 10 && HasColumns(columns, 10)
    requires forall i | 0 <= i < |REQUIRED| :: REQUIRED[i] in columns && columns[REQUIRED[i]] == i
    ensures Cell(cells, columns, START_DATE) == cells[0] && Cell(cells, columns, END_DATE) == cells[1]
    ensures Cell(cells, columns, IDENTIFIER) == cells[2] && Cell(cells, columns, QUANTITY) == cells[3]
    ensures Cell(cells, columns, PARTNER_SHARE) == cells[4] && Cell(cells, columns, EXTENDED_PARTNER_SHARE) == cells[5]
    ensures Cell(cells, columns, PARTNER_SHARE_CURRENCY) == cells[6] && Cell(cells, columns, SALE_OR_RETURN) == cells[7]
    ensures Cell(cells, columns, CUSTOMER_PRICE) == cells[8] && Cell(cells, columns, CUSTOMER_CURRENCY) == cells[9]
  {
    assert REQUIRED[0] == START_DATE && REQUIRED[1] == END_DATE && REQUIRED[2] == IDENTIFIER;
    assert REQUIRED[3] == QUANTITY && REQUIRED[4] == PARTNER_SHARE && REQUIRED[5] == EXTENDED_PARTNER_SHARE;
    assert REQUIRED[6] == PARTNER_SHARE_CURRENCY && REQUIRED[7] == SALE_OR_RETURN;
    assert REQUIRED[8] == CUSTOMER_PRICE && REQUIRED[9] == CUSTOMER_CURRENCY;
  }

  lemma SaleCellsArePlain(start: string)
    requires start == "0" || start == "5"
    ensures forall i | 0 <= i < 10 :: PlainCell(SaleCells(start)[i])
    ensures SaleCells(start)[0] != "" && !IsSpace(SaleCells(start)[0][0])
  {
  }

  function SaleEntry(day: int): Entry {
    Entry(day, 9, "app", "USD", Exact(1, 0))
  }

  lemma SaleIsRead(columns: Columns, cells: seq<string>)
    requires |cells| == 10 && HasColumns(columns, 10) && cells[2..] == ["app", "1", "1", "1", "USD", "S", "1", "USD"]
    requires forall i | 0 <= i < |REQUIRED| :: REQUIRED[i] in columns && columns[REQUIRED[i]] == i
    ensures ReadSale(cells, columns, 0) == Ok(Sale("app", "USD", Exact(1, 0)))
  {
    CellsAre(columns, cells);
    OneParses();
    assert cells[2] == "app" && cells[3] == "1" && cells[4] == "1" && cells[5] == "1";
    assert cells[6] == "USD" && cells[7] == "S" && cells[8] == "1" && cells[9] == "USD";
    hide ParseDecimal, Cell, HasColumns;
  }

  lemma EntryOfCells(line: string, cells: seq<string>, columns: Columns, day: int)
    requires HasColumns(columns, 10) && SplitFields(line) == cells && |cells| == 10
    requires CONFIG.dates(Cell(cells, columns, START_DATE)) == Some(day)
    requires CONFIG.dates(Cell(cells, columns, END_DATE)) == Some(9) && day <= 9
    requires ReadSale(cells, columns, 0) == Ok(Sale("app", "USD", Exact(1, 0)))
    ensures EntryOf(line, columns, 10, CONFIG) == Some(SaleEntry(day))
  {
    hide ReadSale, SplitFields, Cell, HasColumns, HasColumn;
  }

  lemma DatesAreRead()
    ensures CONFIG.dates("0") == Some(ZERO_DAY) && CONFIG.dates("5") == Some(5) && CONFIG.dates("9") == Some(9)
  {
    assert "0"[0] == '0' && "5"[0] == '5' && "9"[0] == '9';
  }

  lemma RowIsRead(columns: Columns, start: string, day: int)
    requires (start == "0" && day == ZERO_DAY) || (start == "5" && day == 5)
    requires HasColumns(columns, 10)
    requires forall i | 0 <= i < |REQUIRED| :: REQUIRED[i] in columns && columns[REQUIRED[i]] == i
    ensures !Blank(Joined(SaleCells(start)))
    ensures EntryOf(Joined(SaleCells(start)), columns, 10, CONFIG) == Some(SaleEntry(day))
  {
    var cells := SaleCells(start);
    SaleCellsArePlain(start);
    JoinedIsNotBlank(cells);
    PlainLine(cells);
    CellsAre(columns, cells);
    assert cells[2..] == ["app", "1", "1", "1", "USD", "S", "1", "USD"];
    SaleIsRead(columns, cells);
    DatesAreRead();
    hide ReadSale, Blank, SplitFields, Joined, Cell, HasColumns, HasColumn, PlainCell, EntryOf;
    EntryOfCells(Joined(cells), cells, columns, day);
  }

  lemma TwoEntries(first: string, second: string, a: Entry, b: Entry, columns: Columns, width: nat, config: Config)
    requires HasColumns(columns, width) && !Blank(first) && !Blank(second)
    requires EntryOf(first, columns, width, config) == Some(a) && EntryOf(second, columns, width, config) == Some(b)
    ensures Entries([first, second], columns, width, config) == [a, b]
    ensures AllRead([first, second], columns, width, config)
  {
    hide EntryOf, Blank, HasColumns;
    assert [first, second][..1] == [first] && [first][..0] == [];
    assert Entries([first], columns, width, config) == [] + [a];
    assert Entries([first, second], columns, width, config) == [a] + [b];
  }

  lemma TwoRows(columns: Columns)
    requires HasColumns(columns, 10)
    requires forall i | 0 <= i < |REQUIRED| :: REQUIRED[i] in columns && columns[REQUIRED[i]] == i
    ensures var body := [Joined(SaleCells("0")), Joined(SaleCells("5"))];
            && Entries(body, columns, 10, CONFIG) == [SaleEntry(ZERO_DAY), SaleEntry(5)]
            && AllRead(body, columns, 10, CONFIG)
  {
    RowIsRead(columns, "0", ZERO_DAY);
    RowIsRead(columns, "5", 5);
    hide *;
    TwoEntries(Joined(SaleCells("0")), Joined(SaleCells("5")), SaleEntry(ZERO_DAY), SaleEntry(5), columns, 10, CONFIG);
  }

  lemma TwoSalesAgree()
    ensures var es := [SaleEntry(ZERO_DAY), SaleEntry(5)];
            PeriodsAgree(es) && ScalesAgree(es) && MinorUnitsExist(es, CONFIG) && es[1].start != ZERO_DAY
  {
    var es := [SaleEntry(ZERO_DAY), SaleEntry(5)];
    assert es[0] == SaleEntry(ZERO_DAY) && es[1] == SaleEntry(5);
  }

  lemma HeaderIsRead() returns (columns: Columns)
    ensures !Blank(Joined(REQUIRED)) && SplitFields(Joined(REQUIRED)) == REQUIRED && |REQUIRED| == 10
    ensures Header(REQUIRED) == Ok(columns) && HasColumns(columns, 10)
    ensures forall i | 0 <= i < |REQUIRED| :: REQUIRED[i] in columns && columns[REQUIRED[i]] == i
  {
    forall i | 0 <= i < |REQUIRED| ensures PlainCell(REQUIRED[i]) {
      RequiredArePlain(i);
    }
    RequiredArePlain(0);
    JoinedIsNotBlank(REQUIRED);
    PlainLine(REQUIRED);
    RequiredIsAHeader();
    RequiredLengths();
    columns := Header(REQUIRED).value;
  }

  lemma ExampleIsInOrder()
    ensures HeaderAt(ExampleFile(), 0) && InOrder(ExampleFile(), 0, CONFIG)
    ensures SaleEntry(ZERO_DAY) in Rows(ExampleFile(), 0, CONFIG)
  {
    hide Blank, Header, SplitFields, HasColumns, Entries, Joined, PlainCell, AllRead, PeriodsAgree, ScalesAgree,
         MinorUnitsExist, SaleEntry, SaleCells;
    var lines := ExampleFile();
    var columns := HeaderIsRead();
    TwoRows(columns);
    var body := [Joined(SaleCells("0")), Joined(SaleCells("5"))];
    assert lines[1..] == body;
    var es := [SaleEntry(ZERO_DAY), SaleEntry(5)];
    assert Rows(lines, 0, CONFIG) == es;
    assert es[0] == SaleEntry(ZERO_DAY);
    TwoSalesAgree();
  }

  /** An accepted file whose zero-day row, moved to the end, gets it refused. */
  lemma RowOrderCanMatter() returns (other: seq<string>, r: Result<Report, Failure>)
    ensures HeaderAt(ExampleFile(), 0) && Parses(ExampleFile(), CONFIG, r) && r.Ok?
    ensures HeaderAt(other, 0) && Reordered(ExampleFile(), other, 0) && Refused(other, CONFIG)
  {
    hide InOrder, HeaderAt, Rows, Parses, ExampleFile, Reordered, Refused;
    ExampleIsInOrder();
    r := OutcomeExists(ExampleFile(), CONFIG);
    AcceptedExactly(ExampleFile(), 0, CONFIG, r);
    other := ZeroDayRowMovedLast(ExampleFile(), 0, CONFIG, SaleEntry(ZERO_DAY));
  }
}
