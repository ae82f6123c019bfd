/** The Apple consolidated report: one pass over its lines, exact totals per identifier
    and currency, and a whole-file rejection on the first bad row. */
module AppleReport {
  import opened Text
  import opened Decimal

  const START_DATE := "Start Date"
  const END_DATE := "End Date"
  const IDENTIFIER := "Apple Identifier"
  const QUANTITY := "Quantity"
  const PARTNER_SHARE := "Partner Share"
  const EXTENDED_PARTNER_SHARE := "Extended Partner Share"
  const PARTNER_SHARE_CURRENCY := "Partner Share Currency"
  const SALE_OR_RETURN := "Sale or Return"
  const CUSTOMER_PRICE := "Customer Price"
  const CUSTOMER_CURRENCY := "Customer Currency"

  const REQUIRED: seq<string> := [
    START_DATE, END_DATE, IDENTIFIER, QUANTITY, PARTNER_SHARE, EXTENDED_PARTNER_SHARE,
    PARTNER_SHARE_CURRENCY, SALE_OR_RETURN, CUSTOMER_PRICE, CUSTOMER_CURRENCY]
  const REJECTED: seq<string> := ["Transaction Date", "Settlement Date", "Order Type"]

  /** The day Go's zero time falls on, which the parser also uses for "no period yet". */
  const ZERO_DAY := 0

  datatype Failure = Failure(row: nat, column: string, code: string)

  /** What the parser is given beside the lines: the row limit, the date reader
      (a day number, or none for an invalid date) and the currency exponents. */
  datatype Config = Config(rowLimit: int, dates: string -> Option<int>, exponents: map<string, nat>)

  datatype Accumulator = Accumulator(identifier: string, currency: string, amount: Number)

  datatype Total = Total(identifier: string, currency: string, amount: Number, minorUnits: Option<int>)

  datatype Report = Report(start: int, end: int, totals: seq<Total>)

  // ----------------------------------------------------------------- fields

  function Split(line: string): (fields: seq<string>)
    ensures fields != []
  {
    if line == "" then [""]
    else
      var front := Split(line[..|line| - 1]);
      var c := line[|line| - 1];
      if c == '\t' then front + [""] else front[|front| - 1 := front[|front| - 1] + [c]]
  }

  function Joined(fields: seq<string>): string {
    if fields == [] then ""
    else if |fields| == 1 then fields[0]
    else Joined(fields[..|fields| - 1]) + "\t" + fields[|fields| - 1]
  }

  /** Splitting loses nothing: no field holds a tab, and joining by tabs gives the line. */
  lemma {:induction false} SplitIsExact(line: string)
    ensures Joined(Split(line)) == line
    ensures forall i | 0 <= i < |Split(line)| :: '\t' !in Split(line)[i]
  {
    if line != "" {
      var front, c := line[..|line| - 1], line[|line| - 1];
      SplitIsExact(front);
      var fields, all := Split(front), Split(line);
      assert line == front + [c];
      if c == '\t' {
        assert all[..|all| - 1] == fields;
        assert Joined(all) == Joined(fields) + "\t" + "";
      } else {
        LastFieldGrows(fields, c);
      }
    }
  }

  lemma LastFieldGrows(fields: seq<string>, c: char)
    requires fields != []
    ensures Joined(fields[|fields| - 1 := fields[|fields| - 1] + [c]]) == Joined(fields) + [c]
  {
    var grown := fields[|fields| - 1 := fields[|fields| - 1] + [c]];
    assert grown[..|grown| - 1] == fields[..|fields| - 1];
  }

  function TrimAll(fields: seq<string>): (trimmed: seq<string>)
    ensures |trimmed| == |fields|
  {
    if fields == [] then [] else TrimAll(fields[..|fields| - 1]) + [TrimSpace(fields[|fields| - 1])]
  }

  function SplitFields(line: string): (fields: seq<string>)
    ensures fields != []
  {
    TrimAll(Split(line))
  }

  predicate Blank(line: string) {
    TrimSpace(line) == ""
  }

  // ----------------------------------------------------------------- header

  type Columns = map<string, nat>

  function IndexColumns(fields: seq<string>): Result<Columns, Failure> {
    if fields == [] then Ok(map[])
    else
      match IndexColumns(fields[..|fields| - 1])
      case Err(failure) => Err(failure)
      case Ok(columns) =>
        var field := fields[|fields| - 1];
        if field == "" then Err(Failure(1, "", "header_invalid"))
        else if field in columns then Err(Failure(1, field, "duplicate_column"))
        else Ok(columns[field := |fields| - 1])
  }

  function FirstPresent(names: seq<string>, columns: Columns): (r: Option<string>)
    ensures r.None? <==> forall i | 0 <= i < |names| :: names[i] !in columns
  {
    if names == [] then None
    else if names[0] in columns then Some(names[0])
    else FirstPresent(names[1..], columns)
  }

  function FirstMissing(names: seq<string>, columns: Columns): (r: Option<string>)
    ensures r.None? <==> forall i | 0 <= i < |names| :: names[i] in columns
  {
    if names == [] then None
    else if names[0] !in columns then Some(names[0])
    else FirstMissing(names[1..], columns)
  }

  function Header(fields: seq<string>): Result<Columns, Failure> {
    if fields == [] then Err(Failure(1, "", "header_missing"))
    else
      match IndexColumns(fields)
      case Err(failure) => Err(failure)
      case Ok(columns) =>
        if FirstPresent(REJECTED, columns).Some? then
          Err(Failure(1, FirstPresent(REJECTED, columns).value, "detailed_report"))
        else if FirstMissing(REQUIRED, columns).Some? then
          Err(Failure(1, FirstMissing(REQUIRED, columns).value, "header_invalid"))
        else Ok(columns)
  }

  predicate HasColumn(columns: Columns, width: nat, name: string) {
    name in columns && columns[name] < width
  }

  predicate HasColumns(columns: Columns, width: nat) {
    && HasColumn(columns, width, START_DATE) && HasColumn(columns, width, END_DATE)
    && HasColumn(columns, width, IDENTIFIER) && HasColumn(columns, width, QUANTITY)
    && HasColumn(columns, width, PARTNER_SHARE) && HasColumn(columns, width, EXTENDED_PARTNER_SHARE)
    && HasColumn(columns, width, PARTNER_SHARE_CURRENCY) && HasColumn(columns, width, SALE_OR_RETURN)
    && HasColumn(columns, width, CUSTOMER_PRICE) && HasColumn(columns, width, CUSTOMER_CURRENCY)
  }

  lemma {:induction false} ColumnsAreIndexed(fields: seq<string>)
    ensures IndexColumns(fields).Ok? <==> "" !in fields && NoDuplicates(fields)
    ensures IndexColumns(fields).Ok? ==>
              forall name :: name in IndexColumns(fields).value <==> name in fields
    ensures IndexColumns(fields).Ok? ==>
              forall name | name in IndexColumns(fields).value ::
                IndexColumns(fields).value[name] < |fields| && fields[IndexColumns(fields).value[name]] == name
  {
    if fields != [] {
      var front, last := fields[..|fields| - 1], fields[|fields| - 1];
      assert fields == front + [last];
      ColumnsAreIndexed(front);
      if IndexColumns(front).Ok? && last in front {
        var i :| 0 <= i < |front| && front[i] == last;
        assert fields[i] == fields[|fields| - 1];
      }
      if IndexColumns(front).Err? && NoDuplicates(fields) {
        assert NoDuplicates(front) by {
          forall i, j | 0 <= i < j < |front| ensures front[i] != front[j] {
            assert fields[i] != fields[j];
          }
        }
      }
    }
  }

  /** The accepted headers: no empty or repeated column, every required one and no
      column of the detailed report. Each column is then read at its own position. */
  lemma HeaderIsTheContract(fields: seq<string>)
    ensures Header(fields).Ok? <==>
            && fields != [] && "" !in fields && NoDuplicates(fields)
            && (forall i | 0 <= i < |REJECTED| :: REJECTED[i] !in fields)
            && (forall i | 0 <= i < |REQUIRED| :: REQUIRED[i] in fields)
    ensures Header(fields).Ok? ==> HasColumns(Header(fields).value, |fields|)
    ensures Header(fields).Ok? ==>
              forall name | name in Header(fields).value ::
                Header(fields).value[name] < |fields| && fields[Header(fields).value[name]] == name
  {
    ColumnsAreIndexed(fields);
    hide IndexColumns;
    if Header(fields).Ok? {
      var columns := Header(fields).value;
      assert REQUIRED[0] in columns && REQUIRED[1] in columns && REQUIRED[2] in columns && REQUIRED[3] in columns
             && REQUIRED[4] in columns && REQUIRED[5] in columns && REQUIRED[6] in columns
             && REQUIRED[7] in columns && REQUIRED[8] in columns && REQUIRED[9] in columns;
    }
  }

  // ------------------------------------------------------------- row checks

  function Cell(fields: seq<string>, columns: Columns, name: string): string
    requires HasColumn(columns, |fields|, name)
  {
    fields[columns[name]]
  }

  function Period(fields: seq<string>, columns: Columns, row: nat, config: Config): Result<(int, int), Failure>
    requires HasColumns(columns, |fields|)
  {
    match config.dates(Cell(fields, columns, START_DATE))
    case None => Err(Failure(row, START_DATE, "date_invalid"))
    case Some(start) =>
      match config.dates(Cell(fields, columns, END_DATE))
      case None => Err(Failure(row, END_DATE, "date_invalid"))
      case Some(end) =>
        if end < start then Err(Failure(row, END_DATE, "period_invalid")) else Ok((start, end))
  }

  predicate ValidCurrency(code: string) {
    |code| == 3 && forall i | 0 <= i < |code| :: 'A' <= code[i] <= 'Z'
  }

  function Money(fields: seq<string>, columns: Columns, row: nat, name: string): Result<Number, Failure>
    requires HasColumn(columns, |fields|, name)
  {
    match ParseDecimal(Cell(fields, columns, name))
    case Err(_) => Err(Failure(row, name, "money_invalid"))
    case Ok(amount) => Ok(amount)
  }

  function SaleSign(mark: string, extended: Number, row: nat): Option<Failure> {
    var sign := SignOf(extended.coefficient);
    if mark == "S" then
      if sign < 0 then Some(Failure(row, EXTENDED_PARTNER_SHARE, "sale_return_sign")) else None
    else if mark == "R" then
      if sign > 0 then Some(Failure(row, EXTENDED_PARTNER_SHARE, "sale_return_sign")) else None
    else Some(Failure(row, SALE_OR_RETURN, "sale_return_invalid"))
  }

  /** What one row adds: its extended share under an identifier and currency. */
  datatype Sale = Sale(identifier: string, currency: string, extended: Number)

  function ReadSale(fields: seq<string>, columns: Columns, row: nat): Result<Sale, Failure>
    requires HasColumns(columns, |fields|)
  {
    var identifier := Cell(fields, columns, IDENTIFIER);
    if identifier == "" then Err(Failure(row, IDENTIFIER, "identifier_missing"))
    else
      match Money(fields, columns, row, QUANTITY)
      case Err(failure) => Err(failure)
      case Ok(quantity) =>
        match Money(fields, columns, row, PARTNER_SHARE)
        case Err(failure) => Err(failure)
        case Ok(partnerShare) =>
          match Money(fields, columns, row, EXTENDED_PARTNER_SHARE)
          case Err(failure) => Err(failure)
          case Ok(extended) =>
            match Money(fields, columns, row, CUSTOMER_PRICE)
            case Err(failure) => Err(failure)
            case Ok(_) =>
              var currency := Cell(fields, columns, PARTNER_SHARE_CURRENCY);
              if !ValidCurrency(currency) then Err(Failure(row, PARTNER_SHARE_CURRENCY, "currency_invalid"))
              else if !ValidCurrency(Cell(fields, columns, CUSTOMER_CURRENCY)) then
                Err(Failure(row, CUSTOMER_CURRENCY, "currency_invalid"))
              else
                match SaleSign(Cell(fields, columns, SALE_OR_RETURN), extended, row)
                case Some(failure) => Err(failure)
                case None =>
                  if Compare(Mul(quantity, partnerShare), extended) != 0 then
                    Err(Failure(row, EXTENDED_PARTNER_SHARE, "quantity_mismatch"))
                  else Ok(Sale(identifier, currency, extended))
  }

  lemma SaleIsExact(fields: seq<string>, columns: Columns, row: nat)
    requires HasColumns(columns, |fields|) && ReadSale(fields, columns, row).Ok?
    ensures var sale := ReadSale(fields, columns, row).value;
            && ValidCurrency(sale.currency) && sale.identifier != ""
            && ParseDecimal(Cell(fields, columns, EXTENDED_PARTNER_SHARE)) == Ok(sale.extended)
  {
    hide ParseDigits, Unsigned, TrimSpace, ValidCurrency, Compare, SaleSign;
  }

  // -------------------------------------------------------------- the scan

  /** The map key. A valid currency has three letters, so the key has one reading. */
  function Key(identifier: string, currency: string): string {
    identifier + "\0" + currency
  }

  lemma KeyIsInjective(i1: string, c1: string, i2: string, c2: string)
    requires ValidCurrency(c1) && ValidCurrency(c2) && Key(i1, c1) == Key(i2, c2)
    ensures i1 == i2 && c1 == c2
  {
    var k1, k2 := Key(i1, c1), Key(i2, c2);
    assert |i1| == |i2|;
    assert i1 == k1[..|i1|] && i2 == k2[..|i1|];
    assert c1 == k1[|i1| + 1..] && c2 == k2[|i1| + 1..];
  }

  datatype Progress = Progress(
    columns: Option<Columns>,
    width: nat,
    start: int,
    end: int,
    scales: map<string, nat>,
    totals: map<string, Accumulator>,
    dataRows: nat)

  const INITIAL := Progress(None, 0, ZERO_DAY, ZERO_DAY, map[], map[], 0)

  function AddTotal(totals: map<string, Accumulator>, sale: Sale): Option<map<string, Accumulator>> {
    var key := Key(sale.identifier, sale.currency);
    if key !in totals then Some(totals[key := Accumulator(sale.identifier, sale.currency, sale.extended)])
    else
      match Add(totals[key].amount, sale.extended)
      case Err(_) => None
      case Ok(summed) => Some(totals[key := totals[key].(amount := summed)])
  }

  predicate MixesScales(scales: map<string, nat>, sale: Sale) {
    sale.currency in scales && scales[sale.currency] != sale.extended.scale
  }

  /** Adds one checked sale to the running totals. */
  function Post(p: Progress, sale: Sale, row: nat): Result<Progress, Failure> {
    if MixesScales(p.scales, sale) then Err(Failure(row, EXTENDED_PARTNER_SHARE, "mixed_scale"))
    else
      match AddTotal(p.totals, sale)
      case None => Err(Failure(row, EXTENDED_PARTNER_SHARE, "mixed_scale"))
      case Some(totals) => Ok(p.(scales := p.scales[sale.currency := sale.extended.scale], totals := totals))
  }

  /** One data row, in the order the parser checks it. */
  function Accept(p: Progress, fields: seq<string>, row: nat, config: Config): Result<Progress, Failure>
    requires p.columns.Some? && HasColumns(p.columns.value, p.width)
  {
    if p.dataRows + 1 > config.rowLimit then Err(Failure(row, "", "row_limit"))
    else if |fields| != p.width then Err(Failure(row, "", "truncated_row"))
    else
      match Period(fields, p.columns.value, row, config)
      case Err(failure) => Err(failure)
      case Ok((start, end)) =>
        if p.start != ZERO_DAY && (p.start != start || p.end != end) then
          Err(Failure(row, START_DATE, "mixed_period"))
        else
          match ReadSale(fields, p.columns.value, row)
          case Err(failure) => Err(failure)
          case Ok(sale) => Post(p.(start := start, end := end, dataRows := p.dataRows + 1), sale, row)
  }

  predicate Ready(p: Progress) {
    p.columns.Some? ==> HasColumns(p.columns.value, p.width)
  }

  /** One line: blank lines are skipped, the first other line is the header. */
  function ReadLine(p: Progress, line: string, row: nat, config: Config): (r: Result<Progress, Failure>)
    requires Ready(p)
    ensures r.Ok? ==> Ready(r.value)
  {
    if Blank(line) then Ok(p)
    else
      var fields := SplitFields(line);
      if p.columns.Some? then Accept(p, fields, row, config)
      else
        HeaderIsTheContract(fields);
        match Header(fields)
        case Err(failure) => Err(failure)
        case Ok(columns) => Ok(p.(columns := Some(columns), width := |fields|))
  }

  /** The lines read from the top, stopping at the first failure. */
  function Scan(lines: seq<string>, config: Config): (r: Result<Progress, Failure>)
    ensures r.Ok? ==> Ready(r.value)
  {
    if lines == [] then Ok(INITIAL)
    else
      match Scan(lines[..|lines| - 1], config)
      case Err(failure) => Err(failure)
      case Ok(p) => ReadLine(p, lines[|lines| - 1], |lines|, config)
  }

  lemma {:induction false} FirstFailureStands(lines: seq<string>, i: nat, config: Config)
    requires i <= |lines| && Scan(lines[..i], config).Err?
    ensures Scan(lines, config) == Scan(lines[..i], config)
    decreases |lines|
  {
    if i == |lines| {
      assert lines[..i] == lines;
    } else {
      assert lines[..|lines| - 1][..i] == lines[..i];
      FirstFailureStands(lines[..|lines| - 1], i, config);
    }
  }

  // ---------------------------------------------------------------- totals

  function MinorUnitsOf(a: Accumulator, config: Config): Result<Option<int>, Failure> {
    if a.currency !in config.exponents then Ok(None)
    else
      match MinorUnits(a.amount, config.exponents[a.currency])
      case Err(_) => Err(Failure(0, EXTENDED_PARTNER_SHARE, "minor_unit_scale"))
      case Ok(minor) => Ok(minor)
  }

  predicate Listed(t: Total, a: Accumulator, config: Config) {
    t.identifier == a.identifier && t.currency == a.currency && t.amount == a.amount
    && Ok(t.minorUnits) == MinorUnitsOf(a, config)
  }

  predicate Before(a: Total, b: Total) {
    if a.identifier != b.identifier then Less(a.identifier, b.identifier) else Less(a.currency, b.currency)
  }

  ghost predicate Ordered(totals: seq<Total>) {
    forall i, j | 0 <= i < j < |totals| :: Before(totals[i], totals[j])
  }

  /** The report lists exactly the accumulated totals, in order. */
  ghost predicate Lists(listed: seq<Total>, totals: map<string, Accumulator>, config: Config) {
    && Ordered(listed)
    && (forall t | t in listed ::
          Key(t.identifier, t.currency) in totals && Listed(t, totals[Key(t.identifier, t.currency)], config))
    && (forall k | k in totals :: HasKey(listed, k))
  }

  ghost predicate HasKey(listed: seq<Total>, k: string) {
    exists t | t in listed :: k == Key(t.identifier, t.currency)
  }

  ghost predicate MinorUnitsFit(totals: map<string, Accumulator>, config: Config) {
    forall k | k in totals :: MinorUnitsOf(totals[k], config).Ok?
  }

  /** What parsing a file may return. */
  ghost predicate Parses(lines: seq<string>, config: Config, r: Result<Report, Failure>) {
    if config.rowLimit <= 0 then r == Err(Failure(0, "", "row_limit"))
    else
      match Scan(lines, config)
      case Err(failure) => r == Err(failure)
      case Ok(p) =>
        if p.columns.None? then r == Err(Failure(0, "", "header_missing"))
        else if p.start == ZERO_DAY then r == Err(Failure(0, START_DATE, "period_missing"))
        else if !MinorUnitsFit(p.totals, config) then
          r == Err(Failure(0, EXTENDED_PARTNER_SHARE, "minor_unit_scale"))
        else r.Ok? && r.value.start == p.start && r.value.end == p.end && Lists(r.value.totals, p.totals, config)
  }

  // ------------------------------------------------------------ the parser

  function InsertTotal(t: Total, totals: seq<Total>): seq<Total> {
    if totals == [] then [t]
    else if Before(totals[0], t) then [totals[0]] + InsertTotal(t, totals[1..])
    else [t] + totals
  }

  lemma {:induction false} InsertOrders(t: Total, totals: seq<Total>)
    requires Ordered(totals)
    requires forall u | u in totals :: u.identifier != t.identifier || u.currency != t.currency
    ensures Ordered(InsertTotal(t, totals))
    ensures forall u :: u in InsertTotal(t, totals) <==> u == t || u in totals
  {
    if totals == [] {
    } else if Before(totals[0], t) {
      var rest := totals[1..];
      InsertOrders(t, rest);
      var inserted := InsertTotal(t, rest);
      forall j | 0 <= j < |inserted| ensures Before(totals[0], inserted[j]) {
        assert inserted[j] == t || inserted[j] in rest;
      }
    } else {
      assert totals[0] in totals;
      BeforeIsTotal(t, totals[0]);
      forall j | 0 < j < |totals| ensures Before(t, totals[j]) {
        BeforeIsTransitive(t, totals[0], totals[j]);
      }
    }
  }

  /** sort.Slice by identifier, then currency. */
  function SortTotals(totals: seq<Total>): seq<Total> {
    if totals == [] then [] else InsertTotal(totals[|totals| - 1], SortTotals(totals[..|totals| - 1]))
  }

  ghost predicate Distinct(totals: seq<Total>) {
    forall i, j | 0 <= i < j < |totals| ::
      totals[i].identifier != totals[j].identifier || totals[i].currency != totals[j].currency
  }

  lemma {:induction false} SortOrders(totals: seq<Total>)
    requires Distinct(totals)
    ensures Ordered(SortTotals(totals))
    ensures forall t :: t in SortTotals(totals) <==> t in totals
  {
    if totals != [] {
      var front, last := totals[..|totals| - 1], totals[|totals| - 1];
      SortOrders(front);
      forall u | u in SortTotals(front) ensures u.identifier != last.identifier || u.currency != last.currency {
        assert u in front;
      }
      InsertOrders(last, SortTotals(front));
      assert totals == front + [last];
    }
  }

  lemma BeforeIsTotal(a: Total, b: Total)
    ensures (a.identifier == b.identifier && a.currency == b.currency) || Before(a, b) || Before(b, a)
  {
    LessTotal(a.identifier, b.identifier);
    LessTotal(a.currency, b.currency);
  }

  lemma BeforeIsTransitive(a: Total, b: Total, c: Total)
    requires Before(a, b) && Before(b, c)
    ensures Before(a, c)
  {
    if a.identifier == b.identifier == c.identifier {
      LessTransitive(a.currency, b.currency, c.currency);
    } else if a.identifier != b.identifier && b.identifier != c.identifier {
      LessTransitive(a.identifier, b.identifier, c.identifier);
      LessAsymmetric(a.identifier, b.identifier);
    }
  }

  lemma BeforeIsIrreflexive(a: Total)
    ensures !Before(a, a)
  {
    LessIrreflexive(a.currency);
  }

  ghost predicate WellKeyed(totals: map<string, Accumulator>) {
    forall k | k in totals ::
      ValidCurrency(totals[k].currency) && k == Key(totals[k].identifier, totals[k].currency)
  }

  lemma OneMore(listed: seq<Total>, t: Total, k: string)
    requires HasKey(listed, k) || k == Key(t.identifier, t.currency)
    ensures HasKey(listed + [t], k)
  {
    if HasKey(listed, k) {
      var u :| u in listed && k == Key(u.identifier, u.currency);
      assert u in listed + [t];
    } else {
      assert t in listed + [t];
    }
  }

  /** Reads the totals in any map order, then sorts them. */
  method CollectTotals(totals: map<string, Accumulator>, config: Config) returns (r: Result<seq<Total>, Failure>)
    requires WellKeyed(totals)
    ensures r.Ok? <==> MinorUnitsFit(totals, config)
    ensures r.Ok? ==> Lists(r.value, totals, config)
    ensures r.Err? ==> r == Err(Failure(0, EXTENDED_PARTNER_SHARE, "minor_unit_scale"))
  {
    hide MinorUnits, ValidCurrency, Before, Key, HasKey;
    var keys := totals.Keys;
    var listed: seq<Total> := [];
    while keys != {}
      invariant keys <= totals.Keys
      invariant Distinct(listed)
      invariant forall k | k in totals.Keys - keys :: MinorUnitsOf(totals[k], config).Ok?
      invariant forall t | t in listed ::
          Key(t.identifier, t.currency) in totals && Key(t.identifier, t.currency) !in keys
          && Listed(t, totals[Key(t.identifier, t.currency)], config)
      invariant forall k | k in totals.Keys - keys :: HasKey(listed, k)
    {
      var key :| key in keys;
      var minor := MinorUnitsOf(totals[key], config);
      if minor.Err? {
        return Err(minor.error);
      }
      var a := totals[key];
      var t := Total(a.identifier, a.currency, a.amount, minor.value);
      forall i | 0 <= i < |listed|
        ensures listed[i].identifier != t.identifier || listed[i].currency != t.currency
      {
        assert listed[i] in listed;
      }
      forall k | k in totals.Keys - (keys - {key}) ensures HasKey(listed + [t], k) {
        OneMore(listed, t, k);
      }
      listed := listed + [t];
      keys := keys - {key};
    }
    SortOrders(listed);
    var sorted := SortTotals(listed);
    forall k | k in totals ensures HasKey(sorted, k) {
      SameKeys(listed, sorted, k);
    }
    return Ok(sorted);
  }

  lemma SameKeys(a: seq<Total>, b: seq<Total>, k: string)
    requires HasKey(a, k) && forall t :: t in a ==> t in b
    ensures HasKey(b, k)
  {
    var t :| t in a && k == Key(t.identifier, t.currency);
    assert t in b;
  }

  lemma {:induction false} TotalsAreKeyed(lines: seq<string>, config: Config)
    requires Scan(lines, config).Ok?
    ensures WellKeyed(Scan(lines, config).value.totals)
  {
    if lines != [] {
      TotalsAreKeyed(lines[..|lines| - 1], config);
      LineKeepsKeys(Scan(lines[..|lines| - 1], config).value, lines[|lines| - 1], |lines|, config);
    }
  }

  lemma PostKeepsKeys(p: Progress, sale: Sale, row: nat)
    requires WellKeyed(p.totals) && ValidCurrency(sale.currency) && Post(p, sale, row).Ok?
    ensures WellKeyed(Post(p, sale, row).value.totals)
  {
    hide Key, ValidCurrency;
  }

  lemma LineKeepsKeys(p: Progress, line: string, row: nat, config: Config)
    requires Ready(p) && WellKeyed(p.totals) && ReadLine(p, line, row, config).Ok?
    ensures WellKeyed(ReadLine(p, line, row, config).value.totals)
  {
    hide WellKeyed, Post, Period, Header, HasColumns, ReadSale, ValidCurrency, ParseDecimal, Blank;
    if !Blank(line) && p.columns.Some? {
      var fields := SplitFields(line);
      SaleIsExact(fields, p.columns.value, row);
      var (start, end) := Period(fields, p.columns.value, row, config).value;
      PostKeepsKeys(p.(start := start, end := end, dataRows := p.dataRows + 1),
                    ReadSale(fields, p.columns.value, row).value, row);
    }
  }

  /** Reads one tab-delimited consolidated report, given its lines. */
  method ParseAppleConsolidated(lines: seq<string>, config: Config) returns (r: Result<Report, Failure>)
    ensures Parses(lines, config, r)
  {
    hide Header, HasColumns, Period, ReadSale, Post, Lists, MinorUnitsFit, Blank;
    if config.rowLimit <= 0 {
      return Err(Failure(0, "", "row_limit"));
    }
    var columns: Option<Columns> := None;
    var width: nat := 0;
    var periodStart, periodEnd := ZERO_DAY, ZERO_DAY;
    var scales: map<string, nat> := map[];
    var totals: map<string, Accumulator> := map[];
    var dataRows: nat := 0;
    for index := 0 to |lines|
      invariant Scan(lines[..index], config)
             == Ok(Progress(columns, width, periodStart, periodEnd, scales, totals, dataRows))
      invariant Ready(Progress(columns, width, periodStart, periodEnd, scales, totals, dataRows))
    {
      var line := lines[index];
      var p := Progress(columns, width, periodStart, periodEnd, scales, totals, dataRows);
      assert lines[..index + 1][..index] == lines[..index];
      assert Scan(lines[..index + 1], config) == ReadLine(p, line, index + 1, config);
      if ReadLine(p, line, index + 1, config).Err? {
        FirstFailureStands(lines, index + 1, config);
      }
      if Blank(line) {
        continue;
      }
      var row := index + 1;
      var fields := SplitFields(line);
      if columns.None? {
        var parsed := Header(fields);
        if parsed.Err? {
          return Err(parsed.error);
        }
        columns := Some(parsed.value);
        width := |fields|;
        HeaderIsTheContract(fields);
        continue;
      }
      dataRows := dataRows + 1;
      if dataRows > config.rowLimit {
        return Err(Failure(row, "", "row_limit"));
      }
      if |fields| != width {
        return Err(Failure(row, "", "truncated_row"));
      }
      var period := Period(fields, columns.value, row, config);
      if period.Err? {
        return Err(period.error);
      }
      var (start, end) := period.value;
      if periodStart == ZERO_DAY {
        periodStart := start;
        periodEnd := end;
      } else if periodStart != start || periodEnd != end {
        return Err(Failure(row, START_DATE, "mixed_period"));
      }
      var sale := ReadSale(fields, columns.value, row);
      if sale.Err? {
        return Err(sale.error);
      }
      var posted := AddSale(Progress(columns, width, periodStart, periodEnd, scales, totals, dataRows), sale.value, row);
      if posted.Err? {
        return Err(posted.error);
      }
      scales := posted.value.0;
      totals := posted.value.1;
    }
    assert lines[..|lines|] == lines;
    if columns.None? {
      return Err(Failure(0, "", "header_missing"));
    }
    if periodStart == ZERO_DAY {
      return Err(Failure(0, START_DATE, "period_missing"));
    }
    TotalsAreKeyed(lines, config);
    var listed := CollectTotals(totals, config);
    if listed.Err? {
      return Err(listed.error);
    }
    return Ok(Report(periodStart, periodEnd, listed.value));
  }

  /** The scale check and the accumulator update for one sale. */
  method AddSale(p: Progress, sale: Sale, row: nat)
    returns (r: Result<(map<string, nat>, map<string, Accumulator>), Failure>)
    ensures match Post(p, sale, row)
            case Err(failure) => r == Err(failure)
            case Ok(q) => r == Ok((q.scales, q.totals)) && q == p.(scales := q.scales, totals := q.totals)
  {
    hide Key;
    var scales, totals := p.scales, p.totals;
    if sale.currency in scales && scales[sale.currency] != sale.extended.scale {
      return Err(Failure(row, EXTENDED_PARTNER_SHARE, "mixed_scale"));
    }
    scales := scales[sale.currency := sale.extended.scale];
    var key := Key(sale.identifier, sale.currency);
    if key !in totals {
      totals := totals[key := Accumulator(sale.identifier, sale.currency, sale.extended)];
      return Ok((scales, totals));
    }
    var current := totals[key];
    var summed := Add(current.amount, sale.extended);
    if summed.Err? {
      return Err(Failure(row, EXTENDED_PARTNER_SHARE, "mixed_scale"));
    }
    current := current.(amount := summed.value);
    totals := totals[key := current];
    return Ok((scales, totals));
  }
}
