/** The main results about the Apple consolidated parser. */
module AppleReportTheorems {
  import opened Text
  import opened Decimal
  import opened AppleReport
  import opened AppleReportLaws

  /** The first line that is not blank. */
  ghost predicate HeaderAt(lines: seq<string>, h: nat) {
    h < |lines| && !Blank(lines[h]) && forall i | 0 <= i < h :: Blank(lines[i])
  }

  lemma {:induction false} BlankLinesAreSkipped(lines: seq<string>, config: Config)
    requires forall i | 0 <= i < |lines| :: Blank(lines[i])
    ensures Scan(lines, config) == Ok(INITIAL)
  {
    hide Blank, Accept, Header;
    if lines != [] {
      BlankLinesAreSkipped(lines[..|lines| - 1], config);
    }
  }

  lemma ScanHeader(lines: seq<string>, h: nat, config: Config)
    requires HeaderAt(lines, h)
    ensures var fields := SplitFields(lines[h]);
            match Header(fields)
            case Err(failure) => Scan(lines[..h + 1], config) == Err(failure)
            case Ok(columns) =>
              && HasColumns(columns, |fields|)
              && Scan(lines[..h + 1], config) == Ok(INITIAL.(columns := Some(columns), width := |fields|))
  {
    hide Blank, Accept, HasColumns;
    var fields := SplitFields(lines[h]);
    HeaderIsTheContract(fields);
    hide Header, SplitFields;
    assert lines[..h + 1][..h] == lines[..h];
    BlankLinesAreSkipped(lines[..h], config);
  }

  ghost predicate MinorUnitsExist(es: seq<Entry>, config: Config) {
    forall e | e in es && e.currency in config.exponents ::
      MinorUnits(Exact(Sum(es, e.identifier, e.currency), e.amount.scale), config.exponents[e.currency]).Ok?
  }

  /** The rows of a file, given where its header is. */
  function Rows(lines: seq<string>, h: nat, config: Config): seq<Entry>
    requires h < |lines|
  {
    var fields := SplitFields(lines[h]);
    match Header(fields)
    case Err(_) => []
    case Ok(columns) =>
      if HasColumns(columns, |fields|) then Entries(lines[h + 1..], columns, |fields|, config) else []
  }

  /** The files the parser is meant to accept: every row reads on its own, there is at
      least one and at most the limit, they share one period and one scale per currency,
      and every total has minor units where the currency has an exponent. */
  ghost predicate InOrder(lines: seq<string>, h: nat, config: Config)
    requires HeaderAt(lines, h)
  {
    var fields := SplitFields(lines[h]);
    && config.rowLimit > 0
    && Header(fields).Ok? && HasColumns(Header(fields).value, |fields|)
    && BodyReads(lines[h + 1..], Header(fields).value, |fields|, config)
    && var es := Rows(lines, h, config);
       es != [] && es[|es| - 1].start != ZERO_DAY && MinorUnitsExist(es, config)
  }

  ghost predicate HasTotal(totals: seq<Total>, identifier: string, currency: string) {
    exists t | t in totals :: t.identifier == identifier && t.currency == currency
  }

  ghost predicate ExactTotal(t: Total, es: seq<Entry>, config: Config) {
    && Has(es, t.identifier, t.currency)
    && t.amount.coefficient == Sum(es, t.identifier, t.currency)
    && (forall e | e in es :: e.currency == t.currency ==> e.amount.scale == t.amount.scale)
    && (t.currency !in config.exponents ==> t.minorUnits == None)
    && (t.currency in config.exponents ==> Ok(t.minorUnits) == MinorUnits(t.amount, config.exponents[t.currency]))
  }

  /** One total per identifier and currency of the rows, each their exact sum. */
  ghost predicate ExactTotals(totals: seq<Total>, es: seq<Entry>, config: Config) {
    && Ordered(totals)
    && (forall t | t in totals :: ExactTotal(t, es, config))
    && (forall e | e in es :: HasTotal(totals, e.identifier, e.currency))
  }

  lemma MinorUnitsAgree(totals: map<string, Accumulator>, es: seq<Entry>, config: Config)
    requires TotalsDescribe(totals, es)
    ensures MinorUnitsFit(totals, config) <==> MinorUnitsExist(es, config)
  {
    hide Key, ValidCurrency, MinorUnits;
    if MinorUnitsFit(totals, config) {
      forall e | e in es && e.currency in config.exponents
        ensures MinorUnits(Exact(Sum(es, e.identifier, e.currency), e.amount.scale), config.exponents[e.currency]).Ok?
      {
        var a := totals[Key(e.identifier, e.currency)];
        KeyOfEntry(totals, es, e);
        assert a.amount == Exact(Sum(es, e.identifier, e.currency), e.amount.scale);
        assert MinorUnitsOf(a, config).Ok?;
      }
    }
    if MinorUnitsExist(es, config) {
      forall k | k in totals ensures MinorUnitsOf(totals[k], config).Ok? {
        var a := totals[k];
        var e :| e in es && Matches(e, a.identifier, a.currency);
        assert a.amount == Exact(Sum(es, e.identifier, e.currency), e.amount.scale);
      }
    }
  }

  lemma KeyOfEntry(totals: map<string, Accumulator>, es: seq<Entry>, e: Entry)
    requires TotalsDescribe(totals, es) && e in es
    ensures Key(e.identifier, e.currency) in totals
    ensures var a := totals[Key(e.identifier, e.currency)];
            a.identifier == e.identifier && a.currency == e.currency
  {
    hide ValidCurrency, Key;
    var k := Key(e.identifier, e.currency);
    KeyIsInjective(totals[k].identifier, totals[k].currency, e.identifier, e.currency);
  }

  lemma TotalsAreListed(listed: seq<Total>, totals: map<string, Accumulator>, es: seq<Entry>, config: Config)
    requires TotalsDescribe(totals, es) && Lists(listed, totals, config)
    ensures ExactTotals(listed, es, config)
  {
    hide MinorUnits, Ordered, ValidCurrency;
    forall e | e in es ensures HasTotal(listed, e.identifier, e.currency) {
      KeyOfEntry(totals, es, e);
      var k := Key(e.identifier, e.currency);
      assert HasKey(listed, k);
      var t :| t in listed && k == Key(t.identifier, t.currency);
      assert Listed(t, totals[k], config);
    }
    forall t | t in listed ensures ExactTotal(t, es, config) {
      assert Listed(t, totals[Key(t.identifier, t.currency)], config);
      assert Totalled(totals[Key(t.identifier, t.currency)], es);
    }
  }

  /** A file is accepted exactly when it is in order, and the report then carries its
      period and the exact total of every identifier and currency. */
  lemma AcceptedExactly(lines: seq<string>, h: nat, config: Config, r: Result<Report, Failure>)
    requires HeaderAt(lines, h) && Parses(lines, config, r)
    ensures r.Ok? <==> InOrder(lines, h, config)
    ensures r.Ok? ==>
              var es := Rows(lines, h, config);
              && SamePeriod(es[|es| - 1], Entry(r.value.start, r.value.end, "", "", Exact(0, 0)))
              && ExactTotals(r.value.totals, es, config)
  {
    hide Blank, Header, SplitFields, HasColumns, BodyReads, Entries, Lists, MinorUnitsFit, MinorUnitsExist,
         ScalesDescribe, TotalsDescribe, ExactTotals;
    ScanHeader(lines, h, config);
    if config.rowLimit > 0 {
      var fields := SplitFields(lines[h]);
      match Header(fields) {
        case Err(failure) =>
          FirstFailureStands(lines, h + 1, config);
        case Ok(columns) =>
          ScanBody(lines, h, columns, |fields|, config);
          if Scan(lines, config).Ok? {
            var es := Rows(lines, h, config);
            var p := Scan(lines, config).value;
            MinorUnitsAgree(p.totals, es, config);
            if r.Ok? {
              TotalsAreListed(r.value.totals, p.totals, es, config);
            }
          }
      }
    }
  }

  /** Without any data the file is refused. */
  lemma BlankFileIsRefused(lines: seq<string>, config: Config, r: Result<Report, Failure>)
    requires (forall i | 0 <= i < |lines| :: Blank(lines[i])) && Parses(lines, config, r)
    ensures r.Err?
  {
    BlankLinesAreSkipped(lines, config);
  }

  // ---------------------------------------------------------- order of rows

  /** The same lines with those after the header in another order. */
  ghost predicate Reordered(a: seq<string>, b: seq<string>, h: nat) {
    && h < |a| && h < |b| && a[..h + 1] == b[..h + 1]
    && multiset(a[h + 1..]) == multiset(b[h + 1..])
  }

  lemma {:induction false} EntriesSplit(a: seq<string>, b: seq<string>, columns: Columns, width: nat, config: Config)
    requires HasColumns(columns, width)
    ensures Entries(a + b, columns, width, config)
         == Entries(a, columns, width, config) + Entries(b, columns, width, config)
    decreases |b|
  {
    hide HasColumns, EntryOf, Blank;
    if b == [] {
      assert a + b == a;
    } else {
      EntriesSplit(a, b[..|b| - 1], columns, width, config);
      assert (a + b)[..|a + b| - 1] == a + b[..|b| - 1];
    }
  }

  lemma {:induction false} SumSplit(a: seq<Entry>, b: seq<Entry>, identifier: string, currency: string)
    ensures Sum(a + b, identifier, currency) == Sum(a, identifier, currency) + Sum(b, identifier, currency)
    decreases |b|
  {
    if b == [] {
      assert a + b == a;
    } else {
      SumSplit(a, b[..|b| - 1], identifier, currency);
      assert (a + b)[..|a + b| - 1] == a + b[..|b| - 1];
    }
  }

  /** Takes the last element of `a` out of a reordering of it. */
  lemma TakeOut<T>(a: seq<T>, b: seq<T>) returns (left: seq<T>, right: seq<T>)
    requires a != [] && multiset(a) == multiset(b)
    ensures b == left + [a[|a| - 1]] + right
    ensures multiset(left + right) == multiset(a[..|a| - 1])
  {
    var front, x := a[..|a| - 1], a[|a| - 1];
    assert a == front + [x];
    assert x in multiset(a);
    var i :| 0 <= i < |b| && b[i] == x;
    left, right := b[..i], b[i + 1..];
    assert b == left + [x] + right;
    assert multiset(front) + multiset{x} == multiset(left + right) + multiset{x};
    Cancel(multiset(front), multiset(left + right), x);
  }

  lemma Cancel<T>(a: multiset<T>, b: multiset<T>, x: T)
    requires a + multiset{x} == b + multiset{x}
    ensures a == b
  {
    assert a == (a + multiset{x}) - multiset{x};
    assert b == (b + multiset{x}) - multiset{x};
  }

  lemma PutBack<T>(a: seq<T>, x: seq<T>, left: seq<T>, right: seq<T>)
    requires multiset(a) == multiset(left + right)
    ensures multiset(a + x) == multiset(left + x + right)
  {
  }

  lemma {:induction false} SumIsOrderFree(a: seq<Entry>, b: seq<Entry>, identifier: string, currency: string)
    requires multiset(a) == multiset(b)
    ensures Sum(a, identifier, currency) == Sum(b, identifier, currency)
    decreases |a|
  {
    if a == [] {
      assert |multiset(b)| == 0;
    } else {
      var x := a[|a| - 1];
      var left, right := TakeOut(a, b);
      SumIsOrderFree(a[..|a| - 1], left + right, identifier, currency);
      SumSplit(left, right, identifier, currency);
      SumSplit(left + [x], right, identifier, currency);
    }
  }

  lemma EntriesAround(front: seq<string>, x: string, left: seq<string>, right: seq<string>,
                      columns: Columns, width: nat, config: Config)
    requires HasColumns(columns, width)
    requires multiset(Entries(front, columns, width, config)) == multiset(Entries(left + right, columns, width, config))
    ensures multiset(Entries(front + [x], columns, width, config))
         == multiset(Entries(left + [x] + right, columns, width, config))
  {
    hide *;
    EntriesSplit(left, right, columns, width, config);
    EntriesSplit(left + [x], right, columns, width, config);
    EntriesSplit(left, [x], columns, width, config);
    EntriesSplit(front, [x], columns, width, config);
    PutBack(Entries(front, columns, width, config), Entries([x], columns, width, config),
            Entries(left, columns, width, config), Entries(right, columns, width, config));
  }

  lemma {:induction false} EntriesAreOrderFree(a: seq<string>, b: seq<string>, columns: Columns, width: nat,
                                               config: Config)
    requires HasColumns(columns, width) && multiset(a) == multiset(b)
    ensures multiset(Entries(a, columns, width, config)) == multiset(Entries(b, columns, width, config))
    decreases |a|
  {
    hide *;
    if a == [] {
      assert |multiset(b)| == 0;
      assert b == [];
    } else {
      var front, x := a[..|a| - 1], a[|a| - 1];
      var left, right := TakeOut(a, b);
      EntriesAreOrderFree(front, left + right, columns, width, config);
      EntriesAround(front, x, left, right, columns, width, config);
      assert a == front + [x];
    }
  }

  /** Every row starts on a day other than the zero day. */
  ghost predicate FixesPeriod(es: seq<Entry>) {
    forall e | e in es :: e.start != ZERO_DAY
  }

  ghost predicate OnePeriod(es: seq<Entry>) {
    forall a, b | a in es && b in es :: SamePeriod(a, b)
  }

  lemma PeriodsAreOrderFree(es: seq<Entry>)
    requires FixesPeriod(es)
    ensures PeriodsAgree(es) <==> OnePeriod(es)
  {
    if PeriodsAgree(es) {
      forall a, b | a in es && b in es ensures SamePeriod(a, b) {
        var i :| 0 <= i < |es| && es[i] == a;
        var j :| 0 <= j < |es| && es[j] == b;
        if i < j {
          assert SamePeriod(es[i], es[j]);
        } else if j < i {
          assert SamePeriod(es[j], es[i]);
        }
      }
    }
    if OnePeriod(es) {
      forall i, j | 0 <= i < j < |es| ensures es[i].start == ZERO_DAY || SamePeriod(es[i], es[j]) {
        assert es[i] in es && es[j] in es;
      }
    }
  }

  lemma AllReadIsOrderFree(a: seq<string>, b: seq<string>, columns: Columns, width: nat, config: Config)
    requires HasColumns(columns, width) && multiset(a) == multiset(b) && AllRead(a, columns, width, config)
    ensures AllRead(b, columns, width, config)
  {
    hide HasColumns, EntryOf, Blank;
    SameMembers(a, b);
    forall i | 0 <= i < |b| ensures Blank(b[i]) || EntryOf(b[i], columns, width, config).Some? {
      assert b[i] in a;
    }
  }

  lemma BodyReadsIsOrderFree(a: seq<string>, b: seq<string>, columns: Columns, width: nat, config: Config)
    requires HasColumns(columns, width) && multiset(a) == multiset(b)
    requires BodyReads(a, columns, width, config) && FixesPeriod(Entries(a, columns, width, config))
    ensures BodyReads(b, columns, width, config)
  {
    hide HasColumns, EntryOf, Blank, AllRead, Entries, PeriodsAgree;
    var es, fs := Entries(a, columns, width, config), Entries(b, columns, width, config);
    AllReadIsOrderFree(a, b, columns, width, config);
    EntriesAreOrderFree(a, b, columns, width, config);
    SameMembers(es, fs);
    PeriodsAreOrderFree(es);
    PeriodsAreOrderFree(fs);
    forall e | e in fs ensures ScaleFits(fs, e) {
      assert e in es && ScaleFits(es, e);
    }
  }

  lemma MinorUnitsAreOrderFree(es: seq<Entry>, fs: seq<Entry>, config: Config)
    requires multiset(es) == multiset(fs) && MinorUnitsExist(es, config)
    ensures MinorUnitsExist(fs, config)
  {
    hide MinorUnits;
    SameMembers(es, fs);
    forall e | e in fs && e.currency in config.exponents
      ensures MinorUnits(Exact(Sum(fs, e.identifier, e.currency), e.amount.scale), config.exponents[e.currency]).Ok?
    {
      SumIsOrderFree(es, fs, e.identifier, e.currency);
      assert e in es;
    }
  }

  lemma ExactTotalIsOrderFree(t: Total, es: seq<Entry>, fs: seq<Entry>, config: Config)
    requires multiset(es) == multiset(fs) && ExactTotal(t, es, config)
    ensures ExactTotal(t, fs, config)
  {
    hide MinorUnits;
    SameMembers(es, fs);
    SumIsOrderFree(es, fs, t.identifier, t.currency);
    var e :| e in es && Matches(e, t.identifier, t.currency);
    assert e in fs;
  }

  lemma ExactTotalsMatch(a: seq<Total>, b: seq<Total>, es: seq<Entry>, config: Config, t: Total)
    requires ExactTotals(a, es, config) && ExactTotals(b, es, config) && t in a
    ensures t in b
  {
    hide MinorUnits, Ordered;
    assert ExactTotal(t, es, config);
    var e :| e in es && Matches(e, t.identifier, t.currency);
    assert HasTotal(b, e.identifier, e.currency);
    var u :| u in b && u.identifier == e.identifier && u.currency == e.currency;
    assert ExactTotal(u, es, config);
    assert t.amount == u.amount && t.minorUnits == u.minorUnits;
  }

  lemma {:induction false} OrderedAreEqual(a: seq<Total>, b: seq<Total>)
    requires Ordered(a) && Ordered(b) && forall t :: t in a <==> t in b
    ensures a == b
  {
    hide Before;
    if a != [] {
      assert a[0] in b;
    }
    if b != [] {
      assert b[0] in a;
    }
    if a != [] {
      var x, y := a[0], b[0];
      assert x in b && y in a;
      var i :| 0 <= i < |b| && b[i] == x;
      var j :| 0 <= j < |a| && a[j] == y;
      if i > 0 && j > 0 {
        assert Before(b[0], b[i]) && Before(a[0], a[j]);
        BeforeIsTransitive(x, y, x);
        BeforeIsIrreflexive(x);
      }
      assert x == y;
      forall t ensures t in a[1..] <==> t in b[1..] {
        TailMembers(a, t);
        TailMembers(b, t);
      }
      OrderedAreEqual(a[1..], b[1..]);
      assert a == [x] + a[1..] && b == [y] + b[1..];
    }
  }

  lemma TailMembers(a: seq<Total>, t: Total)
    requires a != [] && Ordered(a)
    ensures t in a[1..] <==> t in a && t != a[0]
  {
    hide Before;
    if t in a[1..] {
      var i :| 0 < i < |a| && a[i] == t;
      assert Before(a[0], a[i]);
      BeforeIsIrreflexive(a[0]);
    }
  }

  /** The exact totals of the same rows are the same list, whatever their order. */
  lemma TotalsAreOrderFree(a: seq<Total>, b: seq<Total>, es: seq<Entry>, fs: seq<Entry>, config: Config)
    requires multiset(es) == multiset(fs) && ExactTotals(a, es, config) && ExactTotals(b, fs, config)
    ensures a == b
  {
    hide ExactTotal, Ordered;
    SameMembers(es, fs);
    forall t | t in b ensures ExactTotal(t, es, config) {
      ExactTotalIsOrderFree(t, fs, es, config);
    }
    assert ExactTotals(b, es, config);
    forall t ensures t in a <==> t in b {
      if t in a { ExactTotalsMatch(a, b, es, config, t); }
      if t in b { ExactTotalsMatch(b, a, es, config, t); }
    }
    OrderedAreEqual(a, b);
  }

  /** When every row fixes the period, acceptance does not depend on the row order. */
  lemma InOrderIsOrderFree(a: seq<string>, b: seq<string>, h: nat, config: Config)
    requires HeaderAt(a, h) && HeaderAt(b, h) && Reordered(a, b, h)
    requires InOrder(a, h, config) && FixesPeriod(Rows(a, h, config))
    ensures InOrder(b, h, config)
  {
    hide Blank, Header, SplitFields, HasColumns, BodyReads, Entries, MinorUnitsExist;
    assert a[..h + 1][h] == b[..h + 1][h];
    var fields := SplitFields(a[h]);
    var columns := Header(fields).value;
    BodyReadsIsOrderFree(a[h + 1..], b[h + 1..], columns, |fields|, config);
    EntriesAreOrderFree(a[h + 1..], b[h + 1..], columns, |fields|, config);
    var es, fs := Rows(a, h, config), Rows(b, h, config);
    SameMembers(es, fs);
    assert fs[|fs| - 1] in es;
    MinorUnitsAreOrderFree(es, fs, config);
  }

  lemma RowsAreOrderFree(a: seq<string>, b: seq<string>, h: nat, config: Config)
    requires HeaderAt(a, h) && HeaderAt(b, h) && Reordered(a, b, h)
    ensures a[h] == b[h]
    ensures multiset(Rows(a, h, config)) == multiset(Rows(b, h, config))
  {
    hide Blank, Header, SplitFields, HasColumns, Entries;
    assert a[..h + 1][h] == b[..h + 1][h];
    var fields := SplitFields(a[h]);
    if Header(fields).Ok? && HasColumns(Header(fields).value, |fields|) {
      EntriesAreOrderFree(a[h + 1..], b[h + 1..], Header(fields).value, |fields|, config);
    }
  }

  lemma OnePeriodOf(es: seq<Entry>)
    requires FixesPeriod(es) && PeriodsAgree(es) && es != []
    ensures forall e | e in es :: SamePeriod(es[|es| - 1], e)
  {
    PeriodsAreOrderFree(es);
    assert es[|es| - 1] in es;
  }

  /** Reading the same rows in another order gives the same report. */
  lemma RowOrderDoesNotMatter(a: seq<string>, b: seq<string>, h: nat, config: Config,
                              r: Result<Report, Failure>, s: Result<Report, Failure>)
    requires HeaderAt(a, h) && HeaderAt(b, h) && Reordered(a, b, h)
    requires Parses(a, config, r) && Parses(b, config, s)
    requires r.Ok? && FixesPeriod(Rows(a, h, config))
    ensures s == r
  {
    AcceptedExactly(a, h, config, r);
    AcceptedExactly(b, h, config, s);
    InOrderIsOrderFree(a, b, h, config);
    RowsAreOrderFree(a, b, h, config);
    var es, fs := Rows(a, h, config), Rows(b, h, config);
    assert PeriodsAgree(es);
    hide Blank, Header, SplitFields, HasColumns, BodyReads, Entries, MinorUnitsExist, Parses, InOrder, ExactTotals;
    SameMembers(es, fs);
    OnePeriodOf(es);
    assert fs[|fs| - 1] in es;
    TotalsAreOrderFree(r.value.totals, s.value.totals, es, fs, config);
  }

  ghost predicate Refused(lines: seq<string>, config: Config) {
    exists failure :: Parses(lines, config, Err(failure))
  }

  /** A file whose last row starts on the zero day is refused. */
  lemma ZeroDayLastIsRefused(lines: seq<string>, h: nat, config: Config)
    requires HeaderAt(lines, h)
    requires var es := Rows(lines, h, config); es != [] && es[|es| - 1].start == ZERO_DAY
    ensures Refused(lines, config)
  {
    hide Blank, Header, SplitFields, HasColumns, BodyReads, Entries, Lists, MinorUnitsFit,
         ScalesDescribe, TotalsDescribe;
    var failure: Failure;
    if config.rowLimit <= 0 {
      failure := Failure(0, "", "row_limit");
    } else {
      ScanHeader(lines, h, config);
      var fields := SplitFields(lines[h]);
      ScanBody(lines, h, Header(fields).value, |fields|, config);
      if Scan(lines, config).Err? {
        failure := Scan(lines, config).error;
      } else {
        failure := Failure(0, START_DATE, "period_missing");
      }
    }
    assert Parses(lines, config, Err(failure));
  }

  /** The line of a row that starts on the zero day. */
  lemma {:induction false} LineOfRow(body: seq<string>, columns: Columns, width: nat, config: Config, e: Entry)
      returns (i: nat)
    requires HasColumns(columns, width) && e in Entries(body, columns, width, config)
    ensures i < |body| && !Blank(body[i]) && EntryOf(body[i], columns, width, config) == Some(e)
  {
    hide HasColumns, EntryOf, Blank;
    var front, line := body[..|body| - 1], body[|body| - 1];
    var es := Entries(front, columns, width, config);
    EntriesStep(body, columns, width, config);
    if !Blank(line) && EntryOf(line, columns, width, config) == Some(e) {
      i := |body| - 1;
    } else {
      assert e in es;
      i := LineOfRow(front, columns, width, config, e);
    }
  }

  lemma MoveLast<T>(s: seq<T>, i: nat) returns (moved: seq<T>)
    requires i < |s|
    ensures moved != [] && moved[|moved| - 1] == s[i] && multiset(moved) == multiset(s)
  {
    var left, x, right := s[..i], [s[i]], s[i + 1..];
    moved := left + right + x;
    assert s == left + x + right;
    assert multiset(left + right + x) == multiset(left) + multiset(right) + multiset(x);
    assert multiset(left + x + right) == multiset(left) + multiset(x) + multiset(right);
  }

  lemma ReplaceBody(lines: seq<string>, h: nat, body: seq<string>) returns (other: seq<string>)
    requires HeaderAt(lines, h) && multiset(body) == multiset(lines[h + 1..])
    ensures HeaderAt(other, h) && Reordered(lines, other, h) && other[h + 1..] == body && other[h] == lines[h]
  {
    hide Blank;
    other := lines[..h + 1] + body;
    assert other[h + 1..] == body && other[..h + 1] == lines[..h + 1];
    forall k | 0 <= k <= h ensures other[k] == lines[k] {
      assert other[..h + 1][k] == lines[..h + 1][k];
    }
  }

  lemma LastRow(body: seq<string>, columns: Columns, width: nat, config: Config, e: Entry)
    requires HasColumns(columns, width) && body != []
    requires !Blank(body[|body| - 1]) && EntryOf(body[|body| - 1], columns, width, config) == Some(e)
    ensures var es := Entries(body, columns, width, config); es != [] && es[|es| - 1] == e
  {
    hide HasColumns, EntryOf, Blank;
    EntriesStep(body, columns, width, config);
  }

  /** Moving a zero-day row to the end of a file gets the file refused. */
  lemma ZeroDayRowMovedLast(lines: seq<string>, h: nat, config: Config, e: Entry) returns (other: seq<string>)
    requires HeaderAt(lines, h) && e in Rows(lines, h, config) && e.start == ZERO_DAY
    ensures HeaderAt(other, h) && Reordered(lines, other, h) && Refused(other, config)
  {
    hide Blank, Header, SplitFields, HasColumns, Entries, EntryOf, Refused, HeaderAt, Reordered;
    assert h < |lines| by {
      HeaderIsALine(lines, h);
    }
    var fields := SplitFields(lines[h]);
    var columns := Header(fields).value;
    var i := LineOfRow(lines[h + 1..], columns, |fields|, config, e);
    var moved := MoveLast(lines[h + 1..], i);
    other := ReplaceBody(lines, h, moved);
    HeaderIsALine(other, h);
    LastRow(moved, columns, |fields|, config, e);
    ZeroDayLastIsRefused(other, h, config);
  }

  lemma HeaderIsALine(lines: seq<string>, h: nat)
    requires HeaderAt(lines, h)
    ensures h < |lines|
  {
  }

  /** The order of the rows of an accepted file does not matter exactly when no row
      starts on the zero day, which the parser takes for "no period yet". */
  lemma OrderMattersExactlyForTheZeroDay(lines: seq<string>, h: nat, config: Config, r: Result<Report, Failure>)
    requires HeaderAt(lines, h) && Parses(lines, config, r) && r.Ok?
    ensures InOrder(lines, h, config)
    ensures FixesPeriod(Rows(lines, h, config)) <==>
            forall other, s | HeaderAt(other, h) && Reordered(lines, other, h) && Parses(other, config, s) :: s == r
  {
    AcceptedExactly(lines, h, config, r);
    hide InOrder, Parses, HeaderAt, Reordered;
    if FixesPeriod(Rows(lines, h, config)) {
      forall other, s | HeaderAt(other, h) && Reordered(lines, other, h) && Parses(other, config, s) ensures s == r {
        RowOrderDoesNotMatter(lines, other, h, config, r, s);
      }
    } else {
      var e :| e in Rows(lines, h, config) && e.start == ZERO_DAY;
      var other := ZeroDayRowMovedLast(lines, h, config, e);
      var failure :| Parses(other, config, Err(failure));
    }
  }
}
