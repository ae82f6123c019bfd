/** Parsing and printing decimals are inverse up to the canonical form. */
module DecimalText {
  import opened Text
  import opened Digits
  import opened Decimal

  /** Whole digits and, when there are any, a point and fraction digits. */
  function Body(whole: string, fraction: string): string {
    if fraction == "" then whole else whole + "." + fraction
  }

  /** How a numeral is written. */
  function Numeral(sign: string, whole: string, fraction: string): string {
    sign + Body(whole, fraction)
  }

  ghost predicate IsNumeral(raw: string, sign: string, whole: string, fraction: string) {
    && sign in {"", "+", "-"}
    && whole != "" && AllDigits(whole) && AllDigits(fraction)
    && raw == Numeral(sign, whole, fraction)
  }

  lemma {:induction false} CutSplits(s: string)
    ensures var (whole, fraction, found) := Cut(s);
            s == if found then whole + "." + fraction else whole
    ensures var (whole, fraction, found) := Cut(s); !found ==> fraction == ""
  {
    if s != "" && s[0] != '.' {
      CutSplits(s[1..]);
      assert s == [s[0]] + s[1..];
    } else if s != "" {
      assert s == "." + s[1..];
    }
  }

  lemma {:induction false} CutNumeral(whole: string, fraction: string)
    requires AllDigits(whole)
    ensures Cut(whole) == (whole, "", false)
    ensures Cut(whole + "." + fraction) == (whole, fraction, true)
  {
    if whole == "" {
      assert ("" + "." + fraction)[1..] == fraction;
    } else {
      CutNumeral(whole[1..], fraction);
      assert (whole + "." + fraction)[1..] == whole[1..] + "." + fraction;
      assert whole == [whole[0]] + whole[1..];
    }
  }

  lemma BodyIsPlain(whole: string, fraction: string)
    requires whole != "" && AllDigits(whole) && AllDigits(fraction)
    ensures var digits := Body(whole, fraction);
            digits != "" && !HasExponent(digits) && IsDigit(digits[0]) && IsDigit(digits[|digits| - 1])
  {
    var digits := Body(whole, fraction);
    assert digits[0] == whole[0];
    if fraction != "" {
      assert digits[|digits| - 1] == fraction[|fraction| - 1];
    }
    forall i | 0 <= i < |digits| ensures IsDigit(digits[i]) || digits[i] == '.' {
      if i > |whole| {
        assert digits[i] == fraction[i - |whole| - 1];
      } else if i < |whole| {
        assert digits[i] == whole[i];
      }
    }
  }

  lemma NumeralIsTrimmed(raw: string, sign: string, digits: string)
    requires sign in {"", "+", "-"} && raw == sign + digits
    requires digits != "" && IsDigit(digits[0]) && IsDigit(digits[|digits| - 1])
    ensures TrimSpace(raw) == raw && raw != ""
    ensures Unsigned(raw) == digits
    ensures raw[0] == '-' <==> sign == "-"
  {
    assert raw[|raw| - 1] == digits[|digits| - 1];
    if sign == "" {
      assert raw == digits;
    } else {
      assert raw[0] == sign[0];
      assert raw[1..] == digits;
    }
  }

  lemma ParseBody(whole: string, fraction: string)
    requires whole != "" && AllDigits(whole) && AllDigits(fraction)
    ensures |fraction| > MAX_SCALE ==> ParseDigits(Body(whole, fraction)) == Err(InvalidDecimal)
    ensures |fraction| <= MAX_SCALE ==>
              ParseDigits(Body(whole, fraction)) == Ok((TextNat(whole + fraction), |fraction|))
  {
    BodyIsPlain(whole, fraction);
    CutNumeral(whole, fraction);
    hide TextNat, HasExponent, Cut;
    assert '.' !in fraction by {
      assert forall i | 0 <= i < |fraction| :: fraction[i] != '.';
    }
  }

  /** What a numeral parses to. */
  lemma ParseNumeral(raw: string, sign: string, whole: string, fraction: string)
    requires IsNumeral(raw, sign, whole, fraction)
    ensures |raw| > MAX_LENGTH || |fraction| > MAX_SCALE ==> ParseDecimal(raw) == Err(InvalidDecimal)
    ensures |raw| <= MAX_LENGTH && |fraction| <= MAX_SCALE ==>
              ParseDecimal(raw) == Ok(Exact(Signed(sign == "-", TextNat(whole + fraction)), |fraction|))
  {
    hide TextNat, TrimSpace, ParseDigits, Body, Unsigned;
    BodyIsPlain(whole, fraction);
    NumeralIsTrimmed(raw, sign, Body(whole, fraction));
    ParseBody(whole, fraction);
  }

  lemma ParsedDigits(digits: string) returns (whole: string, fraction: string)
    requires ParseDigits(digits).Ok?
    ensures digits == Body(whole, fraction) && whole != "" && AllDigits(whole) && AllDigits(fraction)
    ensures |fraction| <= MAX_SCALE
  {
    hide TextNat;
    CutSplits(digits);
    var (w, f, found) := Cut(digits);
    whole, fraction := w, f;
  }

  lemma ParsedShape(raw: string) returns (sign: string, whole: string, fraction: string)
    requires ParseDecimal(raw).Ok?
    ensures IsNumeral(raw, sign, whole, fraction) && |raw| <= MAX_LENGTH && |fraction| <= MAX_SCALE
  {
    hide TrimSpace, ParseDigits;
    var digits := Unsigned(raw);
    sign := raw[..|raw| - |digits|];
    whole, fraction := ParsedDigits(digits);
    assert raw == sign + digits;
    if digits != raw {
      assert sign == [raw[0]];
    }
  }

  /** Accepted texts are exactly the short plain numerals. */
  lemma ParseAcceptsNumerals(raw: string)
    ensures ParseDecimal(raw).Ok? <==>
            |raw| <= 80 && exists sign, whole, fraction ::
              (IsNumeral(raw, sign, whole, fraction) && |fraction| <= 18)
  {
    if ParseDecimal(raw).Ok? {
      var sign, whole, fraction := ParsedShape(raw);
    } else {
      forall sign, whole, fraction | IsNumeral(raw, sign, whole, fraction)
        ensures |raw| > MAX_LENGTH || |fraction| > MAX_SCALE
      {
        ParseNumeral(raw, sign, whole, fraction);
      }
    }
  }

  /** The digits of a number, padded so that at least one precedes the point. */
  function Padded(digits: string, scale: nat): string {
    if |digits| <= scale then Zeros(scale - |digits| + 1) + digits else digits
  }

  lemma PlacedShape(digits: string, scale: nat)
    requires digits != "" && AllDigits(digits)
    ensures var padded := Padded(digits, scale);
            |padded| > scale && AllDigits(padded) && TextNat(padded) == TextNat(digits)
    ensures var padded := Padded(digits, scale);
            PlacePoint(digits, scale) == Body(padded[..|padded| - scale], padded[|padded| - scale..])
  {
    hide TextNat;
    var padded := Padded(digits, scale);
    if |digits| <= scale {
      var n := scale - |digits|;
      ZerosAreZero(n + 1);
      TextNatConcat(Zeros(n + 1), digits);
      assert padded[..|padded| - scale] == "0";
      assert padded[|padded| - scale..] == Zeros(n) + digits;
      assert scale > 0 ==> PlacePoint(digits, scale) == "0" + "." + (Zeros(n) + digits);
    } else if scale == 0 {
      assert padded[..|padded|] == digits;
    }
  }

  lemma PrintedShape(d: Decimal)
    requires d.Exact?
    ensures var padded := Padded(NatText(Magnitude(d.coefficient)), d.scale);
            && |padded| > d.scale && AllDigits(padded)
            && TextNat(padded) == Magnitude(d.coefficient)
            && IsNumeral(Printed(d), Sign(d.coefficient), padded[..|padded| - d.scale], padded[|padded| - d.scale..])
  {
    hide NatText, TextNat, Padded, PlacePoint;
    var digits := NatText(Magnitude(d.coefficient));
    NatTextFacts(Magnitude(d.coefficient));
    PlacedShape(digits, d.scale);
  }

  lemma PrintedParts(d: Decimal) returns (whole: string, fraction: string)
    requires d.Exact?
    ensures IsNumeral(Printed(d), Sign(d.coefficient), whole, fraction)
    ensures whole + fraction == Padded(NatText(Magnitude(d.coefficient)), d.scale)
    ensures AllDigits(whole + fraction) && TextNat(whole + fraction) == Magnitude(d.coefficient)
    ensures |fraction| == d.scale
  {
    hide Printed, Padded, IsNumeral, NatText, TextNat;
    PrintedShape(d);
    var padded := Padded(NatText(Magnitude(d.coefficient)), d.scale);
    whole, fraction := padded[..|padded| - d.scale], padded[|padded| - d.scale..];
    assert whole + fraction == padded;
  }

  /** Printing then parsing returns the value exactly when it has at most 18 fraction
      digits and at most 80 characters. */
  lemma RoundTrip(d: Decimal)
    ensures ParseDecimal(Printed(d)) == Ok(d) <==>
            d.Exact? && d.scale <= 18 && |Printed(d)| <= 80
  {
    if d.Exact? {
      hide Printed, ParseDecimal, Padded, IsNumeral, NatText, TextNat, AllDigits;
      var whole, fraction := PrintedParts(d);
      ParseNumeral(Printed(d), Sign(d.coefficient), whole, fraction);
    }
  }

  lemma PrintedParses(d: Decimal)
    requires ParseDecimal(Printed(d)).Ok?
    ensures ParseDecimal(Printed(d)) == Ok(d)
  {
    if d.Exact? {
      hide Printed, ParseDecimal, Padded, IsNumeral, NatText, TextNat, AllDigits;
      var whole, fraction := PrintedParts(d);
      ParseNumeral(Printed(d), Sign(d.coefficient), whole, fraction);
    }
  }

  lemma {:induction false} StripConcat(whole: string, fraction: string)
    requires whole != "" && AllDigits(whole) && AllDigits(fraction)
    ensures Padded(StripZeros(whole + fraction), |fraction|) == StripZeros(whole) + fraction
  {
    if |whole| > 1 && whole[0] == '0' {
      StripConcat(whole[1..], fraction);
      assert (whole + fraction)[1..] == whole[1..] + fraction;
    } else if whole[0] == '0' && fraction != "" {
      assert (whole + fraction)[1..] == fraction;
      StripFacts(fraction);
      var n := |fraction| - |StripZeros(fraction)|;
      assert Zeros(n + 1) == "0" + Zeros(n);
      assert whole == "0";
    } else {
      assert fraction == "" ==> whole + fraction == whole;
    }
  }

  /** Parsing then printing yields the canonical form: no plus sign, no leading zeros
      of the whole part beyond one digit, a minus sign only on a non-zero value, and
      the fraction digits as they were. */
  lemma PrintIsCanonical(raw: string, sign: string, whole: string, fraction: string)
    requires IsNumeral(raw, sign, whole, fraction) && ParseDecimal(raw).Ok?
    ensures var zero := forall i | 0 <= i < |whole + fraction| :: (whole + fraction)[i] == '0';
            Printed(ParseDecimal(raw).value)
            == Numeral(if sign == "-" && !zero then "-" else "", StripZeros(whole), fraction)
  {
    hide ParseDecimal, Printed, NatText, StripZeros, TextNat, Padded, IsNumeral, AllDigits;
    assert AllDigits(whole + fraction) && whole != "" && AllDigits(whole) && AllDigits(fraction) by {
      NumeralDigits(raw, sign, whole, fraction);
    }
    ParseNumeral(raw, sign, whole, fraction);
    var d := ParseDecimal(raw).value;
    var w, f := PrintedParts(d);
    PrintStrips(whole + fraction);
    StripConcat(whole, fraction);
    ZeroText(whole + fraction);
    SameParts(w, f, StripZeros(whole), fraction);
    PartsSpell(Printed(d), Sign(d.coefficient), w, f);
  }

  lemma NumeralDigits(raw: string, sign: string, whole: string, fraction: string)
    requires IsNumeral(raw, sign, whole, fraction)
    ensures AllDigits(whole + fraction) && whole != "" && AllDigits(whole) && AllDigits(fraction)
  {
  }

  lemma PartsSpell(raw: string, sign: string, whole: string, fraction: string)
    requires IsNumeral(raw, sign, whole, fraction)
    ensures raw == Numeral(sign, whole, fraction)
  {
  }

  lemma SameParts(a: string, b: string, c: string, d: string)
    requires a + b == c + d && |b| == |d|
    ensures a == c && b == d
  {
    assert |a| == |c|;
    assert a == (a + b)[..|a|] && c == (c + d)[..|a|];
    assert b == (a + b)[|a|..] && d == (c + d)[|a|..];
  }

  lemma {:induction false} ZeroText(s: string)
    requires AllDigits(s)
    ensures TextNat(s) == 0 <==> forall i | 0 <= i < |s| :: s[i] == '0'
  {
    if s != "" {
      var front := s[..|s| - 1];
      ZeroText(front);
      assert s == front + [s[|s| - 1]];
    }
  }
}
