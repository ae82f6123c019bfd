/** Exact base-10 money values. */
module Decimal {
  import opened Text
  import opened Digits

  /** `Unset` is the zero value, which carries no number. */
  datatype Decimal = Unset | Exact(coefficient: int, scale: nat)

  type Number = d: Decimal | d.Exact? witness Exact(0, 0)

  datatype DecimalError = InvalidDecimal | ScaleError | Overflow

  const MAX_LENGTH := 80
  const MAX_SCALE := 18
  const INT64_MIN := -0x8000_0000_0000_0000
  const INT64_MAX := 0x7fff_ffff_ffff_ffff

  predicate IsInt64(v: int) {
    INT64_MIN <= v <= INT64_MAX
  }

  type Int64 = v: int | INT64_MIN <= v <= INT64_MAX witness 0

  // ---------------------------------------------------------------- parsing

  /** strings.Cut at the first point. */
  function Cut(s: string): (string, string, bool) {
    if s == "" then ("", "", false)
    else if s[0] == '.' then ("", s[1..], true)
    else var (whole, fraction, found) := Cut(s[1..]); ([s[0]] + whole, fraction, found)
  }

  function Unsigned(raw: string): string {
    if raw != "" && (raw[0] == '+' || raw[0] == '-') then raw[1..] else raw
  }

  predicate HasExponent(digits: string) {
    'e' in digits || 'E' in digits || '+' in digits
  }

  /** The digits after the sign: their coefficient and scale. */
  function ParseDigits(digits: string): Result<(nat, nat), DecimalError> {
    if digits == "" || HasExponent(digits) then Err(InvalidDecimal)
    else
      var (whole, fraction, found) := Cut(digits);
      if '.' in fraction || whole == "" || (found && fraction == "") then Err(InvalidDecimal)
      else if !AllDigits(whole) || (found && !AllDigits(fraction)) then Err(InvalidDecimal)
      else if |fraction| > MAX_SCALE then Err(InvalidDecimal)
      else if !AllDigits(whole + fraction) then Err(InvalidDecimal)
      else Ok((TextNat(whole + fraction), |fraction|))
  }

  function Signed(negative: bool, n: nat): int {
    if negative then 0 - n else n
  }

  function ParseDecimal(raw: string): Result<Decimal, DecimalError> {
    if raw == "" || TrimSpace(raw) != raw || |raw| > MAX_LENGTH then Err(InvalidDecimal)
    else
      match ParseDigits(Unsigned(raw))
      case Err(error) => Err(error)
      case Ok((magnitude, scale)) => Ok(Exact(Signed(raw[0] == '-', magnitude), scale))
  }

  // --------------------------------------------------------------- printing

  function Magnitude(c: int): nat {
    if c < 0 then -c else c
  }

  function Sign(c: int): string {
    if c < 0 then "-" else ""
  }

  /** Puts the point `scale` digits from the right, padding with zeros. */
  function PlacePoint(digits: string, scale: nat): string {
    if scale == 0 then digits
    else if |digits| <= scale then "0." + Zeros(scale - |digits|) + digits
    else digits[..|digits| - scale] + "." + digits[|digits| - scale..]
  }

  /** The exact decimal, with its scale and trailing zeros. */
  function Printed(d: Decimal): string {
    if d.Unset? then ""
    else Sign(d.coefficient) + PlacePoint(NatText(Magnitude(d.coefficient)), d.scale)
  }

  // ------------------------------------------------------------- arithmetic

  function Add(d: Decimal, e: Decimal): Result<Decimal, DecimalError> {
    if d.Unset? || e.Unset? then Err(InvalidDecimal)
    else if d.scale != e.scale then Err(ScaleError)
    else Ok(Exact(d.coefficient + e.coefficient, d.scale))
  }

  function Mul(d: Decimal, e: Decimal): Decimal {
    if d.Unset? || e.Unset? then Unset else Exact(d.coefficient * e.coefficient, d.scale + e.scale)
  }

  function SignOf(v: int): int {
    if v < 0 then -1 else if v > 0 then 1 else 0
  }

  /** The coefficient with `k` trailing zeros appended. */
  function Scaled(c: int, k: nat): int {
    c * Pow10(k)
  }

  /** Compares numeric value, whatever the trailing zeros. */
  function Compare(d: Decimal, e: Decimal): int {
    if d.Unset? || e.Unset? then 0
    else if d.scale < e.scale then SignOf(Scaled(d.coefficient, e.scale - d.scale) - e.coefficient)
    else SignOf(d.coefficient - Scaled(e.coefficient, d.scale - e.scale))
  }

  function Rescale(d: Decimal, scale: int): Result<Decimal, DecimalError> {
    if d.Unset? || scale < 0 then Err(InvalidDecimal)
    else if scale < d.scale then Err(ScaleError)
    else Ok(Exact(Scaled(d.coefficient, scale - d.scale), scale))
  }

  /** Go's QuoRem truncates toward zero. */
  function TruncatedQuotient(a: int, b: nat): int
    requires b > 0
  {
    if a < 0 then -((-a) / b) else a / b
  }

  /** The integer at a currency exponent: none when the scale is coarser, an error
      when it is not exact or does not fit. */
  function MinorUnits(d: Decimal, exponent: int): Result<Option<int>, DecimalError> {
    if d.Unset? || exponent < 0 then Err(InvalidDecimal)
    else if d.scale < exponent then Ok(None)
    else
      var divisor := Pow10(d.scale - exponent);
      var quotient := TruncatedQuotient(d.coefficient, divisor);
      if d.coefficient - quotient * divisor != 0 then Err(ScaleError)
      else if !IsInt64(quotient) then Err(Overflow)
      else Ok(Some(quotient))
  }

  method DecimalPow10(exponent: int) returns (value: int)
    ensures value == if exponent <= 0 then 1 else Pow10(exponent)
  {
    value := 1;
    if exponent <= 0 {
      return;
    }
    for i := 0 to exponent
      invariant value == Pow10(i)
    {
      value := value * 10;
    }
  }

  /** Scales a fresh copy of the coarser operand, then compares. */
  method Cmp(d: Decimal, e: Decimal) returns (r: int)
    ensures r == Compare(d, e)
  {
    if d.Unset? || e.Unset? {
      return 0;
    }
    var left, right := d.coefficient, e.coefficient;
    if d.scale < e.scale {
      var scaling := DecimalPow10(e.scale - d.scale);
      left := left * scaling;
    } else if e.scale < d.scale {
      var scaling := DecimalPow10(d.scale - e.scale);
      right := right * scaling;
    }
    return SignOf(left - right);
  }

  /** Divides a fresh copy of the coefficient when the scale is finer. */
  method ExactMinorUnits(d: Decimal, exponent: int) returns (r: Result<Option<int>, DecimalError>)
    ensures r == MinorUnits(d, exponent)
  {
    if d.Unset? || exponent < 0 {
      return Err(InvalidDecimal);
    }
    if d.scale < exponent {
      return Ok(None);
    }
    var coefficient := d.coefficient;
    if d.scale > exponent {
      var divisor := DecimalPow10(d.scale - exponent);
      var quotient := TruncatedQuotient(coefficient, divisor);
      if coefficient - quotient * divisor != 0 {
        return Err(ScaleError);
      }
      coefficient := quotient;
    }
    if !IsInt64(coefficient) {
      return Err(Overflow);
    }
    return Ok(Some(coefficient));
  }

  // ------------------------------------------------------------------ value

  /** The rational number a decimal stands for. */
  ghost function Value(d: Decimal): real
    requires d.Exact?
  {
    d.coefficient as real / Unit(d.scale)
  }

  ghost function Unit(scale: nat): (p: real)
    ensures p > 0.0
  {
    Pow10(scale) as real
  }

  lemma CastProduct(a: int, b: int)
    ensures (a * b) as real == a as real * b as real
  {
  }

  lemma Quotient(x: real, a: real, p: real)
    requires p > 0.0
    ensures x == a / p <==> x * p == a
  {
  }

  lemma Regroup(x: real, p: real, q: real)
    ensures x * (p * q) == (x * p) * q
  {
  }

  lemma RegroupPairs(x: real, p: real, y: real, q: real)
    ensures (x * y) * (p * q) == (x * p) * (y * q)
  {
  }

  lemma ScalingOrders(x: real, y: real, p: real)
    requires p > 0.0
    ensures x < y <==> x * p < y * p
    ensures x == y <==> x * p == y * p
  {
    if x < y { assert (y - x) * p > 0.0; }
    if y < x { assert (x - y) * p > 0.0; }
  }

  /** The value times the unit of any finer scale is the scaled coefficient. */
  lemma ValueAtScale(d: Decimal, scale: nat)
    requires d.Exact? && d.scale <= scale
    ensures Value(d) * Unit(scale) == Scaled(d.coefficient, scale - d.scale) as real
    ensures Scaled(d.coefficient, 0) == d.coefficient
  {
    assert Pow10(0) == 1;
    hide Pow10;
    Pow10Sum(d.scale, scale - d.scale);
    var p, q := Pow10(d.scale), Pow10(scale - d.scale);
    CastProduct(p, q);
    CastProduct(d.coefficient, q);
    Quotient(Value(d), d.coefficient as real, p as real);
    Regroup(Value(d), p as real, q as real);
  }

  lemma ValueIs(d: Decimal, x: real)
    requires d.Exact? && x * Unit(d.scale) == d.coefficient as real
    ensures Value(d) == x
  {
    hide Unit;
    Quotient(x, d.coefficient as real, Unit(d.scale));
  }

  lemma SignIsOrder(l: int, r: int, x: real, y: real, p: real)
    requires p > 0.0 && x * p == l as real && y * p == r as real
    ensures SignOf(l - r) < 0 <==> x < y
    ensures SignOf(l - r) == 0 <==> x == y
    ensures SignOf(l - r) > 0 <==> x > y
  {
    ScalingOrders(x, y, p);
    ScalingOrders(y, x, p);
  }

  /** Comparison is that of the rational values, across scales. */
  lemma CompareIsRational(d: Decimal, e: Decimal)
    requires d.Exact? && e.Exact?
    ensures Compare(d, e) < 0 <==> Value(d) < Value(e)
    ensures Compare(d, e) == 0 <==> Value(d) == Value(e)
    ensures Compare(d, e) > 0 <==> Value(d) > Value(e)
  {
    hide Value, Unit, Scaled, SignOf;
    var scale := if d.scale < e.scale then e.scale else d.scale;
    ValueAtScale(d, scale);
    ValueAtScale(e, scale);
    SignIsOrder(Scaled(d.coefficient, scale - d.scale), Scaled(e.coefficient, scale - e.scale),
                Value(d), Value(e), Unit(scale));
  }

  lemma AddIsExact(d: Decimal, e: Decimal)
    requires d.Exact? && e.Exact?
    ensures Add(d, e).Ok? <==> d.scale == e.scale
    ensures Add(d, e).Ok? ==> Add(d, e).value.Exact? && Value(Add(d, e).value) == Value(d) + Value(e)
  {
    if d.scale == e.scale {
      hide Value, Unit, Scaled;
      ValueAtScale(d, d.scale);
      ValueAtScale(e, d.scale);
      ValueIs(Add(d, e).value, Value(d) + Value(e));
    }
  }

  lemma UnitSum(a: nat, b: nat)
    ensures Unit(a + b) == Unit(a) * Unit(b)
  {
    hide Pow10;
    Pow10Sum(a, b);
    CastProduct(Pow10(a), Pow10(b));
  }

  lemma MulIsExact(d: Decimal, e: Decimal)
    requires d.Exact? && e.Exact?
    ensures Mul(d, e).Exact? && Value(Mul(d, e)) == Value(d) * Value(e)
  {
    hide Value, Unit, Scaled;
    ValueAtScale(d, d.scale);
    ValueAtScale(e, e.scale);
    UnitSum(d.scale, e.scale);
    CastProduct(d.coefficient, e.coefficient);
    RegroupPairs(Value(d), Unit(d.scale), Value(e), Unit(e.scale));
    ValueIs(Mul(d, e), Value(d) * Value(e));
  }

  lemma RescaleKeepsValue(d: Decimal, scale: int)
    requires d.Exact?
    ensures Rescale(d, scale).Ok? <==> scale >= d.scale
    ensures Rescale(d, scale).Ok? ==> Rescale(d, scale).value.Exact? && Rescale(d, scale).value.scale == scale
    ensures Rescale(d, scale).Ok? ==> Value(Rescale(d, scale).value) == Value(d)
  {
    if scale >= d.scale {
      hide Value, Unit, Scaled;
      ValueAtScale(d, scale);
      ValueIs(Rescale(d, scale).value, Value(d));
    }
  }

  lemma AtLeastOne(k: int, b: nat)
    requires k >= 1
    ensures k * b >= b
  {
    assert (k - 1) * b >= 0;
  }

  lemma SameQuotient(q: int, r: int, v: int, b: nat)
    requires 0 <= r < b && q * b + r == v * b
    ensures q == v
  {
    if q < v {
      AtLeastOne(v - q, b);
    } else if v < q {
      AtLeastOne(q - v, b);
    }
  }

  lemma Multiple(v: int, b: nat)
    requires b > 0
    ensures (v * b) % b == 0 && (v * b) / b == v
  {
    var a := v * b;
    assert a == (a / b) * b + a % b;
    SameQuotient(a / b, a % b, v, b);
  }

  lemma QuotientIsExact(a: int, b: nat, v: int)
    requires b > 0
    ensures a == v * b <==> a % b == 0 && TruncatedQuotient(a, b) == v
    ensures a % b == 0 <==> a - TruncatedQuotient(a, b) * b == 0
  {
    var q := TruncatedQuotient(a, b);
    if a == v * b {
      Multiple(v, b);
      Multiple(-v, b);
      assert -a == (-v) * b;
    }
    if a % b == 0 {
      assert a == (a / b) * b;
      Multiple(a / b, b);
      Multiple(-(a / b), b);
      assert -a == (-(a / b)) * b;
    }
    if a == q * b {
      Multiple(q, b);
    }
  }

  /** The minor units are the one integer the decimal equals at the exponent; there are
      none exactly when the scale is coarser. A value with more digits than the exponent
      allows is a scale error, and one that does not fit in 64 bits an overflow. */
  lemma MinorUnitsAreExact(d: Decimal, exponent: nat, v: int)
    requires d.Exact?
    ensures MinorUnits(d, exponent) == Ok(Some(v)) <==>
            d.scale >= exponent && IsInt64(v) && d.coefficient == v * Pow10(d.scale - exponent)
    ensures MinorUnits(d, exponent) == Ok(None) <==> d.scale < exponent
    ensures MinorUnits(d, exponent) == Err(ScaleError) <==>
            d.scale >= exponent && d.coefficient % Pow10(d.scale - exponent) != 0
    ensures d.scale >= exponent && d.coefficient == v * Pow10(d.scale - exponent) && !IsInt64(v) ==>
              MinorUnits(d, exponent) == Err(Overflow)
  {
    hide Pow10, TruncatedQuotient;
    if d.scale >= exponent {
      QuotientIsExact(d.coefficient, Pow10(d.scale - exponent), v);
    }
  }
}
