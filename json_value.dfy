/**
  JSON values as `JSON.parse` produces them and `JSON.stringify` consumes them.

  A JSON number is kept as an exact decimal in canonical form, so that two numbers are
  equal as Dafny values exactly when they are numerically equal (which is what the
  JavaScript `===` operator tests on numbers).
 */
module JsonValue {

  /** 10 to the power k. */
  function Pow10(k: nat): (r: nat)
    ensures r >= 1
  {
    if k == 0 then 1 else 10 * Pow10(k - 1)
  }

  /** The decimal number (-1)^negative * mantissa * 10^exponent. */
  datatype Decimal = Decimal(negative: bool, mantissa: nat, exponent: int)

  /** One spelling per number: zero is +0 with exponent 0, and no other mantissa ends in a zero digit. */
  predicate IsCanonical(d: Decimal)
  {
    if d.mantissa == 0 then !d.negative && d.exponent == 0 else d.mantissa % 10 != 0
  }

  type Number = d: Decimal | IsCanonical(d) witness Decimal(false, 0, 0)

  /** The number a decimal denotes. */
  ghost function Value(d: Decimal): real
  {
    var magnitude :=
      if d.exponent >= 0 then (d.mantissa * Pow10(d.exponent)) as real
      else d.mantissa as real / Pow10(-d.exponent) as real;
    if d.negative then -magnitude else magnitude
  }

  lemma ShiftValue(negative: bool, q: nat, e: int)
    ensures Value(Decimal(negative, q, e + 1)) == Value(Decimal(negative, 10 * q, e))
  {
    if e >= 0 {
      assert Pow10(e + 1) == 10 * Pow10(e);
      assert q * Pow10(e + 1) == (10 * q) * Pow10(e);
    } else if e < -1 {
      assert Pow10(-e) == 10 * Pow10(-e - 1);
      var p := Pow10(-e - 1) as real;
      assert (10 * q) as real / (10.0 * p) == q as real / p;
    }
  }

  lemma ZeroValue(d: Decimal)
    requires d.mantissa == 0
    ensures Value(d) == 0.0
  {
  }

  /** A nonzero mantissa gives a value of the decimal's sign. */
  lemma ValueSign(d: Decimal)
    requires d.mantissa > 0
    ensures d.negative ==> Value(d) < 0.0
    ensures !d.negative ==> Value(d) > 0.0
  {
    if d.exponent >= 0 {
      assert d.mantissa * Pow10(d.exponent) >= d.mantissa;
    } else {
      assert d.mantissa as real / Pow10(-d.exponent) as real > 0.0;
    }
  }

  /** Moving k powers of ten from the exponent into the mantissa keeps the value. */
  lemma {:induction false} ScaledValue(negative: bool, m: nat, e: int, k: nat)
    ensures Value(Decimal(negative, m * Pow10(k), e)) == Value(Decimal(negative, m, e + k))
    decreases k
  {
    if k > 0 {
      var q := m * Pow10(k - 1);
      ScaledValue(negative, m, e + 1, k - 1);
      ShiftValue(negative, q, e);
      assert Pow10(k) == 10 * Pow10(k - 1);
      assert m * Pow10(k) == 10 * q by {
        MulTen(m, Pow10(k - 1));
      }
    }
  }

  lemma MulTen(m: nat, p: nat)
    ensures m * (10 * p) == 10 * (m * p)
  {
  }

  /** A mantissa scaled by a positive power of ten ends in a zero digit. */
  lemma TrailingZero(m: nat, k: nat)
    requires k > 0
    ensures (m * Pow10(k)) % 10 == 0
  {
    assert Pow10(k) == 10 * Pow10(k - 1);
    MulTen(m, Pow10(k - 1));
  }

  /** At one sign and exponent, the value determines the mantissa. */
  lemma SameScale(negative: bool, a: nat, b: nat, e: int)
    requires Value(Decimal(negative, a, e)) == Value(Decimal(negative, b, e))
    ensures a == b
  {
    if e >= 0 {
      var p := Pow10(e);
      assert (a * p) as real == (b * p) as real;
    } else {
      var p := Pow10(-e) as real;
      assert a as real / p == b as real / p;
      assert a as real == (a as real / p) * p;
      assert b as real == (b as real / p) * p;
    }
  }

  /** Two canonical numbers with the same value are the same number. */
  lemma CanonicalUnique(x: Number, y: Number)
    requires Value(x) == Value(y)
    ensures x == y
  {
    if x.mantissa == 0 || y.mantissa == 0 {
      if x.mantissa == 0 {
        ZeroValue(x);
      } else {
        ValueSign(x);
      }
      if y.mantissa == 0 {
        ZeroValue(y);
      } else {
        ValueSign(y);
      }
    } else {
      ValueSign(x);
      ValueSign(y);
      assert x.negative == y.negative;
      if x.exponent > y.exponent {
        ExtraZeroDigit(x, y);
      } else if y.exponent > x.exponent {
        ExtraZeroDigit(y, x);
      } else {
        SameScale(x.negative, x.mantissa, y.mantissa, x.exponent);
      }
    }
  }

  /** A nonzero number with a larger exponent would force a trailing zero on the other's mantissa. */
  lemma ExtraZeroDigit(x: Number, y: Number)
    requires x.mantissa > 0 && y.mantissa > 0 && x.negative == y.negative
    requires x.exponent > y.exponent
    ensures Value(x) != Value(y)
  {
    if Value(x) == Value(y) {
      var k: nat := x.exponent - y.exponent;
      var scaled := x.mantissa * Pow10(k);
      TrailingZero(x.mantissa, k);
      ScaledValue(x.negative, x.mantissa, y.exponent, k);
      assert y.exponent + k == x.exponent;
      SameScale(x.negative, scaled, y.mantissa, y.exponent);
    }
  }

  /** The canonical spelling of (-1)^negative * mantissa * 10^exponent. */
  function Normalize(negative: bool, mantissa: nat, exponent: int): Number
    decreases mantissa
  {
    if mantissa == 0 then Decimal(false, 0, 0)
    else if mantissa % 10 == 0 then Normalize(negative, mantissa / 10, exponent + 1)
    else Decimal(negative, mantissa, exponent)
  }

  /** Normalising changes the spelling of a number, never the number. */
  lemma {:induction false} NormalizeKeepsValue(negative: bool, mantissa: nat, exponent: int)
    ensures Value(Normalize(negative, mantissa, exponent)) == Value(Decimal(negative, mantissa, exponent))
    decreases mantissa
  {
    if mantissa != 0 && mantissa % 10 == 0 {
      NormalizeKeepsValue(negative, mantissa / 10, exponent + 1);
      ShiftValue(negative, mantissa / 10, exponent);
    }
  }

  /** The JSON number of an integer. */
  function IntNumber(i: int): Number
  {
    Normalize(i < 0, if i < 0 then -i else i, 0)
  }

  lemma IntNumberValue(i: int)
    ensures Value(IntNumber(i)) == i as real
  {
    NormalizeKeepsValue(i < 0, if i < 0 then -i else i, 0);
  }

  datatype Json =
    | JNull
    | JBool(b: bool)
    | JNum(n: Number)
    | JStr(s: string)
    | JArr(items: seq<Json>)
    | JObj(members: seq<Member>)

  /** One `"name": value` member of an object, in the order written. */
  datatype Member = Member(name: string, value: Json)
}
