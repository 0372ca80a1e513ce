/** Python's `Decimal` as printed figures use it: an integer coefficient and an exponent. Arithmetic
    is exact and is done on the real value; the exponent is kept apart because it records how many
    places the document printed. */
module Decimals {

  datatype Decimal = Decimal(coefficient: int, exponent: int) {
    function Value(): real {
      Scaled(coefficient as real, exponent)
    }

    /** The exponent of the last place the figure was printed with. */
    function PrintedExponent(): int {
      if exponent < 0 then exponent else 0
    }

    /** How many decimal places the figure was printed with. */
    function DisplayedDecimals(): nat {
      0 - PrintedExponent()
    }
  }

  /** `x` times ten to the power `e`, one place at a time. */
  function Scaled(x: real, e: int): real
    decreases if e < 0 then -e else e
  {
    if e == 0 then x else if e > 0 then 10.0 * Scaled(x, e - 1) else Scaled(x, e + 1) / 10.0
  }

  /** The unit of the place with exponent `e`. */
  function Unit(e: int): real {
    Scaled(1.0, e)
  }

  lemma ScaledStep(x: real, e: int)
    ensures Scaled(x, e + 1) == 10.0 * Scaled(x, e)
  {
  }

  lemma {:induction false} ScaledTen(x: real, e: int)
    ensures Scaled(10.0 * x, e) == Scaled(x, e + 1)
    decreases if e < 0 then -e else e
  {
    if e > 0 { ScaledTen(x, e - 1); }
    if e < 0 { ScaledTen(x, e + 1); }
  }

  lemma {:induction false} ScaledOrder(x: real, y: real, e: int)
    ensures Scaled(x, e) < Scaled(y, e) <==> x < y
    decreases if e < 0 then -e else e
  {
    if e > 0 { ScaledOrder(x, y, e - 1); }
    if e < 0 { ScaledOrder(x, y, e + 1); }
  }

  lemma {:induction false} ScaledSum(x: real, y: real, e: int)
    ensures Scaled(x + y, e) == Scaled(x, e) + Scaled(y, e)
    decreases if e < 0 then -e else e
  {
    if e > 0 { ScaledSum(x, y, e - 1); }
    if e < 0 { ScaledSum(x, y, e + 1); }
  }

  lemma {:induction false} ScaledZero(e: int)
    ensures Scaled(0.0, e) == 0.0
    decreases if e < 0 then -e else e
  {
    if e > 0 { ScaledZero(e - 1); }
    if e < 0 { ScaledZero(e + 1); }
  }

  lemma {:induction false} UnitPositive(e: int)
    ensures Unit(e) > 0.0
  {
    ScaledZero(e);
    ScaledOrder(0.0, 1.0, e);
  }

  /** Fewer places mean a larger unit. */
  lemma {:induction false} UnitGrows(e: int, e': int)
    requires e <= e'
    ensures Unit(e) <= Unit(e')
    decreases e' - e
  {
    if e < e' {
      UnitGrows(e + 1, e');
      UnitPositive(e);
      ScaledStep(1.0, e);
    }
  }

  // ---- Normalising ----

  /** The same value written `k` exponents lower. */
  function Rescale(c: int, k: nat): int
    decreases k
  {
    if k == 0 then c else Rescale(10 * c, k - 1)
  }

  lemma {:induction false} RescaleKeepsValue(c: int, e: int, k: nat)
    ensures Decimal(Rescale(c, k), e - k).Value() == Decimal(c, e).Value()
    decreases k
  {
    if k > 0 {
      RescaleKeepsValue(10 * c, e - 1, k - 1);
      ScaledTen(c as real, e - 1);
    }
  }

  lemma {:induction false} RescaleDivisible(c: int, k: nat)
    ensures k > 0 ==> Rescale(c, k) % 10 == 0
    ensures Rescale(c, k) == 0 ==> c == 0
    decreases k
  {
    if k > 0 { RescaleDivisible(10 * c, k - 1); }
  }

  /** `Decimal.normalize()`: trailing zeros move into the exponent, and every zero becomes one zero. */
  function Normalise(d: Decimal): Decimal
    decreases if d.coefficient < 0 then -d.coefficient else d.coefficient
  {
    if d.coefficient == 0 then Decimal(0, 0)
    else if d.coefficient % 10 == 0 then Normalise(Decimal(d.coefficient / 10, d.exponent + 1))
    else d
  }

  lemma {:induction false} NormaliseKeepsValue(d: Decimal)
    ensures Normalise(d).Value() == d.Value()
    ensures Normalise(d).coefficient % 10 == 0 ==> Normalise(d) == Decimal(0, 0)
    decreases if d.coefficient < 0 then -d.coefficient else d.coefficient
  {
    if d.coefficient == 0 {
      ScaledZero(d.exponent);
    } else if d.coefficient % 10 == 0 {
      var shorter := Decimal(d.coefficient / 10, d.exponent + 1);
      NormaliseKeepsValue(shorter);
      RescaleKeepsValue(shorter.coefficient, shorter.exponent, 1);
      assert Rescale(shorter.coefficient, 1) == d.coefficient;
    }
  }

  /** `500` and `500.00` are one claim: two figures normalise alike exactly when they are equal
      as numbers. */
  lemma NormaliseIsNumericEquality(a: Decimal, b: Decimal)
    ensures Normalise(a) == Normalise(b) <==> a.Value() == b.Value()
  {
    NormaliseKeepsValue(a);
    NormaliseKeepsValue(b);
    if a.Value() == b.Value() {
      if Normalise(a).exponent <= Normalise(b).exponent {
        SameValueSameForm(Normalise(a), Normalise(b));
      } else {
        SameValueSameForm(Normalise(b), Normalise(a));
      }
    }
  }

  lemma SameValueSameForm(a: Decimal, b: Decimal)
    requires a.Value() == b.Value() && a.exponent <= b.exponent
    requires a.coefficient % 10 == 0 ==> a == Decimal(0, 0)
    requires b.coefficient % 10 == 0 ==> b == Decimal(0, 0)
    ensures a == b
  {
    var k := b.exponent - a.exponent;
    var c := Rescale(b.coefficient, k);
    RescaleKeepsValue(b.coefficient, b.exponent, k);
    assert Decimal(c, a.exponent).Value() == a.Value();
    ScaledOrder(a.coefficient as real, c as real, a.exponent);
    ScaledOrder(c as real, a.coefficient as real, a.exponent);
    RescaleDivisible(b.coefficient, k);
  }

  // ---- Rounding ----

  /** Rounding half to even, the default of Python's decimal context. */
  function RoundHalfEven(x: real): (n: int)
    ensures -0.5 <= x - n as real <= 0.5
    ensures x - n as real == 0.5 || x - n as real == -0.5 ==> n % 2 == 0
  {
    var below := x.Floor;
    var rest := x - below as real;
    if rest < 0.5 || (rest == 0.5 && below % 2 == 0) then below else below + 1
  }

  /** `Decimal.quantize`: the multiple of `10^exponent` nearest to `x`. */
  function Quantise(x: real, exponent: int): Decimal {
    Decimal(RoundHalfEven(Scaled(x, -exponent)), exponent)
  }

  lemma {:induction false} ScaledBack(x: real, e: int)
    ensures Scaled(Scaled(x, -e), e) == x
    decreases if e < 0 then -e else e
  {
    if e > 0 {
      ScaledBack(x, e - 1);
      ScaledTen(Scaled(x, -e), e - 1);
    }
    if e < 0 {
      ScaledBack(x, e + 1);
      ScaledTen(Scaled(x, -(e + 1)), e);
    }
  }

  /** Quantising moves a value by at most half a unit of the place it is quantised to. */
  lemma QuantiseIsNearest(x: real, e: int)
    ensures Quantise(x, e).exponent == e
    ensures -Unit(e) / 2.0 <= x - Quantise(x, e).Value() <= Unit(e) / 2.0
  {
    var y := Scaled(x, -e);
    var n := RoundHalfEven(y) as real;
    ScaledBack(x, e);
    ScaledSum(y - n, n, e);
    ScaledSum(0.5, 0.5, e);
    ScaledSum(-0.5, 0.5, e);
    ScaledZero(e);
    ScaledOrder(0.5, y - n, e);
    ScaledOrder(y - n, -0.5, e);
  }
}
