/**
 * The part of the .NET `decimal` type that a category price needs.
 *
 * A decimal is a signed integer coefficient of at most 96 bits together with
 * a power-of-ten scale between 0 and 28; its value is coefficient / 10^scale.
 * `17.54M` is the coefficient 1754 at scale 2, and an `int` converted to
 * decimal keeps its value at scale 0.
 */
module Decimals {

  /** Largest scale a decimal can carry. */
  const MaxScale: nat := 28

  /** Largest coefficient magnitude: 2^96 - 1. */
  const MaxCoefficient: int := 0xFFFF_FFFF_FFFF_FFFF_FFFF_FFFF

  /** Bounds of a 32-bit signed `int`, the type of the loop counter and of `Id`. */
  const Int32Min: int := -0x8000_0000
  const Int32Max: int := 0x7FFF_FFFF

  datatype Decimal = Decimal(coefficient: int, scale: nat)

  predicate Valid(d: Decimal)
  {
    -MaxCoefficient <= d.coefficient <= MaxCoefficient && d.scale <= MaxScale
  }

  function Pow10(n: nat): (r: nat)
    ensures r >= 1
  {
    if n == 0 then 1 else 10 * Pow10(n - 1)
  }

  lemma {:induction false} Pow10Add(a: nat, b: nat)
    ensures Pow10(a + b) == Pow10(a) * Pow10(b)
  {
    if a > 0 {
      Pow10Add(a - 1, b);
      assert Pow10(a + b) == 10 * Pow10(a - 1 + b);
    }
  }

  /** The exact rational number a decimal denotes. */
  ghost function Value(d: Decimal): real
  {
    d.coefficient as real / Pow10(d.scale) as real
  }

  /** Implicit conversion of an `int` to `decimal`: the same value at scale 0. */
  function FromInt(i: int): (d: Decimal)
    requires Int32Min <= i <= Int32Max
    ensures Valid(d) && Value(d) == i as real
  {
    Decimal(i, 0)
  }

  /**
   * `a * b` when the exact product is representable: the scales add and the
   * coefficients multiply, so no rounding takes place.
   */
  function Mul(a: Decimal, b: Decimal): (r: Decimal)
    requires Valid(a) && Valid(b)
    requires a.scale + b.scale <= MaxScale
    requires -MaxCoefficient <= a.coefficient * b.coefficient <= MaxCoefficient
    ensures Valid(r) && Value(r) == Value(a) * Value(b)
  {
    var r := Decimal(a.coefficient * b.coefficient, a.scale + b.scale);
    Pow10Add(a.scale, b.scale);
    MulQuotients(a.coefficient, Pow10(a.scale), b.coefficient, Pow10(b.scale));
    r
  }

  lemma MulQuotients(x: int, p: nat, y: int, q: nat)
    requires p >= 1 && q >= 1
    ensures (x * y) as real / (p * q) as real == (x as real / p as real) * (y as real / q as real)
  {
    assert (x * y) as real == x as real * y as real;
    assert (p * q) as real == p as real * q as real;
    RealQuotients(x as real, p as real, y as real, q as real);
  }

  lemma RealQuotients(x: real, p: real, y: real, q: real)
    requires p > 0.0 && q > 0.0
    ensures (x * y) / (p * q) == (x / p) * (y / q)
  {
    var u, v := x / p, y / q;
    assert x == u * p && y == v * q;
    assert x * y == (u * v) * (p * q);
  }

  /** The literal `17.54M`. */
  const UnitPrice: Decimal := Decimal(1754, 2)

  lemma UnitPriceValue()
    ensures Valid(UnitPrice) && Value(UnitPrice) == 17.54
  {
  }
}
