/**
 Arbitrary-precision decimals (ext/src/Decimal.c): an unscaled integer and a scale, standing for
 unscaled * 10^-scale. The operations of the class work on objects in place, so operands may be
 the same object and can be changed by an operation that only reads them in PHP.
 */
module Decimals {
  import opened Powers
  import opened Ieee

  function Pow10(n: nat): nat { if n == 0 then 1 else 10 * Pow10(n - 1) }

  function Pow5(n: nat): nat { if n == 0 then 1 else 5 * Pow5(n - 1) }

  // ---- powers ------------------------------------------------------------------------------

  lemma {:induction false} Pow10Split(n: nat)
    ensures Pow10(n) == Pow2(n) * Pow5(n)
  {
    if n > 0 {
      Pow10Split(n - 1);
      var a, b := Pow2(n - 1), Pow5(n - 1);
      assert (2 * a) * (5 * b) == 10 * (a * b);
    }
  }

  lemma {:induction false} Pow10Add(a: nat, b: nat)
    ensures Pow10(a + b) == Pow10(a) * Pow10(b)
  {
    if a > 0 {
      Pow10Add(a - 1, b);
      assert Pow10(a + b) == 10 * Pow10(a - 1 + b);
      assert 10 * (Pow10(a - 1) * Pow10(b)) == (10 * Pow10(a - 1)) * Pow10(b);
    }
  }

  lemma {:induction false} Pow10Positive(n: nat)
    ensures Pow10(n) > 0 && (n > 0 ==> Pow10(n) > 1)
  {
    if n > 0 { Pow10Positive(n - 1); }
  }

  lemma Pow10Even(n: nat)
    requires n > 0
    ensures Pow10(n) % 2 == 0
  {
    assert Pow10(n) == 2 * (5 * Pow10(n - 1));
    TwiceIsEven(5 * Pow10(n - 1));
  }

  lemma TwiceIsEven(x: nat)
    ensures (2 * x) % 2 == 0
  {
  }

  lemma {:induction false} Pow5Odd(n: nat)
    ensures Pow5(n) % 2 == 1
  {
    if n > 0 { Pow5Odd(n - 1); }
  }

  lemma OddTimesOdd(a: int, b: int)
    requires a % 2 == 1 && b % 2 == 1
    ensures (a * b) % 2 == 1
  {
    var p, q := a / 2, b / 2;
    calc {
      a * b;
      (2 * p + 1) * (2 * q + 1);
      2 * (2 * (p * q) + p + q) + 1;
    }
  }

  // ---- from_double ---------------------------------------------------------------------------

  /** unscaled * 10^-scale is exactly units * 2^-bits. */
  predicate ExactIn(bits: nat, unscaled: int, scale: nat, units: int) {
    unscaled * Pow2(bits) == units * Pow10(scale)
  }

  /** unscaled * 10^-scale is exactly units * 2^-1074. */
  predicate Exact(unscaled: int, scale: nat, units: int) {
    ExactIn(1074, unscaled, scale, units)
  }

  /** No trailing decimal zero can be dropped by a smaller scale. */
  predicate Reduced(unscaled: int, scale: nat) {
    scale == 0 || unscaled % 2 == 1
  }

  datatype Dec = Dec(unscaled: int, scale: int)

  class Numeric {
    var value: int
    var scale: int

    constructor ()
      ensures value == 0 && scale == 0
    {
      value, scale := 0, 0;
    }

    function State(): Dec
      reads this
    {
      Dec(value, scale)
    }

    /** The double branch of the constructor: NaN and the infinities are rejected. */
    method InitDouble(raw: Double) returns (ok: bool)
      modifies this
      ensures ok <==> IsFinite(raw)
      ensures !ok ==> State() == old(State())
      ensures ok ==> 0 <= scale <= 1074 && Exact(value, scale, Scaled(raw)) && Reduced(value, scale)
    {
      if IsNaN(raw) || IsInfinite(raw) { return false; }
      FromDouble(raw);
      return true;
    }

    /** `from_double`. */
    method FromDouble(raw: Double)
      requires IsFinite(raw)
      modifies this
      ensures 0 <= scale <= 1074 && Exact(value, scale, Scaled(raw)) && Reduced(value, scale)
    {
      var mantissa: int, exponent: int := Fraction(raw), Exponent(raw);
      var denormal := exponent == 0;
      exponent := if denormal then -1022 else exponent - 1023;
      exponent := exponent - 52;
      if !denormal {
        mantissa := mantissa + TwoTo52;
      }
      assert Pow2(0) == 1;
      mantissa, exponent := StripZeros(mantissa, exponent);
      Store(if raw >= TwoTo63 then 0 - mantissa else mantissa, exponent, Scaled(raw));
    }

    /** Trailing zeros of the mantissa move to a negative exponent. */
    static method StripZeros(mantissa: nat, exponent: int) returns (m: nat, e: int)
      requires exponent >= -1074
      ensures e >= -1074 && m * Pow2(e + 1074) == mantissa * Pow2(exponent + 1074)
      ensures e < 0 ==> m % 2 == 1
    {
      m, e := mantissa, exponent;
      while e < 0 && m % 2 == 0
        invariant e >= -1074 && m * Pow2(e + 1074) == mantissa * Pow2(exponent + 1074)
        decreases -e
      {
        HalveMantissa(m, e + 1074);
        m, e := m / 2, e + 1;
      }
    }

    /** A negative power of two becomes a power of ten: m * 2^-s is m * 5^s * 10^-s. */
    method Store(signed: int, exponent: int, ghost units: int)
      requires exponent >= -1074 && signed * Pow2(exponent + 1074) == units
      requires exponent < 0 ==> signed % 2 == 1
      modifies this
      ensures 0 <= scale <= 1074 && Exact(value, scale, units) && Reduced(value, scale)
    {
      if exponent < 0 {
        NegativeExponent(1074, signed, -exponent, units);
        value := signed * Pow5(-exponent);
        scale := -exponent;
      } else {
        NonNegativeExponent(1074, signed, exponent, units);
        value := signed * Pow2(exponent);
        scale := 0;
      }
    }

    /** `align_decimals`: the operand with the smaller scale gets its integer multiplied, but keeps
        its scale. */
    static method Align(lhs: Numeric, rhs: Numeric)
      modifies lhs, rhs
      ensures lhs.State() == Aligned(old(lhs.State()), old(rhs.State()))
      ensures rhs.State() == Aligned(old(rhs.State()), old(lhs.State()))
    {
      if lhs.scale < rhs.scale {
        lhs.value := lhs.value * Pow10(rhs.scale - lhs.scale);
      } else if lhs.scale > rhs.scale {
        rhs.value := rhs.value * Pow10(lhs.scale - rhs.scale);
      }
    }

    /** `Decimal::add`: exactly the sum of the values on entry, also for `a->add(a)`. */
    method Add(other: Numeric) returns (r: Numeric)
      modifies this, other
      ensures fresh(r)
      ensures Value(r.State()) == Value(old(State())) + Value(old(other.State()))
      ensures r.scale == Max(old(scale), old(other.scale))
      ensures State() == Aligned(old(State()), old(other.State()))
      ensures other.State() == Aligned(old(other.State()), old(State()))
    {
      r := new Numeric();
      SumExact(State(), other.State());
      Align(this, other);
      r.value := value + other.value;
      r.scale := Max(scale, other.scale);
    }

    /** `Decimal::sub`. */
    method Sub(other: Numeric) returns (r: Numeric)
      modifies this, other
      ensures fresh(r)
      ensures Value(r.State()) == Value(old(State())) - Value(old(other.State()))
      ensures r.scale == Max(old(scale), old(other.scale))
      ensures State() == Aligned(old(State()), old(other.State()))
      ensures other.State() == Aligned(old(other.State()), old(State()))
    {
      r := new Numeric();
      SumExact(State(), other.State());
      Align(this, other);
      r.value := value - other.value;
      r.scale := Max(scale, other.scale);
    }

    /** `Decimal::mul`: exactly the product; the operands are left alone. */
    method Mul(other: Numeric) returns (r: Numeric)
      ensures fresh(r)
      ensures r.scale == scale + other.scale && r.value == value * other.value
      ensures Value(r.State()) == Value(State()) * Value(other.State())
    {
      r := new Numeric();
      ProductExact(State(), other.State());
      r.value := value * other.value;
      r.scale := scale + other.scale;
    }
  }

  lemma HalveMantissa(mantissa: nat, p: nat)
    requires mantissa % 2 == 0
    ensures mantissa / 2 * Pow2(p + 1) == mantissa * Pow2(p)
  {
    var h, q := mantissa / 2, Pow2(p);
    assert h * (2 * q) == (2 * h) * q;
  }

  lemma NegativeExponent(bits: nat, value: int, scale: nat, units: int)
    requires scale <= bits && value * Pow2(bits - scale) == units && value % 2 == 1
    ensures ExactIn(bits, value * Pow5(scale), scale, units) && Reduced(value * Pow5(scale), scale)
  {
    Pow10Split(scale);
    Pow2Add(bits - scale, scale);
    RegroupPowers(value, Pow2(bits - scale), Pow2(scale), Pow5(scale));
    Pow5Odd(scale);
    OddTimesOdd(value, Pow5(scale));
  }

  lemma RegroupPowers(value: int, a: nat, b: nat, c: nat)
    ensures value * c * (a * b) == (value * a) * (b * c)
  {
    assert value * c * (a * b) == value * (c * a) * b;
    assert value * (c * a) * b == value * (a * c) * b;
  }

  lemma NonNegativeExponent(bits: nat, value: int, exponent: nat, units: int)
    requires value * Pow2(exponent + bits) == units
    ensures ExactIn(bits, value * Pow2(exponent), 0, units) && Reduced(value * Pow2(exponent), 0)
  {
    Pow2Add(exponent, bits);
    Regroup(value, Pow2(exponent), Pow2(bits));
  }

  lemma Regroup(a: int, b: int, c: int)
    ensures a * (b * c) == (a * b) * c
  {
  }

  /** The scale is minimal: no smaller one can represent the same number. */
  lemma ScaleMinimal(bits: nat, v: int, s: nat, units: int, v': int, s': nat)
    requires ExactIn(bits, v, s, units) && Reduced(v, s) && ExactIn(bits, v', s', units)
    ensures s <= s' && v' == v * Pow10(s' - s)
  {
    if s' < s {
      Rescale(bits, v', s', v, s, units);
      Pow10Even(s - s');
      EvenFactor(v', Pow10(s - s'));
      assert false;
    }
    Rescale(bits, v, s, v', s', units);
  }

  lemma EvenFactor(a: int, p: nat)
    requires p % 2 == 0
    ensures (a * p) % 2 == 0
  {
    Regroup(2, a, p / 2);
    assert a * p == a * (2 * (p / 2));
    assert a * (2 * (p / 2)) == 2 * (a * (p / 2));
  }

  lemma Rescale(bits: nat, v: int, s: nat, v': int, s': nat, units: int)
    requires ExactIn(bits, v, s, units) && ExactIn(bits, v', s', units) && s <= s'
    ensures v' == v * Pow10(s' - s)
  {
    Pow10Add(s, s' - s);
    Pow2Positive(bits);
    RescaleAlgebra(v, v', units, Pow2(bits), Pow10(s), Pow10(s' - s));
  }

  lemma RescaleAlgebra(v: int, v': int, units: int, p: nat, t: nat, q: nat)
    requires p > 0 && v * p == units * t && v' * p == units * (t * q)
    ensures v' == v * q
  {
    Regroup(units, t, q);
    Regroup(v, p, q);
    Regroup(v, q, p);
    assert p * q == q * p;
    CancelRight(v', v * q, p);
  }

  lemma CancelRight(a: int, b: int, p: nat)
    requires p > 0 && a * p == b * p
    ensures a == b
  {
    assert (a - b) * p == 0;
    if a > b {
      TimesMonotone(0, a - b, p);
    } else if a < b {
      TimesMonotone(0, b - a, p);
    }
  }

  /** Two doubles convert to the same decimal only if they are the same number. */
  lemma ConversionInjective(bits: nat, v: int, s: nat, units: int, units': int)
    requires ExactIn(bits, v, s, units) && ExactIn(bits, v, s, units')
    ensures units == units'
  {
    Pow10Positive(s);
    CancelRight(units, units', Pow10(s));
  }

  // ---- values ----------------------------------------------------------------------------------

  /** 10^-scale. */
  function Unit(scale: int): real
    decreases if scale < 0 then -scale else scale
  {
    if scale == 0 then 1.0
    else if scale < 0 then 10.0 * Unit(scale + 1)
    else 0.1 * Unit(scale - 1)
  }

  /** The number a decimal stands for, for scales of either sign. */
  function Value(d: Dec): real { d.unscaled as real * Unit(d.scale) }

  lemma UnitStep(scale: int)
    ensures Unit(scale) == 10.0 * Unit(scale + 1)
  {
  }

  lemma {:induction false} UnitPositive(scale: int)
    ensures Unit(scale) > 0.0
    decreases if scale < 0 then -scale else scale
  {
    if scale != 0 { UnitPositive(if scale < 0 then scale + 1 else scale - 1); }
  }

  lemma {:induction false} UnitShift(scale: int, k: nat)
    ensures Unit(scale) == Pow10(k) as real * Unit(scale + k)
  {
    if k > 0 {
      UnitShift(scale, k - 1);
      UnitStep(scale + k - 1);
      TenMore(Pow10(k - 1) as real, Unit(scale + k));
    }
  }

  lemma TenMore(p: real, u: real)
    ensures p * (10.0 * u) == (10.0 * p) * u
  {
  }

  lemma TenthOfProduct(a: real, b: real, c: real, part: real)
    requires b == 10.0 * c && 10.0 * part == a * b
    ensures part == a * c
  {
    TenMore(a, c);
    RegroupReal(10.0, a, c);
  }

  predicate Multiplies(a: int, b: int) { Unit(a + b) == Unit(a) * Unit(b) }

  lemma MultipliesUp(a: int, b: int)
    requires Multiplies(a, b)
    ensures Multiplies(a, b + 1)
  {
    UnitStep(a + b);
    UnitStep(b);
    TenthOfProduct(Unit(a), Unit(b), Unit(b + 1), Unit(a + b + 1));
  }

  lemma MultipliesDown(a: int, b: int)
    requires Multiplies(a, b)
    ensures Multiplies(a, b - 1)
  {
    UnitStep(a + b - 1);
    UnitStep(b - 1);
    TenMore(Unit(a), Unit(b));
    RegroupReal(10.0, Unit(a), Unit(b));
  }

  lemma {:induction false} UnitSum(a: int, b: int)
    ensures Multiplies(a, b)
    decreases if b < 0 then -b else b
  {
    if b > 0 {
      UnitSum(a, b - 1);
      MultipliesUp(a, b - 1);
    } else if b < 0 {
      UnitSum(a, b + 1);
      MultipliesDown(a, b + 1);
    }
  }

  /** What `align_decimals` leaves in the operand `a`. */
  function Aligned(a: Dec, b: Dec): Dec {
    if a.scale < b.scale then Dec(a.unscaled * Pow10(b.scale - a.scale), a.scale) else a
  }

  lemma RealTimes(a: int, b: int)
    ensures (a * b) as real == a as real * b as real
  {
  }

  lemma RegroupReal(a: real, b: real, c: real)
    ensures (a * b) * c == a * (b * c)
  {
  }

  /** A larger scale with a correspondingly larger integer is the same number. */
  lemma ValueRescaled(d: Dec, k: nat)
    ensures Value(Dec(d.unscaled * Pow10(k), d.scale + k)) == Value(d)
  {
    RealTimes(d.unscaled, Pow10(k));
    UnitShift(d.scale, k);
    RegroupReal(d.unscaled as real, Pow10(k) as real, Unit(d.scale + k));
  }

  lemma SumValue(a: int, b: int, scale: int)
    ensures Value(Dec(a + b, scale)) == Value(Dec(a, scale)) + Value(Dec(b, scale))
    ensures Value(Dec(a - b, scale)) == Value(Dec(a, scale)) - Value(Dec(b, scale))
  {
    var x, y, u := a as real, b as real, Unit(scale);
    assert (x + y) * u == x * u + y * u;
    assert (x - y) * u == x * u - y * u;
  }

  /** Adding the aligned integers at the larger scale adds the values. */
  lemma SumExact(a: Dec, b: Dec)
    ensures var s := Max(a.scale, b.scale);
            && Value(Dec(Aligned(a, b).unscaled + Aligned(b, a).unscaled, s)) == Value(a) + Value(b)
            && Value(Dec(Aligned(a, b).unscaled - Aligned(b, a).unscaled, s)) == Value(a) - Value(b)
  {
    var s := Max(a.scale, b.scale);
    ValueRescaled(a, s - a.scale);
    ValueRescaled(b, s - b.scale);
    assert Pow10(0) == 1;
    SumValue(Aligned(a, b).unscaled, Aligned(b, a).unscaled, s);
  }

  lemma Interchange(a: real, b: real, u: real, v: real)
    ensures (a * b) * (u * v) == (a * u) * (b * v)
  {
    RegroupReal(a, b, u * v);
    RegroupReal(b, u, v);
    RegroupReal(u, b, v);
    RegroupReal(a, u, b * v);
    assert b * u == u * b;
  }

  /** Multiplying the integers and adding the scales multiplies the values, whatever the signs of the
      scales. */
  lemma ProductExact(a: Dec, b: Dec)
    ensures Value(Dec(a.unscaled * b.unscaled, a.scale + b.scale)) == Value(a) * Value(b)
  {
    RealTimes(a.unscaled, b.unscaled);
    UnitSum(a.scale, b.scale);
    Interchange(a.unscaled as real, b.unscaled as real, Unit(a.scale), Unit(b.scale));
  }

  /** An exact conversion stands for the number itself: units * 2^-bits. */
  lemma ExactValue(bits: nat, v: int, s: nat, units: int)
    requires ExactIn(bits, v, s, units)
    ensures Value(Dec(v, s)) * Pow2(bits) as real == units as real
  {
    RealTimes(v, Pow2(bits));
    RealTimes(units, Pow10(s));
    UnitShift(0, s);
    var x, p, u, t := v as real, Pow2(bits) as real, Unit(s), Pow10(s) as real;
    RegroupReal(x, u, p);
    RegroupReal(x, p, u);
    assert u * p == p * u;
    RegroupReal(units as real, t, u);
    assert t * u == 1.0;
  }

  // ---- what an addition does to its operands -----------------------------------------------------

  /** Alignment multiplies the number an operand stands for by the power of ten of the missing digits. */
  lemma AlignedValue(a: Dec, b: Dec)
    ensures Value(Aligned(a, b)) == Value(a) * Pow10(Max(0, b.scale - a.scale)) as real
  {
    var p := Pow10(Max(0, b.scale - a.scale));
    assert Aligned(a, b).unscaled == a.unscaled * p;
    RealTimes(a.unscaled, p);
    RegroupReal(a.unscaled as real, p as real, Unit(a.scale));
    RegroupReal(a.unscaled as real, Unit(a.scale), p as real);
    assert p as real * Unit(a.scale) == Unit(a.scale) * p as real;
  }

  /** An operand keeps its value through an addition exactly when no digits had to be added to it. */
  lemma AlignedKeepsValue(a: Dec, b: Dec)
    ensures Value(Aligned(a, b)) == Value(a) <==> a.scale >= b.scale || a.unscaled == 0
  {
    if a.scale < b.scale {
      AlignedValue(a, b);
      Pow10Positive(b.scale - a.scale);
      ValueZero(a);
      FixedPoint(Value(a), Pow10(b.scale - a.scale) as real);
    }
  }

  lemma FixedPoint(x: real, p: real)
    requires p > 1.0
    ensures x * p == x <==> x == 0.0
  {
    assert x * (p - 1.0) == x * p - x;
    NonZeroTimes(x, p - 1.0);
  }

  lemma ValueZero(a: Dec)
    ensures Value(a) == 0.0 <==> a.unscaled == 0
  {
    UnitPositive(a.scale);
    NonZeroTimes(a.unscaled as real, Unit(a.scale));
  }

  lemma NonZeroTimes(x: real, u: real)
    requires u > 0.0
    ensures x * u == 0.0 <==> x == 0.0
  {
    if x > 0.0 { assert x * u > 0.0; }
    if x < 0.0 { assert x * u < 0.0; }
  }

  /** Adding the same two objects again gives the same sum exactly when neither was changed by the
      first addition: the scales agree, or the operand with the smaller scale is zero. */
  lemma AddAgain(a: Dec, b: Dec)
    ensures Value(Aligned(a, b)) + Value(Aligned(b, a)) == Value(a) + Value(b)
            <==> (a.scale < b.scale ==> a.unscaled == 0) && (b.scale < a.scale ==> b.unscaled == 0)
  {
    AlignedKeepsValue(a, b);
    AlignedKeepsValue(b, a);
  }

  /** 1 + 0.5 is 1.5 the first time and 10.5 the second time. */
  method AddTwice() returns (first: Numeric, second: Numeric)
    ensures Value(first.State()) == 1.5 && Value(second.State()) == 10.5
  {
    var a := new Numeric();
    var b := new Numeric();
    a.value, a.scale := 1, 0;
    b.value, b.scale := 5, 1;
    assert Pow10(1) == 10 && Pow10(0) == 1;
    first := a.Add(b);
    second := a.Add(b);
  }
}
