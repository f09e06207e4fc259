/**
 IEEE 754 binary64 as bit patterns (section 3.4 of IEEE 754-2008) and the order that hash tables
 use for doubles (ext/util/hash.c).
 */
module Ieee {
  import opened Powers
  import T = Types

  const TwoTo52 := 0x10_0000_0000_0000
  const TwoTo63 := 0x8000_0000_0000_0000
  const TwoTo64 := 0x1_0000_0000_0000_0000

  type Double = b: nat | b < 0x1_0000_0000_0000_0000

  function Negative(d: Double): bool { d >= TwoTo63 }

  /** The pattern without its sign bit. */
  function Unsign(d: Double): nat { if Negative(d) then d - TwoTo63 else d }

  function Exponent(d: Double): nat { Unsign(d) / TwoTo52 }

  function Fraction(d: Double): nat { Unsign(d) % TwoTo52 }

  predicate IsNaN(d: Double) { Exponent(d) == 2047 && Fraction(d) != 0 }

  predicate IsInfinite(d: Double) { Exponent(d) == 2047 && Fraction(d) == 0 }

  predicate IsFinite(d: Double) { Exponent(d) < 2047 }

  /** The magnitude given by exponent field `e` and fraction `f`, in units of 2^-1074: subnormal
      numbers have no implied leading one. */
  function Units(e: nat, f: nat): nat {
    if e == 0 then f else (TwoTo52 + f) * Pow2(e - 1)
  }

  /** The exact value of a finite double, in units of 2^-1074. */
  function Scaled(d: Double): int
    requires IsFinite(d)
  {
    var m := Units(Exponent(d), Fraction(d));
    if Negative(d) then 0 - m else m
  }

  /** The comparison `a < b` on doubles (section 5.11): no NaN is comparable, infinities bound the
      finite numbers, finite numbers compare by value. */
  predicate Less(a: Double, b: Double) {
    && !IsNaN(a) && !IsNaN(b)
    && if IsInfinite(a) && Negative(a) then !(IsInfinite(b) && Negative(b))
       else if IsInfinite(b) && !Negative(b) then !IsInfinite(a)
       else if IsInfinite(a) || IsInfinite(b) then false
       else Scaled(a) < Scaled(b)
  }

  /** The two's-complement reading of a 64-bit pattern. */
  function Signed(b: Double): int { if b >= TwoTo63 then b - TwoTo64 else b }

  /** `double_to_bits`. */
  function Canonical(d: Double): Double {
    if IsNaN(d) then 0x7ff8_0000_0000_0000 else d
  }

  /** `double_compare`. */
  function DoubleCompare(a: Double, b: Double): int {
    if Less(a, b) then -1
    else if Less(b, a) then 1
    else T.Compare(Signed(Canonical(a)), Signed(Canonical(b)))
  }

  // ---- magnitudes grow with the pattern ------------------------------------------------------

  lemma UnitsSameExponent(e: nat, f1: nat, f2: nat)
    requires f1 < f2
    ensures Units(e, f1) < Units(e, f2)
  {
    if e > 0 {
      Pow2Positive(e - 1);
      TimesMonotone(TwoTo52 + f1, TwoTo52 + f2, Pow2(e - 1));
    }
  }

  lemma TimesMonotone(a: nat, b: nat, c: nat)
    requires a < b && c > 0
    ensures a * c < b * c
  {
    assert (b - a) * c > 0;
  }

  lemma UnitsNextExponent(e1: nat, f1: nat, e2: nat, f2: nat)
    requires e1 < e2 && f1 < TwoTo52
    ensures Units(e1, f1) < Units(e2, f2)
  {
    Pow2Monotone(e1, e2 - 1);
    var p := Pow2(e2 - 1);
    assert TwoTo52 * p <= (TwoTo52 + f2) * p;
    if e1 == 0 {
      assert f1 < TwoTo52 * 1 <= TwoTo52 * p;
    } else {
      Pow2Positive(e1 - 1);
      TimesMonotone(TwoTo52 + f1, 2 * TwoTo52, Pow2(e1 - 1));
      assert (2 * TwoTo52) * Pow2(e1 - 1) == TwoTo52 * Pow2(e1);
      assert TwoTo52 * Pow2(e1) <= TwoTo52 * p;
    }
  }

  /** Among patterns without sign the larger pattern is the larger number. */
  lemma UnitsMonotone(m1: nat, m2: nat)
    requires m1 < m2
    ensures Units(m1 / TwoTo52, m1 % TwoTo52) < Units(m2 / TwoTo52, m2 % TwoTo52)
  {
    if m1 / TwoTo52 == m2 / TwoTo52 {
      UnitsSameExponent(m1 / TwoTo52, m1 % TwoTo52, m2 % TwoTo52);
    } else {
      UnitsNextExponent(m1 / TwoTo52, m1 % TwoTo52, m2 / TwoTo52, m2 % TwoTo52);
    }
  }

  // ---- the total order -------------------------------------------------------------------------

  /** The rank of a pattern: negative patterns count downwards, below zero. */
  function Rank(d: Double): int {
    var c := Canonical(d);
    if Negative(c) then -1 - Unsign(c) else c
  }

  lemma LessIsRank(a: Double, b: Double)
    requires IsFinite(a) && IsFinite(b)
    ensures Scaled(a) < Scaled(b) ==> Rank(a) < Rank(b)
    ensures Rank(a) < Rank(b) ==> Scaled(a) < Scaled(b) || (Unsign(a) == 0 && Unsign(b) == 0)
  {
    var m1, m2 := Unsign(a), Unsign(b);
    if m1 < m2 { UnitsMonotone(m1, m2); }
    if m2 < m1 { UnitsMonotone(m2, m1); }
    if m1 > 0 { UnitsMonotone(0, m1); }
    if m2 > 0 { UnitsMonotone(0, m2); }
  }

  lemma CompareIsRank(a: Double, b: Double)
    ensures DoubleCompare(a, b) == T.Compare(Rank(a), Rank(b))
  {
    if IsFinite(a) && IsFinite(b) {
      LessIsRank(a, b);
      LessIsRank(b, a);
    }
  }

  lemma RankIsCanonical(a: Double, b: Double)
    ensures Rank(a) == Rank(b) <==> Canonical(a) == Canonical(b)
  {
  }

  /** `double_compare` is a total order on all patterns, with the NaNs identified: it is zero exactly
      on equal canonical bits, antisymmetric and transitive. */
  lemma DoubleTotalOrder(a: Double, b: Double, c: Double)
    ensures DoubleCompare(a, b) == 0 <==> Canonical(a) == Canonical(b)
    ensures DoubleCompare(a, b) == -DoubleCompare(b, a)
    ensures DoubleCompare(a, b) <= 0 && DoubleCompare(b, c) <= 0 ==> DoubleCompare(a, c) <= 0
    ensures DoubleCompare(a, b) < 0 && DoubleCompare(b, c) <= 0 ==> DoubleCompare(a, c) < 0
  {
    CompareIsRank(a, b);
    CompareIsRank(b, a);
    CompareIsRank(b, c);
    CompareIsRank(a, c);
    RankIsCanonical(a, b);
  }

  /** It refines the numeric order: it differs from it only by putting every NaN above everything
      else and the negative zero below the positive one. */
  lemma DoubleOrderNumeric(a: Double, b: Double)
    ensures DoubleCompare(a, b) < 0 <==>
              Less(a, b) || (IsNaN(b) && !IsNaN(a)) || (a == TwoTo63 && b == 0)
  {
    CompareIsRank(a, b);
    if IsFinite(a) && IsFinite(b) { LessIsRank(a, b); }
  }
}
