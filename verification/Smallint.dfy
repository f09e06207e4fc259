/**
 The overflow guards of small integers (ext/src/Smallint.c): an operation is carried out in `int`,
 stored in a narrow two's-complement field, and checked by undoing it. Stated for every field width
 up to 16 bits; smallint has 16.
 */
module SmallintGuards {
  import opened Options
  import opened Powers

  predicate Fits(x: int, w: nat)
    requires w > 0
  {
    -(Pow2(w - 1) as int) <= x < Pow2(w - 1)
  }

  /** Storing an `int` in a field of `w` bits. */
  function Wrap(x: int, w: nat): int
    requires w > 0
  {
    Pow2Positive(w);
    var u := x % Pow2(w);
    if u < Pow2(w - 1) then u else u - Pow2(w)
  }

  function TruncDiv(a: int, b: int): int
    requires b != 0
  {
    var q := (if a < 0 then -a else a) / (if b < 0 then -b else b);
    if (a < 0) == (b < 0) then q else -q
  }

  /** `add`, `sub` and `mul`; `None` is the range exception. */
  function Add(a: int, b: int, w: nat): Option<int>
    requires w > 0
  {
    var r := Wrap(a + b, w);
    if r - b != a then None else Some(r)
  }

  function Sub(a: int, b: int, w: nat): Option<int>
    requires w > 0
  {
    var r := Wrap(a - b, w);
    if r + b != a then None else Some(r)
  }

  function Mul(a: int, b: int, w: nat): Option<int>
    requires w > 0
  {
    var r := Wrap(a * b, w);
    if b != 0 && TruncDiv(r, b) != a then None else Some(r)
  }

  /** The stored value fits, and differs from the exact one by a multiple of the field's range. */
  lemma WrapCongruent(x: int, w: nat) returns (k: int)
    requires w > 0
    ensures Fits(Wrap(x, w), w) && Wrap(x, w) == x + k * Pow2(w)
    ensures Fits(x, w) <==> k == 0
  {
    Pow2Positive(w);
    Pow2Positive(w - 1);
    var p, u := Pow2(w), x % Pow2(w);
    assert x == p * (x / p) + u;
    k := if u < Pow2(w - 1) then -(x / p) else -(x / p) - 1;
    Shift(x / p, p);
    if k != 0 { AwayFromZero(k, p); }
  }

  lemma Shift(q: int, p: nat)
    ensures (-q) * p == -(p * q) && (-q - 1) * p == -(p * q) - p
  {
  }

  lemma AwayFromZero(k: int, p: nat)
    requires k != 0
    ensures k > 0 ==> k * p >= p
    ensures k < 0 ==> k * p <= -(p as int)
  {
    if k > 0 { assert (k - 1) * p >= 0; } else { assert (-k - 1) * p >= 0; }
  }

  /** A sum or a difference raises exactly when it is out of range, and is exact otherwise. */
  lemma AddSubExact(a: int, b: int, w: nat)
    requires 0 < w <= 16 && Fits(a, w) && Fits(b, w)
    ensures Add(a, b, w) == if Fits(a + b, w) then Some(a + b) else None
    ensures Sub(a, b, w) == if Fits(a - b, w) then Some(a - b) else None
  {
    Pow2Positive(w);
    var k := WrapCongruent(a + b, w);
    var j := WrapCongruent(a - b, w);
    if k != 0 { AwayFromZero(k, Pow2(w)); }
    if j != 0 { AwayFromZero(j, Pow2(w)); }
  }

  /** Truncating division leaves a remainder smaller than the divisor. */
  lemma TruncRemainder(a: int, b: int)
    requires b != 0
    ensures var r := a - b * TruncDiv(a, b); 0 - Abs(b) < r < Abs(b)
  {
    var x: int, y: int := Abs(a), Abs(b);
    var q: int := x / y;
    assert 0 <= x - y * q < y;
    if b < 0 {
      assert b * q == -(y * q) && b * (-q) == y * q;
    } else {
      assert b * (-q) == -(y * q);
    }
  }

  /** Division undoes a product that did not overflow. */
  lemma TruncDivProduct(a: int, b: int)
    requires b != 0
    ensures TruncDiv(a * b, b) == a
  {
    TruncRemainder(a * b, b);
    var d := a - TruncDiv(a * b, b);
    assert a * b - b * TruncDiv(a * b, b) == b * d;
    if d != 0 { FarProduct(b, d); }
  }

  lemma FarProduct(b: int, d: int)
    requires b != 0 && d != 0
    ensures b * d >= Abs(b) || b * d <= 0 - Abs(b)
  {
    if d > 0 {
      if b > 0 { assert b * (d - 1) >= 0; } else { assert (-b) * (d - 1) >= 0; }
    } else {
      if b > 0 { assert b * (-d - 1) >= 0; } else { assert (-b) * (-d - 1) >= 0; }
    }
  }

  /** What lies at least one divisor away from a product does not divide back to its factor. */
  lemma FarFromProduct(r: int, a: int, b: int, product: int)
    requires b != 0 && product == b * a
    requires r - product >= Abs(b) || r - product <= 0 - Abs(b)
    ensures TruncDiv(r, b) != a
  {
    TruncRemainder(r, b);
  }

  /** A product raises exactly when it is out of range, and is exact otherwise: a wrapped product
      lies too far away for division to bring back the first factor. */
  lemma MulExact(a: int, b: int, w: nat)
    requires 0 < w <= 16 && Fits(a, w) && Fits(b, w)
    ensures Mul(a, b, w) == if Fits(a * b, w) then Some(a * b) else None
  {
    var product := a * b;
    var k := WrapCongruent(product, w);
    if b == 0 {
      ZeroFits(w);
      assert product == 0;
    } else if k == 0 {
      TruncDivProduct(a, b);
    } else {
      AwayFromZero(k, Pow2(w));
      FarFromProduct(Wrap(product, w), a, b, product);
    }
  }

  lemma ZeroFits(w: nat)
    requires w > 0
    ensures Fits(0, w)
  {
    Pow2Positive(w - 1);
  }

  /** The operations themselves never overflow the 32-bit `int` they are carried out in. */
  lemma IntSuffices(a: int, b: int, w: nat)
    requires 0 < w <= 16 && Fits(a, w) && Fits(b, w)
    ensures -0x4000_0000 <= a * b <= 0x4000_0000
    ensures -0x1_0000 <= a + b <= 0x1_0000 && -0x1_0000 <= a - b <= 0x1_0000
  {
    Pow2Monotone(w - 1, 15);
    assert Pow2(15) == 0x8000;
    ProductBound(a, b, 0x8000);
  }

  lemma ProductBound(a: int, b: int, m: nat)
    requires Abs(a) <= m && Abs(b) <= m
    ensures -(m * m) <= a * b <= m * m
  {
    var x: int, y: int := Abs(a), Abs(b);
    NatProduct(x, y, m);
    assert a * b == x * y || a * b == -(x * y);
  }

  lemma NatProduct(x: nat, y: nat, m: nat)
    requires x <= m && y <= m
    ensures 0 <= x * y <= m * m
  {
    assert (m - x) * y >= 0;
    assert m * (m - y) >= 0;
  }

  /** The quotient is stored unchecked: it is exact except for the minimum divided by -1. */
  lemma DivExact(a: int, b: int, w: nat)
    requires 1 < w <= 16 && Fits(a, w) && Fits(b, w) && b != 0
    ensures Wrap(TruncDiv(a, b), w) == TruncDiv(a, b) <==> !(a == -(Pow2(w - 1) as int) && b == -1)
  {
    var q := TruncDiv(a, b);
    var k := WrapCongruent(q, w);
    if k != 0 { AwayFromZero(k, Pow2(w)); Pow2Positive(w); }
    QuotientBound(a, b);
    Pow2Positive(w - 2);
  }

  lemma SmallerQuotient(x: nat, y: nat)
    requires y > 0
    ensures 0 <= x / y <= x && (y >= 2 && x > 0 ==> x / y < x) && (y == 1 ==> x / y == x)
  {
    var q := x / y;
    assert y * q <= x;
    TimesAtLeast(y, q);
  }

  lemma TimesAtLeast(y: nat, q: nat)
    requires y > 0
    ensures y * q >= q && (y >= 2 ==> y * q >= 2 * q)
  {
    assert (y - 1) * q >= 0;
    if y >= 2 { assert (y - 2) * q >= 0; }
  }

  lemma QuotientBound(a: int, b: int)
    requires b != 0
    ensures 0 - Abs(a) <= TruncDiv(a, b) <= Abs(a)
    ensures TruncDiv(a, b) == Abs(a) && a < 0 ==> b == -1
    ensures b == -1 ==> TruncDiv(a, b) == -a
  {
    SmallerQuotient(Abs(a), Abs(b));
  }

  /** -32768 / -1 is stored as -32768. */
  lemma DivWitness()
    ensures Fits(-32768, 16) && Fits(-1, 16) && Wrap(TruncDiv(-32768, -1), 16) == -32768
  {
    assert Pow2(7) == 128;
    assert Pow2(15) == 32768 && Pow2(16) == 65536;
  }
}
