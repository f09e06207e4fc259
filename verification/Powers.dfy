/** Powers, bit length and lowest set bit. */
module Powers {

  function Max(a: int, b: int): int { if a < b then b else a }

  function Abs(x: int): nat { if x < 0 then -x else x }

  function Pow2(n: nat): nat {
    if n == 0 then 1 else 2 * Pow2(n - 1)
  }

  lemma {:induction false} Pow2Add(a: nat, b: nat)
    ensures Pow2(a + b) == Pow2(a) * Pow2(b)
  {
    if a > 0 {
      Pow2Add(a - 1, b);
      DoubleProduct(Pow2(a - 1), Pow2(b));
    }
  }

  lemma DoubleProduct(x: nat, y: nat)
    ensures (2 * x) * y == 2 * (x * y)
  {
  }

  lemma {:induction false} Pow2Positive(n: nat)
    ensures Pow2(n) > 0
  {
    if n > 0 { Pow2Positive(n - 1); }
  }

  lemma {:induction false} Pow2Monotone(a: nat, b: nat)
    requires a <= b
    ensures 0 < Pow2(a) <= Pow2(b)
    ensures a < b ==> Pow2(a) < Pow2(b)
    decreases b
  {
    if a < b {
      Pow2Monotone(a, b - 1);
    } else {
      Pow2Positive(a);
    }
  }

  /** The number of binary digits of `m`; 0 has none. */
  function BitLength(m: nat): nat {
    if m == 0 then 0 else 1 + BitLength(m / 2)
  }

  lemma {:induction false} BitLengthBounds(m: nat)
    requires m > 0
    ensures BitLength(m) >= 1 && Pow2(BitLength(m) - 1) <= m < Pow2(BitLength(m))
  {
    if m > 1 { BitLengthBounds(m / 2); }
  }

  /** The position of the lowest set bit. */
  function LowBit(m: nat): nat
    requires m > 0
  {
    if m % 2 == 1 then 0 else 1 + LowBit(m / 2)
  }

  lemma {:induction false} LowBitDivides(m: nat) returns (odd: nat)
    requires m > 0
    ensures m == Pow2(LowBit(m)) * odd && odd % 2 == 1
  {
    if m % 2 == 1 {
      odd := m;
    } else {
      odd := LowBitDivides(m / 2);
      DoubleProduct(Pow2(LowBit(m / 2)), odd);
    }
  }

  lemma {:induction false} LowBitOfPower(n: nat)
    ensures Pow2(n) > 0 && LowBit(Pow2(n)) == n
  {
    if n > 0 { LowBitOfPower(n - 1); }
  }
}
