/**
 The byte form of varint and of the unscaled part of decimal (ext/util/math.c): big-endian
 two's complement, most significant byte first.
 */
module TwosComplement {
  import opened Powers

  type Byte = b: nat | b < 256

  /** `mpz_import` of big-endian bytes, as an unsigned number. */
  function Unsigned(bytes: seq<Byte>): nat {
    if bytes == [] then 0 else 256 * Unsigned(bytes[..|bytes|-1]) + bytes[|bytes|-1]
  }

  /** `mpz_export`: the shortest big-endian bytes of a magnitude, none for zero. */
  function Magnitude(m: nat): seq<Byte> {
    if m == 0 then [] else Magnitude(m / 256) + [m % 256]
  }

  /** `import_twos_complement`. */
  function Import(bytes: seq<Byte>): int
    requires |bytes| > 0
  {
    var number := Unsigned(bytes);
    if bytes[0] >= 0x80 then number - Pow2(8 * |bytes|) else number
  }

  /** The number of bytes the code reserves for a negative number of magnitude `m`. */
  function NegativeSize(m: nat): nat
    requires m > 0
  {
    var n := BitLength(m) / 8 + 1;
    if LowBit(m) + 1 == 8 * (n - 1) then n - 1 else n
  }

  /** `export_twos_complement`. `mpz_export` ignores the sign of what it is given. */
  function Export(x: int): seq<Byte> {
    if x == 0 then [0]
    else if x < 0 then Magnitude(Abs(x + Pow2(8 * NegativeSize(-x))))
    else [0] + Magnitude(x)
  }

  /** The numbers whose size is underestimated: negative, with a bit length that is not a whole
      number of bytes, and the lowest set bit at the top of a byte just below the highest one. */
  predicate Truncated(x: int) {
    x < 0 && BitLength(-x) % 8 != 0 && LowBit(-x) + 1 == 8 * (BitLength(-x) / 8)
  }

  // ---- bytes -----------------------------------------------------------------------------

  lemma Pow256(n: nat)
    ensures Pow2(8 * (n + 1)) == 256 * Pow2(8 * n)
    ensures Pow2(8 * n + 7) == 128 * Pow2(8 * n)
  {
    assert Pow2(8) == 256 && Pow2(7) == 128;
    Pow2Add(8, 8 * n);
    Pow2Add(7, 8 * n);
  }

  lemma {:induction false} UnsignedOfMagnitude(m: nat)
    ensures Unsigned(Magnitude(m)) == m
  {
    if m > 0 {
      UnsignedOfMagnitude(m / 256);
      assert Magnitude(m)[..|Magnitude(m)|-1] == Magnitude(m / 256);
    }
  }

  /** The first byte decides the value up to the remaining bytes. */
  lemma {:induction false} FirstByte(bytes: seq<Byte>)
    requires |bytes| > 0
    ensures var unit := Pow2(8 * (|bytes| - 1));
            bytes[0] * unit <= Unsigned(bytes) < (bytes[0] + 1) * unit
    decreases |bytes|
  {
    var front := bytes[..|bytes|-1];
    if |bytes| == 1 {
      assert Unsigned(front) == 0;
    } else {
      FirstByte(front);
      Pow256(|bytes| - 2);
      AppendByte(bytes[0], Pow2(8 * (|front| - 1)), Unsigned(front), bytes[|bytes|-1]);
    }
  }

  lemma AppendByte(first: nat, unit: nat, value: nat, b: Byte)
    requires first * unit <= value < (first + 1) * unit
    ensures first * (256 * unit) <= 256 * value + b < (first + 1) * (256 * unit)
  {
    assert first * (256 * unit) == 256 * (first * unit);
    assert (first + 1) * (256 * unit) == 256 * ((first + 1) * unit);
  }

  /** The top bit is set exactly when the value is at least half of the range. */
  lemma TopBit(bytes: seq<Byte>)
    requires |bytes| > 0
    ensures bytes[0] >= 0x80 <==> Unsigned(bytes) >= Pow2(8 * |bytes| - 1)
  {
    FirstByte(bytes);
    Pow256(|bytes| - 1);
    var unit := Pow2(8 * (|bytes| - 1));
    Pow2Positive(8 * (|bytes| - 1));
    assert Pow2(8 * |bytes| - 1) == 128 * unit;
    if bytes[0] >= 0x80 {
      Scale(0x80, bytes[0], unit);
    } else {
      Scale(bytes[0] + 1, 0x80, unit);
    }
  }

  lemma Scale(a: nat, b: nat, c: nat)
    requires a <= b
    ensures a * c <= b * c
  {
  }

  lemma {:induction false} MagnitudeLength(m: nat, n: nat)
    requires n > 0 && Pow2(8 * (n - 1)) <= m < Pow2(8 * n)
    ensures |Magnitude(m)| == n
    decreases n
  {
    Pow2Positive(8 * (n - 1));
    Pow256(n - 1);
    if n > 1 {
      Pow256(n - 2);
      MagnitudeLength(m / 256, n - 1);
    } else {
      assert Magnitude(m / 256) == [];
    }
  }

  lemma LeadingZero(bytes: seq<Byte>)
    ensures Unsigned([0] + bytes) == Unsigned(bytes)
  {
    if bytes != [] {
      var all := [0] + bytes;
      assert all[..|all|-1] == [0] + bytes[..|bytes|-1];
      LeadingZero(bytes[..|bytes|-1]);
    }
  }

  // ---- the round trip ---------------------------------------------------------------------

  /** `n` bytes can hold `x` in two's complement. */
  predicate Fits(x: int, n: nat) {
    n > 0 && 0 - Pow2(8 * n - 1) <= x < Pow2(8 * n - 1)
  }

  lemma HalfRange(n: nat)
    requires n > 0
    ensures Pow2(8 * n) == 2 * Pow2(8 * n - 1)
    ensures Pow2(8 * (n - 1)) <= Pow2(8 * n - 1)
  {
    Pow2Monotone(8 * (n - 1), 8 * n - 1);
  }

  /** A negative number padded to enough bytes exports to exactly those bytes. */
  lemma NegativePadded(x: int, n: nat)
    requires x < 0 && Fits(x, n)
    ensures var bytes := Magnitude(Abs(x + Pow2(8 * n)));
            |bytes| == n && Import(bytes) == x
  {
    HalfRange(n);
    var m := x + Pow2(8 * n);
    MagnitudeLength(m, n);
    UnsignedOfMagnitude(m);
    TopBit(Magnitude(m));
  }

  lemma SoleBit(m: nat)
    requires m > 0 && LowBit(m) == BitLength(m) - 1
    ensures m == Pow2(BitLength(m) - 1)
  {
    BitLengthBounds(m);
    var odd := LowBitDivides(m);
    var unit := Pow2(BitLength(m) - 1);
    assert m == unit * odd && m < 2 * unit;
    if odd >= 2 { Scale(2, odd, unit); }
  }

  /** A power of two at the top of a byte fills its bytes exactly. */
  lemma PowerFits(m: nat, n: nat)
    requires n > 0 && m == Pow2(8 * n - 1)
    ensures Fits(0 - m, n) && !Fits(0 - m, n - 1)
  {
    Pow2Positive(8 * n - 1);
    if n > 1 { Pow2Monotone(8 * (n - 1) - 1, 8 * n - 1); }
  }

  /** Any other magnitude of `b` bits needs the byte after the last full one. */
  lemma OtherFits(m: nat, b: nat, n: nat)
    requires b > 0 && Pow2(b - 1) <= m < Pow2(b) && n == b / 8 + 1
    requires n > 1 ==> m != Pow2(8 * (n - 1) - 1)
    ensures Fits(0 - m, n) && !Fits(0 - m, n - 1)
  {
    Pow2Monotone(b, 8 * n - 1);
    if n > 1 { Pow2Monotone(8 * (n - 1) - 1, b - 1); }
  }

  lemma NotPower(m: nat, k: nat)
    requires m > 0 && LowBit(m) != k
    ensures m != Pow2(k)
  {
    LowBitOfPower(k);
  }

  /** The size of a magnitude whose lowest bit is not at the top of the last full byte. */
  lemma OtherSize(m: nat, b: nat, full: nat)
    requires b > 0 && Pow2(b - 1) <= m < Pow2(b) && full == b / 8
    requires m > 0 && (full > 0 ==> LowBit(m) != 8 * full - 1)
    ensures Fits(0 - m, full + 1) && !Fits(0 - m, full)
  {
    if full > 0 { NotPower(m, 8 * full - 1); }
    OtherFits(m, b, full + 1);
  }

  /** Outside the truncated numbers the size is right, and one byte less would not do. */
  lemma NegativeSizeExact(x: int)
    requires x < 0 && !Truncated(x)
    ensures Fits(x, NegativeSize(-x)) && !Fits(x, NegativeSize(-x) - 1)
  {
    var m, b := -x, BitLength(-x);
    if LowBit(m) + 1 == 8 * (b / 8) {
      SoleBit(m);
      PowerFits(m, NegativeSize(m));
    } else {
      BitLengthBounds(m);
      OtherSize(m, b, b / 8);
    }
  }

  /** A magnitude that is too small never reads back as the number it stands for. */
  lemma WrongMagnitude(m: nat, rest: nat)
    requires 0 < rest < m
    ensures |Magnitude(rest)| > 0 && Import(Magnitude(rest)) != 0 - m
  {
    var bytes := Magnitude(rest);
    UnsignedOfMagnitude(rest);
    TopBit(bytes);
    HalfRange(|bytes|);
  }

  lemma AbovePower(m: nat, b: nat, k: nat)
    requires m > 0 && k < b && Pow2(b - 1) <= m && LowBit(m) != k
    ensures Pow2(k) < m
  {
    Pow2Monotone(k, b - 1);
    LowBitOfPower(k);
  }

  lemma PowerBelow(m: nat, k: nat)
    requires m > 0 && 8 * k < BitLength(m) && LowBit(m) != 8 * k
    ensures 0 < Pow2(8 * k) < m
  {
    BitLengthBounds(m);
    AbovePower(m, BitLength(m), 8 * k);
    Pow2Positive(8 * k);
  }

  lemma TruncatedBits(x: int)
    requires Truncated(x)
    ensures 8 * NegativeSize(-x) < BitLength(-x) && LowBit(-x) != 8 * NegativeSize(-x)
  {
  }

  lemma TruncatedSize(x: int)
    requires Truncated(x)
    ensures 0 < Pow2(8 * NegativeSize(-x)) < -x
  {
    TruncatedBits(x);
    PowerBelow(-x, NegativeSize(-x));
  }

  /** A truncated number is exported with a wrong magnitude, which reads back as another number. */
  lemma TruncatedLost(x: int)
    requires Truncated(x)
    ensures |Export(x)| > 0 && Import(Export(x)) != x
  {
    TruncatedSize(x);
    var c := Pow2(8 * NegativeSize(-x));
    WrongMagnitude(-x, -x - c);
    assert Abs(x + c) == -x - c;
    assert Export(x) == Magnitude(-x - c);
  }

  /** Reading back what was written gives the same number exactly for the numbers that are not
      truncated. */
  lemma RoundTrip(x: int)
    ensures |Export(x)| > 0
    ensures Import(Export(x)) == x <==> !Truncated(x)
  {
    if x < 0 && Truncated(x) {
      TruncatedLost(x);
    } else if x < 0 {
      NegativeSizeExact(x);
      NegativePadded(x, NegativeSize(-x));
    } else if x > 0 {
      LeadingZero(Magnitude(x));
      UnsignedOfMagnitude(x);
    } else {
      assert Unsigned([0]) == 0;
    }
  }

  /** Negative numbers take the fewest bytes that can hold them. */
  lemma NegativeShortest(x: int, n: nat)
    requires x < 0 && !Truncated(x)
    ensures Fits(x, |Export(x)|) && (n < |Export(x)| ==> !Fits(x, n))
  {
    NegativeSizeExact(x);
    NegativePadded(x, NegativeSize(-x));
    var size := NegativeSize(-x);
    if 0 < n < size - 1 { Pow2Monotone(8 * n - 1, 8 * (size - 1) - 1); }
  }

  /** `b` bits take `n` bytes; the top bit of these bytes is free unless the bits fill them. */
  lemma BitsOfBytes(x: nat, b: nat, n: nat)
    requires b > 0 && Pow2(b - 1) <= x < Pow2(b) && n == (b + 7) / 8
    ensures n > 0 && Pow2(8 * (n - 1)) <= x < Pow2(8 * n)
    ensures x < Pow2(8 * n - 1) <==> b % 8 != 0
  {
    Pow2Monotone(8 * (n - 1), b - 1);
    Pow2Monotone(b, 8 * n);
    if b < 8 * n { Pow2Monotone(b, 8 * n - 1); }
    assert b % 8 == 0 <==> b == 8 * n;
  }

  lemma PositiveSize(x: nat, b: nat, n: nat)
    requires b > 0 && Pow2(b - 1) <= x < Pow2(b) && n == (b + 7) / 8
    ensures |Magnitude(x)| == n
  {
    BitsOfBytes(x, b, n);
    MagnitudeLength(x, n);
  }

  lemma PositiveFits(x: nat, b: nat, n: nat)
    requires b > 0 && Pow2(b - 1) <= x < Pow2(b) && n == (b + 7) / 8
    ensures Fits(x, n + 1) && (Fits(x, n) <==> b % 8 != 0)
  {
    BitsOfBytes(x, b, n);
    Pow2Monotone(8 * n, 8 * (n + 1) - 1);
  }

  /** A positive number of `b` bits always gets a zero byte in front, so one byte is spare unless
      the bits fill their bytes. */
  lemma PositiveLength(x: nat, b: nat)
    requires b > 0 && Pow2(b - 1) <= x < Pow2(b)
    ensures var n := (b + 7) / 8;
            |Export(x)| == n + 1 && Fits(x, n + 1) && (Fits(x, n) <==> b % 8 != 0)
  {
    var n := (b + 7) / 8;
    PositiveFits(x, b, n);
    PositiveSize(x, b, n);
    Pow2Positive(b - 1);
    assert Export(x) == [0] + Magnitude(x);
  }

  lemma Bits384()
    ensures BitLength(384) == 9 && LowBit(384) == 7
  {
    assert BitLength(3) == 2 && LowBit(3) == 0;
    assert BitLength(12) == 4 && LowBit(12) == 2;
    assert BitLength(48) == 6 && LowBit(48) == 4;
    assert BitLength(192) == 8 && LowBit(192) == 6;
  }

  /** -384 is written as the single byte 0x80 and reads back as -128. */
  lemma TruncationWitness()
    ensures Truncated(-384) && Export(-384) == [0x80] && Import(Export(-384)) == -128
  {
    Bits384();
    assert NegativeSize(384) == 1 && Pow2(8) == 256;
    OneByte(128);
  }

  lemma OneByte(b: Byte)
    requires b > 0
    ensures Magnitude(b) == [b] && Unsigned([b]) == b
  {
    assert Magnitude(b / 256) == [];
    SingleByte(b);
  }

  // ---- reading any bytes ------------------------------------------------------------------

  lemma Weighted(b: int, unit: nat, v: nat, last: nat)
    ensures 256 * (b * unit + v) + last == b * (256 * unit) + (256 * v + last)
  {
    assert b * (256 * unit) == 256 * (b * unit);
  }

  /** A byte in front counts with the weight of its place. */
  lemma {:induction false} ByteInFront(b: Byte, rest: seq<Byte>)
    ensures Unsigned([b] + rest) == b * Pow2(8 * |rest|) + Unsigned(rest)
    decreases |rest|
  {
    if rest == [] {
      SingleByte(b);
      assert [b] + rest == [b];
    } else {
      var front, last := rest[..|rest|-1], rest[|rest|-1];
      ByteInFront(b, front);
      Pow256(|front|);
      Weighted(b, Pow2(8 * |front|), Unsigned(front), last);
      LastByte([b] + front, last);
      assert [b] + front + [last] == [b] + rest;
    }
  }

  lemma SingleByte(b: Byte)
    ensures Unsigned([b]) == b && Pow2(0) == 1
  {
    LastByte([], b);
    assert [] + [b] == [b];
  }

  lemma LastByte(front: seq<Byte>, last: Byte)
    ensures Unsigned(front + [last]) == 256 * Unsigned(front) + last
  {
    assert (front + [last])[..|front|] == front;
  }

  /** The first byte of two's complement counts from -128 to 127, the others from 0 to 255, each with
      the weight of its place. */
  lemma ImportBytes(b: Byte, rest: seq<Byte>)
    ensures Import([b] + rest) == (if b < 128 then b else b - 256) * Pow2(8 * |rest|) + Unsigned(rest)
  {
    ImportIs(b, rest);
    ByteInFront(b, rest);
    Borrowed(b, Pow2(8 * |rest|));
  }

  lemma ImportIs(b: Byte, rest: seq<Byte>)
    ensures Import([b] + rest) == Unsigned([b] + rest) - (if b < 128 then 0 else 256 * Pow2(8 * |rest|))
  {
    Pow256(|rest|);
    assert |[b] + rest| == |rest| + 1 && ([b] + rest)[0] == b;
  }

  lemma Borrowed(b: int, unit: nat)
    ensures (b - 256) * unit == b * unit - 256 * unit
  {
  }

  /** Bit `i` of a number. */
  function Bit(m: nat, i: nat): nat { if i == 0 then m % 2 else Bit(m / 2, i - 1) }

  /** The lowest `k` bits with their weights. */
  function SumBits(m: nat, k: nat): nat {
    if k == 0 then 0 else SumBits(m, k - 1) + Bit(m, k - 1) * Pow2(k - 1)
  }

  lemma {:induction false} SumBitsShift(m: nat, k: nat)
    ensures SumBits(m, k + 1) == m % 2 + 2 * SumBits(m / 2, k)
  {
    if k == 0 {
      assert SumBits(m, 0) == 0 && Pow2(0) == 1;
    } else {
      SumBitsShift(m, k - 1);
      DoubleWeight(Bit(m / 2, k - 1), Pow2(k - 1));
    }
  }

  lemma DoubleWeight(bit: nat, weight: nat)
    ensures bit * (2 * weight) == 2 * (bit * weight)
  {
  }

  /** A number below 2^k is the sum of its `k` bits. */
  lemma {:induction false} NumberOfBits(m: nat, k: nat)
    requires m < Pow2(k)
    ensures SumBits(m, k) == m
    decreases k
  {
    if k > 0 {
      NumberOfBits(m / 2, k - 1);
      SumBitsShift(m, k - 1);
    }
  }

  lemma {:induction false} UnsignedBelow(bytes: seq<Byte>)
    ensures Unsigned(bytes) < Pow2(8 * |bytes|)
  {
    if bytes != [] {
      UnsignedBelow(bytes[..|bytes|-1]);
      Pow256(|bytes| - 1);
    }
  }

  /** Two's complement of any bytes: every bit counts with its weight, and the top bit with the
      negative of its weight. */
  lemma ImportBits(bytes: seq<Byte>)
    requires |bytes| > 0
    ensures var m, top := Unsigned(bytes), 8 * |bytes| - 1;
            Import(bytes) == SumBits(m, top) - Bit(m, top) * Pow2(top) && Fits(Import(bytes), |bytes|)
  {
    UnsignedBelow(bytes);
    HalfRange(|bytes|);
    TopBit(bytes);
    TopAndRest(Unsigned(bytes), 8 * |bytes| - 1);
  }

  /** A number is its top bit and the sum of the others. */
  lemma TopAndRest(m: nat, top: nat)
    requires m < Pow2(top + 1)
    ensures var weight := Pow2(top);
            && SumBits(m, top) == (if m < weight then m else m - weight)
            && Bit(m, top) * weight == (if m < weight then 0 else weight)
  {
    NumberOfBits(m, top + 1);
    BitIs(m, top);
  }

  /** The top one of `k` + 1 bits says whether the number reaches 2^k. */
  lemma {:induction false} BitIs(m: nat, k: nat)
    requires m < Pow2(k + 1)
    ensures Bit(m, k) == if m >= Pow2(k) then 1 else 0
  {
    if k > 0 { BitIs(m / 2, k - 1); }
  }

  /** 5 in one byte, and the same bits with a zero byte in front. */
  lemma ImportWitness()
    ensures Import([5]) == Import([0, 5]) == 5 && Import([0xff]) == -1
  {
    ImportBytes(5, []);
    ImportBytes(0, [5]);
    ImportBytes(0xff, []);
    assert [0] + [5] == [0, 5] && [5] + [] == [5] && [0xff] + [] == [0xff];
    SingleByte(5);
    assert Pow2(0) == 1;
  }
}
