/** Decimal digits: writing a number and reading it back from the front of a text. */
module Numerals {

  const DigitChars: string := "0123456789"

  function DigitChar(d: nat): char
    requires d < 10
  {
    DigitChars[d]
  }

  predicate IsDigit(c: char) { '0' <= c <= '9' }

  function DigitValue(c: char): nat
    requires IsDigit(c)
  {
    c as int - '0' as int
  }

  lemma DigitRoundTrip(d: nat)
    requires d < 10
    ensures IsDigit(DigitChar(d)) && DigitValue(DigitChar(d)) == d
    ensures DigitChar(d) == '0' <==> d == 0
  {
  }

  /** The decimal text of a number, without leading zeros. */
  function Digits(n: nat): string {
    if n < 10 then [DigitChar(n)] else Digits(n / 10) + [DigitChar(n % 10)]
  }

  /** A text and the number read before it. */
  datatype Reading = Reading(value: nat, rest: string)

  /** Reads the longest run of digits. */
  function Scan(s: string, acc: nat): Reading
    decreases |s|
  {
    if s != [] && IsDigit(s[0]) then Scan(s[1..], 10 * acc + DigitValue(s[0])) else Reading(acc, s)
  }

  lemma ScanOne(d: nat, rest: string, acc: nat)
    requires d < 10
    ensures Scan([DigitChar(d)] + rest, acc) == Scan(rest, 10 * acc + d)
  {
    DigitRoundTrip(d);
    assert ([DigitChar(d)] + rest)[1..] == rest;
  }

  lemma {:induction false} ScanDigits(n: nat, rest: string)
    ensures Scan(Digits(n) + rest, 0) == Scan(rest, n)
  {
    if n < 10 {
      ScanOne(n, rest, 0);
    } else {
      var last := [DigitChar(n % 10)];
      assert Digits(n) + rest == Digits(n / 10) + (last + rest);
      ScanDigits(n / 10, last + rest);
      ScanOne(n % 10, rest, n / 10);
    }
  }

  /** Reading back a written number stops at the first character that is no digit. */
  lemma ReadBack(n: nat, rest: string)
    requires rest == [] || !IsDigit(rest[0])
    ensures Scan(Digits(n) + rest, 0) == Reading(n, rest)
  {
    ScanDigits(n, rest);
  }

  lemma {:induction false} AllDigits(n: nat)
    ensures |Digits(n)| > 0 && forall i :: 0 <= i < |Digits(n)| ==> IsDigit(Digits(n)[i])
  {
    if n < 10 {
      DigitRoundTrip(n);
    } else {
      AllDigits(n / 10);
      DigitRoundTrip(n % 10);
    }
  }
}
