/**
 The text form of decimals (ext/util/math.c): `php_driver_format_decimal` and
 `php_driver_parse_decimal`.
 */
module DecimalText {
  import opened Options
  import opened Numerals
  import opened Powers
  import opened Decimals

  const Nul: char := '\0'

  // ---- formatting --------------------------------------------------------------------------------

  function Sign(n: int): string { if n < 0 then "-" else "" }

  function Zeros(k: nat): string { if k == 0 then "" else "0" + Zeros(k - 1) }

  /** The smallest k >= `from` with x <= 10^k: `ceil(log10(x))`. */
  function CeilLog10(x: nat, from: nat): nat
    requires from == 0 || Pow10(from - 1) < x
    decreases x + 1 - Max(0, if from == 0 then 0 else Pow10(from - 1))
  {
    if x <= Pow10(from) then from
    else
      Pow10Grows(from);
      CeilLog10(x, from + 1)
  }

  lemma Pow10Grows(k: nat)
    ensures 0 < Pow10(k) < Pow10(k + 1)
    ensures k > 0 ==> Pow10(k - 1) < Pow10(k)
  {
    Pow10Positive(k);
    if k > 0 { Pow10Positive(k - 1); }
  }

  /** Very small numbers are written with an exponent. */
  predicate Scientific(n: int, scale: nat) { scale > 0 && |Digits(Abs(n))| - scale - 1 < -6 }

  /** The exponent without its sign. */
  function ExponentSize(n: int, scale: nat): nat
    requires Scientific(n, scale)
  {
    scale + 1 - |Digits(Abs(n))|
  }

  /** One digit, or one digit, a dot and the others; then the exponent. */
  function ScientificText(n: int, scale: nat): string
    requires Scientific(n, scale)
  {
    var d := Digits(Abs(n));
    var exponent := "E-" + Digits(ExponentSize(n, scale));
    if |d| == 1 then Sign(n) + (d + exponent) else Sign(n) + (d[..1] + ("." + (d[1..] + exponent)))
  }

  /** The text without exponent. */
  function PlainText(n: int, scale: nat): string
    requires !Scientific(n, scale)
  {
    var d := Digits(Abs(n));
    if scale == 0 then Sign(n) + d
    else if |d| <= scale then Sign(n) + ("0" + ("." + (Zeros(scale - |d|) + d)))
    else Sign(n) + (d[..|d| - scale] + ("." + d[|d| - scale..]))
  }

  /** The length the code reports for a text with an exponent. */
  function ReportedLength(n: int, scale: nat): nat
    requires Scientific(n, scale)
  {
    var exponentSize := CeilLog10(ExponentSize(n, scale) + 2, 0) + 1;
    if |Digits(Abs(n))| == 1 then 1 + |Sign(n)| + 1 + exponentSize
    else |Sign(n)| + 1 + |Digits(Abs(n))| + 1 + exponentSize
  }

  /** The PHP string: as many bytes of the buffer as reported, a terminating NUL among them if the
      report is one too many. */
  function Format(n: int, scale: nat): string {
    if Scientific(n, scale) then
      var text := ScientificText(n, scale);
      if ReportedLength(n, scale) > |text| then text + [Nul] else text
    else PlainText(n, scale)
  }

  // ---- parsing -------------------------------------------------------------------------------------

  datatype Parsed = Parsed(unscaled: int, scale: int)

  /** Strings are followed by a NUL. */
  function CharAt(s: string, i: nat): char { if i < |s| then s[i] else Nul }

  predicate IsHexDigit(c: char) { IsDigit(c) || 'a' <= c <= 'f' || 'A' <= c <= 'F' }

  datatype Found = Found(point: nat, dot: Option<nat>)

  /** The loop that looks for the dot and the start of the exponent; `None` is a second dot or a
      character that does not belong. */
  function Locate(s: string, point: nat, dot: Option<nat>): Option<Found>
    decreases |s| - point
  {
    if point >= |s| then Some(Found(point, dot))
    else if s[point] == '.' then (if dot.Some? then None else Locate(s, point + 1, Some(point)))
    else if s[point] == 'e' || s[point] == 'E' then Some(Found(point, dot))
    else if !IsHexDigit(s[point]) then None
    else Locate(s, point + 1, dot)
  }

  /** The loop itself. */
  method FindParts(s: string, start: nat) returns (r: Option<Found>)
    requires start <= |s|
    ensures r == Locate(s, start, None)
  {
    var point := start;
    var dot: Option<nat> := None;
    while point < |s|
      invariant start <= point <= |s|
      invariant Locate(s, start, None) == Locate(s, point, dot)
    {
      var c := s[point];
      if c == '.' {
        if dot.Some? { return None; }
        dot := Some(point);
      } else if c == 'e' || c == 'E' {
        return Some(Found(point, dot));
      } else if !IsHexDigit(c) {
        return None;
      }
      point := point + 1;
    }
    return Some(Found(point, dot));
  }

  /** `mpz_set_str` in base 10, after the sign. */
  function ReadNatural(s: string): Option<nat> {
    var r := Scan(s, 0);
    if s != [] && r.rest == [] then Some(r.value) else None
  }

  function DigitOf(c: char): nat {
    if IsDigit(c) then DigitValue(c)
    else if 'a' <= c <= 'z' then c as int - 'a' as int + 10
    else if 'A' <= c <= 'Z' then c as int - 'A' as int + 10
    else 99
  }

  function ReadBase(s: string, base: nat, acc: nat): Option<nat> {
    if s == [] || s[0] == Nul then Some(acc)
    else if DigitOf(s[0]) >= base then None
    else ReadBase(s[1..], base, base * acc + DigitOf(s[0]))
  }

  /** `mpz_set_str` in base 0, after the sign, on a text that starts with 0: binary, hexadecimal or
      octal. */
  function ReadPrefixed(s: string): Option<nat>
    requires s != [] && s[0] == '0'
  {
    var c := CharAt(s, 1);
    if c == 'b' || c == 'B' || c == 'x' || c == 'X' then
      if CharAt(s, 2) == Nul then None
      else ReadBase(s[2..], if c == 'b' || c == 'B' then 2 else 16, 0)
    else ReadBase(s[1..], 8, 0)
  }

  function Negated(n: Option<nat>, negative: bool): Option<int> {
    if n.None? then None else Some(if negative then -(n.value as int) else n.value)
  }

  /** `sscanf("%d")` at position `at`: an optional sign and at least one digit. */
  function ReadInt(s: string): Option<int> {
    if s == [] then None
    else
      var body := if s[0] == '-' || s[0] == '+' then s[1..] else s;
      if body == [] || !IsDigit(body[0]) then None
      else Some(if s[0] == '-' then -(Scan(body, 0).value as int) else Scan(body, 0).value)
  }

  /** The digits handed to `mpz_set_str`. With a dot the copy takes one byte too many: the terminator
      of the string, or the E that starts the exponent. */
  function Significand(s: string, start: nat, f: Found): string
    requires start <= f.point <= |s| && (f.dot.Some? ==> start <= f.dot.value < f.point)
  {
    if f.dot.None? then s[start..f.point]
    else s[start..f.dot.value] + s[f.dot.value + 1..if f.point < |s| then f.point + 1 else f.point]
  }

  lemma {:induction false} LocateBounds(s: string, point: nat, dot: Option<nat>)
    requires point <= |s| && (dot.Some? ==> dot.value < point)
    ensures var r := Locate(s, point, dot);
            r.Some? ==> && point <= r.value.point <= |s|
                        && (r.value.dot.Some? ==> r.value.dot.value < r.value.point)
                        && (r.value.dot.Some? && dot.None? ==> point <= r.value.dot.value)
                        && (dot.Some? ==> r.value.dot == dot)
    decreases |s| - point
  {
    if point < |s| {
      if s[point] == '.' {
        if dot.None? { LocateBounds(s, point + 1, Some(point)); }
      } else if s[point] != 'e' && s[point] != 'E' && IsHexDigit(s[point]) {
        LocateBounds(s, point + 1, dot);
      }
    }
  }

  /** The exponent, subtracted from the scale. */
  function ParseExponent(s: string, point: nat, unscaled: int, scale: int): Option<Parsed>
    requires point < |s|
  {
    var at := if CharAt(s, point + 1) == '+' then point + 2 else point + 1;
    if at >= |s| then None
    else
      var e := ReadInt(s[at..]);
      if e.None? then None else Some(Parsed(unscaled, scale - e.value))
  }

  /** `php_driver_parse_decimal`; `None` is an exception. */
  function Parse(s: string): Option<Parsed> {
    var negative := CharAt(s, 0) == '-';
    var start := if negative || CharAt(s, 0) == '+' then 1 else 0;
    ParseFrom(s, start, negative)
  }

  function ParseFrom(s: string, start: nat, negative: bool): Option<Parsed>
    requires start <= |s|
  {
    var maybeOctal := CharAt(s, start) == '0';
    if maybeOctal && (CharAt(s, start + 1) == 'b' || CharAt(s, start + 1) == 'x') then
      Unscaled(Negated(ReadPrefixed(s[start..]), negative))
    else
      var found := Locate(s, start, None);
      LocateBounds(s, start, None);
      if found.None? then None
      else if maybeOctal && found.value.dot.None? then Unscaled(Negated(ReadPrefixed(s[start..]), negative))
      else ParseParts(s, start, negative, found.value)
  }

  function Unscaled(n: Option<int>): Option<Parsed> {
    if n.None? then None else Some(Parsed(n.value, 0))
  }

  function ParseParts(s: string, start: nat, negative: bool, f: Found): Option<Parsed>
    requires start <= f.point <= |s| && (f.dot.Some? ==> start <= f.dot.value < f.point)
  {
    var scale := if f.dot.Some? then f.point - 1 - f.dot.value else 0;
    var n := Negated(ReadNatural(Significand(s, start, f)), negative);
    if n.None? then None
    else if f.point < |s| then ParseExponent(s, f.point, n.value, scale)
    else Some(Parsed(n.value, scale))
  }

  // ---- reading back --------------------------------------------------------------------------------

  predicate DigitsOnly(x: string) { forall i :: 0 <= i < |x| ==> IsDigit(x[i]) }

  /** `x` stands at position `at` of `s`. */
  predicate Stands(s: string, at: nat, x: string) { at + |x| <= |s| && s[at..at + |x|] == x }

  lemma {:induction false} LocateDigits(s: string, at: nat, x: string, dot: Option<nat>)
    requires Stands(s, at, x) && DigitsOnly(x)
    ensures Locate(s, at, dot) == Locate(s, at + |x|, dot)
    decreases |x|
  {
    if x != [] {
      assert s[at] == x[0];
      assert s[at + 1..at + |x|] == x[1..];
      LocateDigits(s, at + 1, x[1..], dot);
    }
  }

  lemma {:induction false} ScanAllDigits(x: string, rest: string, acc: nat)
    requires DigitsOnly(x)
    ensures Scan(x, acc).rest == [] && Scan(x + rest, acc) == Scan(rest, Scan(x, acc).value)
    decreases |x|
  {
    if x == [] {
      assert x + rest == rest;
    } else {
      assert (x + rest)[1..] == x[1..] + rest;
      ScanAllDigits(x[1..], rest, 10 * acc + DigitValue(x[0]));
    }
  }

  lemma {:induction false} ScanZeros(k: nat, rest: string)
    ensures Scan(Zeros(k) + rest, 0) == Scan(rest, 0) && DigitsOnly(Zeros(k)) && |Zeros(k)| == k
  {
    if k == 0 {
      assert Zeros(0) + rest == rest;
    } else {
      ScanZeros(k - 1, rest);
      assert Zeros(k) + rest == "0" + (Zeros(k - 1) + rest);
      assert (Zeros(k) + rest)[1..] == Zeros(k - 1) + rest;
    }
  }

  lemma ReadNaturalBack(n: nat)
    ensures ReadNatural(Digits(n)) == Some(n) && DigitsOnly(Digits(n)) && Digits(n) != []
  {
    AllDigits(n);
    ReadBack(n, []);
    assert Digits(n) + [] == Digits(n);
  }

  /** Only zero is written with a leading zero. */
  lemma {:induction false} LeadingDigit(n: nat)
    ensures Digits(n) != [] && (Digits(n)[0] == '0' <==> n == 0)
  {
    if n < 10 { DigitRoundTrip(n); } else { LeadingDigit(n / 10); }
  }

  /** A text that starts with `x` at position `at` goes on with the rest behind it. */
  lemma Placed(s: string, at: nat, x: string, y: string)
    requires at <= |s| && s[at..] == x + y
    ensures Stands(s, at, x) && s[at + |x|..] == y
    ensures x != [] ==> s[at] == x[0]
  {
    var t := s[at..];
    assert forall i :: 0 <= i < |t| ==> s[at + i] == t[i];
  }

  /** Where the parts of a text with a dot are. */
  ghost predicate Laid(s: string, start: nat, a: string, b: string, dot: nat, point: nat) {
    && start < dot == start + |a| && point == dot + 1 + |b| && point <= |s|
    && s[start..dot] == a && s[dot] == '.' && s[dot + 1..point] == b
    && DigitsOnly(a) && DigitsOnly(b)
  }

  lemma LayOut(s: string, start: nat, a: string, b: string, tail: string)
    requires start <= |s| && s[start..] == a + ("." + (b + tail)) && a != [] && DigitsOnly(a) && DigitsOnly(b)
    ensures var dot := start + |a|;
            var point := dot + 1 + |b|;
            Laid(s, start, a, b, dot, point) && s[point..] == tail
  {
    var dot := start + |a|;
    Placed(s, start, a, "." + (b + tail));
    Placed(s, dot, ".", b + tail);
    Placed(s, dot + 1, b, tail);
  }

  lemma LocateDotted(s: string, start: nat, a: string, b: string, dot: nat, point: nat)
    requires Laid(s, start, a, b, dot, point) && (point < |s| ==> s[point] == 'E')
    ensures Locate(s, start, None) == Some(Found(point, Some(dot)))
  {
    LocateDigits(s, start, a, None);
    LocateDigits(s, dot + 1, b, Some(dot));
  }

  /** A text with a dot is never taken for a binary, hexadecimal or octal number. */
  lemma DottedParse(s: string, start: nat, negative: bool, a: string, b: string, dot: nat, point: nat)
    requires Laid(s, start, a, b, dot, point) && (point < |s| ==> s[point] == 'E')
    ensures ParseFrom(s, start, negative) == ParseParts(s, start, negative, Found(point, Some(dot)))
  {
    LocateDotted(s, start, a, b, dot, point);
    SecondChar(s, start, a, b, dot, point);
  }

  lemma SecondChar(s: string, start: nat, a: string, b: string, dot: nat, point: nat)
    requires Laid(s, start, a, b, dot, point)
    ensures CharAt(s, start + 1) == '.' || IsDigit(CharAt(s, start + 1))
  {
    if |a| > 1 { assert s[start + 1] == s[start..dot][1]; }
  }

  lemma PlainParts(s: string, start: nat, negative: bool, a: string, b: string, dot: nat, v: nat)
    requires Laid(s, start, a, b, dot, |s|) && ReadNatural(a + b) == Some(v)
    ensures ParseParts(s, start, negative, Found(|s|, Some(dot))) ==
              Some(Parsed(if negative then -(v as int) else v, |b|))
  {
    assert Significand(s, start, Found(|s|, Some(dot))) == a + b;
  }

  lemma ExponentParts(s: string, start: nat, negative: bool, a: string, b: string, dot: nat, point: nat)
    requires Laid(s, start, a, b, dot, point) && point < |s| && s[point] == 'E'
    ensures ParseParts(s, start, negative, Found(point, Some(dot))) == None
  {
    assert s[dot + 1..point + 1] == b + "E";
    assert Significand(s, start, Found(point, Some(dot))) == (a + b) + "E";
    ScanAllDigits(a + b, "E", 0);
  }

  /** Digits, a dot and digits to the end of the text. */
  lemma DottedText(s: string, start: nat, negative: bool, a: string, b: string, v: nat)
    requires start <= |s| && s[start..] == a + ("." + (b + []))
    requires DigitsOnly(a) && DigitsOnly(b) && a != [] && ReadNatural(a + b) == Some(v)
    ensures ParseFrom(s, start, negative) == Some(Parsed(if negative then -(v as int) else v, |b|))
  {
    var dot, point := start + |a|, start + |a| + 1 + |b|;
    LayOut(s, start, a, b, []);
    assert point == |s|;
    DottedParse(s, start, negative, a, b, dot, point);
    PlainParts(s, start, negative, a, b, dot, v);
  }

  /** Digits to the end of the text. */
  lemma PlainDigits(s: string, start: nat, negative: bool, n: nat)
    requires start <= |s| && s[start..] == Digits(n)
    ensures ParseFrom(s, start, negative) == Some(Parsed(if negative then -(n as int) else n, 0))
  {
    var d := Digits(n);
    ReadNaturalBack(n);
    LeadingDigit(n);
    assert s[start] == d[0];
    LocateDigits(s, start, d, None);
    if n == 0 {
      assert d[1..] == [];
      assert CharAt(s, start + 1) == Nul;
    }
  }

  lemma SignRead(n: int, body: string)
    requires body != [] && IsDigit(body[0])
    ensures var s := Sign(n) + body;
            s[|Sign(n)|..] == body && Parse(s) == ParseFrom(s, |Sign(n)|, n < 0)
  {
  }

  lemma IntegerReadable(n: int)
    ensures !Scientific(n, 0) && Parse(PlainText(n, 0)) == Some(Parsed(n, 0))
  {
    var d := Digits(Abs(n));
    AllDigits(Abs(n));
    SignRead(n, d);
    PlainDigits(Sign(n) + d, |Sign(n)|, n < 0, Abs(n));
  }

  lemma DottedReadable(n: int, a: string, b: string)
    requires DigitsOnly(a) && DigitsOnly(b) && a != [] && ReadNatural(a + b) == Some(Abs(n))
    ensures Parse(Sign(n) + (a + ("." + b))) == Some(Parsed(n, |b|))
  {
    var body := a + ("." + (b + []));
    assert body[0] == a[0] && b + [] == b;
    SignRead(n, body);
    DottedText(Sign(n) + body, |Sign(n)|, n < 0, a, b, Abs(n));
  }

  lemma ZerosReadable(n: int, k: nat)
    ensures ReadNatural("0" + (Zeros(k) + Digits(Abs(n)))) == Some(Abs(n))
    ensures DigitsOnly(Zeros(k) + Digits(Abs(n))) && |Zeros(k)| == k
  {
    var d := Digits(Abs(n));
    ReadNaturalBack(Abs(n));
    ScanZeros(k, d);
    assert ("0" + (Zeros(k) + d))[1..] == Zeros(k) + d;
  }

  lemma SmallReadable(n: int, scale: nat)
    requires !Scientific(n, scale) && scale > 0 && |Digits(Abs(n))| <= scale
    ensures Parse(PlainText(n, scale)) == Some(Parsed(n, scale))
  {
    var d := Digits(Abs(n));
    var b := Zeros(scale - |d|) + d;
    ZerosReadable(n, scale - |d|);
    assert DigitsOnly("0") && |b| == scale;
    assert PlainText(n, scale) == Sign(n) + ("0" + ("." + b));
    DottedReadable(n, "0", b);
  }

  lemma SplitReadable(n: int, scale: nat)
    requires !Scientific(n, scale) && 0 < scale < |Digits(Abs(n))|
    ensures Parse(PlainText(n, scale)) == Some(Parsed(n, scale))
  {
    var d := Digits(Abs(n));
    ReadNaturalBack(Abs(n));
    var a, b := d[..|d| - scale], d[|d| - scale..];
    assert a + b == d && DigitsOnly(a) && DigitsOnly(b) && |b| == scale;
    DottedReadable(n, a, b);
  }

  /** A decimal written without exponent is read back as it was. */
  lemma PlainReadable(n: int, scale: nat)
    requires !Scientific(n, scale)
    ensures Parse(PlainText(n, scale)) == Some(Parsed(n, scale))
  {
    if scale == 0 {
      IntegerReadable(n);
    } else if |Digits(Abs(n))| <= scale {
      SmallReadable(n, scale);
    } else {
      SplitReadable(n, scale);
    }
  }

  // ---- with an exponent ------------------------------------------------------------------------------

  lemma ReadIntBack(e: nat, tail: string)
    requires tail == [] || !IsDigit(tail[0])
    ensures ReadInt("-" + (Digits(e) + tail)) == Some(-(e as int))
  {
    AllDigits(e);
    ReadBack(e, tail);
    assert ("-" + (Digits(e) + tail))[1..] == Digits(e) + tail;
  }

  /** What stands behind the E. */
  function ExponentOf(rest: string): Option<int> {
    if rest != [] && rest[0] == '+' then ReadInt(rest[1..]) else ReadInt(rest)
  }

  lemma ParseExponentIs(s: string, point: nat, unscaled: int, scale: int)
    requires point < |s|
    ensures ParseExponent(s, point, unscaled, scale) ==
              var e := ExponentOf(s[point + 1..]);
              if e.None? then None else Some(Parsed(unscaled, scale - e.value))
  {
    var rest := s[point + 1..];
    if rest != [] { assert rest[1..] == s[point + 2..]; }
  }

  /** Digits and an exponent: read back, unless the number is zero, which announces an octal number. */
  lemma ExponentText(s: string, start: nat, negative: bool, n: nat, rest: string)
    requires start <= |s| && s[start..] == Digits(n) + ("E" + rest) && ExponentOf(rest).Some?
    ensures ParseFrom(s, start, negative) ==
              if n == 0 then None
              else Some(Parsed(if negative then -(n as int) else n, 0 - ExponentOf(rest).value))
  {
    ReadNaturalBack(n);
    LeadingDigit(n);
    LocateExponent(s, start, Digits(n), rest);
    if n == 0 {
      ZeroText(s, start, negative);
    } else {
      var point := start + |Digits(n)|;
      DigitText(s, start, negative, n, point);
      ParseExponentIs(s, point, if negative then -(n as int) else n, 0);
    }
  }

  lemma ZeroText(s: string, start: nat, negative: bool)
    requires start + 1 < |s| && s[start] == '0' && s[start + 1] == 'E'
    requires Locate(s, start, None) == Some(Found(start + 1, None))
    ensures ParseFrom(s, start, negative) == None
  {
    ZeroPrefixed(s, start);
  }

  lemma DigitText(s: string, start: nat, negative: bool, n: nat, point: nat)
    requires start < point < |s| && s[start] != '0' && s[start..point] == Digits(n)
    requires ReadNatural(Digits(n)) == Some(n) && Locate(s, start, None) == Some(Found(point, None))
    ensures ParseFrom(s, start, negative) == ParseExponent(s, point, if negative then -(n as int) else n, 0)
  {
    DigitParts(s, start, negative, n, point);
  }

  /** Digits, then the exponent. */
  lemma LocateExponent(s: string, start: nat, d: string, rest: string)
    requires d != [] && DigitsOnly(d) && start <= |s| && s[start..] == d + ("E" + rest)
    ensures var point := start + |d|;
            && point < |s| && s[start] == d[0] && s[point] == 'E' && s[point + 1..] == rest
            && s[start..point] == d && Locate(s, start, None) == Some(Found(point, None))
  {
    Placed(s, start, d, "E" + rest);
    Placed(s, start + |d|, "E", rest);
    LocateDigits(s, start, d, None);
  }

  lemma ZeroPrefixed(s: string, start: nat)
    requires start + 1 < |s| && s[start] == '0' && s[start + 1] == 'E'
    ensures ReadPrefixed(s[start..]) == None
  {
    assert s[start..][1..][0] == 'E';
  }

  lemma DigitParts(s: string, start: nat, negative: bool, n: nat, point: nat)
    requires start <= point < |s| && s[start..point] == Digits(n) && ReadNatural(Digits(n)) == Some(n)
    ensures ParseParts(s, start, negative, Found(point, None)) ==
              ParseExponent(s, point, if negative then -(n as int) else n, 0)
  {
  }

  lemma PositiveExponent(e: nat, plus: string)
    requires plus == "" || plus == "+"
    ensures ExponentOf(plus + Digits(e)) == Some(e)
  {
    var d := Digits(e);
    AllDigits(e);
    ReadBack(e, []);
    assert d + [] == d;
    if plus == "" { assert plus + d == d; } else { assert (plus + d)[1..] == d; }
  }

  /** Digits, an E and a positive exponent: the scale is the negated exponent. Zero is rejected. */
  lemma PositiveExponentReadable(n: int, e: nat, plus: string)
    requires plus == "" || plus == "+"
    ensures Parse(Sign(n) + (Digits(Abs(n)) + ("E" + (plus + Digits(e))))) ==
              if n == 0 then None else Some(Parsed(n, 0 - e))
  {
    PositiveExponent(e, plus);
    ExponentReadable(n, plus + Digits(e));
  }

  lemma ExponentReadable(n: int, rest: string)
    requires ExponentOf(rest).Some?
    ensures Parse(Sign(n) + (Digits(Abs(n)) + ("E" + rest))) ==
              if n == 0 then None else Some(Parsed(n, 0 - ExponentOf(rest).value))
  {
    var body := Digits(Abs(n)) + ("E" + rest);
    AllDigits(Abs(n));
    SignRead(n, body);
    ExponentText(Sign(n) + body, |Sign(n)|, n < 0, Abs(n), rest);
  }

  /** A dot and an exponent: the digits are copied together with the E and rejected. */
  lemma DottedExponentText(s: string, start: nat, negative: bool, a: string, b: string, rest: string)
    requires start <= |s| && s[start..] == a + ("." + (b + ("E" + rest)))
    requires DigitsOnly(a) && DigitsOnly(b) && a != []
    ensures ParseFrom(s, start, negative) == None
  {
    var dot, point := start + |a|, start + |a| + 1 + |b|;
    LayOut(s, start, a, b, "E" + rest);
    assert s[point] == s[point..][0] == 'E';
    DottedParse(s, start, negative, a, b, dot, point);
    ExponentParts(s, start, negative, a, b, dot, point);
  }

  /** The exponent and what follows it, grouped from the left and from the right. */
  lemma RegroupOne(sign: string, d: string, e: string, tail: string)
    ensures (sign + (d + ("E-" + e))) + tail == sign + (d + ("E" + ("-" + (e + tail))))
  {
    assert ("E-" + e) + tail == "E" + ("-" + (e + tail));
  }

  lemma RegroupMany(sign: string, a: string, b: string, e: string, tail: string)
    ensures (sign + (a + ("." + (b + ("E-" + e))))) + tail == sign + (a + ("." + (b + ("E" + ("-" + (e + tail))))))
  {
    RegroupOne("", b, e, tail);
    assert (sign + (a + ("." + (b + ("E-" + e))))) + tail == sign + (a + ("." + (("" + (b + ("E-" + e))) + tail)));
  }

  lemma FormatScientific(n: int, scale: nat) returns (tail: string)
    requires Scientific(n, scale)
    ensures tail == [] || tail == [Nul]
    ensures Format(n, scale) == ScientificText(n, scale) + tail
  {
    var text := ScientificText(n, scale);
    tail := if ReportedLength(n, scale) > |text| then [Nul] else [];
    assert text + [] == text;
  }

  /** A number written with an exponent is read back exactly if it has a single digit other than
      zero; every other one is rejected. */
  lemma ScientificReadable(n: int, scale: nat)
    requires Scientific(n, scale)
    ensures Parse(Format(n, scale)) == if 0 < Abs(n) < 10 then Some(Parsed(n, scale)) else None
  {
    var tail := FormatScientific(n, scale);
    var d, e := Digits(Abs(n)), Digits(ExponentSize(n, scale));
    if Abs(n) < 10 {
      RegroupOne(Sign(n), d, e, tail);
      NegativeExponentReadable(n, scale, tail);
    } else {
      ManyDigitsRejected(n, "-" + (e + tail));
      RegroupMany(Sign(n), d[..1], d[1..], e, tail);
    }
  }

  /** No dot and a negative exponent, with a NUL behind it or not. */
  lemma NegativeExponentReadable(n: int, scale: nat, tail: string)
    requires tail == [] || tail == [Nul]
    ensures Parse(Sign(n) + (Digits(Abs(n)) + ("E" + ("-" + (Digits(scale) + tail))))) ==
              if n == 0 then None else Some(Parsed(n, scale))
  {
    ReadIntBack(scale, tail);
    ExponentReadable(n, "-" + (Digits(scale) + tail));
  }

  lemma ManyDigitsRejected(n: int, rest: string)
    requires Abs(n) >= 10
    ensures var d := Digits(Abs(n));
            |d| > 1 && Parse(Sign(n) + (d[..1] + ("." + (d[1..] + ("E" + rest))))) == None
  {
    var d := Digits(Abs(n));
    AllDigits(Abs(n));
    AllDigits(Abs(n) / 10);
    var body := d[..1] + ("." + (d[1..] + ("E" + rest)));
    SignRead(n, body);
    DottedExponentText(Sign(n) + body, |Sign(n)|, n < 0, d[..1], d[1..], rest);
  }

  /** Reading back a formatted decimal gives the same decimal exactly when it was written without an
      exponent or has a single digit other than zero. */
  lemma FormatRoundTrip(n: int, scale: nat)
    ensures Parse(Format(n, scale)) == Some(Parsed(n, scale)) <==>
              !Scientific(n, scale) || 0 < Abs(n) < 10
  {
    if Scientific(n, scale) { ScientificReadable(n, scale); } else { PlainReadable(n, scale); }
  }

  /** 0.000000095 is written 9.5E-8, which is rejected. */
  lemma RoundTripWitness()
    ensures Format(95, 9) == "9.5E-8" && Parse("9.5E-8") == None
  {
    assert Digits(95) == "95";
    assert Digits(8) == "8";
    assert Pow10(1) == 10 && Pow10(0) == 1;
    assert CeilLog10(10, 0) == CeilLog10(10, 1) == 1;
    ScientificReadable(95, 9);
  }

  // ---- the reported length ---------------------------------------------------------------------------

  lemma {:induction false} DigitsBounds(n: nat)
    requires n > 0
    ensures |Digits(n)| > 0 && Pow10(|Digits(n)| - 1) <= n < Pow10(|Digits(n)|)
  {
    if n >= 10 {
      DigitsBounds(n / 10);
    } else {
      assert Pow10(0) == 1 && Pow10(1) == 10;
    }
  }

  lemma {:induction false} CeilLog10Is(x: nat, from: nat, k: nat)
    requires from <= k && k > 0 && Pow10(k - 1) < x <= Pow10(k) && (from == 0 || Pow10(from - 1) < x)
    ensures CeilLog10(x, from) == k
    decreases k - from
  {
    if from < k {
      Pow10Rises(from, k - 1);
      Pow10Grows(from);
      CeilLog10Is(x, from + 1, k);
    }
  }

  lemma {:induction false} Pow10Rises(a: nat, b: nat)
    requires a <= b
    ensures Pow10(a) <= Pow10(b)
    decreases b
  {
    if a < b { Pow10Rises(a, b - 1); Pow10Grows(b - 1); }
  }

  /** The report is right, or one too many: exactly when the exponent is one less than a power of ten. */
  lemma ReportedLengthExact(n: int, scale: nat)
    requires Scientific(n, scale)
    ensures var e := ExponentSize(n, scale);
            ReportedLength(n, scale) == |ScientificText(n, scale)| + (if e + 1 == Pow10(|Digits(e)|) then 1 else 0)
  {
    var e := ExponentSize(n, scale);
    DigitsBounds(e);
    var k := |Digits(e)|;
    Pow10Grows(k);
    CeilLog10Is(e + 2, 0, if e + 1 == Pow10(k) then k + 1 else k);
  }

  /** 0.000000001 is written 1E-9, with a length of five, so the PHP string ends in a NUL. */
  lemma ReportedLengthWitness()
    ensures Scientific(1, 9) && ScientificText(1, 9) == "1E-9" && ReportedLength(1, 9) == 5
    ensures Format(1, 9) == "1E-9" + [Nul]
  {
    assert Digits(1) == "1" && Digits(9) == "9";
    assert Pow10(0) == 1 && Pow10(1) == 10;
    ReportedLengthExact(1, 9);
  }

  // ---- when an exponent is written -----------------------------------------------------------------

  lemma NoExponentInDigits(x: string)
    requires DigitsOnly(x)
    ensures 'E' !in x
  {
  }

  lemma PlainHasNoExponent(n: int, scale: nat)
    requires !Scientific(n, scale)
    ensures 'E' !in PlainText(n, scale)
  {
    var d := Digits(Abs(n));
    AllDigits(Abs(n));
    NoExponentInDigits(d);
    if 0 < scale && |d| <= scale {
      ScanZeros(scale - |d|, []);
      NoExponentInDigits(Zeros(scale - |d|));
    }
  }

  lemma ScientificHasExponent(n: int, scale: nat)
    requires Scientific(n, scale)
    ensures 'E' in Format(n, scale)
  {
    var tail := FormatScientific(n, scale);
    var exponent := "E-" + Digits(ExponentSize(n, scale));
    assert exponent[0] == 'E' && 'E' in exponent;
    assert 'E' in ScientificText(n, scale);
  }

  /** `n` has at most `k` digits exactly if it is below 10^k. */
  lemma DigitCount(n: nat, k: nat)
    requires k > 0
    ensures |Digits(n)| <= k <==> n < Pow10(k)
  {
    Pow10Grows(k - 1);
    if n > 0 {
      DigitsBounds(n);
      if |Digits(n)| <= k { Pow10Rises(|Digits(n)|, k); } else { Pow10Rises(k, |Digits(n)| - 1); }
    }
  }

  /** An exponent is written exactly for the numbers below 10^-6 in magnitude that have a scale of at
      least seven. */
  lemma ExponentWritten(n: int, scale: nat)
    ensures 'E' in Format(n, scale) <==> scale >= 7 && Abs(n) < Pow10(scale - 6)
  {
    AllDigits(Abs(n));
    if scale >= 7 { DigitCount(Abs(n), scale - 6); }
    if Scientific(n, scale) { ScientificHasExponent(n, scale); } else { PlainHasNoExponent(n, scale); }
  }

  // ---- binary, octal and hexadecimal ----------------------------------------------------------------

  /** One more digit in a base multiplies by the base, and a character that is not one is rejected. */
  lemma {:induction false} ReadBaseAppend(x: string, c: char, base: nat, acc: nat)
    requires Nul !in x && c != Nul
    ensures var before := ReadBase(x, base, acc);
            ReadBase(x + [c], base, acc) ==
              if before.None? || DigitOf(c) >= base then None else Some(base * before.value + DigitOf(c))
    decreases |x|
  {
    if x == [] {
      assert (x + [c])[1..] == [];
    } else {
      assert (x + [c])[1..] == x[1..] + [c];
      if DigitOf(x[0]) < base { ReadBaseAppend(x[1..], c, base, base * acc + DigitOf(x[0])); }
    }
  }

  /** A text that starts with 0 and has no dot is read in the base its second character announces. */
  lemma PrefixedText(x: string, c: char)
    requires c == 'b' || c == 'x'
    requires x != [] && x[0] != Nul
    ensures Parse(['0', c] + x) == Unscaled(Negated(ReadBase(x, if c == 'b' then 2 else 16, 0), false))
    ensures Parse(['-', '0', c] + x) == Unscaled(Negated(ReadBase(x, if c == 'b' then 2 else 16, 0), true))
  {
    var s, t := ['0', c] + x, ['-', '0', c] + x;
    assert s[0..] == s && t[1..] == s && s[2..] == x;
  }

  /** A leading zero makes the digits behind it octal. */
  lemma OctalText(x: string)
    requires x != [] && DigitsOnly(x)
    ensures Parse("0" + x) == Unscaled(Negated(ReadBase(x, 8, 0), false))
    ensures Parse("-0" + x) == Unscaled(Negated(ReadBase(x, 8, 0), true))
  {
    OctalFrom("0" + x, 0, false, x);
    OctalFrom("-0" + x, 1, true, x);
  }

  lemma OctalFrom(s: string, start: nat, negative: bool, x: string)
    requires start <= |s| && s[start..] == "0" + x && x != [] && DigitsOnly(x)
    ensures ParseFrom(s, start, negative) == Unscaled(Negated(ReadBase(x, 8, 0), negative))
  {
    var d := "0" + x;
    assert s[start] == d[0] && s[start + 1] == d[1] == x[0];
    assert s[start..start + |d|] == d && d[1..] == x;
    LocateDigits(s, start, d, None);
  }

  /** 012 is ten, and 08 is rejected. */
  lemma OctalWitness()
    ensures Parse("012") == Some(Parsed(10, 0)) && Parse("08") == None
  {
    OctalText("12");
    OctalText("8");
    assert "0" + "12" == "012" && "0" + "8" == "08" && "12"[1..] == "2";
  }

  /** 0x1f is thirty-one. */
  lemma HexWitness()
    ensures Parse("0x1f") == Some(Parsed(31, 0))
  {
    PrefixedText("1f", 'x');
    assert ['0', 'x'] + "1f" == "0x1f";
    assert "1f"[1..] == "f";
    assert ReadBase("f", 16, 1) == ReadBase("f"[1..], 16, 31) == Some(31);
    assert ReadBase("1f", 16, 0) == ReadBase("f", 16, 1);
  }

  /** -0b11 is minus three. */
  lemma BinaryWitness()
    ensures Parse("-0b11") == Some(Parsed(-3, 0))
  {
    PrefixedText("11", 'b');
    assert ['-', '0', 'b'] + "11" == "-0b11";
    assert "11"[1..] == "1";
    assert ReadBase("1", 2, 1) == ReadBase("1"[1..], 2, 3) == Some(3);
    assert ReadBase("11", 2, 0) == ReadBase("1", 2, 1);
  }
}
