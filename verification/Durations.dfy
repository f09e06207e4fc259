/** The text form of a duration, -?MmoDdNns (ext/src/Duration.c). */
module Durations {
  import opened Options
  import opened Numerals

  datatype Duration = Duration(months: int, days: int, nanos: int)

  const Min32 := -0x8000_0000
  const Min64 := -0x8000_0000_0000_0000

  /** 32-bit months and days, 64-bit nanoseconds. */
  predicate InRange(d: Duration) {
    Min32 <= d.months < -Min32 && Min32 <= d.days < -Min32 && Min64 <= d.nanos < -Min64
  }

  /** The check at the end of `php_driver_duration_init`. */
  predicate SameSign(d: Duration) {
    || (d.months <= 0 && d.days <= 0 && d.nanos <= 0)
    || (d.months >= 0 && d.days >= 0 && d.nanos >= 0)
  }

  /** Negation in a field with the given minimum, which has no positive counterpart. */
  function Magnitude(x: int, minimum: int): int {
    if x < 0 && x != minimum then -x else x
  }

  /** `%d`. */
  function Signed(x: int): string { if x < 0 then "-" + Digits(-x) else Digits(x) }

  predicate IsNegative(d: Duration) { d.months < 0 || d.days < 0 || d.nanos < 0 }

  /** The three magnitudes with their units. */
  function Body(months: int, days: int, nanos: int): string {
    Signed(months) + ("mo" + (Signed(days) + ("d" + (Signed(nanos) + ("ns" + "")))))
  }

  /** `php_driver_duration_to_string`. */
  function Print(d: Duration): string {
    (if IsNegative(d) then "-" else "") +
    Body(Magnitude(d.months, Min32), Magnitude(d.days, Min32), Magnitude(d.nanos, Min64))
  }

  // ---- a reader for the documented form -------------------------------------------------------

  /** A number followed by a unit. */
  function ReadUnit(s: string, unit: string): Option<Reading> {
    var r := Scan(s, 0);
    if |r.rest| < |s| && unit <= r.rest then Some(Reading(r.value, r.rest[|unit|..])) else None
  }

  function ParseBody(s: string, sign: int): Option<Duration> {
    var m := ReadUnit(s, "mo");
    if m.None? then None
    else
      var d := ReadUnit(m.value.rest, "d");
      if d.None? then None
      else
        var n := ReadUnit(d.value.rest, "ns");
        if n.None? || n.value.rest != [] then None
        else Some(Duration(sign * m.value.value, sign * d.value.value, sign * n.value.value))
  }

  function Parse(s: string): Option<Duration> {
    if s != [] && s[0] == '-' then ParseBody(s[1..], -1) else ParseBody(s, 1)
  }

  lemma ReadUnitBack(n: nat, unit: string, rest: string)
    requires unit != [] && !IsDigit(unit[0])
    ensures ReadUnit(Digits(n) + (unit + rest), unit) == Some(Reading(n, rest))
  {
    ReadBack(n, unit + rest);
    AllDigits(n);
    assert (unit + rest)[|unit|..] == rest;
  }

  lemma BodyBack(months: nat, days: nat, nanos: nat, sign: int)
    ensures ParseBody(Body(months, days, nanos), sign) == Some(Duration(sign * months, sign * days, sign * nanos))
  {
    var s3 := Digits(nanos) + ("ns" + "");
    var s2 := Digits(days) + ("d" + s3);
    ReadUnitBack(months, "mo", s2);
    ReadUnitBack(days, "d", s3);
    ReadUnitBack(nanos, "ns", "");
  }

  /** A text that starts with a minus sign is no number. */
  lemma NoNumber(s: string, unit: string)
    requires s != [] && s[0] == '-'
    ensures ReadUnit(s, unit).None?
  {
  }

  lemma BodyStart(months: nat, days: int, nanos: int)
    ensures var b := Body(months, days, nanos);
            b != [] && b[0] != '-'
  {
    AllDigits(months);
  }

  /** One component at its minimum prints a second minus sign, which no reader accepts. */
  lemma MinimumUnreadable(d: Duration, sign: int)
    requires InRange(d) && (d.months == Min32 || d.days == Min32 || d.nanos == Min64)
    ensures ParseBody(Body(Magnitude(d.months, Min32), Magnitude(d.days, Min32), Magnitude(d.nanos, Min64)), sign).None?
  {
    var m, n, o := Magnitude(d.months, Min32), Magnitude(d.days, Min32), Magnitude(d.nanos, Min64);
    if m < 0 {
      NoNumber(Body(m, n, o), "mo");
    } else {
      var s3 := Signed(o) + ("ns" + "");
      var s2 := Signed(n) + ("d" + s3);
      ReadUnitBack(m, "mo", s2);
      if n < 0 {
        NoNumber(s2, "d");
      } else {
        ReadUnitBack(n, "d", s3);
        NoNumber(s3, "ns");
      }
    }
  }

  /** Printing loses nothing exactly for durations of one sign without a component at its minimum:
      those, and only those, are read back as they were. */
  lemma PrintReadable(d: Duration)
    requires InRange(d)
    ensures Parse(Print(d)) == Some(d) <==>
              SameSign(d) && d.months != Min32 && d.days != Min32 && d.nanos != Min64
  {
    var m, n, o := Magnitude(d.months, Min32), Magnitude(d.days, Min32), Magnitude(d.nanos, Min64);
    var sign := if IsNegative(d) then -1 else 1;
    if IsNegative(d) {
      assert Print(d)[1..] == Body(m, n, o);
    } else {
      assert Print(d) == Body(m, n, o);
      BodyStart(m, n, o);
    }
    if d.months == Min32 || d.days == Min32 || d.nanos == Min64 {
      MinimumUnreadable(d, sign);
    } else {
      BodyBack(m, n, o, sign);
    }
  }

  /** So the printer is injective on them. */
  lemma PrintInjective(a: Duration, b: Duration)
    requires InRange(a) && InRange(b) && SameSign(a) && SameSign(b) && Print(a) == Print(b)
    requires a.months != Min32 && a.days != Min32 && a.nanos != Min64
    requires b.months != Min32 && b.days != Min32 && b.nanos != Min64
    ensures a == b
  {
    PrintReadable(a);
    PrintReadable(b);
  }

  class DurationObject {
    var months: int
    var days: int
    var nanos: int

    function State(): Duration
      reads this
    {
      Duration(months, days, nanos)
    }

    constructor ()
      ensures State() == Duration(0, 0, 0)
    {
      months, days, nanos := 0, 0, 0;
    }

    /** `php_driver_duration_init`: the fields are written one by one, each after its range check; the
        signs are checked when all are written, so a duration of mixed signs is raised about but kept. */
    method Init(m: int, d: int, n: int) returns (ok: bool)
      modifies this
      ensures ok <==> InRange(Duration(m, d, n)) && SameSign(Duration(m, d, n))
      ensures InRange(Duration(m, d, n)) ==> State() == Duration(m, d, n)
      ensures ok && m != Min32 && d != Min32 && n != Min64 ==> Parse(Print(State())) == Some(Duration(m, d, n))
    {
      if m < Min32 || m >= -Min32 { return false; }
      months := m;
      if d < Min32 || d >= -Min32 { return false; }
      days := d;
      if n < Min64 || n >= -Min64 { return false; }
      nanos := n;
      PrintReadable(State());
      return SameSign(State());
    }
  }
}
