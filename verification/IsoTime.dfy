/**
 Datetimes and their `isoformat()` text. Instants are whole microseconds on Python's proleptic calendar (day 1 is
 0001-01-01). Comparing texts, as the SQL expiry test does, compares the instants when both are UTC, although
 `isoformat` drops the fraction when it is zero. In another zone a text shows local time, and comparing it with a UTC
 text compares the local time with UTC.
*/
module IsoTime {
  import opened Text
  import opened JsonText

  datatype Civil = Civil(year: nat, month: nat, day: nat, hour: nat, minute: nat, second: nat, micro: nat)

  // ----- the calendar -----

  predicate Leap(y: nat) {
    y % 4 == 0 && (y % 100 != 0 || y % 400 == 0)
  }

  function DaysBeforeYear(y: nat): int
    requires y >= 1
  {
    var p := y - 1;
    p * 365 + p / 4 - p / 100 + p / 400
  }

  function DaysInMonth(y: nat, m: nat): nat {
    if m == 2 then (if Leap(y) then 29 else 28)
    else if m == 4 || m == 6 || m == 9 || m == 11 then 30
    else 31
  }

  function DaysBeforeMonth(y: nat, m: nat): nat {
    if m <= 1 then 0 else DaysBeforeMonth(y, m - 1) + DaysInMonth(y, m - 1)
  }

  predicate ValidDate(y: nat, m: nat, d: nat) {
    1 <= y <= 9999 && 1 <= m <= 12 && 1 <= d <= DaysInMonth(y, m)
  }

  predicate Valid(c: Civil) {
    ValidDate(c.year, c.month, c.day) && c.hour < 24 && c.minute < 60 && c.second < 60 && c.micro < 1000000
  }

  /** `date.toordinal()` */
  function Ordinal(y: nat, m: nat, d: nat): int
    requires y >= 1
  {
    DaysBeforeYear(y) + DaysBeforeMonth(y, m) + d
  }

  // 86_400_000_000 microseconds are one day

  function MicrosOfDay(c: Civil): int {
    ((c.hour * 60 + c.minute) * 60 + c.second) * 1000000 + c.micro
  }

  function Instant(c: Civil): int
    requires c.year >= 1
  {
    Ordinal(c.year, c.month, c.day) * 86_400_000_000 + MicrosOfDay(c)
  }

  lemma YearLength(y: nat)
    requires y >= 1
    ensures DaysBeforeYear(y + 1) == DaysBeforeYear(y) + DaysBeforeMonth(y, 13)
    ensures DaysBeforeMonth(y, 13) == if Leap(y) then 366 else 365
  {
    MonthTable(y);
    LeapCount(y);
    QuotientStep(y, 4);
    QuotientStep(y, 100);
    QuotientStep(y, 400);
    hide DaysBeforeMonth, Leap, OneIf;
    assert y + 1 - 1 == y;
  }

  function OneIf(b: bool): int {
    if b then 1 else 0
  }

  lemma LeapCount(y: nat)
    ensures OneIf(y % 4 == 0) - OneIf(y % 100 == 0) + OneIf(y % 400 == 0) == OneIf(Leap(y))
    ensures OneIf(Leap(y)) == if Leap(y) then 1 else 0
  {
    if y % 400 == 0 { DivideExactly(y, 4 * (y / 400), 0, 100); }
    if y % 100 == 0 { DivideExactly(y, 25 * (y / 100), 0, 4); }
  }

  /** Of two neighbouring numbers the larger one has one more multiple below it exactly when it is one. */
  lemma QuotientStep(y: nat, d: nat)
    requires y >= 1 && d >= 2
    ensures y / d - (y - 1) / d == OneIf(y % d == 0)
  {
    var q, r := (y - 1) / d, (y - 1) % d;
    assert y - 1 == q * d + r;
    if r == d - 1 { DivideExactly(y, q + 1, 0, d); } else { DivideExactly(y, q, r + 1, d); }
  }

  lemma DivideExactly(y: nat, q: nat, r: nat, d: nat)
    requires d >= 2 && r < d && y == q * d + r
    ensures y / d == q && y % d == r
  {
    var more: int := y / d - q;
    assert y == (y / d) * d + y % d;
    assert more * d == r - y % d;
    NoMultipleBetween(more, d);
  }

  lemma NoMultipleBetween(k: int, d: int)
    requires -d < k * d < d
    ensures k == 0
  {
    assert k >= 1 ==> k * d - d == (k - 1) * d;
    assert k <= -1 ==> k * d + d == (k + 1) * d;
  }

  lemma MonthTable(y: nat)
    ensures DaysBeforeMonth(y, 13) == if Leap(y) then 366 else 365
  {
    var b := if Leap(y) then 1 else 0;
    assert DaysBeforeMonth(y, 2) == 31;
    assert DaysBeforeMonth(y, 3) == 59 + b;
    assert DaysBeforeMonth(y, 5) == 120 + b;
    assert DaysBeforeMonth(y, 7) == 181 + b;
    assert DaysBeforeMonth(y, 9) == 243 + b;
    assert DaysBeforeMonth(y, 11) == 304 + b;
  }

  lemma {:induction false} MonthsGrow(y: nat, m: nat, n: nat)
    requires 1 <= m < n
    ensures DaysBeforeMonth(y, m) + DaysInMonth(y, m) <= DaysBeforeMonth(y, n)
    decreases n
  {
    if m < n - 1 { MonthsGrow(y, m, n - 1); }
  }

  lemma {:induction false} YearsGrow(y: nat, z: nat)
    requires 1 <= y < z
    ensures DaysBeforeYear(y) + DaysBeforeMonth(y, 13) <= DaysBeforeYear(z)
    decreases z
  {
    if y == z - 1 {
      YearLength(y);
    } else {
      YearsGrow(y, z - 1);
      YearLength(z - 1);
    }
  }

  lemma OrdinalOrder(y: nat, m: nat, d: nat, z: nat, n: nat, e: nat)
    requires ValidDate(y, m, d) && ValidDate(z, n, e)
    requires y < z || (y == z && (m < n || (m == n && d < e)))
    ensures Ordinal(y, m, d) < Ordinal(z, n, e)
  {
    if y < z {
      YearsGrow(y, z);
      MonthsGrow(y, m, 13);
    } else if m < n {
      MonthsGrow(y, m, n);
    }
  }

  /** Chronological order written out on the fields. */
  predicate Before(a: Civil, b: Civil) {
    a.year < b.year || (a.year == b.year &&
    (a.month < b.month || (a.month == b.month &&
    (a.day < b.day || (a.day == b.day &&
    (a.hour < b.hour || (a.hour == b.hour &&
    (a.minute < b.minute || (a.minute == b.minute &&
    (a.second < b.second || (a.second == b.second &&
    a.micro < b.micro)))))))))))
  }

  lemma BeforeIsEarlier(a: Civil, b: Civil)
    requires Valid(a) && Valid(b) && Before(a, b)
    ensures Instant(a) < Instant(b)
  {
    if (a.year, a.month, a.day) != (b.year, b.month, b.day) {
      OrdinalOrder(a.year, a.month, a.day, b.year, b.month, b.day);
    }
  }

  lemma BeforeIffEarlier(a: Civil, b: Civil)
    requires Valid(a) && Valid(b)
    ensures Before(a, b) <==> Instant(a) < Instant(b)
  {
    if Before(a, b) { BeforeIsEarlier(a, b); }
    else if a != b { assert Before(b, a); BeforeIsEarlier(b, a); }
  }

  // ----- every instant in range is some datetime -----

  /** From the first to the last datetime Python can hold: days 1 to 3652059. */
  predicate InRange(t: int) {
    86_400_000_000 <= t < 315_537_984_000_000_000
  }

  /** The year holding day `n`, searched upwards from `y`. */
  function YearFrom(n: int, y: nat): (r: nat)
    requires 1 <= y <= 9999 && DaysBeforeYear(y) < n <= 3652059
    ensures y <= r <= 9999 && DaysBeforeYear(r) < n <= DaysBeforeYear(r + 1)
    decreases 9999 - y
  {
    assert DaysBeforeYear(10000) == 3652059;
    if n <= DaysBeforeYear(y + 1) then y else YearFrom(n, y + 1)
  }

  function MonthFrom(k: nat, y: nat, m: nat): (r: nat)
    requires 1 <= m <= 12 && DaysBeforeMonth(y, m) < k <= DaysBeforeMonth(y, 13)
    ensures m <= r <= 12 && DaysBeforeMonth(y, r) < k <= DaysBeforeMonth(y, r + 1)
    decreases 12 - m
  {
    if m == 12 || k <= DaysBeforeMonth(y, m + 1) then m else MonthFrom(k, y, m + 1)
  }

  function ClockAt(s: nat): (r: (nat, nat, nat))
    requires s < 86400
    ensures r.0 < 24 && r.1 < 60 && r.2 < 60 && (r.0 * 60 + r.1) * 60 + r.2 == s
  {
    (s / 3600, s / 60 % 60, s % 60)
  }

  function CivilAt(t: int): (c: Civil)
    requires InRange(t)
    ensures Valid(c) && Instant(c) == t
  {
    var n, u := t / 86_400_000_000, t % 86_400_000_000;
    var y := YearFrom(n, 1);
    YearLength(y);
    var k := n - DaysBeforeYear(y);
    var m := MonthFrom(k, y, 1);
    var d := k - DaysBeforeMonth(y, m);
    var clock := ClockAt(u / 1000000);
    Civil(y, m, d, clock.0, clock.1, clock.2, u % 1000000)
  }

  // ----- isoformat -----

  function Pad(n: nat, w: nat): (s: string)
    ensures |s| == w
  {
    if w == 0 then "" else Pad(n / 10, w - 1) + [Digit(n % 10)]
  }

  const UTC := "+00:00"

  function Fraction(micro: nat, zone: string): string {
    if micro == 0 then zone else "." + Pad(micro, 6) + zone
  }

  function Iso(c: Civil, zone: string): string {
    Pad(c.year, 4) + ("-" + (Pad(c.month, 2) + ("-" + (Pad(c.day, 2) + ("T" + (Pad(c.hour, 2) + (":" +
    (Pad(c.minute, 2) + (":" + (Pad(c.second, 2) + Fraction(c.micro, zone)))))))))))
  }

  /** `datetime.isoformat()` of a UTC instant. */
  function IsoFormat(t: int): string
    requires InRange(t)
  {
    Iso(CivilAt(t), UTC)
  }

  // ----- other zones -----

  /** An aware datetime: the instant, and how far its zone is ahead of UTC, both in microseconds. */
  datatype Stamp = Stamp(utc: int, offset: int)

  /** The local time it shows, read as if it were UTC. */
  function Local(z: Stamp): int {
    z.utc + z.offset
  }

  /** What Python can hold: local time in range, and an offset of less than a day. */
  predicate ValidStamp(z: Stamp) {
    InRange(Local(z)) && -86_400_000_000 < z.offset < 86_400_000_000
  }

  function Later(z: Stamp, delay: nat): Stamp {
    z.(utc := z.utc + delay)
  }

  /** The seconds and microseconds of an offset, which are left out when they are zero. */
  function OffsetTail(second: nat, micro: nat): string {
    if second == 0 && micro == 0 then ""
    else ":" + (Pad(second, 2) + if micro == 0 then "" else "." + Pad(micro, 6))
  }

  function OffsetDigits(size: nat): string {
    Pad(size / 3_600_000_000, 2)
    + (":" + (Pad(size / 60_000_000 % 60, 2) + OffsetTail(size / 1_000_000 % 60, size % 1_000_000)))
  }

  function OffsetText(offset: int): string {
    if offset < 0 then "-" + OffsetDigits(-offset) else "+" + OffsetDigits(offset)
  }

  /** `datetime.isoformat()` in its own zone. */
  function IsoStamp(z: Stamp): string
    requires ValidStamp(z)
  {
    Iso(CivilAt(Local(z)), OffsetText(z.offset))
  }

  function Pow10(w: nat): nat {
    if w == 0 then 1 else 10 * Pow10(w - 1)
  }

  lemma DigitOrder(n: nat, m: nat)
    requires n < 10 && m < 10
    ensures Less([Digit(n)], [Digit(m)]) <==> n < m
    ensures Digit(n) == Digit(m) <==> n == m
  {
  }

  lemma {:induction false} PadOrder(n: nat, m: nat, w: nat)
    requires n < Pow10(w) && m < Pow10(w)
    ensures Less(Pad(n, w), Pad(m, w)) <==> n < m
    ensures Pad(n, w) == Pad(m, w) <==> n == m
  {
    if w > 0 {
      var a, b := Pad(n / 10, w - 1), Pad(m / 10, w - 1);
      var x, y := [Digit(n % 10)], [Digit(m % 10)];
      assert Pad(n, w) == a + x && Pad(m, w) == b + y;
      PadOrder(n / 10, m / 10, w - 1);
      hide *;
      DigitOrder(n % 10, m % 10);
      if n / 10 == m / 10 {
        LessAfterCommonPrefix(a, x, y);
        assert (a + x)[w - 1] == x[0] && (b + y)[w - 1] == y[0];
      } else {
        LessByHeads(a, b, x, y);
        assert (a + x)[..w - 1] == a && (b + y)[..w - 1] == b;
      }
    }
  }

  /** A zero-padded field decides before everything after it. */
  lemma FieldOrder(n: nat, m: nat, w: nat, x: string, y: string)
    requires n < Pow10(w) && m < Pow10(w)
    ensures Less(Pad(n, w) + x, Pad(m, w) + y) <==> n < m || (n == m && Less(x, y))
  {
    PadOrder(n, m, w);
    if n == m { LessAfterCommonPrefix(Pad(n, w), x, y); }
    else { LessByHeads(Pad(n, w), Pad(m, w), x, y); }
  }

  /** A zone text that sorts neither before `+00:00` nor among digits or after `.`. */
  predicate ZoneText(zone: string) {
    |zone| > 0 && (zone[0] == '+' || zone[0] == '-') && !Less(zone, UTC)
  }

  /**
   The mixed-width case: `+` and `-` sort before `.`, so a missing fraction sorts before every fraction; and with equal
   fractions no zone sorts before `+00:00`.
  */
  lemma FractionOrder(a: nat, zone: string, b: nat)
    requires a < 1000000 && b < 1000000 && ZoneText(zone)
    ensures Less(Fraction(a, zone), Fraction(b, UTC)) <==> a < b
  {
    if a > 0 && b > 0 {
      DigitsOrder(a, zone, b);
    } else if a > 0 || b > 0 {
      hide Pad;
      assert Fraction(a, zone)[0] == if a == 0 then zone[0] else '.';
      assert Fraction(b, UTC)[0] == if b == 0 then '+' else '.';
    }
  }

  lemma DigitsOrder(a: nat, zone: string, b: nat)
    requires a < 1000000 && b < 1000000 && ZoneText(zone)
    ensures Less("." + Pad(a, 6) + zone, "." + Pad(b, 6) + UTC) <==> a < b
  {
    assert Pow10(6) == 1000000 by { assert Pow10(2) == 100; assert Pow10(4) == 10000; }
    hide Pad, Less, Pow10;
    var x, y := Pad(a, 6) + zone, Pad(b, 6) + UTC;
    assert "." + Pad(a, 6) + zone == "." + x && "." + Pad(b, 6) + UTC == "." + y;
    LessAfterCommonPrefix(".", x, y);
    FieldOrder(a, b, 6, zone, UTC);
  }

  /** A separator and a two-digit field. */
  lemma StepOrder(sep: string, n: nat, m: nat, x: string, y: string)
    requires n < 100 && m < 100
    ensures Less(sep + (Pad(n, 2) + x), sep + (Pad(m, 2) + y)) <==> n < m || (n == m && Less(x, y))
  {
    assert Pow10(2) == 100;
    LessAfterCommonPrefix(sep, Pad(n, 2) + x, Pad(m, 2) + y);
    FieldOrder(n, m, 2, x, y);
  }

  function AfterSecond(c: Civil, zone: string): string { Fraction(c.micro, zone) }
  function AfterMinute(c: Civil, zone: string): string { ":" + (Pad(c.second, 2) + AfterSecond(c, zone)) }
  function AfterHour(c: Civil, zone: string): string { ":" + (Pad(c.minute, 2) + AfterMinute(c, zone)) }
  function AfterDay(c: Civil, zone: string): string { "T" + (Pad(c.hour, 2) + AfterHour(c, zone)) }
  function AfterMonth(c: Civil, zone: string): string { "-" + (Pad(c.day, 2) + AfterDay(c, zone)) }
  function AfterYear(c: Civil, zone: string): string { "-" + (Pad(c.month, 2) + AfterMonth(c, zone)) }

  /** Against a UTC text the shown fields decide alone, whatever zone they are shown in. */
  lemma TextOrderIsFieldOrder(a: Civil, zone: string, b: Civil)
    requires Valid(a) && Valid(b) && ZoneText(zone)
    ensures Less(Iso(a, zone), Iso(b, UTC)) <==> Before(a, b)
  {
    FractionOrder(a.micro, zone, b.micro);
    StepOrder(":", a.second, b.second, AfterSecond(a, zone), AfterSecond(b, UTC));
    StepOrder(":", a.minute, b.minute, AfterMinute(a, zone), AfterMinute(b, UTC));
    StepOrder("T", a.hour, b.hour, AfterHour(a, zone), AfterHour(b, UTC));
    StepOrder("-", a.day, b.day, AfterDay(a, zone), AfterDay(b, UTC));
    StepOrder("-", a.month, b.month, AfterMonth(a, zone), AfterMonth(b, UTC));
    assert Pow10(4) == 10000 by { assert Pow10(2) == 100; }
    FieldOrder(a.year, b.year, 4, AfterYear(a, zone), AfterYear(b, UTC));
    assert Iso(a, zone) == Pad(a.year, 4) + AfterYear(a, zone) && Iso(b, UTC) == Pad(b.year, 4) + AfterYear(b, UTC);
  }

  lemma UtcIsZoneText()
    ensures ZoneText(UTC)
  {
    LessTotal(UTC, UTC);
  }

  /** Text order equals time order. */
  lemma IsoOrder(t: int, u: int)
    requires InRange(t) && InRange(u)
    ensures Less(IsoFormat(t), IsoFormat(u)) <==> t < u
    ensures IsoFormat(t) == IsoFormat(u) <==> t == u
  {
    UtcIsZoneText();
    TextOrderIsFieldOrder(CivilAt(t), UTC, CivilAt(u));
    BeforeIffEarlier(CivilAt(t), CivilAt(u));
    TextOrderIsFieldOrder(CivilAt(u), UTC, CivilAt(t));
    BeforeIffEarlier(CivilAt(u), CivilAt(t));
    LessTotal(IsoFormat(t), IsoFormat(u));
    LessTotal(IsoFormat(t), IsoFormat(t));
  }

  lemma PadZero()
    ensures Pad(0, 2) == "00"
  {
    assert Pad(0, 1) == [Digit(0)];
  }

  /** A zero offset prints as `+00:00`, and no offset sorts before it. */
  lemma OffsetIsZoneText(offset: int)
    requires -86_400_000_000 < offset < 86_400_000_000
    ensures OffsetText(0) == UTC && ZoneText(OffsetText(offset))
  {
    PadZero();
    assert OffsetText(0) == UTC;
    if offset >= 0 {
      var hour, minute := offset / 3_600_000_000, offset / 60_000_000 % 60;
      var tail := OffsetTail(offset / 1_000_000 % 60, offset % 1_000_000);
      assert Pow10(2) == 100;
      LessAfterCommonPrefix("+", OffsetDigits(offset), OffsetDigits(0));
      FieldOrder(hour, 0, 2, ":" + (Pad(minute, 2) + tail), ":" + (Pad(0, 2) + ""));
      StepOrder(":", minute, 0, tail, "");
    }
  }

  /** A datetime in UTC prints as its instant does. */
  lemma IsoStampOfUtc(t: int)
    requires InRange(t)
    ensures IsoStamp(Stamp(t, 0)) == IsoFormat(t)
  {
    var z := Stamp(t, 0);
    assert Local(z) == t && ValidStamp(z);
    OffsetIsZoneText(0);
    hide CivilAt, Iso, OffsetText, ZoneText, InRange, ValidStamp;
    assert IsoStamp(z) == Iso(CivilAt(Local(z)), OffsetText(z.offset));
  }

  /**
   The exact meaning of comparing the text of any datetime with that of a UTC clock: the local time it shows, not its
   instant, is compared with the clock.
  */
  lemma LocalOrder(z: Stamp, u: int)
    requires ValidStamp(z) && InRange(u)
    ensures Less(IsoStamp(z), IsoFormat(u)) <==> Local(z) < u
  {
    hide OffsetText;
    OffsetIsZoneText(z.offset);
    TextOrderIsFieldOrder(CivilAt(Local(z)), OffsetText(z.offset), CivilAt(u));
    BeforeIffEarlier(CivilAt(Local(z)), CivilAt(u));
  }

  // ----- fields and texts of a given instant -----

  /** An instant has one calendar form. */
  lemma CivilIs(t: int, c: Civil)
    requires InRange(t) && Valid(c) && Instant(c) == t
    ensures CivilAt(t) == c
  {
    BeforeIffEarlier(CivilAt(t), c);
    BeforeIffEarlier(c, CivilAt(t));
  }

  lemma PadTwo(n: nat)
    requires n < 100
    ensures Pad(n, 2) == [Digit(n / 10), Digit(n % 10)]
  {
    assert Pad(n / 10, 1) == Pad(0, 0) + [Digit(n / 10 % 10)];
  }

  lemma PadYear()
    ensures Pad(2026, 4) == "2026"
  {
    PadTwo(20);
    assert Pad(202, 3) == Pad(20, 2) + [Digit(2)] && Pad(2026, 4) == Pad(202, 3) + [Digit(6)];
  }

  lemma PadsAsWritten()
    ensures Pad(0, 2) == "00" && Pad(1, 2) == "01" && Pad(12, 2) == "12" && Pad(20, 2) == "20"
  {
    PadTwo(0);
    PadTwo(1);
    PadTwo(12);
    PadTwo(20);
  }

  // ----- the layout of the text -----

  /** The calendar's months. */
  lemma MonthLengths(y: nat, m: nat)
    requires 1 <= m <= 12
    ensures DaysInMonth(y, m)
            == [31, if y % 4 == 0 && (y % 100 != 0 || y % 400 == 0) then 29 else 28, 31, 30, 31, 30, 31, 31, 30, 31, 30,
                31][m - 1]
  {
  }

  /** A padded number is its decimal digits. */
  lemma {:induction false} PadIsDecimal(n: nat, w: nat)
    requires n < Pow10(w)
    ensures |Pad(n, w)| == w && (forall i :: 0 <= i < w ==> IsDigit(Pad(n, w)[i])) && DigitsValue(Pad(n, w)) == n
  {
    if w > 0 {
      PadIsDecimal(n / 10, w - 1);
      assert Pad(n, w)[..w - 1] == Pad(n / 10, w - 1);
    }
  }

  lemma FieldAt(sep: char, n: nat, rest: string)
    ensures var s := [sep] + (Pad(n, 2) + rest);
            |s| == 3 + |rest| && s[0] == sep && s[1..3] == Pad(n, 2) && s[3..] == rest
  {
    hide Pad;
    var s := [sep] + (Pad(n, 2) + rest);
    assert s[1..] == Pad(n, 2) + rest;
    assert s[1..][..2] == Pad(n, 2) && s[1..][2..] == rest;
  }

  /** Two more characters in and three further on. */
  lemma SliceAt(t: string, k: nat, s: string)
    requires k + 3 <= |t| && t[k..] == s
    ensures t[k] == s[0] && t[k + 1..k + 3] == s[1..3] && t[k + 3..] == s[3..]
  {
  }

  lemma FieldsFrom(t: string, k: nat, sep: char, n: nat, rest: string)
    requires k <= |t| && t[k..] == [sep] + (Pad(n, 2) + rest)
    ensures k + 3 <= |t| && t[k] == sep && t[k + 1..k + 3] == Pad(n, 2) && t[k + 3..] == rest
  {
    FieldAt(sep, n, rest);
    hide Pad;
    SliceAt(t, k, [sep] + (Pad(n, 2) + rest));
  }

  /** `YYYY-MM-DDTHH:MM:SS`, the six digits of a fraction that is not zero, and the zone. */
  lemma IsoLayout(c: Civil, zone: string)
    ensures var t := Iso(c, zone);
            && |t| >= 19
            && t[..4] == Pad(c.year, 4) && t[4] == '-' && t[5..7] == Pad(c.month, 2) && t[7] == '-'
            && t[8..10] == Pad(c.day, 2) && t[10] == 'T' && t[11..13] == Pad(c.hour, 2) && t[13] == ':'
            && t[14..16] == Pad(c.minute, 2) && t[16] == ':' && t[17..19] == Pad(c.second, 2)
            && t[19..] == (if c.micro == 0 then "" else "." + Pad(c.micro, 6)) + zone
  {
    var t := Iso(c, zone);
    YearFirst(c, zone);
    Chained(c, zone);
    TextEnd(c, zone);
    hide *;
    FieldsFrom(t, 4, '-', c.month, AfterMonth(c, zone));
    FieldsFrom(t, 7, '-', c.day, AfterDay(c, zone));
    FieldsFrom(t, 10, 'T', c.hour, AfterHour(c, zone));
    FieldsFrom(t, 13, ':', c.minute, AfterMinute(c, zone));
    FieldsFrom(t, 16, ':', c.second, AfterSecond(c, zone));
  }

  lemma YearFirst(c: Civil, zone: string)
    ensures var t := Iso(c, zone);
            |t| >= 4 && t[..4] == Pad(c.year, 4) && t[4..] == AfterYear(c, zone)
  {
    assert Iso(c, zone) == Pad(c.year, 4) + AfterYear(c, zone);
    hide Pad, Iso, AfterYear;
  }

  lemma TextEnd(c: Civil, zone: string)
    ensures AfterSecond(c, zone) == (if c.micro == 0 then "" else "." + Pad(c.micro, 6)) + zone
  {
    hide Pad;
    assert "" + zone == zone;
  }

  lemma Chained(c: Civil, zone: string)
    ensures AfterYear(c, zone) == ['-'] + (Pad(c.month, 2) + AfterMonth(c, zone))
    ensures AfterMonth(c, zone) == ['-'] + (Pad(c.day, 2) + AfterDay(c, zone))
    ensures AfterDay(c, zone) == ['T'] + (Pad(c.hour, 2) + AfterHour(c, zone))
    ensures AfterHour(c, zone) == [':'] + (Pad(c.minute, 2) + AfterMinute(c, zone))
    ensures AfterMinute(c, zone) == [':'] + (Pad(c.second, 2) + AfterSecond(c, zone))
  {
    hide Pad, Fraction;
  }

  /** An offset of whole minutes: its sign, two digits of hours and two of minutes. */
  lemma OffsetLayout(hours: nat, minutes: nat)
    requires hours < 24 && minutes < 60
    ensures var size := (hours * 60 + minutes) * 60_000_000;
            && OffsetText(size) == "+" + (Pad(hours, 2) + (":" + Pad(minutes, 2)))
            && (size > 0 ==> OffsetText(-size) == "-" + (Pad(hours, 2) + (":" + Pad(minutes, 2))))
  {
    OffsetParts(hours, minutes);
    hide Pad;
    assert Pad(minutes, 2) + "" == Pad(minutes, 2);
  }

  lemma OffsetParts(hours: nat, minutes: nat)
    requires hours < 24 && minutes < 60
    ensures var size := (hours * 60 + minutes) * 60_000_000;
            && size / 3_600_000_000 == hours && size / 60_000_000 % 60 == minutes
            && size / 1_000_000 % 60 == 0 && size % 1_000_000 == 0
  {
  }
}
