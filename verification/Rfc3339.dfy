/** The civil calendar, and instants as RFC 3339 text (section 5.6), the way package time has them. */
module Rfc3339 {
  import opened Wrappers
  import opened Decimal
  import opened Text

  /** Nanoseconds since 0001-01-01T00:00:00Z, Go's zero time. */
  type Time = int

  function Secs(t: Time): int { t / 1_000_000_000 }

  function Nanos(t: Time): (n: int)
    ensures 0 <= n < 1_000_000_000
  {
    t % 1_000_000_000
  }

  function At(secs: int, nanos: int): Time { secs * 1_000_000_000 + nanos }

  /** t.Truncate(time.Second): the whole second that `t` lies in. */
  function Truncate(t: Time): Time { At(Secs(t), 0) }

  lemma TruncateBounds(t: Time)
    ensures Truncate(t) <= t < Truncate(t) + 1_000_000_000 && Nanos(Truncate(t)) == 0
    ensures At(Secs(t), Nanos(t)) == t
    ensures Truncate(t) == t <==> Nanos(t) == 0
  {
  }

  datatype Date = Date(year: int, month: int, day: int)

  predicate Leap(year: int) {
    year % 4 == 0 && (year % 100 != 0 || year % 400 == 0)
  }

  /** Days of the year that come before a month; month 13 gives the length of the year. */
  function DaysBeforeMonth(month: int, leap: bool): int
    requires 1 <= month <= 13
  {
    (if month == 1 then 0 else if month == 2 then 31 else if month == 3 then 59 else if month == 4 then 90
     else if month == 5 then 120 else if month == 6 then 151 else if month == 7 then 181 else if month == 8 then 212
     else if month == 9 then 243 else if month == 10 then 273 else if month == 11 then 304
     else if month == 12 then 334 else 365)
    + (if leap && month > 2 then 1 else 0)
  }

  function DaysIn(month: int, year: int): int
    requires 1 <= month <= 12
  {
    DaysBeforeMonth(month + 1, Leap(year)) - DaysBeforeMonth(month, Leap(year))
  }

  predicate ValidDate(d: Date) {
    1 <= d.month <= 12 && 1 <= d.day <= DaysIn(d.month, d.year)
  }

  /** Days from 0001-01-01 to the first of January of a year. */
  function DaysBeforeYear(year: int): int {
    var y := year - 1;
    365 * y + y / 4 - y / 100 + y / 400
  }

  function DayNumber(d: Date): int
    requires ValidDate(d)
  {
    DaysBeforeYear(d.year) + DaysBeforeMonth(d.month, Leap(d.year)) + d.day - 1
  }

  /** Whole cycles of 400, 100, 4 and 1 years that fit into a number of days, and the days left. */
  function Cycles(n: int): (r: (int, int, int, int, int))
    ensures var (n400, n100, n4, n1, yday) := r;
            && 0 <= n100 <= 3 && 0 <= n4 <= 24 && 0 <= n1 <= 3 && 0 <= yday <= 365
            && 146_097 * n400 + 36_524 * n100 + 1461 * n4 + 365 * n1 + yday == n
            && (yday == 365 ==> n1 == 3 && (n4 != 24 || n100 == 3))
  {
    var n400, r400 := n / 146_097, n % 146_097;
    var n100 := if r400 / 36_524 == 4 then 3 else r400 / 36_524;
    var r100 := r400 - 36_524 * n100;
    assert 0 <= r100 <= 36_524 && (n100 < 3 ==> r100 < 36_524);
    var n4, r4 := r100 / 1461, r100 % 1461;
    var n1 := if r4 / 365 == 4 then 3 else r4 / 365;
    assert r100 == 1461 * n4 + r4;
    (n400, n100, n4, n1, r4 - 365 * n1)
  }

  /** The year a day number lies in, and the day of that year. */
  function YearAndDay(n: int): (int, int) {
    var (n400, n100, n4, n1, yday) := Cycles(n);
    (400 * n400 + 100 * n100 + 4 * n4 + n1 + 1, yday)
  }

  lemma YearAndDayParts(n: int)
    ensures var (year, yday) := YearAndDay(n);
            && DaysBeforeYear(year) + yday == n
            && 0 <= yday < (if Leap(year) then 366 else 365)
  {
    hide Cycles;
    var (n400, n100, n4, n1, yday) := Cycles(n);
    YearCycles(n400, n100, n4, n1);
  }

  /** Quotient and remainder are determined by their bounds. */
  lemma Divide(y: int, k: int, q: int, r: int)
    requires k > 0 && y == k * q + r && 0 <= r < k
    ensures y / k == q && y % k == r
  {
    var d := y / k - q;
    assert k * (y / k) + y % k == y;
    assert k * d == r - y % k by { Distribute(k, y / k, q); }
    if d >= 1 {
      AtLeast(k, d);
    } else if d <= -1 {
      AtLeast(k, -d);
      Distribute(k, 0, d);
    }
  }

  lemma Distribute(k: int, a: int, b: int)
    ensures k * (a - b) == k * a - k * b
  {
  }

  lemma AtLeast(k: int, d: int)
    requires k > 0 && d >= 1
    ensures k * d >= k
  {
  }

  lemma YearCycles(n400: int, n100: int, n4: int, n1: int)
    requires 0 <= n100 <= 3 && 0 <= n4 <= 24 && 0 <= n1 <= 3
    ensures var year := 400 * n400 + 100 * n100 + 4 * n4 + n1 + 1;
            && DaysBeforeYear(year) == 146_097 * n400 + 36_524 * n100 + 1461 * n4 + 365 * n1
            && (Leap(year) <==> n1 == 3 && (n4 != 24 || n100 == 3))
  {
    var y := 400 * n400 + 100 * n100 + 4 * n4 + n1;
    Divide(y, 400, n400, 100 * n100 + 4 * n4 + n1);
    Divide(y, 100, 4 * n400 + n100, 4 * n4 + n1);
    Divide(y, 4, 100 * n400 + 25 * n100 + n4, n1);
    NextMultiple(y, 4, 100 * n400 + 25 * n100 + n4, n1);
    NextMultiple(y, 100, 4 * n400 + n100, 4 * n4 + n1);
    NextMultiple(y, 400, n400, 100 * n100 + 4 * n4 + n1);
  }

  /** The number after one with remainder r is a multiple exactly if r is the largest remainder. */
  lemma NextMultiple(y: int, k: int, q: int, r: int)
    requires k > 0 && y == k * q + r && 0 <= r < k
    ensures (y + 1) % k == 0 <==> r == k - 1
    ensures (y + 1) / k == q + if r == k - 1 then 1 else 0
  {
    if r == k - 1 {
      Distribute(k, q, -1);
      Divide(y + 1, k, q + 1, 0);
    } else {
      Divide(y + 1, k, q, r + 1);
    }
  }

  function MonthOf(yday: int, leap: bool): (month: int)
    requires 0 <= yday < if leap then 366 else 365
    ensures 1 <= month <= 12
    ensures DaysBeforeMonth(month, leap) <= yday < DaysBeforeMonth(month + 1, leap)
  {
    if yday < DaysBeforeMonth(2, leap) then 1 else if yday < DaysBeforeMonth(3, leap) then 2
    else if yday < DaysBeforeMonth(4, leap) then 3 else if yday < DaysBeforeMonth(5, leap) then 4
    else if yday < DaysBeforeMonth(6, leap) then 5 else if yday < DaysBeforeMonth(7, leap) then 6
    else if yday < DaysBeforeMonth(8, leap) then 7 else if yday < DaysBeforeMonth(9, leap) then 8
    else if yday < DaysBeforeMonth(10, leap) then 9 else if yday < DaysBeforeMonth(11, leap) then 10
    else if yday < DaysBeforeMonth(12, leap) then 11 else 12
  }

  function DateOf(n: int): Date {
    YearAndDayParts(n);
    var (year, yday) := YearAndDay(n);
    var month := MonthOf(yday, Leap(year));
    Date(year, month, yday - DaysBeforeMonth(month, Leap(year)) + 1)
  }

  /** Every day has a valid date, and the date leads back to the day. */
  lemma DayOfDate(n: int)
    ensures ValidDate(DateOf(n)) && DayNumber(DateOf(n)) == n
  {
    YearAndDayParts(n);
  }

  lemma LeapYears(year: int)
    ensures Leap(year) <==> (year % 4 == 0 && year % 100 != 0) || year % 400 == 0
  {
    Multiples(year);
  }

  /** The dates that there are. */
  lemma ValidDates(d: Date)
    ensures ValidDate(d) <==>
            && 1 <= d.month <= 12
            && 1 <= d.day <= (if d.month == 2 then
                                (if (d.year % 4 == 0 && d.year % 100 != 0) || d.year % 400 == 0 then 29 else 28)
                              else if d.month in {4, 6, 9, 11} then 30 else 31)
  {
    LeapYears(d.year);
    hide Leap;
    var leap := (d.year % 4 == 0 && d.year % 100 != 0) || d.year % 400 == 0;
    if 1 <= d.month <= 12 {
      MonthLength(d.month, leap);
    }
  }

  lemma MonthLength(month: int, leap: bool)
    requires 1 <= month <= 12
    ensures DaysBeforeMonth(month + 1, leap) - DaysBeforeMonth(month, leap) ==
            if month == 2 then (if leap then 29 else 28) else if month in {4, 6, 9, 11} then 30 else 31
  {
  }

  /** Days are numbered one after the other, from the day of Go's zero time. */
  lemma DaysInARow(d: Date)
    requires ValidDate(d)
    ensures DayNumber(Date(1, 1, 1)) == 0
    ensures var next := if ValidDate(d.(day := d.day + 1)) then d.(day := d.day + 1)
                        else if d.month < 12 then Date(d.year, d.month + 1, 1)
                        else Date(d.year + 1, 1, 1);
            ValidDate(next) && DayNumber(next) == DayNumber(d) + 1
  {
    YearLength(d.year);
    hide Leap;
  }

  lemma QuotientStep(y: int, k: int)
    requires k > 0
    ensures (y + 1) / k == y / k + if (y + 1) % k == 0 then 1 else 0
  {
    NextMultiple(y, k, y / k, y % k);
  }

  lemma YearLength(year: int)
    ensures DaysBeforeYear(year + 1) == DaysBeforeYear(year) + if Leap(year) then 366 else 365
  {
    QuotientStep(year - 1, 4);
    QuotientStep(year - 1, 100);
    QuotientStep(year - 1, 400);
    Multiples(year);
  }

  lemma Multiples(year: int)
    ensures year % 400 == 0 ==> year % 100 == 0
    ensures year % 100 == 0 ==> year % 4 == 0
  {
    if year % 400 == 0 {
      Divide(year, 100, 4 * (year / 400), 0);
    }
    if year % 100 == 0 {
      Divide(year, 4, 25 * (year / 100), 0);
    }
  }

  lemma DayInYear(d: Date)
    requires ValidDate(d)
    ensures DaysBeforeYear(d.year) <= DayNumber(d) < DaysBeforeYear(d.year + 1)
  {
    YearLength(d.year);
  }

  lemma {:induction false} YearsAscend(a: int, b: int)
    requires a <= b
    ensures DaysBeforeYear(a) <= DaysBeforeYear(b)
    decreases b - a
  {
    if a < b {
      YearLength(a);
      YearsAscend(a + 1, b);
    }
  }

  lemma MonthsAscend(a: int, b: int, leap: bool)
    requires 1 <= a < b <= 13
    ensures DaysBeforeMonth(a + 1, leap) <= DaysBeforeMonth(b, leap)
  {
  }

  lemma SameYear(d: Date, e: Date)
    requires ValidDate(d) && ValidDate(e) && d.year == e.year && DayNumber(d) == DayNumber(e)
    ensures d == e
  {
    hide DaysBeforeYear;
    if d.month < e.month {
      MonthsAscend(d.month, e.month, Leap(d.year));
    } else if e.month < d.month {
      MonthsAscend(e.month, d.month, Leap(d.year));
    }
  }

  /** A day has only one valid date. */
  lemma DateOfDay(d: Date)
    requires ValidDate(d)
    ensures DateOf(DayNumber(d)) == d
  {
    hide DaysBeforeYear;
    hide DateOf;
    hide ValidDate;
    hide DayNumber;
    var e := DateOf(DayNumber(d));
    DayOfDate(DayNumber(d));
    DayInYear(d);
    DayInYear(e);
    if d.year < e.year {
      YearsAscend(d.year + 1, e.year);
    } else if e.year < d.year {
      YearsAscend(e.year + 1, d.year);
    } else {
      SameYear(d, e);
    }
  }

  // ---- Text ----

  function Pad2(n: int): (s: string)
    requires 0 <= n < 100
    ensures |s| == 2 && Read2(s[0], s[1]) == Some(n)
  {
    [DigitChar(n / 10), DigitChar(n % 10)]
  }

  function Read2(a: char, b: char): (r: Option<int>)
    ensures r.Some? ==> 0 <= r.value < 100
  {
    if IsDigit(a) && IsDigit(b) then Some(10 * DigitVal(a) + DigitVal(b)) else None
  }

  /** A year, with at least four digits. */
  function PadYear(y: int): string {
    if 0 <= y < 10_000 then Pad2(y / 100) + Pad2(y % 100)
    else if y < 0 then "-" + (if -10 < y then "000" else if -100 < y then "00" else if -1000 < y then "0" else "") + FormatNat(-y)
    else FormatNat(y)
  }

  function Hour(clock: int): int { clock / 3600 }

  function Minute(clock: int): int { clock / 60 % 60 }

  function Second(clock: int): int { clock % 60 }

  function Clock(hour: int, min: int, sec: int): int { hour * 3600 + min * 60 + sec }

  predicate IsClock(clock: int) { 0 <= clock < 86_400 }

  lemma ClockParts(clock: int)
    requires IsClock(clock)
    ensures 0 <= Hour(clock) < 24 && 0 <= Minute(clock) < 60 && 0 <= Second(clock) < 60
    ensures Clock(Hour(clock), Minute(clock), Second(clock)) == clock
  {
    assert clock / 3600 == clock / 60 / 60;
  }

  /** A date and the seconds of its day, without fraction and zone. */
  function Stamp(d: Date, clock: int): string
    requires ValidDate(d) && IsClock(clock)
  {
    ClockParts(clock);
    PadYear(d.year) + "-" + Pad2(d.month) + "-" + Pad2(d.day) + "T"
    + Pad2(Hour(clock)) + ":" + Pad2(Minute(clock)) + ":" + Pad2(Second(clock))
  }

  function Pow10(k: nat): (p: int)
    ensures p >= 1
  {
    if k == 0 then 1 else 10 * Pow10(k - 1)
  }

  /** The digits of a fraction n / 10^k without the zeros at its end. */
  function FracDigits(n: int, k: nat): (s: string)
    requires 0 <= n < Pow10(k)
    ensures AllDigits(s) && |s| <= k && (s == "" <==> n == 0)
    decreases k, n
  {
    if n == 0 then "" else
    var p := Pow10(k - 1);
    FracStep(n, p);
    [DigitChar(n / p)] + FracDigits(n % p, k - 1)
  }

  lemma FracStep(n: int, p: int)
    requires p >= 1 && 0 <= n < 10 * p
    ensures 0 <= n / p < 10 && 0 <= n % p < p && n == n / p * p + n % p
  {
  }

  /** What the first k digits of a fraction are worth, in units of 1 / 10^k. */
  function FracValue(s: string, k: nat): int
    requires AllDigits(s)
    decreases |s|
  {
    if s == "" || k == 0 then 0 else DigitVal(s[0]) * Pow10(k - 1) + FracValue(s[1..], k - 1)
  }

  lemma {:induction false} FracRoundTrip(n: int, k: nat)
    requires 0 <= n < Pow10(k)
    ensures FracValue(FracDigits(n, k), k) == n
    decreases k
  {
    if n != 0 {
      var p := Pow10(k - 1);
      FracStep(n, p);
      FracRoundTrip(n % p, k - 1);
    }
  }

  function Day(secs: int): int { secs / 86_400 }

  function ClockOf(secs: int): (clock: int)
    ensures IsClock(clock)
  {
    secs % 86_400
  }

  function AtDay(day: int, clock: int): int { day * 86_400 + clock }

  /** The text of an instant up to its whole seconds. */
  function WholeText(secs: int): string {
    DayOfDate(Day(secs));
    Stamp(DateOf(Day(secs)), ClockOf(secs))
  }

  function FracText(nanos: int): (s: string)
    requires 0 <= nanos < 1_000_000_000
    ensures AllDigits(s) && (s == "" <==> nanos == 0)
  {
    assert Pow10(9) == 1_000_000_000 by { assert Pow10(4) == 10_000; assert Pow10(7) == 10_000_000; }
    FracDigits(nanos, 9)
  }

  function WithFraction(whole: string, frac: string): string {
    whole + (if frac == "" then "" else "." + frac) + "Z"
  }

  /** t.UTC().Format(time.RFC3339), or time.RFC3339Nano when `nano` is set. */
  function Format(t: Time, nano: bool): string {
    WithFraction(WholeText(Secs(t)), if nano then FracText(Nanos(t)) else "")
  }

  /** The two digits at position i. */
  function Field(s: string, i: nat): Option<int>
    requires i + 2 <= |s|
  {
    Read2(s[i], s[i + 1])
  }

  /** Reads 2006-01-02T15:04:05 as seconds since the zero time. */
  function ReadStamp(s: string): Option<int>
    requires |s| == 19
  {
    var century, decade, month, day := Field(s, 0), Field(s, 2), Field(s, 5), Field(s, 8);
    var hour, min, sec := Field(s, 11), Field(s, 14), Field(s, 17);
    if century.None? || decade.None? || month.None? || day.None? || hour.None? || min.None? || sec.None?
       || !(s[4] == s[7] == '-' && s[10] == 'T' && s[13] == s[16] == ':') then None else
    var d := Date(Year(century.value, decade.value), month.value, day.value);
    if ValidDate(d) && hour.value < 24 && min.value < 60 && sec.value < 60
    then Some(AtDay(DayNumber(d), Clock(hour.value, min.value, sec.value)))
    else None
  }

  function Year(century: int, decade: int): int { 100 * century + decade }

  function DigitRun(s: string): (n: nat)
    ensures n <= |s| && AllDigits(s[..n])
  {
    if s == "" || !IsDigit(s[0]) then 0 else
    var n := 1 + DigitRun(s[1..]);
    assert forall i :: 1 <= i < n ==> s[i] == s[1..][i - 1];
    n
  }

  /** The offset of a zone in seconds. Offsets of 24 hours and of 60 minutes are let through. */
  function ReadZone(s: string): Option<int> {
    if s == "Z" then Some(0)
    else if |s| != 6 || (s[0] != '+' && s[0] != '-') || s[3] != ':' then None else
    var hour :- Read2(s[1], s[2]);
    var min :- Read2(s[4], s[5]);
    if hour > 24 || min > 60 then None else
    var secs := hour * 3600 + min * 60;
    Some(if s[0] == '-' then -secs else secs)
  }

  /** The hour may have one digit only. */
  function PadHour(s: string): string {
    if |s| > 12 && IsDigit(s[11]) && !IsDigit(s[12]) then s[..11] + "0" + s[11..] else s
  }

  /** time.Parse(time.RFC3339, s) */
  function Parse(s: string): Option<Time> {
    ParsePadded(PadHour(s))
  }

  /** Fractions are optional, come after a period or a comma, and are cut off after nine digits. */
  function ParsePadded(s: string): Option<Time> {
    if |s| < 20 then None else
    var secs :- ReadStamp(s[..19]);
    var n := if s[19] == '.' || s[19] == ',' then DigitRun(s[20..]) else 0;
    var ns := if n > 0 then FracValue(s[20..][..n], 9) else 0;
    var zone :- ReadZone(if n > 0 then s[20 + n..] else s[19..]);
    Some(At(secs - zone, ns))
  }

  /** The first instant of year 10000. */
  const END: Time := 3_652_059 * 86_400 * 1_000_000_000

  lemma StampShape(d: Date, clock: int)
    requires ValidDate(d) && 0 <= d.year < 10_000 && IsClock(clock)
    ensures d.day < 100 && Year(d.year / 100, d.year % 100) == d.year
    ensures 0 <= Hour(clock) < 24 && 0 <= Minute(clock) < 60 && 0 <= Second(clock) < 60
    ensures var s := Stamp(d, clock);
            && |s| == 19
            && s[0..2] == Pad2(d.year / 100) && s[2..4] == Pad2(d.year % 100) && s[4] == '-'
            && s[5..7] == Pad2(d.month) && s[7] == '-' && s[8..10] == Pad2(d.day) && s[10] == 'T'
            && s[11..13] == Pad2(Hour(clock)) && s[13] == ':'
            && s[14..16] == Pad2(Minute(clock)) && s[16] == ':' && s[17..19] == Pad2(Second(clock))
  {
    ClockParts(clock);
    hide Hour;
    hide Minute;
    hide Second;
    hide DaysBeforeYear;
  }

  lemma ReadPad(s: string, i: nat, n: int)
    requires i + 2 <= |s| && 0 <= n < 100 && s[i..i + 2] == Pad2(n)
    ensures Field(s, i) == Some(n)
  {
    assert s[i..i + 2][0] == s[i] && s[i..i + 2][1] == s[i + 1];
  }

  lemma ReadStampOf(d: Date, clock: int)
    requires ValidDate(d) && 0 <= d.year < 10_000 && IsClock(clock)
    ensures |Stamp(d, clock)| == 19
    ensures ReadStamp(Stamp(d, clock)) == Some(AtDay(DayNumber(d), clock))
  {
    StampShape(d, clock);
    ClockParts(clock);
    var s := Stamp(d, clock);
    hide Stamp;
    hide Pad2;
    hide Field;
    hide DayNumber;
    hide Hour;
    hide Minute;
    hide Second;
    hide Clock;
    hide Year;
    hide AtDay;
    ReadPad(s, 0, d.year / 100);
    ReadPad(s, 2, d.year % 100);
    ReadPad(s, 5, d.month);
    ReadPad(s, 8, d.day);
    ReadPad(s, 11, Hour(clock));
    ReadPad(s, 14, Minute(clock));
    ReadPad(s, 17, Second(clock));
    hide ValidDate;
  }

  lemma {:induction false} DigitRunOf(digits: string, rest: string)
    requires AllDigits(digits) && rest != "" && !IsDigit(rest[0])
    ensures DigitRun(digits + rest) == |digits|
  {
    if digits == "" {
      assert digits + rest == rest;
    } else {
      DigitRunOf(digits[1..], rest);
      assert (digits + rest)[1..] == digits[1..] + rest;
    }
  }

  // ---- Which texts are read, and as what ----

  /** Z, or a sign, hours and minutes. */
  ghost predicate IsZone(zone: string, secs: int) {
    || (zone == "Z" && secs == 0)
    || (exists h, m :: 0 <= h <= 24 && 0 <= m <= 60 && ZoneText(zone, h, m, secs))
  }

  predicate ZoneText(zone: string, h: int, m: int, secs: int)
    requires 0 <= h < 100 && 0 <= m < 100
  {
    || (zone == "+" + Pad2(h) + ":" + Pad2(m) && secs == 3600 * h + 60 * m)
    || (zone == "-" + Pad2(h) + ":" + Pad2(m) && secs == -(3600 * h + 60 * m))
  }

  lemma ZoneSigned(zone: string, sign: char, h: int, m: int)
    requires 0 <= h < 100 && 0 <= m < 100
    ensures zone == [sign] + Pad2(h) + ":" + Pad2(m) <==>
            && |zone| == 6 && zone[0] == sign && zone[3] == ':'
            && Read2(zone[1], zone[2]) == Some(h) && Read2(zone[4], zone[5]) == Some(m)
  {
    if |zone| == 6 && Read2(zone[1], zone[2]) == Some(h) && Read2(zone[4], zone[5]) == Some(m) {
      Pad2Read(zone[1], zone[2], h);
      Pad2Read(zone[4], zone[5], m);
      assert zone == [zone[0]] + [zone[1], zone[2]] + [zone[3]] + [zone[4], zone[5]];
    }
    if zone == [sign] + Pad2(h) + ":" + Pad2(m) {
      assert zone[1] == Pad2(h)[0] && zone[2] == Pad2(h)[1] && zone[4] == Pad2(m)[0] && zone[5] == Pad2(m)[1];
    }
  }

  /** The offsets that are read. */
  lemma ReadZoneMeans(zone: string, secs: int)
    ensures ReadZone(zone) == Some(secs) <==> IsZone(zone, secs)
  {
    hide Pad2;
    hide Read2;
    forall h, m | 0 <= h < 100 && 0 <= m < 100
      ensures ZoneText(zone, h, m, secs) <==>
              && |zone| == 6 && (zone[0] == '+' || zone[0] == '-') && zone[3] == ':'
              && Read2(zone[1], zone[2]) == Some(h) && Read2(zone[4], zone[5]) == Some(m)
              && secs == (if zone[0] == '-' then -(3600 * h + 60 * m) else 3600 * h + 60 * m)
    {
      ZoneSigned(zone, '+', h, m);
      ZoneSigned(zone, '-', h, m);
    }
    if ReadZone(zone) == Some(secs) && zone != "Z" {
      var h, m := Read2(zone[1], zone[2]).value, Read2(zone[4], zone[5]).value;
      assert ZoneText(zone, h, m, secs);
    }
  }

  lemma Pad2Read(a: char, b: char, n: int)
    requires Read2(a, b) == Some(n)
    ensures Pad2(n) == [a, b]
  {
  }

  /** A day of the years 0 to 9999 and the seconds of its day, spelled out. */
  predicate StampText(s: string, d: Date, clock: int, secs: int) {
    && ValidDate(d) && 0 <= d.year < 10_000 && IsClock(clock)
    && s == Stamp(d, clock) && secs == 86_400 * DayNumber(d) + clock
  }

  lemma ClockRead(hour: int, min: int, sec: int)
    requires 0 <= hour < 24 && 0 <= min < 60 && 0 <= sec < 60
    ensures var clock := Clock(hour, min, sec);
            IsClock(clock) && Hour(clock) == hour && Minute(clock) == min && Second(clock) == sec
  {
    var clock := Clock(hour, min, sec);
    assert clock / 3600 == hour && clock / 60 == 60 * hour + min && clock % 60 == sec;
  }

  lemma FieldRead(s: string, i: nat, n: int)
    requires i + 2 <= |s| && Field(s, i) == Some(n)
    ensures 0 <= n < 100 && s[i..i + 2] == Pad2(n)
  {
    Pad2Read(s[i], s[i + 1], n);
  }

  lemma YearDigits(year: int, c: int, y: int)
    requires 0 <= c < 100 && 0 <= y < 100 && year == Year(c, y)
    ensures 0 <= year < 10_000 && PadYear(year) == Pad2(c) + Pad2(y)
  {
    assert year / 100 == c && year % 100 == y;
  }

  /** The converse of StampShape. */
  lemma StampJoins(s: string, d: Date, clock: int)
    requires ValidDate(d) && IsClock(clock) && d.day < 100
    requires 0 <= Hour(clock) < 24 && 0 <= Minute(clock) < 60 && 0 <= Second(clock) < 60
    requires |s| == 19 && s[0..2] + s[2..4] == PadYear(d.year)
    requires s[4] == s[7] == '-' && s[10] == 'T' && s[13] == s[16] == ':'
    requires s[5..7] == Pad2(d.month) && s[8..10] == Pad2(d.day)
    requires s[11..13] == Pad2(Hour(clock)) && s[14..16] == Pad2(Minute(clock)) && s[17..19] == Pad2(Second(clock))
    ensures s == Stamp(d, clock)
  {
    hide Pad2;
    hide PadYear;
    hide Hour;
    hide Minute;
    hide Second;
    hide ValidDate;
    StampPieces(s);
  }

  lemma StampOfFields(s: string, c: int, y: int, d: Date, hour: int, min: int, sec: int)
    requires |s| == 19 && Field(s, 0) == Some(c) && Field(s, 2) == Some(y) && d.year == Year(c, y)
    requires Field(s, 5) == Some(d.month) && Field(s, 8) == Some(d.day) && ValidDate(d)
    requires Field(s, 11) == Some(hour) && Field(s, 14) == Some(min) && Field(s, 17) == Some(sec)
    requires hour < 24 && min < 60 && sec < 60
    requires s[4] == s[7] == '-' && s[10] == 'T' && s[13] == s[16] == ':'
    ensures 0 <= d.year < 10_000 && IsClock(Clock(hour, min, sec)) && s == Stamp(d, Clock(hour, min, sec))
  {
    hide Field;
    hide Pad2;
    hide PadYear;
    hide Hour;
    hide Minute;
    hide Second;
    hide Clock;
    hide Stamp;
    hide ValidDate;
    hide Year;
    FieldRead(s, 0, c);
    FieldRead(s, 2, y);
    FieldRead(s, 5, d.month);
    FieldRead(s, 8, d.day);
    FieldRead(s, 11, hour);
    FieldRead(s, 14, min);
    FieldRead(s, 17, sec);
    ClockRead(hour, min, sec);
    YearDigits(d.year, c, y);
    StampJoins(s, d, Clock(hour, min, sec));
  }

  lemma StampPieces(s: string)
    requires |s| == 19
    ensures s == s[0..2] + s[2..4] + [s[4]] + s[5..7] + [s[7]] + s[8..10] + [s[10]]
                 + s[11..13] + [s[13]] + s[14..16] + [s[16]] + s[17..19]
  {
  }

  /** The date and time that are read are the ones that are spelled. */
  lemma ReadStampMeans(s: string, secs: int)
    requires |s| == 19
    ensures ReadStamp(s) == Some(secs) <==> exists d, clock :: StampText(s, d, clock, secs)
  {
    hide Stamp;
    hide ValidDate;
    hide DayNumber;
    hide Field;
    hide Year;
    if ReadStamp(s) == Some(secs) {
      var d := Date(Year(Field(s, 0).value, Field(s, 2).value), Field(s, 5).value, Field(s, 8).value);
      var hour, min, sec := Field(s, 11).value, Field(s, 14).value, Field(s, 17).value;
      StampOfFields(s, Field(s, 0).value, Field(s, 2).value, d, hour, min, sec);
      assert StampText(s, d, Clock(hour, min, sec), secs);
    }
    if exists d, clock :: StampText(s, d, clock, secs) {
      var d, clock :| StampText(s, d, clock, secs);
      ReadStampOf(d, clock);
    }
  }

  /** A stamp, a fraction behind a period or a comma, and a zone: the instant that they spell. */
  ghost predicate Spells(s: string, t: Time) {
    exists stamp, secs, frac, zone, offset :: Pieces(s, stamp, frac, zone) && Values(stamp, secs, frac, zone, offset, t)
  }

  predicate Pieces(s: string, stamp: string, frac: string, zone: string) {
    s == stamp + frac + zone
  }

  ghost predicate Values(stamp: string, secs: int, frac: string, zone: string, offset: int, t: Time) {
    && (exists d, clock :: StampText(stamp, d, clock, secs))
    && IsZone(zone, offset)
    && (frac == "" || (|frac| >= 2 && frac[0] in ".," && AllDigits(frac[1..])))
    && t == 1_000_000_000 * (secs - offset) + if frac == "" then 0 else DigitsValue(NineDigits(frac[1..]))
  }

  /** The first nine digits of a fraction, filled up with zeros. */
  function NineDigits(digits: string): (r: string)
    requires AllDigits(digits)
    ensures AllDigits(r) && |r| == 9
  {
    (digits + "000000000")[..9]
  }

  lemma {:induction false} LeadingDigit(c: char, s: string)
    requires IsDigit(c) && AllDigits(s)
    ensures DigitsValue([c] + s) == DigitVal(c) * Pow10(|s|) + DigitsValue(s)
  {
    if s != "" {
      var front := s[..|s| - 1];
      LeadingDigit(c, front);
      assert ([c] + s)[..|s|] == [c] + front;
      Regroup(DigitVal(c), Pow10(|front|));
    }
  }

  lemma Regroup(a: int, b: int)
    ensures 10 * (a * b) == a * (10 * b)
  {
  }

  lemma NoDigits()
    ensures DigitsValue("") == 0
  {
  }

  lemma {:induction false} FracDenotes(digits: string, zeros: string, k: nat)
    requires AllDigits(digits) && |zeros| >= k && forall i :: 0 <= i < |zeros| ==> zeros[i] == '0'
    ensures AllDigits((digits + zeros)[..k]) && FracValue(digits, k) == DigitsValue((digits + zeros)[..k])
    decreases k
  {
    hide DigitsValue;
    hide Pow10;
    NoDigits();
    if k > 0 {
      var c := if digits == "" then '0' else digits[0];
      var more, filling := if digits == "" then "" else digits[1..], if digits == "" then zeros[1..] else zeros;
      FracDenotes(more, filling, k - 1);
      var rest := (more + filling)[..k - 1];
      assert (digits + zeros)[..k] == [c] + rest;
      LeadingDigit(c, rest);
      assert FracValue(digits, k) == DigitVal(c) * Pow10(k - 1) + FracValue(more, k - 1);
    }
  }

  lemma FracOf(digits: string)
    requires AllDigits(digits)
    ensures FracValue(digits, 9) == DigitsValue(NineDigits(digits))
  {
    FracDenotes(digits, "000000000", 9);
  }

  lemma StampTextIs(stamp: string, d: Date, clock: int, secs: int)
    requires StampText(stamp, d, clock, secs)
    ensures |stamp| == 19
  {
    hide Stamp;
    ReadStampOf(d, clock);
  }

  lemma ZoneStart(zone: string, offset: int)
    requires IsZone(zone, offset)
    ensures zone != "" && (zone[0] == 'Z' || zone[0] == '+' || zone[0] == '-')
  {
  }

  /** The parts that a text falls into when it is read. */
  lemma PaddedParts(stamp: string, frac: string, zone: string)
    requires |stamp| == 19 && zone != "" && (zone[0] == 'Z' || zone[0] == '+' || zone[0] == '-')
    requires frac == "" || (|frac| >= 2 && frac[0] in ".," && AllDigits(frac[1..]))
    ensures ParsePadded(stamp + frac + zone) ==
            match ReadStamp(stamp)
            case None => None
            case Some(secs) =>
              match ReadZone(zone)
              case None => None
              case Some(offset) => Some(At(secs - offset, if frac == "" then 0 else FracValue(frac[1..], 9)))
  {
    hide ReadStamp;
    hide ReadZone;
    hide At;
    hide FracValue;
    var s := stamp + frac + zone;
    assert s[..19] == stamp && s[19..] == frac + zone;
    if frac == "" {
      assert frac + zone == zone && s[19] == zone[0];
    } else {
      var digits := frac[1..];
      assert s[19] == frac[0] && s[20..] == digits + zone;
      DigitRunOf(digits, zone);
      assert s[20..][..|digits|] == digits && s[20 + |digits|..] == zone;
    }
  }

  /** What is read can be taken apart. */
  lemma PaddedSplits(s: string) returns (frac: string, zone: string)
    requires ParsePadded(s).Some?
    ensures |s| >= 20 && s == s[..19] + frac + zone
    ensures zone != "" && (zone[0] == 'Z' || zone[0] == '+' || zone[0] == '-')
    ensures frac == "" || (|frac| >= 2 && frac[0] in ".," && AllDigits(frac[1..]))
  {
    hide ReadStamp;
    hide FracValue;
    hide At;
    var n := if s[19] == '.' || s[19] == ',' then DigitRun(s[20..]) else 0;
    frac, zone := if n > 0 then s[19..20 + n] else "", if n > 0 then s[20 + n..] else s[19..];
    if n > 0 {
      assert frac[1..] == s[20..][..n];
    }
  }

  lemma SpelledIsRead(s: string, t: Time)
    requires Spells(s, t)
    ensures ParsePadded(s) == Some(t)
  {
    hide ReadStamp;
    hide ReadZone;
    hide FracValue;
    hide NineDigits;
    hide IsZone;
    hide StampText;
    hide ParsePadded;
    var stamp, secs, frac, zone, offset :| Pieces(s, stamp, frac, zone) && Values(stamp, secs, frac, zone, offset, t);
    var d, clock :| StampText(stamp, d, clock, secs);
    StampTextIs(stamp, d, clock, secs);
    ReadStampMeans(stamp, secs);
    ReadZoneMeans(zone, offset);
    ZoneStart(zone, offset);
    PaddedParts(stamp, frac, zone);
    if frac != "" {
      FracOf(frac[1..]);
    }
  }

  lemma ReadIsSpelled(s: string, t: Time)
    requires ParsePadded(s) == Some(t)
    ensures Spells(s, t)
  {
    hide ReadStamp;
    hide ReadZone;
    hide FracValue;
    hide NineDigits;
    hide IsZone;
    hide StampText;
    hide ParsePadded;
    var frac, zone := PaddedSplits(s);
    var stamp := s[..19];
    PaddedParts(stamp, frac, zone);
    var secs, offset := ReadStamp(stamp).value, ReadZone(zone).value;
    ReadStampMeans(stamp, secs);
    ReadZoneMeans(zone, offset);
    if frac != "" {
      FracOf(frac[1..]);
    }
    assert Pieces(s, stamp, frac, zone) && Values(stamp, secs, frac, zone, offset, t);
  }

  lemma OneDigitHour(s: string)
    requires |s| > 12 && !IsDigit(s[12])
    ensures ParsePadded(s) == None
  {
    if |s| >= 20 {
      assert Field(s[..19], 11) == None;
    }
  }

  /** Parse reads a text as the instant that it spells; the hour may have one digit. */
  lemma ParseMeans(s: string, t: Time)
    ensures Parse(s) == Some(t) <==>
            || Spells(s, t)
            || (|s| > 12 && '0' <= s[11] <= '9' && !('0' <= s[12] <= '9') && Spells(s[..11] + "0" + s[11..], t))
  {
    hide ParsePadded;
    hide Spells;
    forall text ensures ParsePadded(text) == Some(t) <==> Spells(text, t) {
      if ParsePadded(text) == Some(t) {
        ReadIsSpelled(text, t);
      }
      if Spells(text, t) {
        SpelledIsRead(text, t);
      }
    }
    if |s| > 12 && !IsDigit(s[12]) {
      OneDigitHour(s);
    }
  }

  lemma YearInRange(n: int)
    requires 0 <= n < 3_652_059
    ensures 1 <= DateOf(n).year < 10_000
  {
    var d := DateOf(n);
    DayOfDate(n);
    DayInYear(d);
    assert DaysBeforeYear(10_000) == 3_652_059;
    hide DateOf;
    if d.year < 1 {
      YearsAscend(d.year + 1, 1);
    } else if d.year >= 10_000 {
      YearsAscend(10_000, d.year);
    }
  }

  lemma PadNothing(s: string)
    requires |s| > 12 && IsDigit(s[12])
    ensures PadHour(s) == s
  {
  }

  /** The hour of a stamp has two digits. */
  lemma StampHour(stamp: string)
    requires |stamp| == 19 && ReadStamp(stamp).Some?
    ensures IsDigit(stamp[12])
  {
    assert Field(stamp, 11).Some?;
  }

  /** What Parse makes of a stamp, a fraction and Z. */
  lemma ParsePieces(stamp: string, secs: int, frac: string)
    requires |stamp| == 19 && ReadStamp(stamp) == Some(secs) && AllDigits(frac)
    ensures Parse(WithFraction(stamp, frac)) == Some(At(secs, FracValue(frac, 9)))
  {
    hide ReadStamp;
    hide At;
    hide PadHour;
    var tail := (if frac == "" then "" else "." + frac) + "Z";
    var s := WithFraction(stamp, frac);
    assert s == stamp + tail;
    assert s[..19] == stamp && s[19..] == tail;
    StampHour(stamp);
    assert s[12] == stamp[12];
    PadNothing(s);
    if frac != "" {
      assert s[20..] == frac + "Z";
      DigitRunOf(frac, "Z");
      assert s[20..][..|frac|] == frac;
      assert s[20 + |frac|..] == "Z";
      hide FracValue;
    }
  }

  lemma DayParts(secs: int)
    ensures AtDay(Day(secs), ClockOf(secs)) == secs
    ensures 0 <= secs < 3_652_059 * 86_400 ==> 0 <= Day(secs) < 3_652_059
  {
  }

  lemma ReadWholeText(secs: int)
    requires 0 <= secs < 3_652_059 * 86_400
    ensures |WholeText(secs)| == 19 && ReadStamp(WholeText(secs)) == Some(secs)
  {
    DayParts(secs);
    YearInRange(Day(secs));
    DayOfDate(Day(secs));
    hide DateOf;
    hide Stamp;
    hide ReadStamp;
    hide ValidDate;
    hide DayNumber;
    hide Day;
    hide ClockOf;
    hide AtDay;
    ReadStampOf(DateOf(Day(secs)), ClockOf(secs));
  }

  lemma FracTextValue(nanos: int)
    requires 0 <= nanos < 1_000_000_000
    ensures FracValue(FracText(nanos), 9) == nanos
  {
    assert Pow10(9) == 1_000_000_000 by { assert Pow10(4) == 10_000; assert Pow10(7) == 10_000_000; }
    FracRoundTrip(nanos, 9);
  }

  /** Text with nanoseconds gives the instant back; text without gives back its whole second. */
  lemma RoundTrip(t: Time, nano: bool)
    requires 0 <= t < 315_537_897_600_000_000_000
    ensures Parse(Format(t, nano)) == Some(if nano then t else Truncate(t))
  {
    TruncateBounds(t);
    ReadWholeText(Secs(t));
    FracTextValue(Nanos(t));
    hide WholeText;
    hide FracText;
    hide ReadStamp;
    hide Parse;
    hide WithFraction;
    hide Secs;
    hide Nanos;
    hide At;
    var frac := if nano then FracText(Nanos(t)) else "";
    ParsePieces(WholeText(Secs(t)), Secs(t), frac);
  }

  /** The text has no white space around it, so trimming a form field leaves it alone. */
  lemma FormatTrimmed(t: Time, nano: bool)
    requires 0 <= t < END
    ensures Format(t, nano) != "" && Trimmed(Format(t, nano))
  {
    TruncateBounds(t);
    assert 0 <= Secs(t) < 3_652_059 * 86_400;
    FirstDigit(Secs(t));
    hide WholeText;
    hide FracText;
    hide Secs;
    hide Nanos;
    var s := Format(t, nano);
    assert s[|s| - 1] == 'Z' && s[0] == WholeText(Secs(t))[0];
  }

  lemma FirstDigit(secs: int)
    requires 0 <= secs < 3_652_059 * 86_400
    ensures WholeText(secs) != "" && IsDigit(WholeText(secs)[0])
  {
    DayParts(secs);
    YearInRange(Day(secs));
    DayOfDate(Day(secs));
    StampShape(DateOf(Day(secs)), ClockOf(secs));
    hide DateOf;
    hide Stamp;
    hide ValidDate;
    hide Day;
    hide ClockOf;
    hide AtDay;
    var s := WholeText(secs);
    assert s[0] == s[0..2][0];
  }
}
