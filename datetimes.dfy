/** Naive civil date-times as Python's `datetime` keeps them (years 1 to 9999,
    proleptic Gregorian calendar, whole seconds), the one-second step the
    Bugzilla fetcher takes, and the `%Y-%m-%dT%H:%M:%S` rendering it sends. */
module DateTimes {
  import opened Wrappers
  import opened Text

  const MinYear := 1
  const MaxYear := 9999

  datatype Civil = Civil(year: int, month: int, day: int, hour: int, minute: int, second: int)

  predicate IsLeapYear(y: int) {
    y % 4 == 0 && (y % 100 != 0 || y % 400 == 0)
  }

  function DaysInMonth(y: int, m: int): int {
    if m == 2 then (if IsLeapYear(y) then 29 else 28)
    else if m == 4 || m == 6 || m == 9 || m == 11 then 30
    else 31
  }

  predicate IsValid(c: Civil) {
    && MinYear <= c.year <= MaxYear
    && 1 <= c.month <= 12
    && 1 <= c.day <= DaysInMonth(c.year, c.month)
    && 0 <= c.hour < 24
    && 0 <= c.minute < 60
    && 0 <= c.second < 60
  }

  /** The values a `datetime` can hold. */
  type DateTime = c: Civil | IsValid(c) witness Civil(1970, 1, 1, 0, 0, 0)

  /** The fetcher's default starting point: the Unix epoch. */
  const Epoch: DateTime := Civil(1970, 1, 1, 0, 0, 0)

  /** The last instant a `datetime` can hold; one second more overflows. */
  const Latest: DateTime := Civil(9999, 12, 31, 23, 59, 59)

  /** Days from 0001-01-01 to the first day of year `y`. */
  function DaysBeforeYear(y: int): int
    requires y >= 1
  {
    var n := y - 1;
    365 * n + n / 4 - n / 100 + n / 400
  }

  /** Days from the first of January of year `y` to the first day of month `m`. */
  function DaysBeforeMonth(y: int, m: int): int
    requires 1 <= m <= 12
  {
    var common := [0, 31, 59, 90, 120, 151, 181, 212, 243, 273, 304, 334];
    common[m - 1] + (if m > 2 && IsLeapYear(y) then 1 else 0)
  }

  /** An upper bound on Seconds over all date-times. */
  const SecondsBound := 366 * 10000 * 86400

  /** Seconds elapsed from 0001-01-01T00:00:00 to `d`. */
  function Seconds(d: DateTime): (s: nat)
    ensures s < SecondsBound
  {
    var days := DaysBeforeYear(d.year) + DaysBeforeMonth(d.year, d.month) + d.day - 1;
    days * 86400 + d.hour * 3600 + d.minute * 60 + d.second
  }

  lemma MonthStep(y: int, m: int)
    requires 1 <= m < 12
    ensures DaysBeforeMonth(y, m + 1) == DaysBeforeMonth(y, m) + DaysInMonth(y, m)
  {
  }

  lemma YearStep(y: int)
    requires y >= 1
    ensures DaysBeforeYear(y + 1) == DaysBeforeYear(y) + DaysBeforeMonth(y, 12) + 31
  {
    DivStep(y, 4);
    DivStep(y, 100);
    DivStep(y, 400);
    LeapDivisors(y);
  }

  /** Reaching `y` passes one more multiple of a leap-year divisor `k`
      exactly when `y` is that multiple. */
  lemma DivStep(y: int, k: int)
    requires y >= 1
    requires k == 4 || k == 100 || k == 400
    ensures y / k == (y - 1) / k + (if y % k == 0 then 1 else 0)
  {
    if k == 4 {
      assert y - 1 == 4 * ((y - 1) / 4) + (y - 1) % 4;
      assert y == 4 * (y / 4) + y % 4;
    } else if k == 100 {
      assert y - 1 == 100 * ((y - 1) / 100) + (y - 1) % 100;
      assert y == 100 * (y / 100) + y % 100;
    } else {
      assert y - 1 == 400 * ((y - 1) / 400) + (y - 1) % 400;
      assert y == 400 * (y / 400) + y % 400;
    }
  }

  /** A multiple of 400 is a multiple of 100, and one of 100 a multiple of 4. */
  lemma LeapDivisors(y: int)
    ensures y % 400 == 0 ==> y % 100 == 0
    ensures y % 100 == 0 ==> y % 4 == 0
  {
    var q := y / 400;
    assert y == 400 * q + y % 400;
    if y % 400 == 0 {
      assert y == 100 * (4 * q) + 0;
    }
    var h := y / 100;
    assert y == 100 * h + y % 100;
    if y % 100 == 0 {
      assert y == 4 * (25 * h) + 0;
    }
  }

  /** `d + timedelta(seconds=1)`: the next second, carrying into minutes,
      hours, days, months and years; `None` where Python raises OverflowError. */
  function AddSecond(d: DateTime): (r: Option<DateTime>)
    ensures r.None? <==> d == Latest
    ensures r.Some? ==> Seconds(r.value) == Seconds(d) + 1
  {
    if d.second < 59 then Some(d.(second := d.second + 1))
    else if d.minute < 59 then Some(d.(minute := d.minute + 1, second := 0))
    else if d.hour < 23 then Some(d.(hour := d.hour + 1, minute := 0, second := 0))
    else if d.day < DaysInMonth(d.year, d.month) then Some(Civil(d.year, d.month, d.day + 1, 0, 0, 0))
    else if d.month < 12 then
      MonthStep(d.year, d.month);
      Some(Civil(d.year, d.month + 1, 1, 0, 0, 0))
    else if d.year < MaxYear then
      YearStep(d.year);
      Some(Civil(d.year + 1, 1, 1, 0, 0, 0))
    else None
  }

  /** Distinct date-times are distinct seconds apart, so `Seconds` pins a
      date-time down and AddSecond's result is the one next instant. */
  lemma SecondsInjective(a: DateTime, b: DateTime)
    ensures Seconds(a) == Seconds(b) ==> a == b
  {
    if Seconds(a) == Seconds(b) {
      var da := DaysBeforeYear(a.year) + DaysBeforeMonth(a.year, a.month) + a.day - 1;
      var db := DaysBeforeYear(b.year) + DaysBeforeMonth(b.year, b.month) + b.day - 1;
      assert da == db;
      DayNumberInjective(a, b);
    }
  }

  /** Two valid dates with the same day number are the same date. */
  lemma DayNumberInjective(a: DateTime, b: DateTime)
    requires DaysBeforeYear(a.year) + DaysBeforeMonth(a.year, a.month) + a.day
          == DaysBeforeYear(b.year) + DaysBeforeMonth(b.year, b.month) + b.day
    ensures a.year == b.year && a.month == b.month && a.day == b.day
  {
    if a.year < b.year {
      LaterYear(a, b);
    } else if b.year < a.year {
      LaterYear(b, a);
    } else if a.month < b.month {
      MonthsOrder(a.year, a.month, b.month);
    } else if b.month < a.month {
      MonthsOrder(a.year, b.month, a.month);
    }
  }

  /** Every day of an earlier year comes before every day of a later one. */
  lemma LaterYear(a: DateTime, b: DateTime)
    requires a.year < b.year
    ensures DaysBeforeYear(a.year) + DaysBeforeMonth(a.year, a.month) + a.day
          < DaysBeforeYear(b.year) + DaysBeforeMonth(b.year, b.month) + b.day
  {
    if a.month < 12 {
      MonthsOrder(a.year, a.month, 12);
    }
    YearStep(a.year);
    YearsOrder(a.year + 1, b.year);
  }

  /** The first day of month `m2` comes after every day of an earlier month `m1`. */
  lemma {:induction false} MonthsOrder(y: int, m1: int, m2: int)
    requires 1 <= m1 < m2 <= 12
    ensures DaysBeforeMonth(y, m1) + DaysInMonth(y, m1) <= DaysBeforeMonth(y, m2)
    decreases m2 - m1
  {
    MonthStep(y, m2 - 1);
    if m1 + 1 < m2 {
      MonthsOrder(y, m1, m2 - 1);
    }
  }

  /** Years start in order. */
  lemma {:induction false} YearsOrder(y1: int, y2: int)
    requires 1 <= y1 <= y2
    ensures DaysBeforeYear(y1) <= DaysBeforeYear(y2)
    decreases y2 - y1
  {
    if y1 < y2 {
      YearsOrder(y1, y2 - 1);
      YearStep(y2 - 1);
    }
  }

  /** Two decimal digits, zero padded (`%m`, `%d`, `%H`, `%M`, `%S`). */
  function Pad2(n: int): (s: string)
    requires 0 <= n < 100
  {
    [DigitChar(n / 10), DigitChar(n % 10)]
  }

  /** Four decimal digits, zero padded (`%Y`). */
  function Pad4(n: int): (s: string)
    requires 0 <= n < 10000
  {
    [DigitChar(n / 1000), DigitChar(n / 100 % 10), DigitChar(n / 10 % 10), DigitChar(n % 10)]
  }

  /** `d.strftime("%Y-%m-%dT%H:%M:%S")`. */
  function Format(d: DateTime): (s: string)
    ensures |s| == 19
  {
    Pad4(d.year) + "-" + Pad2(d.month) + "-" + Pad2(d.day) + "T" +
    Pad2(d.hour) + ":" + Pad2(d.minute) + ":" + Pad2(d.second)
  }

  /** The decimal number spelled by the digits of `s`. */
  function Number(s: string): nat
    requires forall i :: 0 <= i < |s| ==> IsDigit(s[i])
  {
    if s == [] then 0 else Number(s[..|s| - 1]) * 10 + DigitValue(s[|s| - 1])
  }

  /** Position `i` of a `YYYY-MM-DDTHH:MM:SS` text holds a digit. */
  predicate DigitPosition(i: int) {
    i != 4 && i != 7 && i != 10 && i != 13 && i != 16
  }

  /** Reads back a `YYYY-MM-DDTHH:MM:SS` text; `None` for any other text or
      for fields that name no valid date-time. */
  function ParseDateTime(s: string): (r: Option<DateTime>)
    ensures r.Some? ==> |s| == 19
  {
    if |s| == 19 && s[4] == '-' && s[7] == '-' && s[10] == 'T' && s[13] == ':' && s[16] == ':'
       && (forall i :: 0 <= i < 19 && DigitPosition(i) ==> IsDigit(s[i]))
    then
      var c := Civil(Number(s[0..4]), Number(s[5..7]), Number(s[8..10]),
                     Number(s[11..13]), Number(s[14..16]), Number(s[17..19]));
      if IsValid(c) then Some(c) else None
    else None
  }

  lemma Pad2Number(n: int)
    requires 0 <= n < 100
    ensures forall i :: 0 <= i < 2 ==> IsDigit(Pad2(n)[i])
    ensures Number(Pad2(n)) == n
  {
    var s := Pad2(n);
    assert s[..1][..0] == [];
    assert Number(s[..1]) == n / 10;
  }

  lemma Pad4Number(n: int)
    requires 0 <= n < 10000
    ensures forall i :: 0 <= i < 4 ==> IsDigit(Pad4(n)[i])
    ensures Number(Pad4(n)) == n
  {
    var s := Pad4(n);
    Decimal(n);
    assert s[..1][..0] == [];
    NumberSnoc(s, 1);
    NumberSnoc(s, 2);
    NumberSnoc(s, 3);
    assert s[..4] == s;
  }

  /** The leading digits of a four-digit number, one more at a time. */
  lemma Decimal(n: int)
    requires 0 <= n < 10000
    ensures n / 100 == n / 1000 * 10 + n / 100 % 10
    ensures n / 10 == n / 100 * 10 + n / 10 % 10
    ensures n == n / 10 * 10 + n % 10
  {
    assert n / 100 / 10 == n / 1000;
    assert n / 10 / 10 == n / 100;
  }

  /** Reading one digit more multiplies what was read by ten and adds it. */
  lemma NumberSnoc(s: string, k: nat)
    requires forall i :: 0 <= i < |s| ==> IsDigit(s[i])
    requires 0 < k < |s|
    ensures Number(s[..k + 1]) == Number(s[..k]) * 10 + DigitValue(s[k])
  {
    assert s[..k + 1][..k] == s[..k];
  }

  /** Formatting loses nothing: the text reads back as the same date-time,
      so distinct date-times are sent as distinct texts. */
  lemma {:induction false} FormatParses(d: DateTime)
    ensures ParseDateTime(Format(d)) == Some(d)
  {
    var s := Format(d);
    Pad4Number(d.year);
    Pad2Number(d.month);
    Pad2Number(d.day);
    Pad2Number(d.hour);
    Pad2Number(d.minute);
    Pad2Number(d.second);
    assert s[0..4] == Pad4(d.year);
    assert s[5..7] == Pad2(d.month);
    assert s[8..10] == Pad2(d.day);
    assert s[11..13] == Pad2(d.hour);
    assert s[14..16] == Pad2(d.minute);
    assert s[17..19] == Pad2(d.second);
  }

  /** The default starting date is sent as `1970-01-01T00:00:00`. */
  lemma EpochFormat()
    ensures Format(Epoch) == "1970-01-01T00:00:00"
  {
  }
}
