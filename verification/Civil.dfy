/** Dates of minutes since the epoch, and the Gregorian calendar they are dates of. */
module Civil {

  datatype Date = Date(year: int, month: int, day: int)

  /** `floor(n / d)`. */
  function FlooredDiv(n: int, d: int): int
    requires d > 0
  {
    n / d
  }

  /** `n / d | 0`: the quotient, truncated towards zero and wrapped to 32 bits. */
  function Truncated(n: int, d: int): int
    requires d > 0
  {
    ToInt32(if n >= 0 then n / d else -(-n / d))
  }

  function ToInt32(n: int): int {
    (n + 0x8000_0000) % 0x1_0000_0000 - 0x8000_0000
  }

  function YearOfEra(dayOfEra: int): int {
    Truncated(dayOfEra - Truncated(dayOfEra, 1460) + Truncated(dayOfEra, 36524) - Truncated(dayOfEra, 146096), 365)
  }

  function ToCivil(minutes: int): Date {
    var rawDay := FlooredDiv(minutes, 60 * 24) + 719468;
    var era := Truncated(if rawDay >= 0 then rawDay else rawDay - 146096, 146097);
    var dayOfEra := rawDay - era * 146097;
    var yearOfEra := YearOfEra(dayOfEra);
    var dayOfYear := dayOfEra - (365 * yearOfEra + Truncated(yearOfEra, 4) - Truncated(yearOfEra, 100));
    var mp := Truncated(5 * dayOfYear + 2, 153);
    var month := mp + (if mp < 10 then 3 else -9);
    var year := yearOfEra + era * 400;
    Date(year + (if month <= 2 then 1 else 0), month, dayOfYear - Truncated(153 * mp + 2, 5) + 1)
  }

  /** The minutes that an Elm Int holds exactly. */
  predicate Exact(minutes: int) {
    -0x20_0000_0000_0000 <= minutes <= 0x20_0000_0000_0000
  }

  // ----- the calendar -----

  predicate IsLeap(year: int) {
    year % 4 == 0 && (year % 100 != 0 || year % 400 == 0)
  }

  function DaysInMonth(year: int, month: int): int {
    if month == 2 then (if IsLeap(year) then 29 else 28)
    else if month == 4 || month == 6 || month == 9 || month == 11 then 30
    else 31
  }

  predicate ValidDate(d: Date) {
    1 <= d.month <= 12 && 1 <= d.day <= DaysInMonth(d.year, d.month)
  }

  function NextDate(d: Date): Date {
    if d.day < DaysInMonth(d.year, d.month) then d.(day := d.day + 1)
    else if d.month < 12 then Date(d.year, d.month + 1, 1)
    else Date(d.year + 1, 1, 1)
  }

  function DaysBeforeMonth(year: int, month: int): int
    requires 1 <= month <= 12
    decreases month
  {
    if month == 1 then 0 else DaysBeforeMonth(year, month - 1) + DaysInMonth(year, month - 1)
  }

  /** The days from 1 January of year 1 to 1 January of `year`. */
  function DaysBeforeYear(year: int): int {
    365 * (year - 1) + (year - 1) / 4 - (year - 1) / 100 + (year - 1) / 400
  }

  /** The days from 1 January 1970. */
  function DayNumber(d: Date): int
    requires 1 <= d.month <= 12
  {
    DaysBeforeYear(d.year) + DaysBeforeMonth(d.year, d.month) + d.day - 719163
  }

  lemma YearLength(year: int)
    ensures DaysBeforeYear(year + 1) == DaysBeforeYear(year) + (if IsLeap(year) then 366 else 365)
  {
    var c, r := year / 400, year % 400;
    assert year == 400 * c + r;
    assert (year - 1) / 400 == if r == 0 then c - 1 else c;
    assert year / 100 == 4 * c + r / 100 && year / 4 == 100 * c + r / 4;
    assert (year - 1) / 100 == (if r % 100 == 0 then year / 100 - 1 else year / 100);
    assert (year - 1) / 4 == (if r % 4 == 0 then year / 4 - 1 else year / 4);
  }

  lemma MonthStarts(year: int, month: int)
    requires 1 <= month <= 12
    ensures var leap := if IsLeap(year) then 1 else 0;
            DaysBeforeMonth(year, month) ==
            [0, 31, 59 + leap, 90 + leap, 120 + leap, 151 + leap, 181 + leap, 212 + leap, 243 + leap, 273 + leap,
                304 + leap, 334 + leap][month - 1]
  {
    if month > 1 {
      MonthStarts(year, month - 1);
    }
  }

  /** The day after is the next date. */
  lemma NextDay(d: Date)
    requires ValidDate(d)
    ensures ValidDate(NextDate(d)) && DayNumber(NextDate(d)) == DayNumber(d) + 1
  {
    MonthStarts(d.year, 12);
    YearLength(d.year);
    assert DaysBeforeMonth(d.year + 1, 1) == 0;
  }

  lemma {:induction false} YearsAscend(y: int, z: int)
    requires y < z
    ensures DaysBeforeYear(y) + (if IsLeap(y) then 366 else 365) <= DaysBeforeYear(z)
    decreases z - y
  {
    hide DaysBeforeYear, IsLeap;
    YearLength(y);
    if y + 1 < z {
      YearsAscend(y + 1, z);
    }
  }

  /** Two dates with one number are the same date. */
  lemma DayNumberInjective(d: Date, e: Date)
    requires ValidDate(d) && ValidDate(e) && DayNumber(d) == DayNumber(e)
    ensures d == e
  {
    hide DaysBeforeYear, IsLeap, DaysInMonth, DaysBeforeMonth;
    if d.year < e.year {
      YearsAscend(d.year, e.year);
      WithinYear(d);
      WithinYear(e);
    } else if e.year < d.year {
      YearsAscend(e.year, d.year);
      WithinYear(d);
      WithinYear(e);
    } else if d.month < e.month {
      MonthsAscend(d.year, d.month, e.month);
    } else if e.month < d.month {
      MonthsAscend(d.year, e.month, d.month);
    }
  }

  lemma {:induction false} MonthsAscend(year: int, m: int, n: int)
    requires 1 <= m < n <= 12
    ensures DaysBeforeMonth(year, m) + DaysInMonth(year, m) <= DaysBeforeMonth(year, n)
    decreases n
  {
    hide IsLeap;
    if m + 1 < n {
      MonthsAscend(year, m, n - 1);
    }
  }

  lemma WithinYear(d: Date)
    requires ValidDate(d)
    ensures 1 <= DaysBeforeMonth(d.year, d.month) + d.day <= (if IsLeap(d.year) then 366 else 365)
  {
    hide IsLeap;
    MonthStarts(d.year, d.month);
  }

  // ----- an era of 400 years, from 1 March -----

  /** The day of an era at `r` of its year 100c + 4b + a. */
  function DayOfEra(c: int, b: int, a: int, r: int): int {
    36524 * c + 1461 * b + 365 * a + r
  }

  predicate InEra(c: int, b: int, a: int, r: int) {
    && 0 <= c < 4 && 0 <= b < 25 && 0 <= a < 4
    && 0 <= r < (if a == 3 && (b < 24 || c == 3) then 366 else 365)
  }

  lemma EraSplits(day: int) returns (c: int, b: int, a: int, r: int)
    requires 0 <= day < 146097
    ensures InEra(c, b, a, r) && day == DayOfEra(c, b, a, r)
  {
    c := if day / 36524 < 3 then day / 36524 else 3;
    var x := day - 36524 * c;
    b := x / 1461;
    var y := x - 1461 * b;
    a := if y / 365 < 3 then y / 365 else 3;
    r := y - 365 * a;
  }

  lemma SmallInt(n: int)
    requires -0x8000_0000 <= n < 0x8000_0000
    ensures ToInt32(n) == n
  {
  }

  lemma SmallQuotient(n: int, d: int)
    requires 0 <= n && d > 0 && 0 <= n / d < 0x8000_0000
    ensures Truncated(n, d) == n / d
  {
    SmallInt(n / d);
  }

  lemma YearOfEraIs(c: int, b: int, a: int, r: int)
    requires InEra(c, b, a, r)
    ensures YearOfEra(DayOfEra(c, b, a, r)) == 100 * c + 4 * b + a
  {
    hide Truncated, ToInt32;
    var day := DayOfEra(c, b, a, r);
    SmallQuotient(day, 1460);
    SmallQuotient(day, 36524);
    SmallQuotient(day, 146096);
    assert day / 36524 - day / 146096 == c;
    var rest := 24 * c + b + 365 * a + r;
    assert day == 1460 * (25 * c + b) + rest;
    var e := if rest >= 1460 then 1 else 0;
    assert day / 1460 == 25 * c + b + e;
    var n := day - day / 1460 + c;
    assert n == 365 * (100 * c + 4 * b + a) + (r - e);
    assert 0 <= r - e < 365;
    SmallQuotient(n, 365);
  }

  /** Months counted from March. */
  function MonthDate(dayOfYear: int): (int, int) {
    var mp := Truncated(5 * dayOfYear + 2, 153);
    (mp + (if mp < 10 then 3 else -9), dayOfYear - Truncated(153 * mp + 2, 5) + 1)
  }

  /** The day of the year, from 1 March, is that of a month and a day in it. */
  lemma MonthOfYear(year: int, dayOfYear: int)
    requires 0 <= dayOfYear < (if IsLeap(year + 1) then 366 else 365)
    ensures var (month, day) := MonthDate(dayOfYear);
            var y := if month <= 2 then year + 1 else year;
            && ValidDate(Date(y, month, day))
            && DaysBeforeYear(y) + DaysBeforeMonth(y, month) + day == DaysBeforeYear(year + 1) - 306 + dayOfYear + 1
  {
    hide Truncated, ToInt32, IsLeap, DaysBeforeYear;
    SmallQuotient(5 * dayOfYear + 2, 153);
    var mp := (5 * dayOfYear + 2) / 153;
    SmallQuotient(153 * mp + 2, 5);
    var (month, day) := MonthDate(dayOfYear);
    var y := if month <= 2 then year + 1 else year;
    MonthStarts(y, month);
    YearLength(year);
  }

  lemma Quotient(d: int, q: int, r: int)
    requires (d == 4 || d == 100 || d == 400) && 0 <= r < d
    ensures (d * q + r) / d == q && (d * q + r) % d == r
  {
  }

  /** Leap years by their place in the era. */
  lemma EraLeap(era: int, c: int, b: int, a: int)
    requires 0 <= c < 4 && 0 <= b < 25 && 0 <= a < 4
    ensures IsLeap(400 * era + 100 * c + 4 * b + a + 1) <==> a == 3 && (b < 24 || c == 3)
  {
    var y := 400 * era + 100 * c + 4 * b + a + 1;
    if a < 3 {
      Quotient(4, 100 * era + 25 * c + b, a + 1);
    } else {
      Quotient(4, 100 * era + 25 * c + b + 1, 0);
      if b < 24 {
        Quotient(100, 4 * era + c, 4 * b + 4);
      } else if c < 3 {
        Quotient(100, 4 * era + c + 1, 0);
        Quotient(400, era, 100 * c + 100);
      } else {
        Quotient(400, era + 1, 0);
        Quotient(100, 4 * era + 4, 0);
      }
    }
  }

  lemma EraStart(era: int, c: int, b: int, a: int, r: int)
    requires InEra(c, b, a, r)
    ensures var year := 400 * era + 100 * c + 4 * b + a;
            && (IsLeap(year + 1) <==> a == 3 && (b < 24 || c == 3))
            && DaysBeforeYear(year + 1) == 146097 * era + 36524 * c + 1461 * b + 365 * a
  {
    EraLeap(era, c, b, a);
    var year := 400 * era + 100 * c + 4 * b + a;
    Quotient(400, era, 100 * c + 4 * b + a);
    Quotient(100, 4 * era + c, 4 * b + a);
    Quotient(4, 100 * era + 25 * c + b, a);
  }

  lemma EraOf(rawDay: int)
    requires -0x1_0000_0000_0000 < rawDay < 0x1_0000_0000_0000
    ensures Truncated(if rawDay >= 0 then rawDay else rawDay - 146096, 146097) == rawDay / 146097
  {
    var n := if rawDay >= 0 then rawDay else rawDay - 146096;
    var q := rawDay / 146097;
    assert (if n >= 0 then n / 146097 else -(-n / 146097)) == q;
    SmallInt(q);
  }

  /** For every minute an Elm Int holds: the date is one of the calendar, and it is the date of
      the day the minute is in. */
  lemma CivilDate(minutes: int)
    requires Exact(minutes)
    ensures ValidDate(ToCivil(minutes)) && DayNumber(ToCivil(minutes)) == FlooredDiv(minutes, 60 * 24)
  {
    hide Truncated, ToInt32, IsLeap, DaysBeforeYear, DaysBeforeMonth, DaysInMonth, YearOfEra;
    var rawDay := FlooredDiv(minutes, 60 * 24) + 719468;
    EraOf(rawDay);
    var era := rawDay / 146097;
    var dayOfEra := rawDay - era * 146097;
    var c, b, a, r := EraSplits(dayOfEra);
    YearOfEraIs(c, b, a, r);
    var yearOfEra := 100 * c + 4 * b + a;
    SmallQuotient(yearOfEra, 4);
    SmallQuotient(yearOfEra, 100);
    assert yearOfEra / 4 == 25 * c + b && yearOfEra / 100 == c;
    EraStart(era, c, b, a, r);
    MonthOfYear(yearOfEra + era * 400, r);
  }

  /** Every date has the minutes of its day. */
  lemma CivilInverse(d: Date, minute: int)
    requires ValidDate(d) && 0 <= minute < 60 * 24 && Exact(DayNumber(d) * (60 * 24) + minute)
    ensures ToCivil(DayNumber(d) * (60 * 24) + minute) == d
  {
    hide ToCivil, DayNumber;
    var minutes := DayNumber(d) * (60 * 24) + minute;
    assert FlooredDiv(minutes, 60 * 24) == DayNumber(d);
    CivilDate(minutes);
    DayNumberInjective(ToCivil(minutes), d);
  }

  /** A day later is the next date. */
  lemma CivilNext(minutes: int)
    requires Exact(minutes) && Exact(minutes + 60 * 24)
    ensures ToCivil(minutes + 60 * 24) == NextDate(ToCivil(minutes))
  {
    hide ToCivil, DayNumber, NextDate, ValidDate;
    CivilDate(minutes);
    CivilDate(minutes + 60 * 24);
    NextDay(ToCivil(minutes));
    assert FlooredDiv(minutes + 60 * 24, 60 * 24) == FlooredDiv(minutes, 60 * 24) + 1;
    DayNumberInjective(ToCivil(minutes + 60 * 24), NextDate(ToCivil(minutes)));
  }
}
