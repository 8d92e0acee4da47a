/** Proleptic Gregorian calendar dates as Python's `datetime.date` has them:
    validity, the day after, the day number (`toordinal`), the weekday
    (`weekday`, Monday = 0), the `strftime("%d/%m/%Y")` text and the
    `strptime(s, "%d/%m/%Y")` parse. */
module Calendar {
  import opened Wrappers
  import opened Text

  datatype Date = Date(day: int, month: int, year: int)

  predicate IsLeapYear(y: int)
  {
    y % 4 == 0 && (y % 100 != 0 || y % 400 == 0)
  }

  function DaysInMonth(month: int, year: int): (n: int)
    requires 1 <= month <= 12
    ensures 28 <= n <= 31
    ensures n == 29 <==> month == 2 && IsLeapYear(year)
    ensures n == 28 <==> month == 2 && !IsLeapYear(year)
  {
    if month == 2 then (if IsLeapYear(year) then 29 else 28)
    else if month == 4 || month == 6 || month == 9 || month == 11 then 30
    else 31
  }

  /** A date `datetime.date` accepts (from year 1 on; the upper year limit
      9999 is enforced by the parser's 4-digit year). */
  predicate IsValid(d: Date)
  {
    1 <= d.year && 1 <= d.month <= 12 && 1 <= d.day <= DaysInMonth(d.month, d.year)
  }

  /** `a < b` on dates: year first, then month, then day. */
  predicate Before(a: Date, b: Date)
  {
    a.year < b.year
    || (a.year == b.year && a.month < b.month)
    || (a.year == b.year && a.month == b.month && a.day < b.day)
  }

  /** `d + timedelta(days=1)`. */
  function Tomorrow(d: Date): (t: Date)
    requires IsValid(d)
    ensures IsValid(t) && Before(d, t)
  {
    if d.day < DaysInMonth(d.month, d.year) then Date(d.day + 1, d.month, d.year)
    else if d.month < 12 then Date(1, d.month + 1, d.year)
    else Date(1, 1, d.year + 1)
  }

  function DaysInYear(y: int): int
  {
    if IsLeapYear(y) then 366 else 365
  }

  /** Days in the years before `y` (year 1 onwards). */
  function DaysBeforeYear(y: int): int
    requires 1 <= y
  {
    var p := y - 1;
    p * 365 + p / 4 - p / 100 + p / 400
  }

  /** Days in the months of year `y` before `m`. */
  function DaysBeforeMonth(m: int, y: int): int
    requires 1 <= m <= 12
    decreases m
  {
    if m == 1 then 0 else DaysBeforeMonth(m - 1, y) + DaysInMonth(m - 1, y)
  }

  /** `d.toordinal()`: 1 January of year 1 is day 1. */
  function Ordinal(d: Date): int
    requires IsValid(d)
  {
    DaysBeforeYear(d.year) + DaysBeforeMonth(d.month, d.year) + d.day
  }

  /** `d.weekday()`: Monday is 0, Sunday is 6 (1 January of year 1 was a
      Monday). */
  function Weekday(d: Date): (w: int)
    requires IsValid(d)
    ensures 0 <= w < 7
  {
    (Ordinal(d) + 6) % 7
  }

  /** Each year adds its own length to the day count. */
  lemma YearStep(y: int)
    requires 1 <= y
    ensures DaysBeforeYear(y + 1) == DaysBeforeYear(y) + DaysInYear(y)
  {
    var p := y - 1;
    assert y / 4 - p / 4 == (if y % 4 == 0 then 1 else 0);
    assert y / 100 - p / 100 == (if y % 100 == 0 then 1 else 0);
    assert y / 400 - p / 400 == (if y % 400 == 0 then 1 else 0);
  }

  /** The twelve months of a year add up to the year. */
  lemma MonthsFillYear(y: int)
    ensures DaysBeforeMonth(12, y) + DaysInMonth(12, y) == DaysInYear(y)
  {
  }

  /** The day after is the next day number. */
  lemma TomorrowIsNextOrdinal(d: Date)
    requires IsValid(d)
    ensures Ordinal(Tomorrow(d)) == Ordinal(d) + 1
  {
    var y := d.year;
    if d.day < DaysInMonth(d.month, y) {
    } else if d.month < 12 {
      assert DaysBeforeMonth(d.month + 1, y) == DaysBeforeMonth(d.month, y) + DaysInMonth(d.month, y);
    } else {
      YearStep(y);
      MonthsFillYear(y);
      assert DaysBeforeMonth(1, y + 1) == 0;
    }
  }

  /** ... and hence the next weekday. */
  lemma TomorrowIsNextWeekday(d: Date)
    requires IsValid(d)
    ensures Weekday(Tomorrow(d)) == (Weekday(d) + 1) % 7
  {
    TomorrowIsNextOrdinal(d);
    NextInWeek(Ordinal(d));
  }

  lemma NextInWeek(o: int)
    ensures (o + 7) % 7 == ((o + 6) % 7 + 1) % 7
  {
    var q, w := (o + 6) / 7, (o + 6) % 7;
    assert o + 7 == 7 * q + (w + 1);
    if w == 6 {
      assert o + 7 == 7 * (q + 1);
    }
  }

  lemma {:induction false} DaysBeforeYearGrows(y1: int, y2: int)
    requires 1 <= y1 < y2
    ensures DaysBeforeYear(y1) + DaysInYear(y1) <= DaysBeforeYear(y2)
    decreases y2 - y1
  {
    YearStep(y1);
    if y1 + 1 < y2 {
      DaysBeforeYearGrows(y1 + 1, y2);
    }
  }

  lemma {:induction false} DaysBeforeMonthGrows(m1: int, m2: int, y: int)
    requires 1 <= m1 < m2 <= 12
    ensures DaysBeforeMonth(m1, y) + DaysInMonth(m1, y) <= DaysBeforeMonth(m2, y)
    decreases m2 - m1
  {
    if m1 + 1 < m2 {
      DaysBeforeMonthGrows(m1 + 1, m2, y);
    }
  }

  /** A valid date's day number lies inside its year. */
  lemma OrdinalWithinYear(d: Date)
    requires IsValid(d)
    ensures DaysBeforeYear(d.year) < Ordinal(d) <= DaysBeforeYear(d.year) + DaysInYear(d.year)
  {
    MonthsFillYear(d.year);
    if d.month < 12 {
      DaysBeforeMonthGrows(d.month, 12, d.year);
    }
  }

  /** Comparing dates field by field is comparing them in time. */
  lemma BeforeIsChronological(a: Date, b: Date)
    requires IsValid(a) && IsValid(b)
    ensures Before(a, b) <==> Ordinal(a) < Ordinal(b)
    ensures a == b <==> Ordinal(a) == Ordinal(b)
  {
    OrdinalWithinYear(a);
    OrdinalWithinYear(b);
    if a.year < b.year {
      DaysBeforeYearGrows(a.year, b.year);
    } else if b.year < a.year {
      DaysBeforeYearGrows(b.year, a.year);
    } else if a.month < b.month {
      DaysBeforeMonthGrows(a.month, b.month, a.year);
    } else if b.month < a.month {
      DaysBeforeMonthGrows(b.month, a.month, a.year);
    }
  }

  // ---- strftime("%d/%m/%Y") ----

  /** A number below 100 as two digits, with a leading zero (`%d`, `%m`). */
  function TwoDigits(n: int): string
    requires 0 <= n < 100
  {
    [DigitChar(n / 10), DigitChar(n % 10)]
  }

  /** A natural number in decimal, without leading zeros (`%Y` on the C
      library Python uses on Linux, which does not pad years below 1000). */
  function Decimal(n: nat): (s: string)
    ensures 1 <= |s| && AllAsciiDigits(s)
  {
    if n < 10 then [DigitChar(n)] else Decimal(n / 10) + [DigitChar(n % 10)]
  }

  /** Digits and '/' are all a formatted date is made of. */
  predicate IsDateChar(c: char)
  {
    IsAsciiDigit(c) || c == '/'
  }

  /** `d.strftime("%d/%m/%Y")`. */
  function Format(d: Date): (f: string)
    requires IsValid(d)
    ensures 7 <= |f| && forall i :: 0 <= i < |f| ==> IsDateChar(f[i])
  {
    TwoDigits(d.day) + "/" + TwoDigits(d.month) + "/" + Decimal(d.year)
  }

  // ---- strptime(s, "%d/%m/%Y") ----

  /** The value of a string of ASCII digits. */
  function DigitsValue(s: string): nat
    requires AllAsciiDigits(s)
  {
    if s == [] then 0 else DigitsValue(s[..|s| - 1]) * 10 + DigitValue(s[|s| - 1])
  }

  /** `%d` of strptime: `3[01]|[12]\d|0[1-9]|[1-9]| [1-9]`. */
  function DayToken(t: string): (r: Option<int>)
    ensures r.Some? ==> 1 <= r.value <= 31
  {
    if |t| == 1 && '1' <= t[0] <= '9' then Some(DigitValue(t[0]))
    else if |t| == 2 && t[0] == ' ' && '1' <= t[1] <= '9' then Some(DigitValue(t[1]))
    else if |t| == 2 && ((t[0] == '0' && '1' <= t[1] <= '9')
                         || ((t[0] == '1' || t[0] == '2') && IsAsciiDigit(t[1]))
                         || (t[0] == '3' && (t[1] == '0' || t[1] == '1'))) then
      Some(10 * DigitValue(t[0]) + DigitValue(t[1]))
    else None
  }

  /** `%m` of strptime: `1[0-2]|0[1-9]|[1-9]`. */
  function MonthToken(t: string): (r: Option<int>)
    ensures r.Some? ==> 1 <= r.value <= 12
  {
    if |t| == 1 && '1' <= t[0] <= '9' then Some(DigitValue(t[0]))
    else if |t| == 2 && ((t[0] == '0' && '1' <= t[1] <= '9') || (t[0] == '1' && '0' <= t[1] <= '2')) then
      Some(10 * DigitValue(t[0]) + DigitValue(t[1]))
    else None
  }

  /** `%Y` of strptime: exactly four digits. */
  function YearToken(t: string): (r: Option<int>)
    ensures r.Some? ==> 0 <= r.value <= 9999
  {
    if |t| == 4 && AllAsciiDigits(t) then
      FourDigitsBound(t);
      Some(DigitsValue(t))
    else None
  }

  lemma FourDigitsBound(t: string)
    requires |t| == 4 && AllAsciiDigits(t)
    ensures DigitsValue(t) <= 9999
  {
    var t3, t2, t1 := t[..3], t[..2], t[..1];
    assert t3[..2] == t2 && t2[..1] == t1 && t1[..0] == [];
    assert DigitsValue(t1) <= 9;
    assert DigitsValue(t2) <= 99;
    assert DigitsValue(t3) <= 999;
  }

  /** `datetime.strptime(s, "%d/%m/%Y")`: the three fields separated by the
      first two '/' (no field can hold one), nothing left over, and a day
      that exists in that month (else `ValueError`). */
  function ParseDate(s: string): (r: Option<Date>)
    ensures r.Some? ==> IsValid(r.value) && r.value.year <= 9999
  {
    match Find(s, "/")
    case None => None
    case Some(i) =>
      var rest := s[i + 1..];
      match Find(rest, "/")
      case None => None
      case Some(j) =>
        match (DayToken(s[..i]), MonthToken(rest[..j]), YearToken(rest[j + 1..]))
        case (Some(d), Some(m), Some(y)) =>
          if 1 <= y && d <= DaysInMonth(m, y) then Some(Date(d, m, y)) else None
        case _ => None
  }

  lemma {:induction false} DigitsValueOfDecimal(n: nat)
    ensures DigitsValue(Decimal(n)) == n
  {
    if n >= 10 {
      DigitsValueOfDecimal(n / 10);
      var s := Decimal(n);
      assert s[..|s| - 1] == Decimal(n / 10);
    }
  }

  lemma FourDigitYear(y: int)
    requires 1000 <= y <= 9999
    ensures |Decimal(y)| == 4
  {
    assert |Decimal(y)| == |Decimal(y / 10)| + 1;
    assert |Decimal(y / 10)| == |Decimal(y / 10 / 10)| + 1;
    assert |Decimal(y / 10 / 10)| == |Decimal(y / 10 / 10 / 10)| + 1;
  }

  lemma TwoDigitsHaveNoSlash(n: int)
    requires 0 <= n < 100
    ensures forall k :: 0 <= k < 2 ==> TwoDigits(n)[k] != '/'
  {
  }

  /** Reading back a formatted date gives the date again (for 4-digit years,
      the only ones `%Y` of strptime reads). */
  lemma ParseFormatRoundTrip(d: Date)
    requires IsValid(d) && 1000 <= d.year <= 9999
    ensures ParseDate(Format(d)) == Some(d)
  {
    var dd, mm, yy := TwoDigits(d.day), TwoDigits(d.month), Decimal(d.year);
    var rest := mm + "/" + yy;
    assert Format(d) == dd + "/" + rest;
    FourDigitYear(d.year);
    DigitsValueOfDecimal(d.year);
    TwoDigitsHaveNoSlash(d.day);
    TwoDigitsHaveNoSlash(d.month);
    FirstSlashAfterTwo(dd, rest);
    FirstSlashAfterTwo(mm, yy);
    assert DayToken(dd) == Some(d.day);
    assert MonthToken(mm) == Some(d.month);
  }

  /** Two slash-free characters, a '/', then anything: the first '/' is the
      third character. */
  lemma FirstSlashAfterTwo(a: string, b: string)
    requires |a| == 2 && a[0] != '/' && a[1] != '/'
    ensures var s := a + "/" + b;
      Find(s, "/") == Some(2) && s[..2] == a && s[3..] == b
  {
    var s := a + "/" + b;
    assert OccursAt(s, "/", 2);
    assert s[0] == a[0] && s[1] == a[1];
    FindIsFirst(s, "/", 2);
    assert s[..2] == a;
    assert s[3..] == b;
  }
}
