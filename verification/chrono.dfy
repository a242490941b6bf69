/**
  The calendar arithmetic and the text formats the handlers lean on: Python's `date`,
  `time` and `datetime` values, `strptime` with the formats '%Y-%m-%d' and '%H:%M',
  `strftime`, date comparison and `(d1 - d2).days`.

  Dates are proleptic Gregorian, years 1 to 9999 (Python's MINYEAR and MAXYEAR).
  Formatting is total, so that views can be built from any stored value; the parsers
  only ever produce valid dates and times.
*/
module Chrono {
  import opened Optional

  datatype Date = Date(year: int, month: int, day: int)
  datatype Time = Time(hour: int, minute: int, second: int)
  datatype DateTime = DateTime(date: Date, time: Time)

  const MIN_YEAR := 1
  const MAX_YEAR := 9999

  predicate IsLeapYear(y: int) {
    y % 4 == 0 && (y % 100 != 0 || y % 400 == 0)
  }

  function DaysInYear(y: int): int {
    if IsLeapYear(y) then 366 else 365
  }

  function DaysInMonth(y: int, m: int): (n: int)
    ensures 28 <= n <= 31
  {
    if m == 2 then (if IsLeapYear(y) then 29 else 28)
    else if m == 4 || m == 6 || m == 9 || m == 11 then 30
    else 31
  }

  predicate ValidDate(d: Date) {
    MIN_YEAR <= d.year <= MAX_YEAR && 1 <= d.month <= 12 && 1 <= d.day <= DaysInMonth(d.year, d.month)
  }

  predicate ValidTime(t: Time) {
    0 <= t.hour <= 23 && 0 <= t.minute <= 59 && 0 <= t.second <= 59
  }

  /** Python's `a < b` on dates: lexicographic on (year, month, day). */
  predicate DateBefore(a: Date, b: Date) {
    a.year < b.year || (a.year == b.year && (a.month < b.month || (a.month == b.month && a.day < b.day)))
  }

  // ---------------------------------------------------------------------------
  // Ordinals: `d.toordinal()`, so that `(a - b).days == Ordinal(a) - Ordinal(b)`
  // ---------------------------------------------------------------------------

  function DaysBeforeYear(y: int): int {
    var p := y - 1;
    365 * p + p / 4 - p / 100 + p / 400
  }

  function DaysBeforeMonth(y: int, m: int): int
    decreases m
  {
    if m <= 1 then 0 else DaysBeforeMonth(y, m - 1) + DaysInMonth(y, m - 1)
  }

  /** Day 1 is 0001-01-01. */
  function Ordinal(d: Date): int {
    DaysBeforeYear(d.year) + DaysBeforeMonth(d.year, d.month) + d.day
  }

  /** `(a - b).days` for two dates. */
  function DaysBetween(a: Date, b: Date): int {
    Ordinal(a) - Ordinal(b)
  }

  lemma YearStep(y: int)
    ensures DaysBeforeYear(y + 1) == DaysBeforeYear(y) + DaysInYear(y)
  {
    Step4(y);
    Step100(y);
    Step400(y);
  }

  lemma Step4(y: int)
    ensures y / 4 - (y - 1) / 4 == if y % 4 == 0 then 1 else 0
  {
  }

  lemma Step100(y: int)
    ensures y / 100 - (y - 1) / 100 == if y % 100 == 0 then 1 else 0
  {
  }

  lemma Step400(y: int)
    ensures y / 400 - (y - 1) / 400 == if y % 400 == 0 then 1 else 0
  {
  }

  lemma {:induction false} YearsAccumulate(y1: int, y2: int)
    requires y1 < y2
    ensures DaysBeforeYear(y1) + DaysInYear(y1) <= DaysBeforeYear(y2)
    decreases y2 - y1
  {
    YearStep(y1);
    if y1 + 1 < y2 {
      YearsAccumulate(y1 + 1, y2);
    }
  }

  lemma {:induction false} MonthsAccumulate(y: int, m1: int, m2: int)
    requires 1 <= m1 < m2
    ensures DaysBeforeMonth(y, m1) + DaysInMonth(y, m1) <= DaysBeforeMonth(y, m2)
    decreases m2 - m1
  {
    if m1 + 1 < m2 {
      MonthsAccumulate(y, m1 + 1, m2);
    }
  }

  lemma MonthsFillYear(y: int)
    ensures DaysBeforeMonth(y, 13) == DaysInYear(y)
  {
    assert DaysBeforeMonth(y, 3) == 31 + DaysInMonth(y, 2);
    assert DaysBeforeMonth(y, 5) == DaysBeforeMonth(y, 3) + 61;
    assert DaysBeforeMonth(y, 7) == DaysBeforeMonth(y, 5) + 61;
    assert DaysBeforeMonth(y, 9) == DaysBeforeMonth(y, 7) + 62;
    assert DaysBeforeMonth(y, 11) == DaysBeforeMonth(y, 9) + 61;
    assert DaysBeforeMonth(y, 13) == DaysBeforeMonth(y, 11) + 61;
  }

  lemma {:induction false} DaysBeforeMonthNonNegative(y: int, m: int)
    ensures DaysBeforeMonth(y, m) >= 0
    decreases m
  {
    if m > 1 {
      DaysBeforeMonthNonNegative(y, m - 1);
    }
  }

  /** An earlier valid date has a smaller ordinal. */
  lemma OrdinalMonotone(a: Date, b: Date)
    requires ValidDate(a) && ValidDate(b) && DateBefore(a, b)
    ensures Ordinal(a) < Ordinal(b)
  {
    DaysBeforeMonthNonNegative(b.year, b.month);
    if a.year < b.year {
      MonthsAccumulate(a.year, a.month, 13);
      MonthsFillYear(a.year);
      YearsAccumulate(a.year, b.year);
    } else if a.month < b.month {
      MonthsAccumulate(a.year, a.month, b.month);
    }
  }

  /**
    Python's date comparison and the sign of `(a - b).days` agree: `a < b` exactly when
    `(a - b).days < 0`, for every pair of valid dates.
  */
  lemma BeforeIffNegativeDays(a: Date, b: Date)
    requires ValidDate(a) && ValidDate(b)
    ensures DateBefore(a, b) <==> DaysBetween(a, b) < 0
    ensures a == b <==> DaysBetween(a, b) == 0
  {
    if DateBefore(a, b) {
      OrdinalMonotone(a, b);
    } else if a != b {
      OrdinalMonotone(b, a);
    }
  }

  // ---------------------------------------------------------------------------
  // strftime: '%Y', '%m', '%d', '%H', '%M', '%S' are zero-padded
  // ---------------------------------------------------------------------------

  function DigitChar(n: int): char
    requires 0 <= n <= 9
  {
    ('0' as int + n) as char
  }

  function TwoDigits(n: int): string {
    [DigitChar(n % 100 / 10), DigitChar(n % 10)]
  }

  function FourDigits(n: int): string {
    [DigitChar(n % 10000 / 1000), DigitChar(n % 1000 / 100), DigitChar(n % 100 / 10), DigitChar(n % 10)]
  }

  /** `d.strftime('%Y-%m-%d')` */
  function FormatDate(d: Date): string {
    FourDigits(d.year) + "-" + TwoDigits(d.month) + "-" + TwoDigits(d.day)
  }

  /** `t.strftime('%H:%M')` */
  function FormatHM(t: Time): string {
    TwoDigits(t.hour) + ":" + TwoDigits(t.minute)
  }

  /** `t.strftime('%H:%M:%S')` */
  function FormatHMS(t: Time): string {
    FormatHM(t) + ":" + TwoDigits(t.second)
  }

  /** `dt.strftime('%Y-%m-%d %H:%M')` */
  function FormatDateTimeMinutes(dt: DateTime): string {
    FormatDate(dt.date) + " " + FormatHM(dt.time)
  }

  /** `dt.strftime('%Y-%m-%d %H:%M:%S')` */
  function FormatDateTimeSeconds(dt: DateTime): string {
    FormatDate(dt.date) + " " + FormatHMS(dt.time)
  }

  // ---------------------------------------------------------------------------
  // strptime with '%Y-%m-%d' and '%H:%M'
  // ---------------------------------------------------------------------------

  predicate IsDigit(c: char) {
    '0' <= c <= '9'
  }

  predicate AllDigits(s: string) {
    forall i | 0 <= i < |s| :: IsDigit(s[i])
  }

  function DigitValue(c: char): int
    requires IsDigit(c)
  {
    c as int - '0' as int
  }

  function DecimalValue(s: string): nat
    requires AllDigits(s)
    decreases |s|
  {
    if |s| == 0 then 0 else DecimalValue(s[..|s| - 1]) * 10 + DigitValue(s[|s| - 1])
  }

  /** Index of the first occurrence of `c` in `s`. */
  function Find(s: string, c: char): (r: Option<nat>)
    ensures r.Some? ==> r.value < |s| && s[r.value] == c && forall i | 0 <= i < r.value :: s[i] != c
    ensures r.None? ==> forall i | 0 <= i < |s| :: s[i] != c
    decreases |s|
  {
    if |s| == 0 then None
    else if s[0] == c then Some(0)
    else
      match Find(s[1..], c)
      case None => None
      case Some(k) => Some(k + 1)
  }

  /**
    A numeric field of one or two ASCII digits whose value lies in [lo, hi]. With the
    bounds used below this is exactly the language of strptime's patterns
    '%m' = `1[0-2]|0[1-9]|[1-9]`, '%H' = `2[0-3]|[0-1]\d|\d` and '%M' = `[0-5]\d|\d`.
  */
  function NumberField(f: string, lo: int, hi: int): (r: Option<int>)
    ensures r.Some? ==> lo <= r.value <= hi
  {
    if 1 <= |f| <= 2 && AllDigits(f) && lo <= DecimalValue(f) <= hi then Some(DecimalValue(f)) else None
  }

  /** strptime's '%d' = `3[01]|[12]\d|0[1-9]|[1-9]| [1-9]`: note the space-padded form. */
  function DayField(f: string): (r: Option<int>)
    ensures r.Some? ==> 1 <= r.value <= 31
  {
    if |f| == 2 && f[0] == ' ' && '1' <= f[1] <= '9' then Some(DigitValue(f[1]))
    else NumberField(f, 1, 31)
  }

  /**
    `datetime.strptime(s, '%Y-%m-%d').date()`: exactly four ASCII digits, '-', a month,
    '-', a day, and nothing after. Month and day hold only digits (and the day's leading
    space), so the month ends at the first '-' after the year. The result must be a real
    date: year 0 and the 30th of February are refused like any other ValueError.
  */
  function ParseDate(s: string): (r: Option<Date>)
    ensures r.Some? ==> ValidDate(r.value)
  {
    if |s| < 5 || !AllDigits(s[..4]) || s[4] != '-' then None
    else
      var rest := s[5..];
      match Find(rest, '-')
      case None => None
      case Some(k) =>
        var month := NumberField(rest[..k], 1, 12);
        var day := DayField(rest[k + 1..]);
        if month.None? || day.None? then None
        else
          var d := Date(DecimalValue(s[..4]), month.value, day.value);
          if ValidDate(d) then Some(d) else None
  }

  /** `datetime.strptime(s, '%H:%M').time()`: seconds are zero. */
  function ParseTime(s: string): (r: Option<Time>)
    ensures r.Some? ==> ValidTime(r.value) && r.value.second == 0
  {
    match Find(s, ':')
    case None => None
    case Some(k) =>
      var hour := NumberField(s[..k], 0, 23);
      var minute := NumberField(s[k + 1..], 0, 59);
      if hour.None? || minute.None? then None else Some(Time(hour.value, minute.value, 0))
  }

  lemma TwoDigitsValue(n: int)
    requires 0 <= n <= 99
    ensures AllDigits(TwoDigits(n)) && DecimalValue(TwoDigits(n)) == n
  {
    DecimalOfTwo(TwoDigits(n));
  }

  lemma FourDigitsValue(n: int)
    requires 0 <= n <= 9999
    ensures AllDigits(FourDigits(n)) && DecimalValue(FourDigits(n)) == n
  {
    DecimalOfFour(FourDigits(n));
    PlaceValues(n);
  }

  lemma PlaceValues(n: int)
    requires 0 <= n <= 9999
    ensures n % 10000 / 1000 * 1000 + n % 1000 / 100 * 100 + n % 100 / 10 * 10 + n % 10 == n
  {
    var r := n % 1000;
    assert n / 1000 * 1000 + r == n;
    assert r / 100 * 100 + r % 100 == r;
    assert r % 100 == n % 100;
    var t := n % 100;
    assert t / 10 * 10 + t % 10 == t;
    assert t % 10 == n % 10;
  }

  /** The value of a two-digit field, place by place. */
  lemma DecimalOfTwo(s: string)
    requires |s| == 2 && AllDigits(s)
    ensures DecimalValue(s) == DigitValue(s[0]) * 10 + DigitValue(s[1])
  {
    assert s[..1][..0] == [];
    assert DecimalValue(s[..1]) == DigitValue(s[0]);
  }

  /** The value of a four-digit field, place by place. */
  lemma DecimalOfFour(s: string)
    requires |s| == 4 && AllDigits(s)
    ensures DecimalValue(s) == DigitValue(s[0]) * 1000 + DigitValue(s[1]) * 100 + DigitValue(s[2]) * 10 + DigitValue(s[3])
  {
    assert s[..3][..2] == s[..2];
    DecimalOfTwo(s[..2]);
  }

  /** What '%Y-%m-%d' prints, '%Y-%m-%d' reads back. */
  lemma ParseFormattedDate(d: Date)
    requires ValidDate(d)
    ensures ParseDate(FormatDate(d)) == Some(d)
  {
    var s := FormatDate(d);
    var rest := s[5..];
    FourDigitsValue(d.year);
    TwoDigitsValue(d.month);
    TwoDigitsValue(d.day);
    assert s[..4] == FourDigits(d.year);
    assert rest == TwoDigits(d.month) + "-" + TwoDigits(d.day);
    assert Find(rest, '-') == Some(2) by {
      assert rest[0] != '-' && rest[1] != '-' && rest[2] == '-';
      assert Find(rest[1..], '-') == Some(1) by {
        assert rest[1..][1..][0] == '-';
      }
    }
    assert rest[..2] == TwoDigits(d.month);
    assert rest[3..] == TwoDigits(d.day);
  }

  /** What '%H:%M' prints, '%H:%M' reads back (seconds are dropped). */
  lemma ParseFormattedTime(t: Time)
    requires ValidTime(t)
    ensures ParseTime(FormatHM(t)) == Some(Time(t.hour, t.minute, 0))
  {
    var s := FormatHM(t);
    TwoDigitsValue(t.hour);
    TwoDigitsValue(t.minute);
    assert Find(s, ':') == Some(2) by {
      assert Find(s[1..], ':') == Some(1) by {
        assert s[1..][1..][0] == ':';
      }
    }
    assert s[..2] == TwoDigits(t.hour);
    assert s[3..] == TwoDigits(t.minute);
  }

  lemma TwoDigitsOfValue(f: string)
    requires |f| == 2 && AllDigits(f)
    ensures TwoDigits(DecimalValue(f)) == f
  {
    DecimalOfTwo(f);
    TensAndUnits(DigitValue(f[0]), DigitValue(f[1]));
  }

  lemma TensAndUnits(a: int, b: int)
    requires 0 <= a <= 9 && 0 <= b <= 9
    ensures (a * 10 + b) % 100 / 10 == a && (a * 10 + b) % 10 == b
  {
  }

  /**
    A time typed in the canonical five-character 'HH:MM' form is printed back unchanged,
    so the '%H:%M:%S' rendering of it is the input followed by ":00".
  */
  lemma FormatParsedTime(s: string)
    requires |s| == 5 && ParseTime(s).Some?
    ensures FormatHM(ParseTime(s).value) == s
    ensures FormatHMS(ParseTime(s).value) == s + ":00"
  {
    var k := Find(s, ':').value;
    assert 1 <= |s[..k]| <= 2 && 1 <= |s[k + 1..]| <= 2;
    assert k == 2;
    TwoDigitsOfValue(s[..2]);
    TwoDigitsOfValue(s[3..]);
    assert s == s[..2] + ":" + s[3..];
  }

  /** strptime accepts one-digit month and day fields. */
  lemma OneDigitDateAccepted()
    ensures ParseDate("2024-1-5") == Some(Date(2024, 1, 5))
  {
    var a := "2024-1-5";
    assert a[..4] == "2024" && a[5..] == "1-5";
    Digits2024();
    OneDigitFields();
  }

  /** strptime's '%d' also takes a space before a one-digit day. */
  lemma SpacePaddedDayAccepted()
    ensures ParseDate("2024-01- 5") == Some(Date(2024, 1, 5))
  {
    var b := "2024-01- 5";
    assert b[..4] == "2024" && b[5..] == "01- 5";
    Digits2024();
    PaddedDayFields();
  }

  /** strptime accepts one-digit hour and minute fields. */
  lemma OneDigitTimeAccepted()
    ensures ParseTime("9:5") == Some(Time(9, 5, 0))
  {
    var c := "9:5";
    assert Find(c, ':') == Some(1) by { assert c[1..] == ":5"; }
    assert c[..1] == "9" && c[2..] == "5" && "9"[..0] == [] && "5"[..0] == [];
  }

  /** February 29 parses in a leap year. */
  lemma LeapDayAccepted()
    ensures ParseDate("2024-02-29") == Some(Date(2024, 2, 29))
  {
    var e := "2024-02-29";
    assert e[..4] == "2024" && e[5..] == "02-29";
    Digits2024();
    LeapDayFields();
  }

  /** February 29 is refused in a common year. */
  lemma LeapDayRefused()
    ensures ParseDate("2023-02-29") == None
  {
    var d := "2023-02-29";
    assert d[..4] == "2023" && d[5..] == "02-29";
    Digits2023();
    LeapDayFields();
  }

  /** Year 0 does not exist. */
  lemma YearZeroRefused()
    ensures ParseDate("0000-01-01") == None
  {
    var z := "0000-01-01";
    assert z[..4] == "0000" && z[5..] == "01-01";
    assert "0000"[..3] == "000" && "000"[..2] == "00" && "00"[..1] == "0" && "0"[..0] == [];
    NewYearFields();
  }

  /** Hour 24 does not exist. */
  lemma HourTwentyFourRefused()
    ensures ParseTime("24:00") == None
  {
    var h := "24:00";
    assert Find(h, ':') == Some(2) by { assert h[1..] == "4:00"; assert "4:00"[1..] == ":00"; }
    assert h[..2] == "24" && "24"[..1] == "2" && "2"[..0] == [];
  }

  /** An empty field is no value. */
  lemma EmptyRefused()
    ensures ParseDate("") == None && ParseTime("") == None
  {
  }

  lemma Digits2024()
    ensures AllDigits("2024") && DecimalValue("2024") == 2024
  {
    assert "2024"[..3] == "202" && "202"[..2] == "20" && "20"[..1] == "2" && "2"[..0] == [];
  }

  lemma Digits2023()
    ensures AllDigits("2023") && DecimalValue("2023") == 2023
  {
    assert "2023"[..3] == "202" && "202"[..2] == "20" && "20"[..1] == "2" && "2"[..0] == [];
  }

  lemma OneDigitFields()
    ensures Find("1-5", '-') == Some(1) && "1-5"[..1] == "1" && "1-5"[2..] == "5"
    ensures NumberField("1", 1, 12) == Some(1) && DayField("5") == Some(5)
  {
    assert "1-5"[1..] == "-5";
    assert "1"[..0] == [] && "5"[..0] == [];
  }

  lemma PaddedDayFields()
    ensures Find("01- 5", '-') == Some(2) && "01- 5"[..2] == "01" && "01- 5"[3..] == " 5"
    ensures NumberField("01", 1, 12) == Some(1) && DayField(" 5") == Some(5)
  {
    assert "01- 5"[1..] == "1- 5";
    assert "1- 5"[1..] == "- 5";
    assert "01"[..1] == "0" && "0"[..0] == [];
  }

  lemma LeapDayFields()
    ensures Find("02-29", '-') == Some(2) && "02-29"[..2] == "02" && "02-29"[3..] == "29"
    ensures NumberField("02", 1, 12) == Some(2) && DayField("29") == Some(29)
  {
    assert "02-29"[1..] == "2-29";
    assert "2-29"[1..] == "-29";
    assert "02"[..1] == "0" && "29"[..1] == "2" && "0"[..0] == [] && "2"[..0] == [];
  }

  lemma NewYearFields()
    ensures Find("01-01", '-') == Some(2) && "01-01"[..2] == "01" && "01-01"[3..] == "01"
    ensures NumberField("01", 1, 12) == Some(1) && DayField("01") == Some(1)
  {
    assert "01-01"[1..] == "1-01";
    assert "1-01"[1..] == "-01";
    assert "01"[..1] == "0" && "0"[..0] == [];
  }
}
