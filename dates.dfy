/** Calendar arithmetic as JavaScript's Date object performs it (section 21.4
    of ECMA-262), on dates held as (year, month index, day) triples, plus the
    `yyyy-mm-dd` strings that date inputs and `toISOString` exchange. */
module Dates {
  import opened Common

  /** A calendar day as the getters of a Date report it: the full year, the
      month index 0..11 of `getMonth` and the day of the month. */
  datatype Date = Date(year: int, month: int, day: int)

  predicate IsLeapYear(y: int) {
    y % 4 == 0 && (y % 100 != 0 || y % 400 == 0)
  }

  function DaysInYear(y: int): int {
    if IsLeapYear(y) then 366 else 365
  }

  function DaysInMonth(y: int, m: int): int
    requires 0 <= m < 12
  {
    if m == 1 then (if IsLeapYear(y) then 29 else 28)
    else if m == 3 || m == 5 || m == 8 || m == 10 then 30
    else 31
  }

  /** A triple that names a real day of the proleptic Gregorian calendar. */
  predicate ValidDate(d: Date) {
    0 <= d.month < 12 && 1 <= d.day <= DaysInMonth(d.year, d.month)
  }

  // ---------------------------------------------------------------------------
  // Day numbers (section 21.4.1.3 of ECMA-262)
  // ---------------------------------------------------------------------------

  /** DayFromYear: days from 1 January 1970 to 1 January of year `y`. */
  function DayFromYear(y: int): int {
    365 * (y - 1970) + (y - 1969) / 4 - (y - 1901) / 100 + (y - 1601) / 400
  }

  /** Days of year `y` that precede the first of month `m`. */
  function DaysBeforeMonth(y: int, m: int): int
    requires 0 <= m < 12
  {
    [0, 31, 59, 90, 120, 151, 181, 212, 243, 273, 304, 334][m]
    + (if m >= 2 && IsLeapYear(y) then 1 else 0)
  }

  /** Day number of the first day of month `m` of year `y`. */
  function DayOfFirst(y: int, m: int): int
    requires 0 <= m < 12
  {
    DayFromYear(y) + DaysBeforeMonth(y, m)
  }

  /** Day number (days since 1 January 1970) of a date whose month is in range. */
  function DayNumber(d: Date): int
    requires 0 <= d.month < 12
  {
    DayOfFirst(d.year, d.month) + d.day - 1
  }

  /** The month after month `m` of year `y`, carrying December into January. */
  function NextMonth(y: int, m: int): (int, int)
    requires 0 <= m < 12
  {
    if m == 11 then (y + 1, 0) else (y, m + 1)
  }

  function PrevMonth(y: int, m: int): (int, int)
    requires 0 <= m < 12
  {
    if m == 0 then (y - 1, 11) else (y, m - 1)
  }

  /** MakeDay(year, month, date), read back as a calendar triple: the month
      carries into the year (floor division by 12), and a day outside the
      month carries into the following or preceding months. */
  function MakeDay(y: int, m: int, dt: int): (r: Date)
    ensures ValidDate(r)
  {
    CarryDays(y + m / 12, m % 12, dt)
  }

  /** Day `dt` of month `m` (in range) of year `y`, carried month by month
      until it falls inside a month. */
  function CarryDays(y: int, m: int, dt: int): (r: Date)
    requires 0 <= m < 12
    ensures ValidDate(r)
    decreases if dt < 1 then 1 else 0, if dt < 1 then -dt else dt
  {
    if dt < 1 then
      var p := PrevMonth(y, m);
      CarryDays(p.0, p.1, dt + DaysInMonth(p.0, p.1))
    else if dt <= DaysInMonth(y, m) then Date(y, m, dt)
    else
      var n := NextMonth(y, m);
      CarryDays(n.0, n.1, dt - DaysInMonth(y, m))
  }

  /** `new Date(d)` read back: the triple a Date holds once built from `d`. */
  function Normalize(d: Date): Date {
    MakeDay(d.year, d.month, d.day)
  }

  /** The leap-day counts of DayFromYear each grow by one exactly at a
      multiple of 4, 100 and 400 respectively. */
  lemma Multiples4(y: int)
    ensures (y + 1 - 1969) / 4 == (y - 1969) / 4 + (if y % 4 == 0 then 1 else 0)
  {
  }

  lemma Multiples100(y: int)
    ensures (y + 1 - 1901) / 100 == (y - 1901) / 100 + (if y % 100 == 0 then 1 else 0)
  {
  }

  lemma Multiples400(y: int)
    ensures (y + 1 - 1601) / 400 == (y - 1601) / 400 + (if y % 400 == 0 then 1 else 0)
  {
  }

  /** Every multiple of 400 is one of 100, and every multiple of 100 one of 4. */
  lemma Divides400(y: int)
    requires y % 400 == 0
    ensures y % 100 == 0
  {
    var k := y / 400;
    assert y == 100 * (4 * k);
  }

  lemma Divides100(y: int)
    requires y % 100 == 0
    ensures y % 4 == 0
  {
    var k := y / 100;
    assert y == 4 * (25 * k);
  }

  /** A year has 365 days, or 366 in a leap year. */
  lemma YearLength(y: int)
    ensures DayFromYear(y + 1) == DayFromYear(y) + DaysInYear(y)
  {
    Multiples4(y);
    Multiples100(y);
    Multiples400(y);
    if y % 400 == 0 {
      Divides400(y);
    }
    if y % 100 == 0 {
      Divides100(y);
    }
  }

  /** The next month starts as many days later as the month is long. */
  lemma NextMonthStart(y: int, m: int)
    requires 0 <= m < 12
    ensures DayOfFirst(NextMonth(y, m).0, NextMonth(y, m).1) == DayOfFirst(y, m) + DaysInMonth(y, m)
  {
    if m == 11 {
      YearLength(y);
    }
  }

  /** Carrying days keeps the day number: the result is the day `dt - 1`
      days after the first of month `m` of year `y`. */
  lemma {:induction false} CarryDaysNumber(y: int, m: int, dt: int)
    requires 0 <= m < 12
    ensures DayNumber(CarryDays(y, m, dt)) == DayOfFirst(y, m) + dt - 1
    decreases if dt < 1 then 1 else 0, if dt < 1 then -dt else dt
  {
    if dt < 1 {
      var p := PrevMonth(y, m);
      CarryDaysNumber(p.0, p.1, dt + DaysInMonth(p.0, p.1));
      NextMonthStart(p.0, p.1);
      assert NextMonth(p.0, p.1) == (y, m);
    } else if dt > DaysInMonth(y, m) {
      var n := NextMonth(y, m);
      CarryDaysNumber(n.0, n.1, dt - DaysInMonth(y, m));
      NextMonthStart(y, m);
    }
  }

  /** MakeDay agrees with the day-number definition of ECMA-262: the result
      is the day `dt - 1` days after the first of month `m mod 12` of year
      `y + floor(m / 12)`. */
  lemma MakeDayNumber(y: int, m: int, dt: int)
    ensures DayNumber(MakeDay(y, m, dt)) == DayOfFirst(y + m / 12, m % 12) + dt - 1
  {
    CarryDaysNumber(y + m / 12, m % 12, dt);
  }

  lemma {:induction false} DayFromYearGrows(y1: int, y2: int)
    requires y1 <= y2
    ensures DayFromYear(y1) + 365 * (y2 - y1) <= DayFromYear(y2)
    decreases y2 - y1
  {
    if y1 < y2 {
      DayFromYearGrows(y1, y2 - 1);
      YearLength(y2 - 1);
    }
  }

  /** A valid date lies inside its month and its year. */
  lemma DayNumberBounds(d: Date)
    requires ValidDate(d)
    ensures DayFromYear(d.year) <= DayNumber(d) < DayFromYear(d.year + 1)
    ensures DayOfFirst(d.year, d.month) <= DayNumber(d) < DayOfFirst(d.year, d.month) + DaysInMonth(d.year, d.month)
  {
    YearLength(d.year);
  }

  /** Distinct valid dates have distinct day numbers. */
  lemma DayNumberInjective(a: Date, b: Date)
    requires ValidDate(a) && ValidDate(b) && DayNumber(a) == DayNumber(b)
    ensures a == b
  {
    SameDayNumberSameYear(a, b);
    SameYearInjective(a, b);
  }

  lemma SameDayNumberSameYear(a: Date, b: Date)
    requires ValidDate(a) && ValidDate(b) && DayNumber(a) == DayNumber(b)
    ensures a.year == b.year
  {
    DayNumberBounds(a);
    DayNumberBounds(b);
    if a.year < b.year {
      DayFromYearGrows(a.year + 1, b.year);
    } else if b.year < a.year {
      DayFromYearGrows(b.year + 1, a.year);
    }
  }

  /** Within a year, each month starts where the one before it ends. */
  lemma NextMonthBefore(y: int, m: int)
    requires 0 <= m < 11
    ensures DaysBeforeMonth(y, m + 1) == DaysBeforeMonth(y, m) + DaysInMonth(y, m)
  {
  }

  lemma {:induction false} MonthsOrdered(y: int, m1: int, m2: int)
    requires 0 <= m1 < m2 < 12
    ensures DaysBeforeMonth(y, m1) + DaysInMonth(y, m1) <= DaysBeforeMonth(y, m2)
    decreases m2
  {
    NextMonthBefore(y, m2 - 1);
    if m1 < m2 - 1 {
      MonthsOrdered(y, m1, m2 - 1);
    }
  }

  lemma SameYearInjective(a: Date, b: Date)
    requires ValidDate(a) && ValidDate(b) && a.year == b.year && DayNumber(a) == DayNumber(b)
    ensures a == b
  {
    if a.month < b.month {
      MonthsOrdered(a.year, a.month, b.month);
    } else if b.month < a.month {
      MonthsOrdered(a.year, b.month, a.month);
    }
  }


  /** A Date built from a valid triple holds that triple. */
  lemma NormalizeValid(d: Date)
    requires ValidDate(d)
    ensures Normalize(d) == d
  {
  }

  /** `date.setMonth(date.getMonth() + k)` on the date `d`, read back. */
  function AddMonths(d: Date, k: int): Date {
    var n := Normalize(d);
    MakeDay(n.year, n.month + k, n.day)
  }

  /** For a valid start, `setMonth` carries the month into the year first and
      then carries the day from the first of that month. */
  lemma AddMonthsCarry(d: Date, k: int)
    requires ValidDate(d)
    ensures AddMonths(d, k) == CarryDays(d.year + (d.month + k) / 12, (d.month + k) % 12, d.day)
  {
    NormalizeValid(d);
  }

  /** When the day exists in the target month, only the month and year move. */
  lemma AddMonthsInMonth(d: Date, k: int)
    requires ValidDate(d)
    requires d.day <= DaysInMonth(d.year + (d.month + k) / 12, (d.month + k) % 12)
    ensures AddMonths(d, k) == Date(d.year + (d.month + k) / 12, (d.month + k) % 12, d.day)
  {
    AddMonthsCarry(d, k);
  }

  /** A day past the end of the target month (31 January plus one month)
      overflows into the month after it. */
  lemma AddMonthsOverflow(d: Date, k: int)
    requires ValidDate(d)
    requires d.day > DaysInMonth(d.year + (d.month + k) / 12, (d.month + k) % 12)
    ensures var ym, mn := d.year + (d.month + k) / 12, (d.month + k) % 12;
            var n := NextMonth(ym, mn);
            AddMonths(d, k) == Date(n.0, n.1, d.day - DaysInMonth(ym, mn))
  {
    var ym, mn := d.year + (d.month + k) / 12, (d.month + k) % 12;
    var n := NextMonth(ym, mn);
    AddMonthsCarry(d, k);
    assert d.day - DaysInMonth(ym, mn) <= 3 <= DaysInMonth(n.0, n.1);
    assert CarryDays(ym, mn, d.day) == CarryDays(n.0, n.1, d.day - DaysInMonth(ym, mn));
  }

  /** A Date object that the code mutates in place. */
  class JsDate {
    var year: int
    var month: int
    var day: int

    function Value(): Date
      reads this
    {
      Date(year, month, day)
    }

    /** `new Date(d)`: the object holds the normalised triple. */
    constructor (d: Date)
      ensures Value() == Normalize(d)
    {
      var n := MakeDay(d.year, d.month, d.day);
      year, month, day := n.year, n.month, n.day;
    }

    /** `getMonth()`: the month index, 0 for January up to 11 for December. */
    method GetMonth() returns (m: int)
      requires ValidDate(Value())
      ensures m == Value().month && 0 <= m < 12
    {
      m := month;
    }

    /** `setMonth(m)`, section 21.4.4.25 of ECMA-262: keep the year and the day
        of the month and recompute the triple with MakeDay. */
    method SetMonth(m: int)
      modifies this
      ensures Value() == MakeDay(old(year), m, old(day))
    {
      var n := MakeDay(year, m, day);
      year, month, day := n.year, n.month, n.day;
    }
  }

  // ---------------------------------------------------------------------------
  // yyyy-mm-dd strings
  // ---------------------------------------------------------------------------

  /** Year field of `toISOString`: four digits for 0..9999, otherwise a sign and six digits. */
  function YearString(y: int): string {
    if 0 <= y <= 9999 then PadDigits(y, 4)
    else (if y < 0 then "-" else "+") + PadDigits(if y < 0 then -y else y, 6)
  }

  /** `date.toISOString().split("T")[0]` for a valid date. */
  function IsoDateString(d: Date): string
    requires ValidDate(d)
  {
    YearString(d.year) + "-" + PadDigits(d.month + 1, 2) + "-" + PadDigits(d.day, 2)
  }

  /** Builds the date from a year, a 1-based month and a day; `None` when the
      month or the day is out of range. */
  function DateFromFields(y: int, mm: int, dd: int): Option<Date> {
    if 1 <= mm <= 12 && 1 <= dd <= DaysInMonth(y, mm - 1) then Some(Date(y, mm - 1, dd))
    else None
  }

  /** The value of a two-digit decimal field, or -1 when either character is not a digit. */
  function TwoDigitField(a: char, b: char): int {
    if IsDigit(a, 10) && IsDigit(b, 10) then DigitValue(a, 10) * 10 + DigitValue(b, 10) else -1
  }

  /** The month and day fields `-mm-dd` that follow the year. */
  function MonthDay(y: int, s: string): Option<Date>
    requires |s| == 6
  {
    if s[0] == '-' && s[3] == '-'
    then DateFromFields(y, TwoDigitField(s[1], s[2]), TwoDigitField(s[4], s[5]))
    else None
  }

  /** Date-only forms of the Date Time String Format (section 21.4.1.32 of
      ECMA-262) as `new Date(s)` and `Date.parse(s)` read them: `yyyy-mm-dd`
      or `±yyyyyy-mm-dd`, with `-000000` and out-of-range fields rejected.
      `None` stands for an invalid date (NaN). */
  function ParseIsoDate(s: string): Option<Date> {
    if |s| == 10 && AllDigits(s[..4], 10) then
      MonthDay(DigitsValue(s[..4], 10), s[4..])
    else if |s| == 13 && (s[0] == '+' || s[0] == '-') && AllDigits(s[1..7], 10) then
      var v: int := DigitsValue(s[1..7], 10);
      if s[0] == '-' && v == 0 then None
      else MonthDay(if s[0] == '-' then -v else v, s[7..])
    else None
  }

  lemma DigitCharValue(k: nat)
    requires k < 10
    ensures DigitValue(DigitChar(k), 10) == k
  {
  }

  lemma TwoDigits(n: nat)
    requires n < 100
    ensures |PadDigits(n, 2)| == 2
    ensures TwoDigitField(PadDigits(n, 2)[0], PadDigits(n, 2)[1]) == n
  {
    assert PadDigits(n, 2) == [DigitChar(n / 10 % 10), DigitChar(n % 10)];
    DigitCharValue(n / 10 % 10);
    DigitCharValue(n % 10);
  }

  /** The `-mm-dd` text of two numbers below 100 reads back as those numbers. */
  lemma PaddedFields(m: nat, day: nat)
    requires m < 100 && day < 100
    ensures var t := "-" + PadDigits(m, 2) + "-" + PadDigits(day, 2);
      |t| == 6 && t[0] == '-' && t[3] == '-'
      && TwoDigitField(t[1], t[2]) == m && TwoDigitField(t[4], t[5]) == day
  {
    var mm, dd := PadDigits(m, 2), PadDigits(day, 2);
    TwoDigits(m);
    TwoDigits(day);
    var t := "-" + mm + "-" + dd;
    assert t == ['-', mm[0], mm[1], '-', dd[0], dd[1]];
  }

  lemma MonthDayOfString(d: Date)
    requires ValidDate(d)
    ensures MonthDay(d.year, "-" + PadDigits(d.month + 1, 2) + "-" + PadDigits(d.day, 2)) == Some(d)
  {
    assert d.day <= 31;
    PaddedFields(d.month + 1, d.day);
  }

  /** A four-digit year is read, and the rest goes to the month and day. */
  lemma ParseFourDigitYear(y: int, tail: string)
    requires 0 <= y <= 9999 && |tail| == 6
    ensures ParseIsoDate(YearString(y) + tail) == MonthDay(y, tail)
  {
    var s := YearString(y) + tail;
    assert YearString(y) == PadDigits(y, 4);
    assert Pow10(4) == 10000;
    PadDigitsValue(y, 4);
    assert s[..4] == PadDigits(y, 4);
    assert s[4..] == tail;
  }

  /** A signed six-digit year is read, and the rest goes to the month and day. */
  lemma ParseSixDigitYear(y: int, tail: string)
    requires (-999999 <= y < 0 || 9999 < y <= 999999) && |tail| == 6
    ensures ParseIsoDate(YearString(y) + tail) == MonthDay(y, tail)
  {
    var a := if y < 0 then -y else y;
    var s := YearString(y) + tail;
    assert YearString(y) == [if y < 0 then '-' else '+'] + PadDigits(a, 6);
    assert Pow10(6) == 1000000;
    PadDigitsValue(a, 6);
    assert s[1..7] == PadDigits(a, 6);
    assert s[7..] == tail;
  }

  /** Reading back the string a valid date prints gives the date again, for
      every year the six-digit form can hold. */
  lemma ParseIsoDateOfString(d: Date)
    requires ValidDate(d) && -999999 <= d.year <= 999999
    ensures ParseIsoDate(IsoDateString(d)) == Some(d)
  {
    var tail := "-" + PadDigits(d.month + 1, 2) + "-" + PadDigits(d.day, 2);
    assert IsoDateString(d) == YearString(d.year) + tail;
    MonthDayOfString(d);
    if 0 <= d.year <= 9999 {
      ParseFourDigitYear(d.year, tail);
    } else {
      ParseSixDigitYear(d.year, tail);
    }
  }
}
