/**
 Calendar dates and day numbers, after section 21.4.1 of ECMA-262: the arithmetic behind `Date.UTC`,
 `getUTCFullYear`, `getUTCMonth` and `getUTCDate`, and the reading and writing of `YYYY-MM-DD`.
 */
module CalendarDates {
  import opened Basics
  import opened DecimalText

  // ------------------------------------------------------------------ years and months

  predicate Leap(y: int) {
    y % 4 == 0 && (y % 100 != 0 || y % 400 == 0)
  }

  function YearDays(y: int): int {
    if Leap(y) then 366 else 365
  }

  /** The number of the first day of a year: the years between it and 1970, one after the other. */
  function DayFromYear(y: int): int
    decreases if y < 1970 then 1970 - y else y - 1970
  {
    if y == 1970 then 0
    else if y > 1970 then DayFromYear(y - 1) + YearDays(y - 1)
    else DayFromYear(y + 1) - YearDays(y)
  }

  lemma YearLength(y: int)
    ensures DayFromYear(y + 1) == DayFromYear(y) + YearDays(y)
  {
  }

  /** The closed form of section 21.4.1 of ECMA-262. */
  function DayFormula(y: int): int {
    365 * (y - 1970) + (y - 1969) / 4 - (y - 1901) / 100 + (y - 1601) / 400
  }

  lemma FormulaStep(y: int)
    ensures DayFormula(y + 1) == DayFormula(y) + YearDays(y)
  {
    FourYears(y);
    HundredYears(y);
    FourHundredYears(y);
  }

  lemma FourYears(y: int)
    ensures (y - 1968) / 4 == (y - 1969) / 4 + (if y % 4 == 0 then 1 else 0)
  {
  }

  lemma HundredYears(y: int)
    ensures (y - 1900) / 100 == (y - 1901) / 100 + (if y % 100 == 0 then 1 else 0)
  {
  }

  lemma FourHundredYears(y: int)
    ensures (y - 1600) / 400 == (y - 1601) / 400 + (if y % 400 == 0 then 1 else 0)
    ensures y % 400 == 0 ==> y % 100 == 0
    ensures y % 100 == 0 ==> y % 4 == 0
  {
  }

  /** Counting the years one by one is that closed form. */
  lemma {:induction false} DayFromYearIsFormula(y: int)
    ensures DayFromYear(y) == DayFormula(y)
    decreases if y < 1970 then 1970 - y else y - 1970
  {
    if y > 1970 {
      DayFromYearIsFormula(y - 1);
      FormulaStep(y - 1);
    } else if y < 1970 {
      DayFromYearIsFormula(y + 1);
      FormulaStep(y);
    }
  }

  /** The length of a month as a calendar on the wall has it. */
  function MonthDays(leap: bool, month: int): int
    requires 1 <= month <= 12
  {
    if month == 2 then (if leap then 29 else 28)
    else if month == 4 || month == 6 || month == 9 || month == 11 then 30
    else 31
  }

  /** Days of the year before month m, counted from 0; m = 12 is the whole year. */
  function DaysBefore(leap: bool, m: nat): int
    requires m <= 12
  {
    if m == 0 then 0 else DaysBefore(leap, m - 1) + MonthDays(leap, m)
  }

  lemma WholeYear(leap: bool)
    ensures DaysBefore(leap, 12) == (if leap then 366 else 365) && DaysBefore(leap, 11) == DaysBefore(leap, 12) - 31
  {
    var x := if leap then 1 else 0;
    assert DaysBefore(leap, 1) == 31;
    assert DaysBefore(leap, 2) == 59 + x;
    assert DaysBefore(leap, 3) == 90 + x;
    assert DaysBefore(leap, 4) == 120 + x;
    assert DaysBefore(leap, 5) == 151 + x;
    assert DaysBefore(leap, 6) == 181 + x;
    assert DaysBefore(leap, 7) == 212 + x;
    assert DaysBefore(leap, 8) == 243 + x;
    assert DaysBefore(leap, 9) == 273 + x;
    assert DaysBefore(leap, 10) == 304 + x;
    assert DaysBefore(leap, 11) == 334 + x;
  }

  lemma {:induction false} MonthsIncrease(leap: bool, a: nat, b: nat)
    requires a <= b <= 12
    ensures DaysBefore(leap, a) <= DaysBefore(leap, b)
    decreases b
  {
    if a < b { MonthsIncrease(leap, a, b - 1); }
  }

  datatype Date = Date(year: int, month: int, day: int)

  function MonthLength(year: int, month: int): int
    requires 1 <= month <= 12
  {
    MonthDays(Leap(year), month)
  }

  predicate Valid(d: Date) {
    1 <= d.month <= 12 && 1 <= d.day <= MonthLength(d.year, d.month)
  }

  lemma MonthLengthIsDifference(year: int, month: int)
    requires 1 <= month <= 12
    ensures DaysBefore(Leap(year), month) == DaysBefore(Leap(year), month - 1) + MonthLength(year, month)
  {
  }

  /** `MakeDay`: month counts from 0 and may run past the year; day 0 is the day before the first. */
  function MakeDay(year: int, month: int, day: int): int {
    DayIn(year + month / 12, month % 12, day)
  }

  /** The number of a day in month m of a year, both counted from 0, the day from 1. */
  function DayIn(y: int, m: nat, day: int): int
    requires m < 12
  {
    DayFromYear(y) + DaysBefore(Leap(y), m) + day - 1
  }

  function DayNumber(d: Date): int {
    MakeDay(d.year, d.month - 1, d.day)
  }

  lemma PlainDayNumber(year: int, month: int, day: int)
    requires 1 <= month <= 12
    ensures DayNumber(Date(year, month, day)) == DayFromYear(year) + DaysBefore(Leap(year), month - 1) + day - 1
  {
    var m := month - 1;
    WithinYear(m);
    assert MakeDay(year, m, day) == DayIn(year, m, day);
  }

  lemma WithinYear(m: int)
    requires 0 <= m < 12
    ensures m / 12 == 0 && m % 12 == m
  {
  }

  // ------------------------------------------------------------------ from a day number back

  function YearMiss(n: int, y: int): nat {
    if n < DayFromYear(y) then DayFromYear(y) - n else if n >= DayFromYear(y + 1) then n - DayFromYear(y + 1) + 1 else 0
  }

  /** The year a day number falls in. */
  function YearOf(n: int, guess: int): (y: int)
    ensures DayFromYear(y) <= n < DayFromYear(y + 1)
    decreases YearMiss(n, guess)
  {
    YearLength(guess);
    YearLength(guess - 1);
    YearLength(guess + 1);
    if n < DayFromYear(guess) then YearOf(n, guess - 1)
    else if n >= DayFromYear(guess + 1) then YearOf(n, guess + 1)
    else guess
  }

  function MonthOf(leap: bool, k: int, m: nat): (r: nat)
    requires m <= 11 && DaysBefore(leap, m) <= k < DaysBefore(leap, 12)
    ensures r <= 11 && DaysBefore(leap, r) <= k < DaysBefore(leap, r + 1)
    decreases 12 - m
  {
    if k < DaysBefore(leap, m + 1) then m else MonthOf(leap, k, m + 1)
  }

  /** The UTC date of a day number. */
  function Civil(n: int): Date {
    var y := YearOf(n, 1970);
    YearLength(y);
    InYear(y, n - DayFromYear(y))
  }

  /** The date of day k of a year, counted from 0. */
  function InYear(y: int, k: int): Date
    requires 0 <= k < YearDays(y)
  {
    WholeYear(Leap(y));
    var m := MonthOf(Leap(y), k, 0);
    Date(y, m + 1, k - DaysBefore(Leap(y), m) + 1)
  }

  lemma {:induction false} YearsIncrease(a: int, b: int)
    requires a <= b
    ensures DayFromYear(a) + 365 * (b - a) <= DayFromYear(b)
    decreases b - a
  {
    if a < b {
      YearsIncrease(a, b - 1);
      YearLength(b - 1);
    }
  }

  lemma YearIsUnique(n: int, y: int, z: int)
    requires DayFromYear(y) <= n < DayFromYear(y + 1) && DayFromYear(z) <= n < DayFromYear(z + 1)
    ensures y == z
  {
    if y < z { YearsIncrease(y + 1, z); }
    if z < y { YearsIncrease(z + 1, y); }
  }

  lemma MonthIsUnique(leap: bool, k: int, m: nat, r: nat)
    requires m <= 11 && r <= 11
    requires DaysBefore(leap, m) <= k < DaysBefore(leap, m + 1) && DaysBefore(leap, r) <= k < DaysBefore(leap, r + 1)
    ensures m == r
  {
    if m < r { MonthsIncrease(leap, m + 1, r); }
    if r < m { MonthsIncrease(leap, r + 1, m); }
  }

  /** Day numbers and valid dates are the same thing, both ways. */
  lemma CivilOfDayNumber(d: Date)
    requires Valid(d)
    ensures Civil(DayNumber(d)) == d
  {
    var k := DaysBefore(Leap(d.year), d.month - 1) + d.day - 1;
    DayInYear(d, k);
    PlainDayNumber(d.year, d.month, d.day);
    var n := DayNumber(d);
    assert d == Date(d.year, d.month, d.day) && n == DayFromYear(d.year) + k;
    CivilIn(n, d.year, d.month - 1, k);
  }

  /** A day number known to lie in a month of a year is a date of that month. */
  lemma CivilIn(n: int, y: int, m: nat, k: int)
    requires DayFromYear(y) <= n < DayFromYear(y + 1) && k == n - DayFromYear(y)
    requires m <= 11 && DaysBefore(Leap(y), m) <= k < DaysBefore(Leap(y), m + 1)
    ensures Civil(n) == Date(y, m + 1, k - DaysBefore(Leap(y), m) + 1)
  {
    var z, i, d := CivilYear(n);
    YearIsUnique(n, y, z);
    InMonth(y, m, k);
  }

  lemma CivilYear(n: int) returns (y: int, k: int, d: Date)
    ensures DayFromYear(y) <= n < DayFromYear(y + 1) && 0 <= k < YearDays(y) && n == DayFromYear(y) + k
    ensures Civil(n) == d == InYear(y, k)
  {
    y, d := YearOf(n, 1970), Civil(n);
    k := n - DayFromYear(y);
    YearLength(y);
  }

  lemma InMonth(y: int, m: nat, k: int)
    requires m <= 11 && 0 <= k < YearDays(y) && DaysBefore(Leap(y), m) <= k < DaysBefore(Leap(y), m + 1)
    ensures InYear(y, k) == Date(y, m + 1, k - DaysBefore(Leap(y), m) + 1)
  {
    WholeYear(Leap(y));
    MonthIsUnique(Leap(y), k, m, MonthOf(Leap(y), k, 0));
  }

  lemma DayInYear(d: Date, k: int)
    requires Valid(d) && k == DaysBefore(Leap(d.year), d.month - 1) + d.day - 1
    ensures DaysBefore(Leap(d.year), d.month - 1) <= k < DaysBefore(Leap(d.year), d.month) <= DaysBefore(Leap(d.year), 12)
    ensures DayFromYear(d.year) <= DayFromYear(d.year) + k < DayFromYear(d.year + 1)
  {
    MonthLengthIsDifference(d.year, d.month);
    MonthsIncrease(Leap(d.year), 0, d.month - 1);
    MonthsIncrease(Leap(d.year), d.month, 12);
    WholeYear(Leap(d.year));
    YearLength(d.year);
  }

  lemma DayNumberOfCivil(n: int)
    ensures Valid(Civil(n)) && DayNumber(Civil(n)) == n
  {
    var y, k, d := CivilYear(n);
    NumberedBack(n, y, k, d);
  }

  lemma NumberedBack(n: int, y: int, k: int, d: Date)
    requires 0 <= k < YearDays(y) && n == DayFromYear(y) + k && d == InYear(y, k)
    ensures Valid(d) && DayNumber(d) == n
  {
    MonthLengthIsDifference(y, d.month);
    PlainDayNumber(y, d.month, d.day);
    assert d == Date(y, d.month, d.day);
  }

  // ------------------------------------------------------------------ the source's calendar

  /** `daysIn`: the date of day 0 of the following month. */
  function DaysIn(year: int, month: int): int {
    Civil(MakeDay(year, month, 0)).day
  }

  lemma DaysInIsMonthLength(year: int, month: int)
    requires 1 <= month <= 12
    ensures DaysIn(year, month) == MonthLength(year, month)
  {
    var last := Date(year, month, MonthLength(year, month));
    DayZero(year, month);
    CivilOfDayNumber(last);
  }

  lemma MonthCarries(year: int)
    ensures MakeDay(year, 12, 0) == DayFromYear(year + 1) - 1
  {
    assert 12 / 12 == 1 && 12 % 12 == 0;
  }

  /** Day 0 of the following month is the last day of this one. */
  lemma DayZero(year: int, month: int)
    requires 1 <= month <= 12
    ensures MakeDay(year, month, 0) == DayNumber(Date(year, month, MonthLength(year, month)))
  {
    PlainDayNumber(year, month, MonthLength(year, month));
    MonthLengthIsDifference(year, month);
    if month == 12 {
      WholeYear(Leap(year));
      YearLength(year);
      MonthCarries(year);
    } else {
      PlainDayNumber(year, month + 1, 0);
    }
  }

  /** `nextDay`: one day later in UTC milliseconds. */
  function NextDay(d: Date): Date {
    Civil(DayNumber(d) + 1)
  }

  /** The successor as a calendar on the wall has it. */
  function Successor(d: Date): Date
    requires Valid(d)
  {
    if d.day < MonthLength(d.year, d.month) then d.(day := d.day + 1)
    else if d.month < 12 then Date(d.year, d.month + 1, 1)
    else Date(d.year + 1, 1, 1)
  }

  lemma SuccessorIsValid(d: Date)
    requires Valid(d)
    ensures Valid(Successor(d))
  {
  }

  lemma NextInMonth(y: int, m: int, k: int)
    requires 1 <= m <= 12
    ensures DayNumber(Date(y, m, k + 1)) == DayNumber(Date(y, m, k)) + 1
  {
  }

  lemma NextInYear(y: int, m: int)
    requires 1 <= m < 12
    ensures DayNumber(Date(y, m + 1, 1)) == DayNumber(Date(y, m, MonthLength(y, m))) + 1
  {
    MonthLengthIsDifference(y, m);
    PlainDayNumber(y, m, MonthLength(y, m));
    PlainDayNumber(y, m + 1, 1);
  }

  lemma NextNewYear(y: int)
    ensures DayNumber(Date(y + 1, 1, 1)) == DayNumber(Date(y, 12, 31)) + 1
  {
    PlainDayNumber(y, 12, 31);
    PlainDayNumber(y + 1, 1, 1);
    EndOfYear(y);
  }

  lemma EndOfYear(y: int)
    ensures DayFromYear(y) + DaysBefore(Leap(y), 11) + 31 == DayFromYear(y + 1) + DaysBefore(Leap(y + 1), 0)
  {
    WholeYear(Leap(y));
    YearLength(y);
  }

  lemma SuccessorInMonth(d: Date)
    requires Valid(d) && d.day < MonthLength(d.year, d.month)
    ensures DayNumber(Successor(d)) == DayNumber(d) + 1
  {
    NextInMonth(d.year, d.month, d.day);
  }

  lemma SuccessorInYear(d: Date)
    requires Valid(d) && d.day == MonthLength(d.year, d.month) && d.month < 12
    ensures DayNumber(Successor(d)) == DayNumber(d) + 1
  {
    NextInYear(d.year, d.month);
  }

  lemma SuccessorInNewYear(d: Date)
    requires Valid(d) && d.day == MonthLength(d.year, d.month) && d.month == 12
    ensures DayNumber(Successor(d)) == DayNumber(d) + 1
  {
    NextNewYear(d.year);
  }

  lemma SuccessorIsNextNumber(d: Date)
    requires Valid(d)
    ensures DayNumber(Successor(d)) == DayNumber(d) + 1
  {
    if d.day < MonthLength(d.year, d.month) {
      SuccessorInMonth(d);
    } else if d.month < 12 {
      SuccessorInYear(d);
    } else {
      SuccessorInNewYear(d);
    }
  }

  /** `nextDay` is the calendar successor, across months, years and leap days. */
  lemma NextDayIsSuccessor(d: Date)
    requires Valid(d)
    ensures NextDay(d) == Successor(d) && Valid(Successor(d))
  {
    SuccessorIsValid(d);
    SuccessorIsNextNumber(d);
    CivilOfDayNumber(Successor(d));
  }

  // ------------------------------------------------------------------ text

  const MIN_YEAR := 2000
  const MAX_YEAR := 2100

  predicate Supported(d: Date) {
    Valid(d) && MIN_YEAR <= d.year <= MAX_YEAR
  }

  function Pad(n: nat, width: nat): string {
    PadStart(Decimal(n), width)
  }

  function PadStart(s: string, width: nat): string
    decreases width - |s|
  {
    if |s| >= width then s else PadStart("0" + s, width)
  }

  /** Padding a number to two or four places writes out its digits. */
  lemma PadTwo(n: nat)
    requires n < 100
    ensures Pad(n, 2) == [Digit(n / 10), Digit(n % 10)]
  {
    if n < 10 {
      assert PadStart("0" + Decimal(n), 2) == "0" + Decimal(n);
    } else {
      assert Decimal(n / 10) == [Digit(n / 10)];
    }
  }

  lemma PadFour(n: nat)
    requires 1000 <= n < 10000
    ensures Pad(n, 4) == [Digit(n / 1000), Digit(n / 100 % 10), Digit(n / 10 % 10), Digit(n % 10)]
  {
    assert Decimal(n / 1000) == [Digit(n / 1000)];
    assert n / 100 / 10 == n / 1000 && n / 10 / 10 == n / 100;
    assert Decimal(n / 100) == [Digit(n / 1000)] + [Digit(n / 100 % 10)];
    assert Decimal(n / 10) == Decimal(n / 100) + [Digit(n / 10 % 10)];
    assert Decimal(n) == Decimal(n / 10) + [Digit(n % 10)];
  }

  predicate IsDigit(c: char) {
    '0' <= c <= '9'
  }

  function Value(c: char): nat
    requires IsDigit(c)
  {
    c as int - '0' as int
  }

  lemma ValueDigit(c: char)
    requires IsDigit(c)
    ensures Value(c) < 10 && Digit(Value(c)) == c
  {
  }

  /** Two digits read as a number. */
  function ReadTwo(a: char, b: char): (n: nat)
    requires IsDigit(a) && IsDigit(b)
    ensures n < 100
  {
    10 * Value(a) + Value(b)
  }

  lemma ReadOfPadTwo(n: nat)
    requires n < 100
    ensures |Pad(n, 2)| == 2 && IsDigit(Pad(n, 2)[0]) && IsDigit(Pad(n, 2)[1]) && ReadTwo(Pad(n, 2)[0], Pad(n, 2)[1]) == n
  {
    PadTwo(n);
  }

  lemma PadOfReadTwo(a: char, b: char)
    requires IsDigit(a) && IsDigit(b)
    ensures Pad(ReadTwo(a, b), 2) == [a, b]
  {
    PadTwo(ReadTwo(a, b));
    ValueDigit(a);
    ValueDigit(b);
  }

  lemma ReadOfPadFour(n: nat)
    requires 1000 <= n < 10000
    ensures var p := Pad(n, 4);
            && |p| == 4 && IsDigit(p[0]) && IsDigit(p[1]) && IsDigit(p[2]) && IsDigit(p[3])
            && 100 * ReadTwo(p[0], p[1]) + ReadTwo(p[2], p[3]) == n
  {
    PadFour(n);
    DigitsOf(n);
  }

  lemma DigitsOf(n: nat)
    requires n < 10000
    ensures n == 100 * (10 * (n / 1000) + n / 100 % 10) + (10 * (n / 10 % 10) + n % 10)
  {
    assert n / 100 / 10 == n / 1000 && n / 10 / 10 == n / 100;
  }

  lemma PadOfReadFour(a: char, b: char, c: char, d: char)
    requires IsDigit(a) && IsDigit(b) && IsDigit(c) && IsDigit(d) && ReadTwo(a, b) >= 10
    ensures Pad(100 * ReadTwo(a, b) + ReadTwo(c, d), 4) == [a, b, c, d]
  {
    var n := 100 * ReadTwo(a, b) + ReadTwo(c, d);
    PadFour(n);
    ValueDigit(a);
    ValueDigit(b);
    ValueDigit(c);
    ValueDigit(d);
    NumberOfDigits(Value(a), Value(b), Value(c), Value(d));
  }

  lemma NumberOfDigits(a: nat, b: nat, c: nat, d: nat)
    requires a < 10 && b < 10 && c < 10 && d < 10
    ensures var n := 100 * (10 * a + b) + (10 * c + d);
            n / 1000 == a && n / 100 % 10 == b && n / 10 % 10 == c && n % 10 == d
  {
    var n := 100 * (10 * a + b) + (10 * c + d);
    assert n / 100 == 10 * a + b;
  }

  function FormatDate(d: Date): string
    requires d.year >= 0 && d.month >= 0 && d.day >= 0
  {
    Pad(d.year, 4) + "-" + Pad(d.month, 2) + "-" + Pad(d.day, 2)
  }

  /** The pattern `YYYY-MM-DD`. */
  predicate DateShaped(s: string) {
    && |s| == 10 && s[4] == '-' && s[7] == '-'
    && IsDigit(s[0]) && IsDigit(s[1]) && IsDigit(s[2]) && IsDigit(s[3])
    && IsDigit(s[5]) && IsDigit(s[6]) && IsDigit(s[8]) && IsDigit(s[9])
  }

  /** The three captured numbers. */
  function Fields(s: string): Date
    requires DateShaped(s)
  {
    Date(100 * ReadTwo(s[0], s[1]) + ReadTwo(s[2], s[3]), ReadTwo(s[5], s[6]), ReadTwo(s[8], s[9]))
  }

  /** The range checks, in the source's order. */
  predicate InRange(d: Date) {
    !(d.year < MIN_YEAR || d.year > MAX_YEAR || d.month < 1 || d.month > 12 || d.day < 1 || d.day > DaysIn(d.year, d.month))
  }

  function ParseDate(s: string): Option<Date> {
    if DateShaped(s) && InRange(Fields(s)) then Some(Fields(s)) else None
  }

  lemma InRangeMeansSupported(d: Date)
    ensures InRange(d) <==> Supported(d)
  {
    if 1 <= d.month <= 12 { DaysInIsMonthLength(d.year, d.month); }
  }

  lemma FieldsOfFormat(d: Date)
    requires 1000 <= d.year < 10000 && 0 <= d.month < 100 && 0 <= d.day < 100
    ensures DateShaped(FormatDate(d)) && Fields(FormatDate(d)) == d
  {
    ReadOfPadFour(d.year);
    ReadOfPadTwo(d.month);
    ReadOfPadTwo(d.day);
    var y, m, k := Pad(d.year, 4), Pad(d.month, 2), Pad(d.day, 2);
    assert FormatDate(d) == [y[0], y[1], y[2], y[3], '-', m[0], m[1], '-', k[0], k[1]];
  }

  lemma FormatOfFields(s: string)
    requires DateShaped(s) && Fields(s).year >= 1000
    ensures FormatDate(Fields(s)) == s
  {
    PadOfReadFour(s[0], s[1], s[2], s[3]);
    PadOfReadTwo(s[5], s[6]);
    PadOfReadTwo(s[8], s[9]);
    assert s == [s[0], s[1], s[2], s[3]] + "-" + [s[5], s[6]] + "-" + [s[8], s[9]];
  }

  lemma {:induction false} NumberOfZero(s: string)
    requires Digits(s)
    ensures Digits("0" + s) && NumberOf("0" + s) == NumberOf(s)
  {
    if s == "" {
      assert "0" + s == "0" && "0"[..0] == "";
    } else {
      NumberOfZero(s[..|s| - 1]);
      assert ("0" + s)[..|s|] == "0" + s[..|s| - 1];
    }
  }

  lemma {:induction false} PadStartNumber(s: string, width: nat)
    requires Digits(s)
    ensures Digits(PadStart(s, width)) && |PadStart(s, width)| >= width && NumberOf(PadStart(s, width)) == NumberOf(s)
    decreases width - |s|
  {
    if |s| < width {
      NumberOfZero(s);
      PadStartNumber("0" + s, width);
    }
  }

  /** Padding keeps the number. */
  lemma PadNumber(n: nat, width: nat)
    ensures Digits(Pad(n, width)) && |Pad(n, width)| >= width && NumberOf(Pad(n, width)) == n
  {
    NumberOfDecimal(n);
    PadStartNumber(Decimal(n), width);
  }

  /** No two dates are written the same, whatever their years. */
  lemma SameTextSameDate(a: Date, b: Date)
    requires a.year >= 0 && 1000 <= b.year < 10000 && Valid(a) && Valid(b)
    ensures FormatDate(a) == FormatDate(b) ==> a == b
  {
    FieldsOfFormat(b);
    PadNumber(a.year, 4);
    PadTwo(a.month);
    PadTwo(a.day);
    ReadOfPadFour(b.year);
    PadNumber(b.year, 4);
    var y, z := Pad(a.year, 4), Pad(b.year, 4);
    if |y| > 4 { assert FormatDate(a)[4] == y[4]; }
    if FormatDate(a) == FormatDate(b) {
      assert FormatDate(a)[..|y|] == y && FormatDate(b)[..4] == z;
      assert FormatDate(a)[|y|] == '-' && FormatDate(b)[4] == '-';
      assert y == z;
      assert a.year == b.year;
      FieldsOfFormat(a);
    }
  }

  /** Reading what was written gives the date back. */
  lemma ParseOfFormat(d: Date)
    requires Supported(d)
    ensures ParseDate(FormatDate(d)) == Some(d)
  {
    FieldsOfFormat(d);
    InRangeMeansSupported(d);
  }

  /** Only real dates of the supported years are read, and writing one gives the text back. */
  lemma FormatOfParse(s: string)
    ensures ParseDate(s).Some? ==> Supported(ParseDate(s).value) && FormatDate(ParseDate(s).value) == s
  {
    if ParseDate(s).Some? {
      InRangeMeansSupported(Fields(s));
      FormatOfFields(s);
    }
  }

  datatype WallTime = WallTime(date: Date, hour: int, minute: int)

  predicate SupportedWall(w: WallTime) {
    Supported(w.date) && 0 <= w.hour <= 23 && 0 <= w.minute <= 59
  }

  function FormatWall(w: WallTime): string
    requires SupportedWall(w)
  {
    FormatDate(w.date) + ClockText(w.hour, w.minute)
  }

  function ClockText(hour: nat, minute: nat): string {
    "T" + Pad(hour, 2) + ":" + Pad(minute, 2)
  }

  /** The pattern `THH:mm` that follows the date. */
  predicate ClockShaped(s: string) {
    |s| == 6 && s[0] == 'T' && s[3] == ':' && IsDigit(s[1]) && IsDigit(s[2]) && IsDigit(s[4]) && IsDigit(s[5])
  }

  /** The pattern `YYYY-MM-DDTHH:mm`. */
  function ParseWall(s: string): Option<WallTime> {
    if |s| != 16 || !DateShaped(s[..10]) || !ClockShaped(s[10..]) then None else
      var date, clock := ParseDate(s[..10]), s[10..];
      var hour, minute := ReadTwo(clock[1], clock[2]), ReadTwo(clock[4], clock[5]);
      if date.None? || hour > 23 || minute > 59 then None else Some(WallTime(date.value, hour, minute))
  }

  lemma ClockRoundTrip(hour: nat, minute: nat)
    requires hour < 100 && minute < 100
    ensures var c := ClockText(hour, minute);
            ClockShaped(c) && ReadTwo(c[1], c[2]) == hour && ReadTwo(c[4], c[5]) == minute
  {
    ReadOfPadTwo(hour);
    ReadOfPadTwo(minute);
    var h, m := Pad(hour, 2), Pad(minute, 2);
    assert ClockText(hour, minute) == ['T', h[0], h[1], ':', m[0], m[1]];
  }

  lemma ParseOfFormatWall(w: WallTime)
    requires SupportedWall(w)
    ensures ParseWall(FormatWall(w)) == Some(w)
  {
    FieldsOfFormat(w.date);
    ParseOfFormat(w.date);
    ClockRoundTrip(w.hour, w.minute);
    ParseOfHalves(FormatDate(w.date), ClockText(w.hour, w.minute), w);
  }

  lemma ParseOfHalves(date: string, clock: string, w: WallTime)
    requires SupportedWall(w) && DateShaped(date) && ClockShaped(clock) && ParseDate(date) == Some(w.date)
    requires ReadTwo(clock[1], clock[2]) == w.hour && ReadTwo(clock[4], clock[5]) == w.minute
    ensures ParseWall(date + clock) == Some(w)
  {
    var s := date + clock;
    assert s[..10] == date && s[10..] == clock;
  }

  lemma ClockOfRead(c: string)
    requires ClockShaped(c)
    ensures ClockText(ReadTwo(c[1], c[2]), ReadTwo(c[4], c[5])) == c
  {
    PadOfReadTwo(c[1], c[2]);
    PadOfReadTwo(c[4], c[5]);
    assert c == "T" + [c[1], c[2]] + ":" + [c[4], c[5]];
  }

  lemma FormatOfParseWall(s: string)
    ensures ParseWall(s).Some? ==> SupportedWall(ParseWall(s).value) && FormatWall(ParseWall(s).value) == s
  {
    if ParseWall(s).Some? {
      FormatOfParse(s[..10]);
      ClockOfRead(s[10..]);
      assert s == s[..10] + s[10..];
    }
  }
}
