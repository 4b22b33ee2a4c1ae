/**
Timestamps are stored as `YYYY-MM-DDTHH:MM:SS` text and compared by SQLite as text.
This module proves that text order is time order, which is what lets every other
module use integers for instants.
*/
module IsoTime {

  datatype Stamp = Stamp(year: nat, month: nat, day: nat, hour: nat, minute: nat, second: nat)
  {
    predicate Valid() {
      && year <= 9999
      && 1 <= month <= 12
      && 1 <= day <= DaysInMonth(year, month)
      && hour < 24 && minute < 60 && second < 60
    }
  }

  // ---- the calendar ----

  predicate Leap(year: nat) {
    year % 4 == 0 && (year % 100 != 0 || year % 400 == 0)
  }

  function DaysInMonth(year: nat, month: nat): (days: nat)
    ensures 28 <= days <= 31
  {
    if month == 2 then (if Leap(year) then 29 else 28)
    else if month in {4, 6, 9, 11} then 30
    else 31
  }

  /** Days of the months of `year` that come before `month`. */
  function DaysBeforeMonth(year: nat, month: nat): nat
    requires 1 <= month <= 13
  {
    if month == 1 then 0 else DaysBeforeMonth(year, month - 1) + DaysInMonth(year, month - 1)
  }

  function DaysBeforeYear(year: nat): nat {
    if year == 0 then 0 else DaysBeforeYear(year - 1) + DaysBeforeMonth(year - 1, 13)
  }

  /** Seconds elapsed since the first instant of year 0: the time a stamp stands for. */
  function Seconds(t: Stamp): nat
    requires t.Valid()
  {
    (((DaysBeforeYear(t.year) + DaysBeforeMonth(t.year, t.month) + t.day - 1) * 24 + t.hour) * 60
      + t.minute) * 60 + t.second
  }

  // ---- the text form ----

  /** `n` in decimal, padded with zeros to exactly `width` digits. */
  function Digits(n: nat, width: nat): (text: string)
    ensures |text| == width
  {
    if width == 0 then "" else Digits(n / 10, width - 1) + [DigitChar(n % 10)]
  }

  function DigitChar(d: nat): char
    requires d < 10
  {
    '0' + d as char
  }

  // The text from one field to the end, for each field in turn.
  function FromMinute(t: Stamp): string { Digits(t.minute, 2) + [':'] + Digits(t.second, 2) }
  function FromHour(t: Stamp): string { Digits(t.hour, 2) + [':'] + FromMinute(t) }
  function FromDay(t: Stamp): string { Digits(t.day, 2) + ['T'] + FromHour(t) }
  function FromMonth(t: Stamp): string { Digits(t.month, 2) + ['-'] + FromDay(t) }
  function Iso(t: Stamp): string { Digits(t.year, 4) + ['-'] + FromMonth(t) }

  /** SQLite's BINARY collation: the first differing character decides, then the length. */
  predicate TextLess(a: string, b: string) {
    if b == "" then false
    else if a == "" then true
    else a[0] < b[0] || (a[0] == b[0] && TextLess(a[1..], b[1..]))
  }

  lemma {:induction false} TextOrderIsLinear(a: string, b: string, c: string)
    ensures TextLess(a, b) ==> !TextLess(b, a)
    ensures TextLess(a, b) || TextLess(b, a) || a == b
    ensures TextLess(a, b) && TextLess(b, c) ==> TextLess(a, c)
  {
    if a != "" && b != "" {
      TextOrderIsLinear(a[1..], b[1..], if c == "" then c else c[1..]);
      assert a == [a[0]] + a[1..] && b == [b[0]] + b[1..];
    }
  }

  // ---- text order of equal-width pieces ----

  lemma {:induction false} TextLessOfParts(a: string, b: string, s: string, t: string)
    requires |a| == |b|
    ensures TextLess(a + s, b + t) <==> TextLess(a, b) || (a == b && TextLess(s, t))
  {
    if a == "" {
      assert a + s == s && b + t == t;
    } else {
      assert (a + s)[1..] == a[1..] + s && (b + t)[1..] == b[1..] + t;
      TextLessOfParts(a[1..], b[1..], s, t);
      assert a == [a[0]] + a[1..] && b == [b[0]] + b[1..];
    }
  }

  function Pow10(k: nat): nat {
    if k == 0 then 1 else 10 * Pow10(k - 1)
  }

  lemma {:induction false} DigitsOrder(m: nat, n: nat, width: nat)
    requires m < Pow10(width) && n < Pow10(width)
    ensures TextLess(Digits(m, width), Digits(n, width)) <==> m < n
    ensures Digits(m, width) == Digits(n, width) <==> m == n
  {
    if width > 0 {
      DigitsOrder(m / 10, n / 10, width - 1);
      var (hm, lm) := (Digits(m / 10, width - 1), [DigitChar(m % 10)]);
      var (hn, ln) := (Digits(n / 10, width - 1), [DigitChar(n % 10)]);
      TextLessOfParts(hm, hn, lm, ln);
      assert Digits(m, width)[..width - 1] == hm && Digits(n, width)[..width - 1] == hn;
      assert Digits(m, width)[width - 1] == lm[0] && Digits(n, width)[width - 1] == ln[0];
      assert TextLess(lm, ln) <==> m % 10 < n % 10;
    }
  }

  // ---- time order of calendar fields ----

  // The order of the fields from one field to the end, most significant first.
  predicate MinutesLess(a: Stamp, b: Stamp) { a.minute < b.minute || (a.minute == b.minute && a.second < b.second) }
  predicate HoursLess(a: Stamp, b: Stamp) { a.hour < b.hour || (a.hour == b.hour && MinutesLess(a, b)) }
  predicate DaysLess(a: Stamp, b: Stamp) { a.day < b.day || (a.day == b.day && HoursLess(a, b)) }
  predicate MonthsLess(a: Stamp, b: Stamp) { a.month < b.month || (a.month == b.month && DaysLess(a, b)) }
  predicate FieldsLess(a: Stamp, b: Stamp) { a.year < b.year || (a.year == b.year && MonthsLess(a, b)) }

  lemma {:induction false} MonthStarts(year: nat, m: nat, n: nat)
    requires 1 <= m < n <= 13
    ensures DaysBeforeMonth(year, m) + DaysInMonth(year, m) <= DaysBeforeMonth(year, n)
    decreases n
  {
    if m + 1 < n { MonthStarts(year, m, n - 1); }
  }

  lemma {:induction false} YearStarts(y: nat, z: nat)
    requires y < z
    ensures DaysBeforeYear(y) + DaysBeforeMonth(y, 13) <= DaysBeforeYear(z)
    decreases z
  {
    if y + 1 < z { YearStarts(y, z - 1); }
  }

  lemma DayWithinYear(t: Stamp)
    requires t.Valid()
    ensures DaysBeforeMonth(t.year, t.month) + t.day <= DaysBeforeMonth(t.year, 13)
  {
    MonthStarts(t.year, t.month, 13);
  }

  lemma EarlierFieldsEarlierTime(a: Stamp, b: Stamp)
    requires a.Valid() && b.Valid() && FieldsLess(a, b)
    ensures Seconds(a) < Seconds(b)
  {
    if a.year < b.year {
      DayWithinYear(a);
      YearStarts(a.year, b.year);
    } else if a.month < b.month {
      MonthStarts(a.year, a.month, b.month);
    }
  }

  /** One field and what follows it, compared as text. */
  lemma FieldThenRest(m: nat, n: nat, width: nat, mark: char, s: string, t: string)
    requires m < Pow10(width) && n < Pow10(width)
    ensures TextLess(Digits(m, width) + [mark] + s, Digits(n, width) + [mark] + t)
       <==> m < n || (m == n && TextLess(s, t))
  {
    var (a, b) := (Digits(m, width), Digits(n, width));
    assert a + [mark] + s == a + ([mark] + s) && b + [mark] + t == b + ([mark] + t);
    TextLessOfParts(a, b, [mark] + s, [mark] + t);
    TextLessOfParts([mark], [mark], s, t);
    DigitsOrder(m, n, width);
  }

  lemma TextOrderIsFieldOrder(a: Stamp, b: Stamp)
    requires a.Valid() && b.Valid()
    ensures TextLess(Iso(a), Iso(b)) <==> FieldsLess(a, b)
  {
    assert Pow10(2) == 100 && Pow10(4) == 10000 by { assert Pow10(1) == 10 && Pow10(3) == 1000; }
    DigitsOrder(a.second, b.second, 2);
    FieldThenRest(a.minute, b.minute, 2, ':', Digits(a.second, 2), Digits(b.second, 2));
    assert TextLess(FromMinute(a), FromMinute(b)) <==> MinutesLess(a, b);
    FieldThenRest(a.hour, b.hour, 2, ':', FromMinute(a), FromMinute(b));
    assert TextLess(FromHour(a), FromHour(b)) <==> HoursLess(a, b);
    FieldThenRest(a.day, b.day, 2, 'T', FromHour(a), FromHour(b));
    assert TextLess(FromDay(a), FromDay(b)) <==> DaysLess(a, b);
    FieldThenRest(a.month, b.month, 2, '-', FromDay(a), FromDay(b));
    assert TextLess(FromMonth(a), FromMonth(b)) <==> MonthsLess(a, b);
    FieldThenRest(a.year, b.year, 4, '-', FromMonth(a), FromMonth(b));
  }

  /** Comparing stored timestamps as text compares the instants they stand for. */
  lemma TextOrderIsTimeOrder(a: Stamp, b: Stamp)
    requires a.Valid() && b.Valid()
    ensures TextLess(Iso(a), Iso(b)) <==> Seconds(a) < Seconds(b)
    ensures Iso(a) == Iso(b) <==> Seconds(a) == Seconds(b)
  {
    TextOrderIsFieldOrder(a, b);
    TextOrderIsFieldOrder(b, a);
    if FieldsLess(a, b) {
      EarlierFieldsEarlierTime(a, b);
      NotLessThanItself(Iso(b));
    } else if FieldsLess(b, a) {
      EarlierFieldsEarlierTime(b, a);
      NotLessThanItself(Iso(a));
    } else {
      assert a == b;
    }
  }

  lemma {:induction false} NotLessThanItself(a: string)
    ensures !TextLess(a, a)
  {
    if a != "" { NotLessThanItself(a[1..]); }
  }

  /** Thirty days have four of the months, and every fourth year is a day longer, three in 400 excepted. */
  lemma CalendarIsGregorian(year: nat)
    ensures DaysInMonth(year, 4) == DaysInMonth(year, 6) == DaysInMonth(year, 9) == DaysInMonth(year, 11) == 30
    ensures forall m <- {1, 3, 5, 7, 8, 10, 12} :: DaysInMonth(year, m) == 31
    ensures DaysInMonth(year, 2) == DaysBeforeMonth(year, 13) - 337
    ensures DaysBeforeMonth(year, 13) == if year % 400 == 0 || (year % 4 == 0 && year % 100 != 0) then 366 else 365
  {
    assert DaysBeforeMonth(year, 1) == 0 && DaysBeforeMonth(year, 2) == 31;
    assert DaysBeforeMonth(year, 3) == 31 + DaysInMonth(year, 2);
    assert DaysBeforeMonth(year, 5) == DaysBeforeMonth(year, 3) + 61;
    assert DaysBeforeMonth(year, 7) == DaysBeforeMonth(year, 5) + 61;
    assert DaysBeforeMonth(year, 9) == DaysBeforeMonth(year, 7) + 62;
    assert DaysBeforeMonth(year, 11) == DaysBeforeMonth(year, 9) + 61;
    assert DaysBeforeMonth(year, 13) == DaysBeforeMonth(year, 11) + 61;
  }

  /** One second after the last one of a year, and after the last one of a day, comes the first of the next. */
  lemma ClockGoesOn(year: nat, month: nat, day: nat)
    requires year < 9999 && 1 <= month <= 12 && 1 <= day < DaysInMonth(year, month)
    ensures Seconds(Stamp(year, month, day + 1, 0, 0, 0)) == Seconds(Stamp(year, month, day, 23, 59, 59)) + 1
    ensures Seconds(Stamp(year + 1, 1, 1, 0, 0, 0)) == Seconds(Stamp(year, 12, 31, 23, 59, 59)) + 1
    ensures Seconds(Stamp(0, 1, 1, 0, 0, 0)) == 0
  {
    assert DaysBeforeMonth(year, 13) == DaysBeforeMonth(year, 12) + 31;
    assert DaysBeforeYear(year + 1) == DaysBeforeYear(year) + DaysBeforeMonth(year, 13);
  }
}
