/**
 UTC timestamps as the database stores and compares them.

 `claimed_at` is TEXT written by SQLite's CURRENT_TIMESTAMP; a cutoff is formatted
 with the same `%Y-%m-%d %H:%M:%S` pattern and the two are compared byte by byte.
 */
module Timestamps {

  /** A UTC date and time of day, to the second, with a four-digit year. */
  datatype Civil = Civil(year: nat, month: nat, day: nat, hour: nat, minute: nat, second: nat) {
    predicate Valid() {
      && year <= 9999
      && 1 <= month <= 12
      && 1 <= day <= MonthLength(year, month)
      && hour < 24 && minute < 60 && second < 60
    }
  }

  type Stamp = c: Civil | c.Valid() witness Civil(1970, 1, 1, 0, 0, 0)

  /** A point in time; SQLite's CURRENT_TIMESTAMP keeps only its `stamp`. */
  datatype Instant = Instant(stamp: Stamp, nanos: nat) {
    predicate Valid() { nanos < 1_000_000_000 }
    function Nanos(): (n: nat)
      ensures Valid() ==> n / 1_000_000_000 == Seconds(stamp) && n % 1_000_000_000 == nanos
    {
      Seconds(stamp) * 1_000_000_000 + nanos
    }
  }

  predicate IsLeap(year: nat) {
    year % 4 == 0 && (year % 100 != 0 || year % 400 == 0)
  }

  function YearLength(year: nat): nat {
    if IsLeap(year) then 366 else 365
  }

  function MonthLength(year: nat, month: nat): nat {
    if month == 2 then (if IsLeap(year) then 29 else 28)
    else if month == 4 || month == 6 || month == 9 || month == 11 then 30
    else 31
  }

  function DaysBeforeYear(year: nat): nat {
    if year == 0 then 0 else DaysBeforeYear(year - 1) + YearLength(year - 1)
  }

  /** Days of `year` that precede the first day of `month`. */
  function DaysBeforeMonth(year: nat, month: nat): nat {
    if month <= 1 then 0 else DaysBeforeMonth(year, month - 1) + MonthLength(year, month - 1)
  }

  function DayNumber(c: Civil): nat
    requires c.Valid()
  {
    DaysBeforeYear(c.year) + DaysBeforeMonth(c.year, c.month) + c.day - 1
  }

  /** Whole seconds since the start of year 0. */
  function Seconds(c: Civil): nat
    requires c.Valid()
  {
    ((DayNumber(c) * 24 + c.hour) * 60 + c.minute) * 60 + c.second
  }

  // ---- text form ----

  const DIGITS: string := "0123456789"

  /** `n` in exactly `width` decimal digits, most significant first. */
  function Digits(n: nat, width: nat): (s: string)
    ensures |s| == width
  {
    if width == 0 then [] else Digits(n / 10, width - 1) + [DIGITS[n % 10]]
  }

  function DateText(c: Civil): string {
    Digits(c.year, 4) + "-" + Digits(c.month, 2) + "-" + Digits(c.day, 2)
  }

  function ClockText(c: Civil): string {
    Digits(c.hour, 2) + ":" + Digits(c.minute, 2) + ":" + Digits(c.second, 2)
  }

  /** `%Y-%m-%d %H:%M:%S` */
  function Text(c: Civil): string {
    DateText(c) + " " + ClockText(c)
  }

  /** SQLite's ordering of TEXT values. */
  predicate TextLess(a: string, b: string) {
    |b| > 0 && (|a| == 0 || a[0] < b[0] || (a[0] == b[0] && TextLess(a[1..], b[1..])))
  }

  /** The number a digit string denotes. */
  function Value(s: string): int {
    if s == "" then 0 else 10 * Value(s[..|s| - 1]) + (s[|s| - 1] as int - '0' as int)
  }

  lemma {:induction false} DigitsReadBack(n: nat, width: nat)
    requires n < Pow10(width)
    ensures Value(Digits(n, width)) == n
  {
    if width > 0 {
      DigitsReadBack(n / 10, width - 1);
      var s := Digits(n, width);
      assert s[..width - 1] == Digits(n / 10, width - 1);
      DigitIs(n % 10);
    }
  }

  lemma DigitIs(k: nat)
    requires k < 10
    ensures DIGITS[k] as int == '0' as int + k
  {
  }

  /** The rendered text reads back: every field stands at its place, between its separators. */
  lemma TextReadsBack(c: Stamp)
    ensures var t := Text(c);
            && |t| == 19 && t[4] == '-' && t[7] == '-' && t[10] == ' ' && t[13] == ':' && t[16] == ':'
            && Value(t[..4]) == c.year && Value(t[5..7]) == c.month && Value(t[8..10]) == c.day
            && Value(t[11..13]) == c.hour && Value(t[14..16]) == c.minute && Value(t[17..]) == c.second
  {
    Pow10Values();
    DigitsReadBack(c.year, 4);
    DigitsReadBack(c.month, 2);
    DigitsReadBack(c.day, 2);
    DigitsReadBack(c.hour, 2);
    DigitsReadBack(c.minute, 2);
    DigitsReadBack(c.second, 2);
    FieldsOf(Digits(c.year, 4), Digits(c.month, 2), Digits(c.day, 2),
             Digits(c.hour, 2), Digits(c.minute, 2), Digits(c.second, 2));
    hide Value, Digits, Pow10;
  }

  lemma FieldsOf(y: string, m: string, d: string, h: string, i: string, s: string)
    requires |y| == 4 && |m| == |d| == |h| == |i| == |s| == 2
    ensures var t := y + "-" + m + "-" + d + " " + (h + ":" + i + ":" + s);
            && |t| == 19 && t[4] == '-' && t[7] == '-' && t[10] == ' ' && t[13] == ':' && t[16] == ':'
            && t[..4] == y && t[5..7] == m && t[8..10] == d && t[11..13] == h && t[14..16] == i && t[17..] == s
  {
  }

  // ---- text order is chronological order ----

  lemma {:induction false} TextLessConcat(a: string, b: string, x: string, y: string)
    requires |a| == |b|
    ensures TextLess(a + x, b + y) <==> (TextLess(a, b) || (a == b && TextLess(x, y)))
  {
    if |a| == 0 {
      assert a + x == x && b + y == y;
    } else {
      assert (a + x)[1..] == a[1..] + x && (b + y)[1..] == b[1..] + y;
      TextLessConcat(a[1..], b[1..], x, y);
      assert a == [a[0]] + a[1..] && b == [b[0]] + b[1..];
    }
  }

  function Pow10(k: nat): nat {
    if k == 0 then 1 else 10 * Pow10(k - 1)
  }

  lemma {:induction false} DigitsOrder(m: nat, n: nat, width: nat)
    requires m < Pow10(width) && n < Pow10(width)
    ensures TextLess(Digits(m, width), Digits(n, width)) <==> m < n
    ensures Digits(m, width) == Digits(n, width) <==> m == n
  {
    if width > 0 {
      DigitsOrder(m / 10, n / 10, width - 1);
      var a, b := Digits(m / 10, width - 1), Digits(n / 10, width - 1);
      var x, y := DIGITS[m % 10], DIGITS[n % 10];
      TextLessConcat(a, b, [x], [y]);
      DigitOrder(m % 10, n % 10);
      assert (a + [x])[..width - 1] == a && (b + [y])[..width - 1] == b;
      assert (a + [x])[width - 1] == x && (b + [y])[width - 1] == y;
    }
  }

  lemma DigitOrder(i: nat, j: nat)
    requires i < 10 && j < 10
    ensures DIGITS[i] < DIGITS[j] <==> i < j
    ensures DIGITS[i] == DIGITS[j] <==> i == j
  {
  }

  /** Lexicographic order on two adjacent fields separated by a fixed string. */
  lemma FieldOrder(m: nat, n: nat, width: nat, sep: string, x: string, y: string)
    requires m < Pow10(width) && n < Pow10(width)
    ensures TextLess(Digits(m, width) + sep + x, Digits(n, width) + sep + y)
            <==> m < n || (m == n && TextLess(x, y))
  {
    DigitsOrder(m, n, width);
    var a, b := Digits(m, width), Digits(n, width);
    assert a + sep + x == a + (sep + x) && b + sep + y == b + (sep + y);
    TextLessConcat(a, b, sep + x, sep + y);
    TextLessConcat(sep, sep, x, y);
    Irreflexive(sep);
  }

  lemma {:induction false} Irreflexive(s: string)
    ensures !TextLess(s, s)
  {
    if |s| > 0 { Irreflexive(s[1..]); }
  }

  predicate DateBefore(a: Civil, b: Civil) {
    a.year < b.year || (a.year == b.year && (a.month < b.month || (a.month == b.month && a.day < b.day)))
  }

  predicate ClockBefore(a: Civil, b: Civil) {
    a.hour < b.hour || (a.hour == b.hour && (a.minute < b.minute || (a.minute == b.minute && a.second < b.second)))
  }

  predicate SameDate(a: Civil, b: Civil) {
    a.year == b.year && a.month == b.month && a.day == b.day
  }

  lemma Pow10Values()
    ensures Pow10(2) == 100 && Pow10(4) == 10000
  {
    assert Pow10(1) == 10 && Pow10(3) == 10 * Pow10(2);
  }

  lemma DateTextOrder(a: Stamp, b: Stamp, x: string, y: string)
    ensures TextLess(DateText(a) + x, DateText(b) + y)
            <==> DateBefore(a, b) || (SameDate(a, b) && TextLess(x, y))
  {
    Pow10Values();
    var ad, bd := Digits(a.day, 2) + "" + x, Digits(b.day, 2) + "" + y;
    var am, bm := Digits(a.month, 2) + "-" + ad, Digits(b.month, 2) + "-" + bd;
    FieldOrder(a.day, b.day, 2, "", x, y);
    FieldOrder(a.month, b.month, 2, "-", ad, bd);
    FieldOrder(a.year, b.year, 4, "-", am, bm);
    assert DateText(a) + x == Digits(a.year, 4) + "-" + am;
    assert DateText(b) + y == Digits(b.year, 4) + "-" + bm;
  }

  lemma ClockTextOrder(a: Stamp, b: Stamp)
    ensures TextLess(ClockText(a), ClockText(b)) <==> ClockBefore(a, b)
  {
    Pow10Values();
    var x, y := Digits(a.second, 2), Digits(b.second, 2);
    var am, bm := Digits(a.minute, 2) + ":" + x, Digits(b.minute, 2) + ":" + y;
    DigitsOrder(a.second, b.second, 2);
    FieldOrder(a.minute, b.minute, 2, ":", x, y);
    FieldOrder(a.hour, b.hour, 2, ":", am, bm);
    assert ClockText(a) == Digits(a.hour, 2) + ":" + am;
    assert ClockText(b) == Digits(b.hour, 2) + ":" + bm;
  }

  // ---- calendar order is second order ----

  lemma {:induction false} MonthsFit(year: nat, m: nat, n: nat)
    requires 1 <= m < n <= 13
    ensures DaysBeforeMonth(year, m) + MonthLength(year, m) <= DaysBeforeMonth(year, n)
    decreases n
  {
    if m < n - 1 { MonthsFit(year, m, n - 1); }
  }

  /** Leap years in closed form: one in four, but not the centuries, but one century in four. */
  lemma {:induction false} DaysBeforeYearIs(year: nat)
    ensures DaysBeforeYear(year) == 365 * year + (year + 3) / 4 - (year + 99) / 100 + (year + 399) / 400
  {
    if year > 0 {
      var y := year - 1;
      DaysBeforeYearIs(y);
      CeilingStep(y, 4);
      CeilingStep(y, 100);
      CeilingStep(y, 400);
      CenturiesAreFourths(y);
    }
  }

  lemma CeilingStep(y: nat, d: nat)
    requires d in {4, 100, 400}
    ensures (y + 1 + (d - 1)) / d == (y + (d - 1)) / d + if y % d == 0 then 1 else 0
  {
    if d == 4 {} else if d == 100 {} else {}
  }

  lemma CenturiesAreFourths(y: nat)
    ensures y % 100 == 0 ==> y % 4 == 0
    ensures y % 400 == 0 ==> y % 100 == 0
  {
    if y % 100 == 0 { MultiplesDivide(y, 4, 25 * (y / 100)); }
    if y % 400 == 0 { MultiplesDivide(y, 100, 4 * (y / 400)); }
  }

  lemma MultiplesDivide(y: nat, d: nat, k: nat)
    requires d in {4, 100} && y == d * k
    ensures y % d == 0
  {
  }

  lemma MonthLengthsAre(year: nat)
    ensures var feb := if DaysBeforeYear(year + 1) - DaysBeforeYear(year) == 366 then 29 else 28;
            && MonthLength(year, 1) == 31 && MonthLength(year, 2) == feb && MonthLength(year, 3) == 31
            && MonthLength(year, 4) == 30 && MonthLength(year, 5) == 31 && MonthLength(year, 6) == 30
            && MonthLength(year, 7) == 31 && MonthLength(year, 8) == 31 && MonthLength(year, 9) == 30
            && MonthLength(year, 10) == 31 && MonthLength(year, 11) == 30 && MonthLength(year, 12) == 31
  {
  }

  /** The civil time one second later. */
  function Tick(c: Civil): Civil {
    if c.second < 59 then c.(second := c.second + 1)
    else if c.minute < 59 then c.(minute := c.minute + 1, second := 0)
    else if c.hour < 23 then c.(hour := c.hour + 1, minute := 0, second := 0)
    else if c.day < MonthLength(c.year, c.month) then Civil(c.year, c.month, c.day + 1, 0, 0, 0)
    else if c.month < 12 then Civil(c.year, c.month + 1, 1, 0, 0, 0)
    else Civil(c.year + 1, 1, 1, 0, 0, 0)
  }

  /** Seconds count the ticks of the civil clock, from the first of January of year 0. */
  lemma SecondsCountTicks(c: Stamp)
    requires c != Civil(9999, 12, 31, 23, 59, 59)
    ensures Tick(c).Valid() && Seconds(Tick(c)) == Seconds(c) + 1
    ensures Seconds(Civil(0, 1, 1, 0, 0, 0)) == 0
  {
    if c.second == 59 && c.minute == 59 && c.hour == 23 { TickAtMidnight(c); }
    hide DayNumber, MonthLength;
  }

  lemma TickAtMidnight(c: Stamp)
    requires c.second == 59 && c.minute == 59 && c.hour == 23 && c != Civil(9999, 12, 31, 23, 59, 59)
    ensures Tick(c).Valid() && DayNumber(Tick(c)) == DayNumber(c) + 1
    ensures Tick(c).hour == Tick(c).minute == Tick(c).second == 0
  {
    YearIsTwelveMonths(c.year);
    assert DaysBeforeMonth(c.year + 1, 1) == 0;
    assert DaysBeforeMonth(c.year, 13) == DaysBeforeMonth(c.year, 12) + MonthLength(c.year, 12);
  }

  lemma YearIsTwelveMonths(year: nat)
    ensures DaysBeforeMonth(year, 13) == YearLength(year)
  {
    assert DaysBeforeMonth(year, 1) == 0 && DaysBeforeMonth(year, 2) == 31;
    var feb := MonthLength(year, 2);
    assert DaysBeforeMonth(year, 3) == 31 + feb;
    assert DaysBeforeMonth(year, 4) == 62 + feb && DaysBeforeMonth(year, 5) == 92 + feb;
    assert DaysBeforeMonth(year, 6) == 123 + feb && DaysBeforeMonth(year, 7) == 153 + feb;
    assert DaysBeforeMonth(year, 8) == 184 + feb && DaysBeforeMonth(year, 9) == 215 + feb;
    assert DaysBeforeMonth(year, 10) == 245 + feb && DaysBeforeMonth(year, 11) == 276 + feb;
    assert DaysBeforeMonth(year, 12) == 306 + feb;
  }

  lemma {:induction false} YearsFit(y: nat, z: nat)
    requires y < z
    ensures DaysBeforeYear(y) + YearLength(y) <= DaysBeforeYear(z)
  {
    if y < z - 1 { YearsFit(y, z - 1); }
  }

  /** A later calendar date has a larger day number. */
  lemma DateBeforeIsEarlier(a: Stamp, b: Stamp)
    requires DateBefore(a, b)
    ensures DayNumber(a) < DayNumber(b)
  {
    if a.year < b.year {
      YearsFit(a.year, b.year);
      MonthsFit(a.year, a.month, 13);
      YearIsTwelveMonths(a.year);
    } else if a.month < b.month {
      MonthsFit(a.year, a.month, b.month);
    }
  }

  lemma ClockOrder(d: nat, e: nat, a: Stamp, b: Stamp)
    ensures ((d * 24 + a.hour) * 60 + a.minute) * 60 + a.second
            < ((e * 24 + b.hour) * 60 + b.minute) * 60 + b.second
            <==> d < e || (d == e && ClockBefore(a, b))
  {
  }

  /**
   The ordering claim of section 5.1 of RFC 3339 for this format: byte order of two
   rendered timestamps is the order of the seconds they denote.
   */
  lemma TextOrderIsTimeOrder(a: Stamp, b: Stamp)
    ensures TextLess(Text(a), Text(b)) <==> Seconds(a) < Seconds(b)
  {
    assert Text(a) == DateText(a) + (" " + ClockText(a));
    assert Text(b) == DateText(b) + (" " + ClockText(b));
    DateTextOrder(a, b, " " + ClockText(a), " " + ClockText(b));
    TextLessConcat(" ", " ", ClockText(a), ClockText(b));
    Irreflexive(" ");
    ClockTextOrder(a, b);
    if DateBefore(a, b) {
      DateBeforeIsEarlier(a, b);
    } else if DateBefore(b, a) {
      DateBeforeIsEarlier(b, a);
    }
    ClockOrder(DayNumber(a), DayNumber(b), a, b);
  }

  /**
   Why the cutoff has to be formatted: compared with a `T`-separated text of the same
   date, a space-separated one is always smaller, whatever the two times of day are.
   */
  lemma MixedFormatsSayOlder(a: Stamp, b: Stamp, rest: string)
    requires SameDate(a, b)
    ensures TextLess(Text(a), DateText(b) + "T" + rest)
  {
    assert Text(a) == DateText(a) + (" " + ClockText(a));
    assert DateText(b) + "T" + rest == DateText(b) + ("T" + rest);
    DateTextOrder(a, b, " " + ClockText(a), "T" + rest);
  }
}
