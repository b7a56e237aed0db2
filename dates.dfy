/** Calendar dates, their `YYYY-MM-DD` string keys, and month navigation.

    Every log entry and every grid cell of the application is keyed by a
    string built as `${year}-${pad2(month)}-${pad2(day)}`; period filters test
    these strings with `startsWith`. This module defines that string form and
    proves the facts the rest of the model relies on: the key is injective,
    and a prefix test on it is a test on the year (and month). */
module Dates {

  /** A calendar date as (year, month 1..12, day 1..31); the fields are not
      constrained here because stored logs carry whatever was written. */
  datatype Date = Date(year: nat, month: nat, day: nat)

  /** A month number as returned by `getMonth() + 1`. */
  type Month = m: nat | 1 <= m <= 12 witness 1

  /** The month a view is showing (the `currentDate` of the components, whose
      day is irrelevant). The year may run below zero through navigation. */
  datatype YearMonth = YearMonth(year: int, month: Month)

  // ---------------------------------------------------------------------
  // Calendar arithmetic

  /** The Gregorian leap-year rule. */
  predicate IsLeapYear(y: int) {
    (y % 4 == 0 && y % 100 != 0) || y % 400 == 0
  }

  /** Number of days in a year. */
  function DaysInYear(y: int): (r: nat)
    ensures r == 366 <==> IsLeapYear(y)
    ensures r == 365 || r == 366
  {
    if IsLeapYear(y) then 366 else 365
  }

  /** The last day of month `m` of year `y`, i.e. the day-of-month of
      "day 0 of the following month". */
  function DaysInMonth(y: int, m: nat): (r: nat)
    ensures 28 <= r <= 31
    ensures r == 29 <==> m == 2 && IsLeapYear(y)
    ensures r == 28 <==> m == 2 && !IsLeapYear(y)
  {
    if m == 2 then (if IsLeapYear(y) then 29 else 28)
    else if m == 4 || m == 6 || m == 9 || m == 11 then 30
    else 31
  }

  /** Days in months 1..n of year y. */
  function DaysBeforeMonthEnd(y: int, n: nat): nat
    decreases n
  {
    if n == 0 then 0 else DaysBeforeMonthEnd(y, n - 1) + DaysInMonth(y, n)
  }

  /** The month lengths add up to the year length given by the leap-year rule. */
  lemma {:induction false} MonthsMakeYear(y: int)
    ensures DaysBeforeMonthEnd(y, 12) == DaysInYear(y)
  {
    assert DaysBeforeMonthEnd(y, 1) == 31;
    assert DaysBeforeMonthEnd(y, 2) == 31 + DaysInMonth(y, 2);
    assert DaysBeforeMonthEnd(y, 3) == 62 + DaysInMonth(y, 2);
    assert DaysBeforeMonthEnd(y, 4) == 92 + DaysInMonth(y, 2);
    assert DaysBeforeMonthEnd(y, 5) == 123 + DaysInMonth(y, 2);
    assert DaysBeforeMonthEnd(y, 6) == 153 + DaysInMonth(y, 2);
    assert DaysBeforeMonthEnd(y, 7) == 184 + DaysInMonth(y, 2);
    assert DaysBeforeMonthEnd(y, 8) == 215 + DaysInMonth(y, 2);
    assert DaysBeforeMonthEnd(y, 9) == 245 + DaysInMonth(y, 2);
    assert DaysBeforeMonthEnd(y, 10) == 276 + DaysInMonth(y, 2);
    assert DaysBeforeMonthEnd(y, 11) == 306 + DaysInMonth(y, 2);
  }

  /** A date that exists on the calendar. */
  predicate ValidDate(d: Date) {
    1 <= d.month <= 12 && 1 <= d.day <= DaysInMonth(d.year, d.month)
  }

  /** Strict chronological order of two dates (both taken at midnight). */
  predicate Before(a: Date, b: Date) {
    a.year < b.year
    || (a.year == b.year && a.month < b.month)
    || (a.year == b.year && a.month == b.month && a.day < b.day)
  }

  // ---------------------------------------------------------------------
  // Decimal strings

  predicate IsDigit(c: char) {
    '0' <= c <= '9'
  }

  predicate AllDigits(s: string) {
    forall i :: 0 <= i < |s| ==> IsDigit(s[i])
  }

  function DigitChar(n: nat): (c: char)
    requires n < 10
    ensures IsDigit(c)
  {
    (48 + n) as char
  }

  /** `String(n)` for a non-negative integer: decimal, no leading zeros. */
  function NatToString(n: nat): (s: string)
    ensures |s| >= 1 && AllDigits(s)
    ensures n < 10 <==> |s| == 1
    ensures s[0] == '0' ==> n == 0
    decreases n
  {
    if n < 10 then [DigitChar(n)] else NatToString(n / 10) + [DigitChar(n % 10)]
  }

  /** `String(n).padStart(2, '0')`. */
  function Pad2(n: nat): (s: string)
    ensures |s| >= 2 && AllDigits(s)
    ensures n < 100 <==> |s| == 2
  {
    if n < 10 then ['0', DigitChar(n)] else NatToString(n)
  }

  lemma {:induction false} NatToStringInjective(a: nat, b: nat)
    requires NatToString(a) == NatToString(b)
    ensures a == b
    decreases a
  {
    var s := NatToString(a);
    if a >= 10 {
      assert b >= 10;
      assert s[|s| - 1] == DigitChar(a % 10) && s[|s| - 1] == DigitChar(b % 10);
      assert NatToString(a / 10) == s[..|s| - 1] == NatToString(b / 10);
      NatToStringInjective(a / 10, b / 10);
    }
  }

  lemma Pad2Injective(a: nat, b: nat)
    requires Pad2(a) == Pad2(b)
    ensures a == b
  {
    if a < 10 && b < 10 {
      assert Pad2(a)[1] == DigitChar(a) && Pad2(b)[1] == DigitChar(b);
    } else if a >= 10 && b >= 10 {
      NatToStringInjective(a, b);
    }
  }

  // ---------------------------------------------------------------------
  // Keys and prefixes

  predicate StartsWith(s: string, prefix: string) {
    |prefix| <= |s| && s[..|prefix|] == prefix
  }

  /** `${year}-` : the prefix of every key in a year. */
  function YearPrefix(y: nat): string {
    NatToString(y) + "-"
  }

  /** `${year}-${pad2(month)}` : the prefix of every key in a month. */
  function MonthPrefix(y: nat, m: nat): string {
    YearPrefix(y) + Pad2(m)
  }

  /** `YYYY-MM-DD` : the string form of a date. */
  function Key(d: Date): (r: string)
    ensures StartsWith(r, YearPrefix(d.year)) && StartsWith(r, MonthPrefix(d.year, d.month))
    ensures d.day < 100 <==> |r| == |MonthPrefix(d.year, d.month)| + 3
  {
    MonthPrefix(d.year, d.month) + "-" + Pad2(d.day)
  }

  /** Two dash-terminated digit runs at the head of a string agree. */
  lemma DashHead(a: string, b: string, rest: string)
    requires AllDigits(a) && AllDigits(b)
    requires StartsWith(a + "-" + rest, b + "-")
    ensures a == b
  {
    var s := a + "-" + rest;
    assert s[|a|] == '-';
    assert s[|b|] == s[..|b| + 1][|b|] == '-';
    assert forall i :: 0 <= i < |a| ==> s[i] == a[i];
    assert forall i :: 0 <= i < |b| ==> s[i] == s[..|b| + 1][i] == b[i];
    assert |a| == |b|;
    assert a == s[..|a|] == (b + "-")[..|b|] == b;
  }

  /** A string starts with `p + q` exactly when it starts with `p` and the
      remainder starts with `q`. */
  lemma StartsWithConcat(s: string, p: string, q: string)
    ensures StartsWith(s, p + q) <==> StartsWith(s, p) && StartsWith(s[|p|..], q)
  {
    if StartsWith(s, p) && StartsWith(s[|p|..], q) {
      assert s[..|p + q|] == s[..|p|] + s[|p|..][..|q|];
    }
    if StartsWith(s, p + q) {
      assert s[..|p|] == (p + q)[..|p|];
      assert s[|p|..][..|q|] == s[..|p + q|][|p|..];
    }
  }

  lemma KeyShape(d: Date)
    ensures Key(d) == NatToString(d.year) + "-" + (Pad2(d.month) + "-" + Pad2(d.day))
    ensures Key(d)[|YearPrefix(d.year)|..] == Pad2(d.month) + "-" + Pad2(d.day)
  {
  }

  /** A key lies in the year prefix of `y` exactly when its year is `y`. */
  lemma {:induction false} YearPrefixMatch(d: Date, y: nat)
    ensures StartsWith(Key(d), YearPrefix(y)) <==> d.year == y
  {
    KeyShape(d);
    if StartsWith(Key(d), YearPrefix(y)) {
      DashHead(NatToString(d.year), NatToString(y), Pad2(d.month) + "-" + Pad2(d.day));
      NatToStringInjective(d.year, y);
    }
  }

  /** A key lies in the zero-padded month prefix of (y, m) exactly when its
      year is `y` and its month is `m` (both months below 100, so that the
      padded forms have the same width). */
  lemma {:induction false} MonthPrefixMatch(d: Date, y: nat, m: nat)
    requires m < 100 && d.month < 100
    ensures StartsWith(Key(d), MonthPrefix(y, m)) <==> d.year == y && d.month == m
  {
    KeyShape(d);
    StartsWithConcat(Key(d), YearPrefix(y), Pad2(m));
    YearPrefixMatch(d, y);
    if StartsWith(Key(d), MonthPrefix(y, m)) {
      var rest := Key(d)[|YearPrefix(y)|..];
      assert rest[..2] == Pad2(d.month);
      Pad2Injective(d.month, m);
    }
  }

  /** Distinct dates have distinct keys, so comparing keys (as the
      application does) is comparing dates. */
  lemma {:induction false} KeyInjective(a: Date, b: Date)
    requires Key(a) == Key(b)
    ensures a == b
  {
    YearPrefixMatch(a, b.year);
    assert StartsWith(Key(b), YearPrefix(b.year));
    assert a.year == b.year;
    var ra := Key(a)[|YearPrefix(a.year)|..];
    KeyShape(a);
    KeyShape(b);
    DashHead(Pad2(a.month), Pad2(b.month), Pad2(a.day));
    Pad2Injective(a.month, b.month);
    assert Pad2(a.day) == Key(a)[|MonthPrefix(a.year, a.month)| + 1..];
    Pad2Injective(a.day, b.day);
  }

  // ---------------------------------------------------------------------
  // Month navigation (`new Date(year, month - 1 ± 1, 1)`)

  /** Months counted from year 0, January: a view's position on the timeline. */
  function MonthIndex(v: YearMonth): int {
    v.year * 12 + (v.month - 1)
  }

  /** The month before, carrying into the previous year from January. */
  function PrevMonth(v: YearMonth): (r: YearMonth)
    ensures MonthIndex(r) == MonthIndex(v) - 1
  {
    if v.month == 1 then YearMonth(v.year - 1, 12) else YearMonth(v.year, v.month - 1)
  }

  /** The month after, carrying into the next year from December. */
  function NextMonth(v: YearMonth): (r: YearMonth)
    ensures MonthIndex(r) == MonthIndex(v) + 1
  {
    if v.month == 12 then YearMonth(v.year + 1, 1) else YearMonth(v.year, v.month + 1)
  }

  /** A month is determined by its position on the timeline. */
  lemma MonthIndexInjective(a: YearMonth, b: YearMonth)
    requires MonthIndex(a) == MonthIndex(b)
    ensures a == b
  {
  }

  /** Going back a month and then forward a month returns to the same view,
      and the other way round. */
  lemma {:induction false} PrevNextInverse(v: YearMonth)
    ensures NextMonth(PrevMonth(v)) == v
    ensures PrevMonth(NextMonth(v)) == v
  {
    MonthIndexInjective(NextMonth(PrevMonth(v)), v);
    MonthIndexInjective(PrevMonth(NextMonth(v)), v);
  }
}
