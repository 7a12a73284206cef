/** Shared vocabulary: optional values, outcomes, calendar dates and text helpers. */
module Basics {

  datatype Option<+T> = None | Some(value: T)

  datatype Result<+T, +E> = Ok(value: T) | Err(error: E)

  /** A primary key. Keys stand for their printed form wherever the source compares strings. */
  type Id = nat

  /** Proleptic Gregorian ordinals of the first and last representable dates. */
  const DATE_MIN := 1
  const DATE_MAX := 3652059

  type Date = d: int | DATE_MIN <= d <= DATE_MAX witness DATE_MIN

  /** Monday is 0 and Sunday is 6; ordinal 1 is a Monday. */
  function Weekday(d: Date): (w: nat)
    ensures w < 7
  {
    (d + 6) % 7
  }

  const SATURDAY := 5
  const SUNDAY := 6

  /** The year after so many whole cycles; the last day of a leap year or of 400 years overshoots by one. */
  function YearFrom(a: nat, b: nat, c: nat, e: nat): int {
    var year := 400 * a + 100 * b + 4 * c + e + 1;
    if e == 4 || b == 4 then year - 1 else year
  }

  /** The Gregorian year holding ordinal `d`, by 400-, 100-, 4- and 1-year cycles. */
  function Year(d: Date): int {
    var n := d - 1;
    var n400 := n / 146097;
    var r400 := n % 146097;
    var n100 := r400 / 36524;
    var r100 := r400 % 36524;
    var n4 := r100 / 1461;
    var r4 := r100 % 1461;
    var n1 := r4 / 365;
    YearFrom(n400, n100, n4, n1)
  }

  /** Days before the first of January of the year. */
  function DaysBefore(year: int): int {
    var y := year - 1;
    365 * y + y / 4 - y / 100 + y / 400
  }

  /** A date lies in the year whose days it falls among. */
  lemma YearMeaning(d: Date)
    ensures DaysBefore(Year(d)) < d <= DaysBefore(Year(d) + 1)
  {
    var n := d - 1;
    var r400 := n % 146097;
    var r100 := r400 % 36524;
    var r4 := r100 % 1461;
    hide DaysBefore, YearFrom;
    Split(n, 146097);
    CenturyPart(r400);
    FourYearPart(r100);
    YearPart(r4);
    YearByParts(n / 146097, r400 / 36524, r100 / 1461, r4 / 365, r4 % 365, d);
  }

  lemma CenturyPart(r: nat)
    requires r < 146097
    ensures r == 36524 * (r / 36524) + r % 36524 && r / 36524 <= 4 && r % 36524 < 36524
    ensures r / 36524 == 4 ==> r % 36524 == 0
  {
  }

  lemma FourYearPart(r: nat)
    requires r < 36524
    ensures r == 1461 * (r / 1461) + r % 1461 && r / 1461 <= 24 && r % 1461 < 1461
    ensures r / 1461 == 24 ==> r % 1461 < 1460
    ensures r == 0 ==> r / 1461 == 0 && r % 1461 == 0
  {
  }

  lemma YearPart(r: nat)
    requires r < 1461
    ensures r == 365 * (r / 365) + r % 365 && r / 365 <= 4 && r % 365 < 365
    ensures r / 365 == 4 ==> r % 365 == 0
    ensures r == 0 ==> r / 365 == 0 && r % 365 == 0
  {
  }

  lemma Split(n: nat, unit: nat)
    requires unit > 0
    ensures n == unit * (n / unit) + n % unit && 0 <= n % unit < unit && 0 <= n / unit
  {
  }

  /** The date with `rest` days into single year `e` of 4-year cycle `c` of century `b` of 400-year cycle `a`. */
  lemma YearByParts(a: nat, b: nat, c: nat, e: nat, rest: nat, d: int)
    requires d == 146097 * a + 36524 * b + 1461 * c + 365 * e + rest + 1
    requires rest < 365 && e <= 4 && (e == 4 ==> rest == 0) && c <= 24 && (c == 24 && b < 4 ==> 365 * e + rest < 1460)
    requires b <= 4 && (b == 4 ==> c == 0 && e == 0 && rest == 0)
    ensures DaysBefore(YearFrom(a, b, c, e)) < d <= DaysBefore(YearFrom(a, b, c, e) + 1)
  {
    hide DaysBefore;
    if b == 4 {
      LeapDays(a, 3, 24, 3);
      LeapDays(a + 1, 0, 0, 0);
    } else if e == 4 {
      LeapDays(a, b, c, 3);
      NextYear(a, b, c);
    } else {
      LeapDays(a, b, c, e);
      if e == 3 {
        NextYear(a, b, c);
      } else {
        LeapDays(a, b, c, e + 1);
      }
    }
  }

  /** Days before the year that starts `a` 400-year, `b` 100-year, `c` 4-year and `e` single years after year 1. */
  lemma LeapDays(a: nat, b: nat, c: nat, e: nat)
    requires b <= 3 && c <= 24 && e <= 3
    ensures DaysBefore(400 * a + 100 * b + 4 * c + e + 1) == 146097 * a + 36524 * b + 1461 * c + 365 * e
  {
    var y := 400 * a + 100 * b + 4 * c + e;
    assert y / 4 == 100 * a + 25 * b + c;
    assert y / 100 == 4 * a + b;
    assert y / 400 == a;
  }

  /** The year after the last one of a 4-year cycle. */
  lemma NextYear(a: nat, b: nat, c: nat)
    requires b <= 3 && c <= 24
    ensures DaysBefore(400 * a + 100 * b + 4 * c + 5)
            == 146097 * a + 36524 * b + 1461 * (c + 1) - (if c == 24 && b < 3 then 1 else 0)
  {
    if c < 24 {
      LeapDays(a, b, c + 1, 0);
    } else if b < 3 {
      LeapDays(a, b + 1, 0, 0);
    } else {
      LeapDays(a + 1, 0, 0, 0);
    }
  }

  /** Weekdays follow one another, and 3 January 2022 is a Monday. */
  lemma WeekdayMeaning(d: Date)
    ensures Weekday(738158) == 0 && Year(738158) == 2022
    ensures d < DATE_MAX ==> Weekday(d + 1) == if Weekday(d) == SUNDAY then 0 else Weekday(d) + 1
  {
  }

  predicate IsSpace(c: char) {
    c == ' ' || c == '\t' || c == '\n' || c == '\r'
  }

  function StripLeft(s: string): string {
    if s != "" && IsSpace(s[0]) then StripLeft(s[1..]) else s
  }

  function StripRight(s: string): string {
    if s != "" && IsSpace(s[|s| - 1]) then StripRight(s[..|s| - 1]) else s
  }

  function Strip(s: string): string {
    StripRight(StripLeft(s))
  }

  ghost predicate AllSpace(s: string) {
    forall i :: 0 <= i < |s| ==> IsSpace(s[i])
  }

  lemma {:induction false} StripLeftMeaning(s: string) returns (before: string)
    ensures s == before + StripLeft(s) && AllSpace(before)
    ensures StripLeft(s) != "" ==> !IsSpace(StripLeft(s)[0])
  {
    if s != "" && IsSpace(s[0]) {
      var rest := StripLeftMeaning(s[1..]);
      before := [s[0]] + rest;
    } else {
      before := "";
    }
  }

  lemma {:induction false} StripRightMeaning(s: string) returns (behind: string)
    ensures s == StripRight(s) + behind && AllSpace(behind)
    ensures StripRight(s) != "" ==> !IsSpace(StripRight(s)[|StripRight(s)| - 1])
  {
    if s != "" && IsSpace(s[|s| - 1]) {
      var rest := StripRightMeaning(s[..|s| - 1]);
      behind := rest + [s[|s| - 1]];
    } else {
      behind := "";
    }
  }

  /** Stripping takes blanks off both ends and nothing else, and leaves none there. */
  lemma StripMeaning(s: string) returns (before: string, behind: string)
    ensures s == before + Strip(s) + behind && AllSpace(before) && AllSpace(behind)
    ensures Strip(s) != "" ==> !IsSpace(Strip(s)[0]) && !IsSpace(Strip(s)[|Strip(s)| - 1])
  {
    before := StripLeftMeaning(s);
    behind := StripRightMeaning(StripLeft(s));
    assert Strip(s) != "" ==> Strip(s)[0] == StripLeft(s)[0];
  }

  predicate IsBlank(s: string) {
    Strip(s) == ""
  }

  function LowerChar(c: char): char {
    if 'A' <= c <= 'Z' then (c as int + 32) as char else c
  }

  function Lower(s: string): string {
    seq(|s|, i requires 0 <= i < |s| => LowerChar(s[i]))
  }

  /** `rest` with the optional row `x` put at position `i`. */
  function InsertAt<T>(rest: seq<T>, i: nat, x: Option<T>): seq<T>
    requires i <= |rest|
  {
    if x.None? then rest else rest[..i] + [x.value] + rest[i..]
  }
}
