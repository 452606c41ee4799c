/**
 * Calendar dates as year/month/day of the proleptic Gregorian calendar, with
 * calendar-day addition (what Date.setDate(getDate() + n) amounts to) and the
 * chronological order the database uses for `date` columns.
 */
module Calendar {
  import opened Wrappers
  import opened Strings

  datatype Ymd = Ymd(year: int, month: int, day: int)

  predicate IsLeapYear(y: int) {
    (y % 4 == 0 && y % 100 != 0) || y % 400 == 0
  }

  function DaysInMonth(y: int, m: int): (n: int)
    requires 1 <= m <= 12
    ensures 28 <= n <= 31
    ensures m == 2 ==> (n == 29 <==> IsLeapYear(y))
  {
    if m == 2 then (if IsLeapYear(y) then 29 else 28)
    else if m == 4 || m == 6 || m == 9 || m == 11 then 30
    else 31
  }

  predicate IsValidYmd(d: Ymd) {
    1 <= d.month <= 12 && 1 <= d.day <= DaysInMonth(d.year, d.month)
  }

  /** A valid calendar date; its month is always in 1..12. */
  type Date = d: Ymd | IsValidYmd(d) witness Ymd(1970, 1, 1)

  /** Chronological order: `a` is on or before `b`. */
  predicate Le(a: Date, b: Date) {
    a.year < b.year
    || (a.year == b.year && (a.month < b.month || (a.month == b.month && a.day <= b.day)))
  }

  predicate Lt(a: Date, b: Date) {
    Le(a, b) && a != b
  }

  lemma LeIsTotalOrder(a: Date, b: Date, c: Date)
    ensures Le(a, a)
    ensures Le(a, b) || Le(b, a)
    ensures Le(a, b) && Le(b, a) ==> a == b
    ensures Le(a, b) && Le(b, c) ==> Le(a, c)
  {
  }

  /** The day after `d`: strictly later, and no valid date lies in between. */
  function NextDay(d: Date): (r: Date)
    ensures Lt(d, r)
    ensures forall x: Date {:trigger Le(r, x)} :: Lt(d, x) ==> Le(r, x)
  {
    if d.day < DaysInMonth(d.year, d.month) then Ymd(d.year, d.month, d.day + 1)
    else if d.month < 12 then Ymd(d.year, d.month + 1, 1)
    else Ymd(d.year + 1, 1, 1)
  }

  /** `d` plus `n` calendar days. */
  function AddDays(d: Date, n: nat): (r: Date)
    ensures Le(d, r)
    ensures n > 0 ==> Lt(d, r)
    decreases n
  {
    if n == 0 then d
    else
      var p := AddDays(d, n - 1);
      LeIsTotalOrder(d, p, NextDay(p));
      NextDay(p)
  }

  /** Adding days composes: d + a + b == d + (a + b). */
  lemma {:induction false} AddDaysAdditive(d: Date, a: nat, b: nat)
    ensures AddDays(AddDays(d, a), b) == AddDays(d, a + b)
    decreases b
  {
    if b > 0 {
      AddDaysAdditive(d, a, b - 1);
    }
  }

  /** Adding more days never gives an earlier date. */
  lemma {:induction false} AddDaysMonotonic(d: Date, a: nat, b: nat)
    requires a <= b
    ensures Le(AddDays(d, a), AddDays(d, b))
  {
    AddDaysAdditive(d, a, b - a);
    var x := AddDays(d, a);
    assert AddDays(x, b - a) == AddDays(d, b);
  }

  lemma AddOneDay(d: Date)
    ensures AddDays(d, 1) == NextDay(d)
  {
  }

  /** Value of an ASCII decimal digit string. */
  function DigitValue(s: string): (n: nat)
    requires forall i :: 0 <= i < |s| ==> IsDigit(s[i])
  {
    if s == [] then 0
    else
      assert IsDigit(s[|s| - 1]);
      10 * DigitValue(s[..|s| - 1]) + (s[|s| - 1] as int - '0' as int)
  }

  /** Ten characters: four digits, '-', two digits, '-', two digits. */
  predicate IsIsoShape(s: string) {
    && |s| == 10 && s[4] == '-' && s[7] == '-'
    && (forall i :: 0 <= i < 4 ==> IsDigit(s[i]))
    && IsDigit(s[5]) && IsDigit(s[6]) && IsDigit(s[8]) && IsDigit(s[9])
  }

  /**
   * Parses the "YYYY-MM-DD" text an HTML date input produces; any other text,
   * or a day that does not exist, gives None (an Invalid Date in the browser).
   */
  function ParseIsoDate(s: string): (r: Option<Date>)
    ensures r.Some? ==> IsIsoShape(s)
    ensures r.Some? ==>
      && r.value.year == DigitValue(s[..4])
      && r.value.month == DigitValue(s[5..7])
      && r.value.day == DigitValue(s[8..])
    ensures IsIsoShape(s) && IsValidYmd(Ymd(DigitValue(s[..4]), DigitValue(s[5..7]), DigitValue(s[8..])))
      ==> r.Some?
  {
    if IsIsoShape(s) then
      var d := Ymd(DigitValue(s[..4]), DigitValue(s[5..7]), DigitValue(s[8..]));
      if IsValidYmd(d) then Some(d) else None
    else None
  }
}
