/**
 * Calendar dates as integer triples and times of day as seconds, the way
 * the code reads `YYYY-MM-DD` and `HH:MM[:SS]` strings through JavaScript's
 * `Date`. Time zones are not modelled: a date string and a local calendar
 * day are the same day.
 */
module Calendar {
  import opened Wrappers
  import opened Js

  datatype Date = Date(year: int, month: int, day: int)

  predicate IsLeap(y: int) {
    y % 4 == 0 && (y % 100 != 0 || y % 400 == 0)
  }

  function DaysInMonth(y: int, m: int): (n: int)
    requires 1 <= m <= 12
    ensures 28 <= n <= 31
  {
    if m == 2 then (if IsLeap(y) then 29 else 28)
    else if m == 4 || m == 6 || m == 9 || m == 11 then 30
    else 31
  }

  predicate ValidDate(d: Date) {
    1 <= d.month <= 12 && 1 <= d.day <= DaysInMonth(d.year, d.month)
  }

  /** Strict chronological order of two dates. */
  predicate Before(a: Date, b: Date) {
    a.year < b.year
    || (a.year == b.year && a.month < b.month)
    || (a.year == b.year && a.month == b.month && a.day < b.day)
  }

  /** `new Date(y, m, d + 1)`: the day after `d`, rolling over months and years. */
  function NextDay(d: Date): (t: Date)
    requires ValidDate(d)
    ensures ValidDate(t) && Before(d, t)
  {
    if d.day < DaysInMonth(d.year, d.month) then Date(d.year, d.month, d.day + 1)
    else if d.month < 12 then Date(d.year, d.month + 1, 1)
    else Date(d.year + 1, 1, 1)
  }

  /**
   * Tomorrow is the first date after today: a valid date comes before
   * tomorrow exactly when it does not come after today.
   */
  lemma BeforeTomorrow(today: Date, x: Date)
    requires ValidDate(today) && ValidDate(x)
    ensures Before(x, NextDay(today)) <==> !Before(today, x)
  {
  }

  function DigitAt(s: string, i: nat): int
    requires i < |s|
  {
    s[i] as int - '0' as int
  }

  /** Value of the digits s[i..i+n] (all of them assumed to be digits). */
  function NumberAt(s: string, i: nat, n: nat): int
    requires i + n <= |s|
    decreases n
  {
    if n == 0 then 0 else NumberAt(s, i, n - 1) * 10 + DigitAt(s, i + n - 1)
  }

  predicate DigitsAt(s: string, i: nat, n: nat)
    requires i + n <= |s|
  {
    forall k :: i <= k < i + n ==> IsDigit(s[k])
  }

  /** The shape `YYYY-MM-DD`: four digits, a dash, two digits, a dash, two digits. */
  predicate IsoShape(s: string) {
    |s| == 10 && DigitsAt(s, 0, 4) && s[4] == '-' && DigitsAt(s, 5, 2) && s[7] == '-' && DigitsAt(s, 8, 2)
  }

  /** The year, month and day the digits of a `YYYY-MM-DD` string name. */
  function IsoFields(s: string): Date
    requires IsoShape(s)
  {
    Date(NumberAt(s, 0, 4), NumberAt(s, 5, 2), NumberAt(s, 8, 2))
  }

  /**
   * `new Date("YYYY-MM-DD")`: four digits, a dash, two digits, a dash, two
   * digits, naming an existing calendar day; None for an Invalid Date.
   */
  function ParseIsoDate(s: string): (r: Option<Date>)
    ensures r.Some? <==> IsoShape(s) && ValidDate(IsoFields(s))
    ensures r.Some? ==> r.value == IsoFields(s)
    ensures r.Some? ==> ValidDate(r.value) && 0 <= r.value.year <= 9999
    ensures r.Some? ==> |s| == 10 && s[4] == '-' && s[7] == '-'
    ensures r.Some? ==> forall i :: 0 <= i < |s| ==> IsDigit(s[i]) || s[i] == '-'
  {
    if IsoShape(s) then
      assert 0 <= NumberAt(s, 0, 4) <= 9999 by {
        assert 0 <= NumberAt(s, 0, 1) <= 9;
        assert 0 <= NumberAt(s, 0, 2) <= 99;
        assert 0 <= NumberAt(s, 0, 3) <= 999;
      }
      var d := Date(NumberAt(s, 0, 4), NumberAt(s, 5, 2), NumberAt(s, 8, 2));
      if ValidDate(d) then Some(d) else None
    else
      None
  }

  /** The shape `HH:MM` or `HH:MM:SS` (digits and colons only, no range check). */
  predicate TimeShape(s: string) {
    (|s| == 5 || |s| == 8)
    && DigitsAt(s, 0, 2) && s[2] == ':' && DigitsAt(s, 3, 2)
    && (|s| == 8 ==> s[5] == ':' && DigitsAt(s, 6, 2))
  }

  /** Hours at most 23, minutes and seconds at most 59. */
  predicate FieldsInRange(s: string)
    requires TimeShape(s)
  {
    NumberAt(s, 0, 2) <= 23 && NumberAt(s, 3, 2) <= 59 && (|s| == 8 ==> NumberAt(s, 6, 2) <= 59)
  }

  /**
   * The time of day `Date.parse` reads from `HH:MM` or `HH:MM:SS`, in seconds
   * since midnight; None (NaN) for anything else or an out-of-range field.
   */
  function ParseTimeOfDay(s: string): (r: Option<int>)
    ensures r.Some? <==> TimeShape(s) && FieldsInRange(s)
    ensures r.Some? ==> 0 <= r.value < 86400
    ensures r.Some? ==>
      r.value == NumberAt(s, 0, 2) * 3600 + NumberAt(s, 3, 2) * 60 + (if |s| == 8 then NumberAt(s, 6, 2) else 0)
  {
    if TimeShape(s) then
      var h := NumberAt(s, 0, 2);
      var m := NumberAt(s, 3, 2);
      var sec := if |s| == 8 then NumberAt(s, 6, 2) else 0;
      assert 0 <= NumberAt(s, 0, 1) && 0 <= NumberAt(s, 3, 1);
      assert |s| == 8 ==> 0 <= NumberAt(s, 6, 1);
      if h <= 23 && m <= 59 && sec <= 59 then Some(h * 3600 + m * 60 + sec) else None
    else
      None
  }

  /** A time given as a value: only strings can parse. */
  function TimeOf(v: Value): (r: Option<int>)
    ensures r.Some? ==> v.Str? && TimeShape(v.s)
    ensures v.Str? ==> r == ParseTimeOfDay(v.s)
    ensures !v.Str? ==> r == None
  {
    if v.Str? then ParseTimeOfDay(v.s) else None
  }
}
