/** Calendar dates and the two age computations the validators use. */
module Dates {
  import opened Wrappers
  import opened Numbers

  datatype Date = Date(year: int, month: int, day: int)

  predicate Valid(d: Date) {
    1 <= d.month <= 12 && 1 <= d.day <= 31
  }

  /** The `YYYY-MM-DD` form an HTML date input submits; anything else is
      treated as a string the date parser rejects. */
  function ParseIso(s: string): (r: Option<Date>)
    ensures r.Some? ==> Valid(r.value) && 0 <= r.value.year <= 9999
  {
    if |s| == 10 && AllDigits(s[..4]) && s[4] == '-' && AllDigits(s[5..7]) && s[7] == '-' && AllDigits(s[8..]) then
      var d := Date(Value(s[..4]), Value(s[5..7]), Value(s[8..]));
      if Valid(d) && d.year <= 9999 then Some(d) else None
    else None
  }

  function Pad2(n: nat): (s: string)
    requires n < 100
    ensures |s| == 2 && AllDigits(s) && Value(s) == n
  {
    var s := [DigitChar(n / 10), DigitChar(n % 10)];
    assert s[..1] == [DigitChar(n / 10)];
    assert [DigitChar(n / 10)][..0] == [];
    assert Value(s[..1]) == n / 10;
    s
  }

  function Pad4(n: nat): (s: string)
    requires n < 10000
    ensures |s| == 4 && AllDigits(s) && Value(s) == n
  {
    var s := Pad2(n / 100) + Pad2(n % 100);
    assert s[..3] == Pad2(n / 100) + [s[2]];
    assert s[..2] == Pad2(n / 100);
    s
  }

  function FormatIso(d: Date): string
    requires Valid(d) && 0 <= d.year <= 9999
  {
    Pad4(d.year) + "-" + Pad2(d.month) + "-" + Pad2(d.day)
  }

  /** Every valid date written as `YYYY-MM-DD` parses back to itself. */
  lemma ParseFormat(d: Date)
    requires Valid(d) && 0 <= d.year <= 9999
    ensures ParseIso(FormatIso(d)) == Some(d)
  {
    var s := FormatIso(d);
    assert s[..4] == Pad4(d.year);
    assert s[5..7] == Pad2(d.month);
    assert s[8..] == Pad2(d.day);
  }

  /** `a` falls strictly before `b`. */
  predicate Before(a: Date, b: Date) {
    a.year < b.year
    || (a.year == b.year && (a.month < b.month || (a.month == b.month && a.day < b.day)))
  }

  /** Age by calendar year: current year minus birth year, whatever the day. */
  function CalendarAge(today: Date, birth: Date): int {
    today.year - birth.year
  }

  /** Whole years from `a` to a date `b` that is not before it. */
  function WholeYears(a: Date, b: Date): (n: nat)
    requires !Before(b, a)
    ensures n == b.year - a.year || n == b.year - a.year - 1
  {
    if b.month < a.month || (b.month == a.month && b.day < a.day) then b.year - a.year - 1
    else b.year - a.year
  }

  /** The current moment as `new DateTime()` holds it: a date and the
      seconds elapsed since midnight. */
  datatype Moment = Moment(date: Date, second: nat)

  /** The `y` field of `$now->diff($birth)` for a birth date at midnight:
      whole years between the two, whichever comes first. Seen from a moment
      past midnight, a future date on today's month and day is not yet a
      whole number of years away. */
  function DiffYears(now: Moment, birth: Date): nat {
    if !Before(now.date, birth) then WholeYears(birth, now.date)
    else
      var n := WholeYears(now.date, birth);
      if now.second > 0 && birth.month == now.date.month && birth.day == now.date.day then n - 1 else n
  }

  /** For a birth date not after today the exact age is the calendar age or
      one less, whatever the time of day. */
  lemma ExactAgeNearCalendarAge(now: Moment, birth: Date)
    requires !Before(now.date, birth)
    ensures CalendarAge(now.date, birth) - 1 <= DiffYears(now, birth) <= CalendarAge(now.date, birth)
    ensures DiffYears(now, birth) == CalendarAge(now.date, birth)
        <==> !(now.date.month < birth.month || (now.date.month == birth.month && now.date.day < birth.day))
    ensures DiffYears(now, birth) == DiffYears(now.(second := 0), birth)
  {
  }
}
