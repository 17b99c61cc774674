/** Calendar values as the browser sees them: a local date and time, a (year, month)
    pay period, and the "YYYY-MM" key under which pay periods are stored and compared. */
module Calendar {

  import opened Types
  import opened Text

  /** A pay period; `month` runs from 1 (January) to 12. */
  datatype Month = Month(year: int, month: int)

  /** A local calendar date and time, fields as `getFullYear()`, `getMonth() + 1`,
      `getDate()`, `getHours()`, `getMinutes()`, `getSeconds()`, `getMilliseconds()`. */
  datatype DateTime = DateTime(year: int, month: int, day: int,
                               hour: int, minute: int, second: int, millisecond: int)

  /** `new Date(s)` read in the browser's time zone: None when `s` is not a date
      (an Invalid Date, whose fields are all NaN). */
  type LocalTime = string -> Option<DateTime>

  /** The model of `a <= b` on two dates: their local wall-clock fields compared
      field by field, most significant first (not the instants they stand for). */
  predicate AtOrBefore(a: DateTime, b: DateTime) {
    if a.year != b.year then a.year < b.year
    else if a.month != b.month then a.month < b.month
    else if a.day != b.day then a.day < b.day
    else if a.hour != b.hour then a.hour < b.hour
    else if a.minute != b.minute then a.minute < b.minute
    else if a.second != b.second then a.second < b.second
    else a.millisecond <= b.millisecond
  }

  function MonthOf(d: DateTime): Month {
    Month(d.year, d.month)
  }

  /** `${year}-${String(month).padStart(2, "0")}`. */
  function MonthKey(m: Month): string
  {
    IntToString(m.year) + "-" + PadStart2(m.month)
  }

  /** Index of the first '-' in `s`, or `|s|` when there is none. */
  function IndexOfDash(s: string): (i: nat)
    ensures i <= |s|
    ensures i < |s| ==> s[i] == '-'
    ensures forall k :: 0 <= k < i ==> s[k] != '-'
  {
    if s == [] || s[0] == '-' then 0 else 1 + IndexOfDash(s[1..])
  }

  /** The first two fields of `s.split("-")`; the second is missing when `s` has no '-'. */
  function SplitDash(s: string): (parts: (string, Option<string>))
    ensures parts.0 <= s
    ensures parts.1.None? <==> forall k :: 0 <= k < |s| ==> s[k] != '-'
  {
    var i := IndexOfDash(s);
    if i == |s| then (s, None)
    else
      var rest := s[i + 1..];
      (s[..i], Some(rest[..IndexOfDash(rest)]))
  }

  /** `const [y, m] = key.split("-").map(Number)`: None when either number is NaN
      (a non-digit field, or no second field at all). */
  function ParseMonthKey(key: string): (r: Option<Month>)
    ensures r.Some? ==> r.value.year >= 0 && r.value.month >= 0
  {
    var (first, second) := SplitDash(key);
    if second.None? then None
    else match (NumberOf(first), NumberOf(second.value))
      case (Some(y), Some(m)) => Some(Month(y, m))
      case _ => None
  }

  /** Two dash-free fields joined by '-' split back into those fields. */
  lemma SplitAtDash(a: string, b: string)
    requires forall k :: 0 <= k < |a| ==> a[k] != '-'
    requires forall k :: 0 <= k < |b| ==> b[k] != '-'
    ensures SplitDash(a + "-" + b) == (a, Some(b))
  {
    var s := a + "-" + b;
    assert forall k :: 0 <= k < |a| ==> s[k] == a[k];
    assert s[|a|] == '-';
    assert IndexOfDash(s) == |a|;
    assert s[|a| + 1..] == b;
    assert IndexOfDash(b) == |b|;
    assert b[..|b|] == b;
    assert s[..|a|] == a;
  }

  /** A key written by `MonthKey` for a non-negative year and month splits back into
      its year text and its padded month text. */
  lemma SplitMonthKey(m: Month)
    requires m.year >= 0 && m.month >= 0
    ensures SplitDash(MonthKey(m)) == (NatToString(m.year), Some(PadStart2(m.month)))
  {
    var y := NatToString(m.year);
    var p := PadStart2(m.month);
    PadStart2RoundTrip(m.month);
    assert forall k :: 0 <= k < |y| ==> IsDigit(y[k]);
    assert forall k :: 0 <= k < |p| ==> IsDigit(p[k]);
    SplitAtDash(y, p);
  }

  /** Every key written by `MonthKey` for a non-negative year and month reads back. */
  lemma ParseMonthKeyRoundTrip(m: Month)
    requires m.year >= 0 && m.month >= 0
    ensures ParseMonthKey(MonthKey(m)) == Some(m)
  {
    SplitMonthKey(m);
    PadStart2RoundTrip(m.month);
    DigitsRoundTrip(m.year);
  }
}
