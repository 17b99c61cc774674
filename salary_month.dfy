/** Pay-period attribution of an approved assignment (src/app/page.tsx `getSalaryMonth`
    and `monthLabel`). Work approved up to the end of the 5th of the following month
    still counts toward the job's own month; later approvals count toward the month
    in which they happened. */
module SalaryMonth {

  import opened Types
  import opened Text
  import opened Calendar

  /** What `${NaN}-${String(NaN).padStart(2, "0")}` prints for an Invalid Date. */
  const InvalidKey: string := "NaN-NaN"

  /** `new Date(m === 12 ? y + 1 : y, m === 12 ? 0 : m, 5, 23, 59, 59)`, with the
      Date constructor's rules: a year argument from 0 to 99 means 1900 plus it, and a
      month index past 11 carries into the following years. */
  function Cutoff(job: Month): DateTime
  {
    var yearArg := if job.month == 12 then job.year + 1 else job.year;
    var monthIndex := if job.month == 12 then 0 else job.month;
    var fullYear := if 0 <= yearArg <= 99 then 1900 + yearArg else yearArg;
    DateTime(fullYear + monthIndex / 12, monthIndex % 12 + 1, 5, 23, 59, 59, 0)
  }

  /** The salary month of an assignment whose job belongs to `jobMonth`. */
  function GetSalaryMonth(jobMonth: string, approvedAt: Option<string>, local: LocalTime): (r: string)
    ensures !Truthy(approvedAt) ==> r == jobMonth
    ensures r == jobMonth || r == InvalidKey
            || (Truthy(approvedAt) && local(approvedAt.value).Some?
                && r == MonthKey(MonthOf(local(approvedAt.value).value)))
  {
    if !Truthy(approvedAt) then jobMonth
    else match local(approvedAt.value)
      case None => InvalidKey
      case Some(approved) =>
        match ParseMonthKey(jobMonth)
        case None => MonthKey(MonthOf(approved))
        case Some(jm) =>
          if AtOrBefore(approved, Cutoff(jm)) then jobMonth else MonthKey(MonthOf(approved))
  }

  /** The last moment that still counts toward `m`: 23:59:59 on the 5th of the next
      month, which for December is the 5th of January of the next year. */
  function GraceEnd(m: Month): DateTime
    requires 1 <= m.month <= 12
  {
    if m.month == 12 then DateTime(m.year + 1, 1, 5, 23, 59, 59, 0)
    else DateTime(m.year, m.month + 1, 5, 23, 59, 59, 0)
  }

  /** For four-digit years the Date arithmetic lands exactly on the grace end. */
  lemma CutoffIsGraceEnd(m: Month)
    requires m.year >= 100 && 1 <= m.month <= 12
    ensures Cutoff(m) == GraceEnd(m)
  {
  }

  /** For a well-formed job month and a valid approval date, the salary month is the
      job month exactly when the approval is no later than the grace end. */
  lemma SalaryMonthRule(m: Month, approvedAt: string, local: LocalTime)
    requires m.year >= 100 && 1 <= m.month <= 12
    requires approvedAt != "" && local(approvedAt).Some?
    ensures var a := local(approvedAt).value;
            GetSalaryMonth(MonthKey(m), Some(approvedAt), local)
            == if AtOrBefore(a, GraceEnd(m)) then MonthKey(m) else MonthKey(MonthOf(a))
  {
    ParseMonthKeyRoundTrip(m);
    CutoffIsGraceEnd(m);
  }

  predicate MonthBefore(a: Month, b: Month) {
    a.year < b.year || (a.year == b.year && a.month < b.month)
  }

  /** An approval past the grace end lands in a strictly later month than the job's. */
  lemma LateApprovalMovesForward(m: Month, a: DateTime)
    requires 1 <= m.month <= 12
    requires !AtOrBefore(a, GraceEnd(m))
    ensures MonthBefore(m, MonthOf(a))
  {
  }

  /** The worked cases: job month "2026-02", approved exactly at 23:59:59 on 5 March,
      or one second past midnight on 6 March. */
  lemma CutoffExamples(local: LocalTime, atCutoff: string, justAfter: string)
    requires atCutoff != "" && local(atCutoff) == Some(DateTime(2026, 3, 5, 23, 59, 59, 0))
    requires justAfter != "" && local(justAfter) == Some(DateTime(2026, 3, 6, 0, 0, 1, 0))
    ensures GetSalaryMonth("2026-02", Some(atCutoff), local) == "2026-02"
    ensures GetSalaryMonth("2026-02", Some(justAfter), local) == "2026-03"
  {
    assert NatToString(2026) == "2026";
    assert MonthKey(Month(2026, 2)) == "2026-02";
    assert MonthKey(Month(2026, 3)) == "2026-03";
    SalaryMonthRule(Month(2026, 2), atCutoff, local);
    SalaryMonthRule(Month(2026, 2), justAfter, local);
  }

  /** `Tháng ${Number(m)}/${y}` where `const [y, m] = ym.split("-")`. */
  function MonthLabel(ym: string): string
  {
    var (y, m) := SplitDash(ym);
    "Tháng " + (match m case None => "NaN" case Some(t) => NumberText(t)) + "/" + y
  }

  /** The label of a stored month key drops the month's leading zero. */
  lemma MonthLabelOfKey(m: Month)
    requires m.year >= 0 && m.month >= 0
    ensures MonthLabel(MonthKey(m)) == "Tháng " + NatToString(m.month) + "/" + NatToString(m.year)
  {
    SplitMonthKey(m);
    PadStart2RoundTrip(m.month);
  }
}
