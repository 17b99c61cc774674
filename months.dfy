/** The month picker (src/app/page.tsx `availableMonths`, and the director's
    `salaryMonths`, which computes the same list): the current month, every job's month
    and the salary month of every approved assignment, newest first. */
module Months {

  import opened Types
  import opened Calendar
  import opened SalaryMonth
  import opened Payroll
  import opened Seqs

  /** JavaScript's default `sort()` order on strings: character by character, a proper
      prefix first. */
  predicate LexLess(a: string, b: string) {
    if a == [] then b != []
    else if b == [] then false
    else if a[0] != b[0] then a[0] < b[0]
    else LexLess(a[1..], b[1..])
  }

  lemma {:induction false} LexIrreflexive(a: string)
    ensures !LexLess(a, a)
  {
    if a != [] {
      LexIrreflexive(a[1..]);
    }
  }

  lemma {:induction false} LexTransitive(a: string, b: string, c: string)
    requires LexLess(a, b) && LexLess(b, c)
    ensures LexLess(a, c)
  {
    if a != [] && a[0] == b[0] && b[0] == c[0] {
      LexTransitive(a[1..], b[1..], c[1..]);
    }
  }

  lemma {:induction false} LexTotal(a: string, b: string)
    requires a != b
    ensures LexLess(a, b) || LexLess(b, a)
  {
    if a != [] && b != [] && a[0] == b[0] {
      assert a == [a[0]] + a[1..] && b == [b[0]] + b[1..];
      LexTotal(a[1..], b[1..]);
    }
  }

  predicate Distinct(s: seq<string>) {
    forall i, j :: 0 <= i < j < |s| ==> s[i] != s[j]
  }

  predicate Ascending(s: seq<string>) {
    forall i, j :: 0 <= i < j < |s| ==> LexLess(s[i], s[j])
  }

  /** `set.add(x)` on a Set kept as its elements in insertion order. */
  function Add(s: seq<string>, x: string): (r: seq<string>)
    requires Distinct(s)
    ensures Distinct(r) && forall y :: y in r <==> y in s || y == x
  {
    if x in s then s else s + [x]
  }

  /** `x` put into its place in the ascending `s`. */
  function Insert(s: seq<string>, x: string): (r: seq<string>)
    requires Ascending(s) && x !in s
    ensures Ascending(r) && |r| == |s| + 1
    ensures forall y :: y in r <==> y in s || y == x
  {
    if s == [] then [x]
    else if LexLess(x, s[0]) then
      assert forall j :: 0 <= j < |s| ==> LexLess(x, s[j]) by {
        forall j | 0 < j < |s| ensures LexLess(x, s[j]) { LexTransitive(x, s[0], s[j]); }
      }
      [x] + s
    else
      LexTotal(x, s[0]);
      var rest := Insert(s[1..], x);
      assert forall y :: y in rest ==> LexLess(s[0], y);
      [s[0]] + rest
  }

  /** `sort()` of the distinct elements of `s`. */
  function Sorted(s: seq<string>): (r: seq<string>)
    requires Distinct(s)
    ensures Ascending(r) && |r| == |s|
    ensures forall y :: y in r <==> y in s
  {
    if s == [] then []
    else
      assert Distinct(s[1..]) by {
        forall i, j | 0 <= i < j < |s[1..]| ensures s[1..][i] != s[1..][j] {
          assert s[1..][i] == s[i + 1] && s[1..][j] == s[j + 1];
        }
      }
      assert s[0] !in s[1..];
      Insert(Sorted(s[1..]), s[0])
  }

  /** A salary-month rule, `(jobMonth, approvedAt) => month`. */
  type SalaryMonthFn = (string, Option<string>) -> string

  /** `getSalaryMonth` read in local time. */
  function SalaryMonthOf(local: LocalTime): SalaryMonthFn {
    (jm: string, at: Option<string>) => GetSalaryMonth(jm, at, local)
  }

  /** The salary months of the approved assignments among `assignments` of a job booked
      in `jm`. */
  function ApprovalMonths(jm: string, assignments: seq<JobAssignment>, sm: SalaryMonthFn): set<string> {
    if assignments == [] then {}
    else
      var a := assignments[|assignments| - 1];
      ApprovalMonths(jm, assignments[..|assignments| - 1], sm)
      + (if Truthy(a.approvedAt) then {sm(jm, a.approvedAt)} else {})
  }

  /** The months the picker offers for `jobs`, as a set. */
  function MonthsOf(jobs: seq<Job>, current: string, sm: SalaryMonthFn): set<string> {
    if jobs == [] then {current}
    else
      var j := jobs[|jobs| - 1];
      MonthsOf(jobs[..|jobs| - 1], current, sm) + {JobMonth(j)} + ApprovalMonths(JobMonth(j), j.assignments, sm)
  }

  lemma MonthsOfSnoc(jobs: seq<Job>, j: Job, current: string, sm: SalaryMonthFn)
    ensures MonthsOf(jobs + [j], current, sm)
            == MonthsOf(jobs, current, sm) + {JobMonth(j)} + ApprovalMonths(JobMonth(j), j.assignments, sm)
  {
    assert (jobs + [j])[..|jobs|] == jobs;
  }

  lemma ApprovalMonthsSnoc(jm: string, assignments: seq<JobAssignment>, a: JobAssignment, sm: SalaryMonthFn)
    ensures ApprovalMonths(jm, assignments + [a], sm)
            == ApprovalMonths(jm, assignments, sm) + (if Truthy(a.approvedAt) then {sm(jm, a.approvedAt)} else {})
  {
    assert (assignments + [a])[..|assignments|] == assignments;
  }

  /** `m` is the month of one of `jobs`. */
  predicate IsJobMonth(jobs: seq<Job>, m: string) {
    exists i :: 0 <= i < |jobs| && m == JobMonth(jobs[i])
  }

  /** `m` is the salary month of an approved assignment among `assignments` of a job
      booked in `jm`. */
  predicate IsApprovalMonth(jm: string, assignments: seq<JobAssignment>, m: string, sm: SalaryMonthFn) {
    exists k :: 0 <= k < |assignments| && Truthy(assignments[k].approvedAt) && m == sm(jm, assignments[k].approvedAt)
  }

  /** `m` is the salary month of an approved assignment of one of `jobs`. */
  predicate IsAnyApprovalMonth(jobs: seq<Job>, m: string, sm: SalaryMonthFn) {
    exists i :: 0 <= i < |jobs| && IsApprovalMonth(JobMonth(jobs[i]), jobs[i].assignments, m, sm)
  }

  lemma {:induction false} ApprovalMonthsMembers(jm: string, assignments: seq<JobAssignment>, sm: SalaryMonthFn, m: string)
    ensures m in ApprovalMonths(jm, assignments, sm) <==> IsApprovalMonth(jm, assignments, m, sm)
  {
    if assignments != [] {
      var n := |assignments| - 1;
      ApprovalMonthsMembers(jm, assignments[..n], sm, m);
      assert forall k :: 0 <= k < n ==> assignments[..n][k] == assignments[k];
      if IsApprovalMonth(jm, assignments, m, sm) {
        var k :| 0 <= k < |assignments| && Truthy(assignments[k].approvedAt) && m == sm(jm, assignments[k].approvedAt);
        if k < n {
          assert assignments[..n][k] == assignments[k];
        }
      }
    }
  }

  lemma IsJobMonthSnoc(init: seq<Job>, last: Job, m: string)
    ensures IsJobMonth(init + [last], m) <==> IsJobMonth(init, m) || m == JobMonth(last)
  {
    var jobs := init + [last];
    if IsJobMonth(jobs, m) {
      var i :| 0 <= i < |jobs| && m == JobMonth(jobs[i]);
      if i < |init| {
        assert init[i] == jobs[i];
      }
    }
    if IsJobMonth(init, m) {
      var i :| 0 <= i < |init| && m == JobMonth(init[i]);
      assert init[i] == jobs[i];
    }
    assert jobs[|init|] == last;
  }

  lemma IsAnyApprovalMonthSnoc(init: seq<Job>, last: Job, m: string, sm: SalaryMonthFn)
    ensures IsAnyApprovalMonth(init + [last], m, sm) <==>
            IsAnyApprovalMonth(init, m, sm) || IsApprovalMonth(JobMonth(last), last.assignments, m, sm)
  {
    var jobs := init + [last];
    if IsAnyApprovalMonth(jobs, m, sm) {
      var i :| 0 <= i < |jobs| && IsApprovalMonth(JobMonth(jobs[i]), jobs[i].assignments, m, sm);
      if i < |init| {
        assert init[i] == jobs[i];
      }
    }
    if IsAnyApprovalMonth(init, m, sm) {
      var i :| 0 <= i < |init| && IsApprovalMonth(JobMonth(init[i]), init[i].assignments, m, sm);
      assert init[i] == jobs[i];
    }
    assert jobs[|init|] == last;
  }

  /** A month is offered exactly when it is the current month, the month of a job, or
      the salary month of an approved assignment. */
  lemma {:induction false} MonthsOfMembers(jobs: seq<Job>, current: string, sm: SalaryMonthFn, m: string)
    ensures m in MonthsOf(jobs, current, sm) <==>
              m == current || IsJobMonth(jobs, m) || IsAnyApprovalMonth(jobs, m, sm)
  {
    if jobs != [] {
      var n := |jobs| - 1;
      var init, last := jobs[..n], jobs[n];
      assert jobs == init + [last];
      MonthsOfMembers(init, current, sm, m);
      ApprovalMonthsMembers(JobMonth(last), last.assignments, sm, m);
      IsJobMonthSnoc(init, last, m);
      IsAnyApprovalMonthSnoc(init, last, m, sm);
    }
  }

  /** `availableMonths`: the loops fill the Set, then `Array.from(set).sort().reverse()`. */
  method AvailableMonths(jobs: seq<Job>, current: string, local: LocalTime) returns (months: seq<string>)
    ensures forall m :: m in months <==> m in MonthsOf(jobs, current, SalaryMonthOf(local))
    ensures forall i, j :: 0 <= i < j < |months| ==> LexLess(months[j], months[i])
  {
    ghost var sm := SalaryMonthOf(local);
    ghost var done: seq<Job> := [];
    var monthSet := [current];
    var i := 0;
    while i < |jobs|
      invariant 0 <= i <= |jobs| && done == jobs[..i] && Distinct(monthSet)
      invariant forall m :: m in monthSet <==> m in MonthsOf(done, current, sm)
    {
      var job := jobs[i];
      var jm := JobMonth(job);
      monthSet := Add(monthSet, jm);
      ghost var seen: seq<JobAssignment> := [];
      var k := 0;
      while k < |job.assignments|
        invariant 0 <= k <= |job.assignments| && seen == job.assignments[..k] && Distinct(monthSet)
        invariant forall m :: m in monthSet <==> m in MonthsOf(done, current, sm) + {jm} + ApprovalMonths(jm, seen, sm)
      {
        var a := job.assignments[k];
        if Truthy(a.approvedAt) {
          monthSet := Add(monthSet, GetSalaryMonth(jm, a.approvedAt, local));
        }
        ApprovalMonthsSnoc(jm, seen, a, sm);
        PrefixSnoc(job.assignments, k);
        seen := seen + [a];
        k := k + 1;
      }
      assert seen == job.assignments;
      MonthsOfSnoc(done, job, current, sm);
      PrefixSnoc(jobs, i);
      done := done + [job];
      i := i + 1;
    }
    assert done == jobs;
    var ascending := Sorted(monthSet);
    months := Reversed(ascending);
    forall m
      ensures m in months <==> m in ascending
    {
      ReversedMembers(ascending, m);
    }
  }

  /** Every month in which an employee has a line in the salary report is offered by
      the picker: approved work counts in a month that is some approval's salary month
      or its job's month, unapproved work in its job's month. */
  lemma ReportMonthsOffered(emp: Employee, jobs: seq<Job>, month: string, current: string, local: LocalTime)
    requires Shown(Row(emp, jobs, month, local))
    ensures month in MonthsOf(jobs, current, SalaryMonthOf(local))
  {
    var row := Row(emp, jobs, month, local);
    var e := if row.approved != [] then row.approved[0] else row.pending[0];
    assert e in row.approved || e in row.pending;
    var i :| 0 <= i < |jobs| && jobs[i] == e.job;
    var k :| 0 <= k < |e.job.assignments| && e.job.assignments[k] == e.assignment;
    MonthsOfMembers(jobs, current, SalaryMonthOf(local), month);
    if e.assignment.status == Approved && Truthy(e.assignment.approvedAt) {
      assert IsApprovalMonth(JobMonth(jobs[i]), jobs[i].assignments, month, SalaryMonthOf(local));
    } else {
      assert month == JobMonth(jobs[i]);
    }
  }
}
