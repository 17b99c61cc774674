/** Pay views over the job list (src/app/page.tsx): the approvals waiting for the
    director, the viewer's own assignments, the director's salary report for one month
    and the employee's earned / in-progress figures. Each list is a selection of
    `{ job, assignment }` pairs made with `flatMap` and `filter`. */
module Payroll {

  import opened Types
  import opened Seqs
  import opened Text
  import opened Calendar
  import opened SalaryMonth

  /** `{ job, assignment }`. */
  datatype Entry = Entry(job: Job, assignment: JobAssignment)

  /** Which pairs a `filter` keeps. */
  type Criterion = (Job, JobAssignment) -> bool

  /** `job.month || job.createdAt.slice(0, 7)`: the month a job is booked in. */
  function JobMonth(j: Job): string {
    if Truthy(j.month) then j.month.value else Slice(j.createdAt, 7)
  }

  /** The kept pairs of one job, in assignment order. */
  function SelectIn(j: Job, assignments: seq<JobAssignment>, keep: Criterion): (r: seq<Entry>)
    ensures forall e :: e in r <==> e.job == j && e.assignment in assignments && keep(j, e.assignment)
  {
    if assignments == [] then []
    else (if keep(j, assignments[0]) then [Entry(j, assignments[0])] else []) + SelectIn(j, assignments[1..], keep)
  }

  /** Selecting from a job's assignments in two parts selects from each part; a single
      assignment gives its pair exactly when it is kept. */
  lemma {:induction false} SelectInSplit(j: Job, a: seq<JobAssignment>, b: seq<JobAssignment>, keep: Criterion)
    ensures SelectIn(j, a + b, keep) == SelectIn(j, a, keep) + SelectIn(j, b, keep)
    ensures |a| == 1 ==> SelectIn(j, a, keep) == if keep(j, a[0]) then [Entry(j, a[0])] else []
  {
    if a == [] {
      assert a + b == b;
    } else {
      assert SelectIn(j, a + b, keep) == SelectIn(j, a, keep) + SelectIn(j, b, keep) by {
        assert (a + b)[0] == a[0] && (a + b)[1..] == a[1..] + b;
        SelectInSplit(j, a[1..], b, keep);
      }
      if |a| == 1 {
        assert SelectIn(j, a[1..], keep) == [] by {
          assert a[1..] == [];
        }
      }
    }
  }

  /** `jobs.flatMap(job => job.assignments.filter(a => keep(job, a)).map(a => ({ job, assignment: a })))`. */
  function Select(jobs: seq<Job>, keep: Criterion): (r: seq<Entry>)
    ensures forall e :: e in r <==> e.job in jobs && e.assignment in e.job.assignments && keep(e.job, e.assignment)
  {
    if jobs == [] then []
    else SelectIn(jobs[0], jobs[0].assignments, keep) + Select(jobs[1..], keep)
  }

  /** Selecting from a job list in two parts selects from each part; a single job gives
      its own kept pairs. With `SelectInSplit` this fixes the result pair by pair: job
      order first, then assignment order, each kept pair once. */
  lemma {:induction false} SelectSplit(a: seq<Job>, b: seq<Job>, keep: Criterion)
    ensures Select(a + b, keep) == Select(a, keep) + Select(b, keep)
    ensures |a| == 1 ==> Select(a, keep) == SelectIn(a[0], a[0].assignments, keep)
  {
    if a == [] {
      assert a + b == b;
    } else {
      assert Select(a + b, keep) == Select(a, keep) + Select(b, keep) by {
        assert (a + b)[0] == a[0] && (a + b)[1..] == a[1..] + b;
        SelectSplit(a[1..], b, keep);
      }
      if |a| == 1 {
        assert Select(a[1..], keep) == [] by {
          assert a[1..] == [];
        }
      }
    }
  }

  /** The predicate on pairs that `keep` stands for. */
  function Pairwise(keep: Criterion): Entry -> bool {
    (e: Entry) => keep(e.job, e.assignment)
  }

  /** `entries.filter(keep)`. */
  function FilterEntries(entries: seq<Entry>, keep: Criterion): (r: seq<Entry>)
    ensures forall e :: e in r <==> e in entries && keep(e.job, e.assignment)
    ensures IsSubsequence(r, entries)
  {
    Filter(entries, Pairwise(keep))
  }

  /** `entries.reduce((s, x) => s + x.assignment.salaryEarned, 0)`. */
  function Earned(entries: seq<Entry>): int {
    if entries == [] then 0 else entries[0].assignment.salaryEarned + Earned(entries[1..])
  }

  lemma {:induction false} EarnedAppend(a: seq<Entry>, b: seq<Entry>)
    ensures Earned(a + b) == Earned(a) + Earned(b)
  {
    if a != [] {
      assert (a + b)[1..] == a[1..] + b;
      EarnedAppend(a[1..], b);
    } else {
      assert a + b == b;
    }
  }

  /** Filtering pairs in two parts filters each part; a single pair is kept exactly
      when `keep` accepts it. */
  lemma FilterAppend(a: seq<Entry>, b: seq<Entry>, keep: Criterion)
    ensures FilterEntries(a + b, keep) == FilterEntries(a, keep) + FilterEntries(b, keep)
    ensures |a| == 1 ==> FilterEntries(a, keep) == if keep(a[0].job, a[0].assignment) then a else []
  {
    FilterSplit(a, b, Pairwise(keep));
  }

  /** Filtering a selection is selecting by both criteria at once. */
  lemma {:induction false} FilterSelect(jobs: seq<Job>, first: Criterion, second: Criterion, both: Criterion)
    requires forall j, a :: both(j, a) == (first(j, a) && second(j, a))
    ensures FilterEntries(Select(jobs, first), second) == Select(jobs, both)
  {
    if jobs != [] {
      FilterSelectIn(jobs[0], jobs[0].assignments, first, second, both);
      FilterAppend(SelectIn(jobs[0], jobs[0].assignments, first), Select(jobs[1..], first), second);
      FilterSelect(jobs[1..], first, second, both);
    }
  }

  lemma {:induction false} FilterSelectIn(j: Job, assignments: seq<JobAssignment>, first: Criterion, second: Criterion, both: Criterion)
    requires forall j, a :: both(j, a) == (first(j, a) && second(j, a))
    ensures FilterEntries(SelectIn(j, assignments, first), second) == SelectIn(j, assignments, both)
  {
    if assignments != [] {
      var head := if first(j, assignments[0]) then [Entry(j, assignments[0])] else [];
      FilterAppend(head, SelectIn(j, assignments[1..], first), second);
      FilterSelectIn(j, assignments[1..], first, second, both);
    }
  }

  /** Every assignment of every job earns a non-negative amount. */
  predicate NonNegativePay(jobs: seq<Job>) {
    forall i, k :: 0 <= i < |jobs| && 0 <= k < |jobs[i].assignments| ==> jobs[i].assignments[k].salaryEarned >= 0
  }

  /** With non-negative pay, a narrower selection never earns more. */
  lemma {:induction false} EarnedSelectMono(jobs: seq<Job>, narrow: Criterion, wide: Criterion)
    requires forall j, a :: narrow(j, a) ==> wide(j, a)
    requires NonNegativePay(jobs)
    ensures Earned(Select(jobs, narrow)) <= Earned(Select(jobs, wide))
  {
    if jobs != [] {
      assert forall k :: 0 <= k < |jobs[0].assignments| ==> jobs[0].assignments[k].salaryEarned >= 0;
      EarnedSelectInMono(jobs[0], jobs[0].assignments, narrow, wide);
      EarnedAppend(SelectIn(jobs[0], jobs[0].assignments, narrow), Select(jobs[1..], narrow));
      EarnedAppend(SelectIn(jobs[0], jobs[0].assignments, wide), Select(jobs[1..], wide));
      assert NonNegativePay(jobs[1..]) by {
        forall i, k | 0 <= i < |jobs[1..]| && 0 <= k < |jobs[1..][i].assignments|
          ensures jobs[1..][i].assignments[k].salaryEarned >= 0
        {
          assert jobs[1..][i] == jobs[i + 1];
        }
      }
      EarnedSelectMono(jobs[1..], narrow, wide);
    }
  }

  lemma {:induction false} EarnedSelectInMono(j: Job, assignments: seq<JobAssignment>, narrow: Criterion, wide: Criterion)
    requires forall j, a :: narrow(j, a) ==> wide(j, a)
    requires forall k :: 0 <= k < |assignments| ==> assignments[k].salaryEarned >= 0
    ensures Earned(SelectIn(j, assignments, narrow)) <= Earned(SelectIn(j, assignments, wide))
  {
    if assignments != [] {
      var n := if narrow(j, assignments[0]) then [Entry(j, assignments[0])] else [];
      var w := if wide(j, assignments[0]) then [Entry(j, assignments[0])] else [];
      EarnedAppend(n, SelectIn(j, assignments[1..], narrow));
      EarnedAppend(w, SelectIn(j, assignments[1..], wide));
      EarnedSelectInMono(j, assignments[1..], narrow, wide);
    }
  }

  /** `a.status === "PENDING_APPROVAL"`. */
  function AwaitingApproval(): Criterion {
    (j: Job, a: JobAssignment) => a.status == PendingApproval
  }

  /** `a.employeeId === currentEmployee?.id`; nobody logged in matches nothing. */
  function Mine(me: Option<string>): Criterion {
    (j: Job, a: JobAssignment) => me == Some(a.employeeId)
  }

  /** `pendingApprovals`: every assignment waiting for approval, with its job. */
  function PendingApprovals(jobs: seq<Job>): (r: seq<Entry>)
    ensures forall e :: e in r <==> e.job in jobs && e.assignment in e.job.assignments && e.assignment.status == PendingApproval
  {
    Select(jobs, AwaitingApproval())
  }

  /** The approvals of a job list in two parts are those of each part; one job gives
      its waiting assignments in assignment order. */
  lemma PendingApprovalsSplit(a: seq<Job>, b: seq<Job>)
    ensures PendingApprovals(a + b) == PendingApprovals(a) + PendingApprovals(b)
    ensures |a| == 1 ==> PendingApprovals(a) == SelectIn(a[0], a[0].assignments, AwaitingApproval())
  {
    SelectSplit(a, b, AwaitingApproval());
  }

  /** `myAssignments`: every assignment of the viewer, with its job. */
  function MyAssignments(jobs: seq<Job>, me: Option<string>): (r: seq<Entry>)
    ensures forall e :: e in r <==> e.job in jobs && e.assignment in e.job.assignments && me == Some(e.assignment.employeeId)
  {
    Select(jobs, Mine(me))
  }

  /** The viewer's assignments over a job list in two parts are those of each part; one
      job gives the viewer's assignments on it in assignment order. */
  lemma MyAssignmentsSplit(a: seq<Job>, b: seq<Job>, me: Option<string>)
    ensures MyAssignments(a + b, me) == MyAssignments(a, me) + MyAssignments(b, me)
    ensures |a| == 1 ==> MyAssignments(a, me) == SelectIn(a[0], a[0].assignments, Mine(me))
  {
    SelectSplit(a, b, Mine(me));
  }

  /** Approved work of `emp` whose salary month is `month`. */
  function ApprovedIn(emp: Employee, month: string, local: LocalTime): Criterion {
    (j: Job, a: JobAssignment) =>
      a.employeeId == emp.id && a.status == Approved && GetSalaryMonth(JobMonth(j), a.approvedAt, local) == month
  }

  /** Unapproved work of `emp` on jobs booked in `month`. */
  function PendingIn(emp: Employee, month: string): Criterion {
    (j: Job, a: JobAssignment) =>
      a.employeeId == emp.id && (a.status == Working || a.status == PendingApproval) && JobMonth(j) == month
  }

  /** One line of the salary report. */
  datatype SalaryRow = SalaryRow(emp: Employee, approved: seq<Entry>, pending: seq<Entry>, totalApproved: int, totalPending: int)

  /** The report line of `emp` for `month`: approved work counts by its salary month,
      unapproved work by its job's month. */
  function Row(emp: Employee, jobs: seq<Job>, month: string, local: LocalTime): (r: SalaryRow)
    ensures r.emp == emp
    ensures forall e :: e in r.approved <==>
              && e.job in jobs && e.assignment in e.job.assignments
              && e.assignment.employeeId == emp.id && e.assignment.status == Approved
              && GetSalaryMonth(JobMonth(e.job), e.assignment.approvedAt, local) == month
    ensures forall e :: e in r.pending <==>
              && e.job in jobs && e.assignment in e.job.assignments
              && e.assignment.employeeId == emp.id
              && (e.assignment.status == Working || e.assignment.status == PendingApproval)
              && JobMonth(e.job) == month
    ensures r.totalApproved == Earned(r.approved) && r.totalPending == Earned(r.pending)
  {
    var approved := Select(jobs, ApprovedIn(emp, month, local));
    var pending := Select(jobs, PendingIn(emp, month));
    SalaryRow(emp, approved, pending, Earned(approved), Earned(pending))
  }

  predicate Shown(r: SalaryRow) {
    r.approved != [] || r.pending != []
  }

  /** `employees.map(emp => ...)`: every employee's line, in employee order. */
  function Rows(employees: seq<Employee>, jobs: seq<Job>, month: string, local: LocalTime): (r: seq<SalaryRow>)
    ensures |r| == |employees| && forall i :: 0 <= i < |employees| ==> r[i] == Row(employees[i], jobs, month, local)
  {
    if employees == [] then [] else [Row(employees[0], jobs, month, local)] + Rows(employees[1..], jobs, month, local)
  }

  /** `.filter(r => r.approved.length > 0 || r.pending.length > 0)`. */
  function ShownRows(rows: seq<SalaryRow>): (r: seq<SalaryRow>)
    ensures forall x :: x in r <==> x in rows && Shown(x)
    ensures IsSubsequence(r, rows)
  {
    Filter(rows, Shown)
  }

  /** Showing the lines of a list in two parts shows those of each part; a single line
      stays exactly when it has approved or pending work. */
  lemma ShownRowsSplit(a: seq<SalaryRow>, b: seq<SalaryRow>)
    ensures ShownRows(a + b) == ShownRows(a) + ShownRows(b)
    ensures |a| == 1 ==> ShownRows(a) == if Shown(a[0]) then a else []
  {
    FilterSplit(a, b, Shown);
  }

  lemma {:induction false} RowsSplit(a: seq<Employee>, b: seq<Employee>, jobs: seq<Job>, month: string, local: LocalTime)
    ensures Rows(a + b, jobs, month, local) == Rows(a, jobs, month, local) + Rows(b, jobs, month, local)
  {
    if a == [] {
      assert a + b == b;
    } else {
      assert (a + b)[0] == a[0] && (a + b)[1..] == a[1..] + b;
      RowsSplit(a[1..], b, jobs, month, local);
    }
  }

  /** `rows`: the lines of the employees with something approved or pending in the month. */
  function SalaryRows(employees: seq<Employee>, jobs: seq<Job>, month: string, local: LocalTime): (r: seq<SalaryRow>)
    ensures forall x :: x in r <==> x in Rows(employees, jobs, month, local) && Shown(x)
  {
    ShownRows(Rows(employees, jobs, month, local))
  }

  /** The report over an employee list in two parts is the report over each part; one
      employee gets their line exactly when it is shown. So the lines come in employee
      order, one per shown employee. */
  lemma SalaryRowsSplit(a: seq<Employee>, b: seq<Employee>, jobs: seq<Job>, month: string, local: LocalTime)
    ensures SalaryRows(a + b, jobs, month, local) == SalaryRows(a, jobs, month, local) + SalaryRows(b, jobs, month, local)
    ensures |a| == 1 ==>
              SalaryRows(a, jobs, month, local) == if Shown(Row(a[0], jobs, month, local)) then [Row(a[0], jobs, month, local)] else []
  {
    RowsSplit(a, b, jobs, month, local);
    ShownRowsSplit(Rows(a, jobs, month, local), Rows(b, jobs, month, local));
  }

  /** `grandTotal`. */
  function GrandTotal(rows: seq<SalaryRow>): int {
    if rows == [] then 0 else rows[0].totalApproved + GrandTotal(rows[1..])
  }

  /** A line whose approved total is the pay of its approved list. */
  predicate Consistent(r: SalaryRow) {
    r.totalApproved == Earned(r.approved)
  }

  /** Dropping the empty lines of consistent rows loses no approved pay. */
  lemma {:induction false} DroppedRowsAddNothing(rows: seq<SalaryRow>)
    requires forall k :: 0 <= k < |rows| ==> Consistent(rows[k])
    ensures GrandTotal(ShownRows(rows)) == GrandTotal(rows)
  {
    if rows != [] {
      DroppedRowsAddNothing(rows[1..]);
      assert Consistent(rows[0]);
      ShownRowsSplit(rows[..1], rows[1..]);
      assert rows[..1] + rows[1..] == rows;
      if Shown(rows[0]) {
        assert ([rows[0]] + ShownRows(rows[1..]))[1..] == ShownRows(rows[1..]);
      } else {
        assert [] + ShownRows(rows[1..]) == ShownRows(rows[1..]);
      }
    }
  }

  /** The grand total is the approved pay of all employees for the month, whether or not
      their line is shown. */
  lemma GrandTotalIsPayroll(employees: seq<Employee>, jobs: seq<Job>, month: string, local: LocalTime)
    ensures GrandTotal(SalaryRows(employees, jobs, month, local)) == GrandTotal(Rows(employees, jobs, month, local))
  {
    var rows := Rows(employees, jobs, month, local);
    forall k | 0 <= k < |rows|
      ensures Consistent(rows[k])
    {
      assert rows[k] == Row(employees[k], jobs, month, local);
    }
    DroppedRowsAddNothing(rows);
  }

  /** Approved work in the selected salary month. */
  function ApprovedInMonth(month: string, local: LocalTime): Criterion {
    (j: Job, a: JobAssignment) => a.status == Approved && GetSalaryMonth(JobMonth(j), a.approvedAt, local) == month
  }

  /** Work not approved yet. */
  function Unapproved(): Criterion {
    (j: Job, a: JobAssignment) => a.status == Working || a.status == PendingApproval
  }

  /** `earnedInMonth`. */
  function EarnedInMonth(jobs: seq<Job>, me: Option<string>, month: string, local: LocalTime): int {
    Earned(FilterEntries(MyAssignments(jobs, me), ApprovedInMonth(month, local)))
  }

  /** `inProgress`: unapproved work over every month. */
  function InProgress(jobs: seq<Job>, me: Option<string>): int {
    Earned(FilterEntries(MyAssignments(jobs, me), Unapproved()))
  }

  /** What an employee sees as earned in a month is their line's approved total in the
      director's report for that month. */
  lemma EarnedInMonthMatchesReport(emp: Employee, jobs: seq<Job>, month: string, local: LocalTime)
    ensures EarnedInMonth(jobs, Some(emp.id), month, local) == Row(emp, jobs, month, local).totalApproved
  {
    FilterSelect(jobs, Mine(Some(emp.id)), ApprovedInMonth(month, local), ApprovedIn(emp, month, local));
  }

  /** Unapproved work on jobs booked in `month`. */
  function UnapprovedIn(month: string): Criterion {
    (j: Job, a: JobAssignment) => (a.status == Working || a.status == PendingApproval) && JobMonth(j) == month
  }

  /** A report line lists exactly the employee's own pairs, in the order and with the
      repetitions of their own assignment list: the approved ones whose salary month is
      `month`, and the unapproved ones on jobs booked in `month`. */
  lemma RowOfMyAssignments(emp: Employee, jobs: seq<Job>, month: string, local: LocalTime)
    ensures Row(emp, jobs, month, local).approved == FilterEntries(MyAssignments(jobs, Some(emp.id)), ApprovedInMonth(month, local))
    ensures Row(emp, jobs, month, local).pending == FilterEntries(MyAssignments(jobs, Some(emp.id)), UnapprovedIn(month))
  {
    FilterSelect(jobs, Mine(Some(emp.id)), ApprovedInMonth(month, local), ApprovedIn(emp, month, local));
    FilterSelect(jobs, Mine(Some(emp.id)), UnapprovedIn(month), PendingIn(emp, month));
  }

  /** Unapproved work of the employee and of the month, and both at once. */
  function MineUnapproved(emp: Employee): Criterion {
    (j: Job, a: JobAssignment) => Some(emp.id) == Some(a.employeeId) && (a.status == Working || a.status == PendingApproval)
  }

  /** The in-progress figure is not filtered by month, so with non-negative pay it is at
      least the pending total of the employee's line in any month's report. */
  lemma InProgressCoversPending(emp: Employee, jobs: seq<Job>, month: string, local: LocalTime)
    requires NonNegativePay(jobs)
    ensures Row(emp, jobs, month, local).totalPending <= InProgress(jobs, Some(emp.id))
  {
    FilterSelect(jobs, Mine(Some(emp.id)), Unapproved(), MineUnapproved(emp));
    EarnedSelectMono(jobs, PendingIn(emp, month), MineUnapproved(emp));
  }
}
