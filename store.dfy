/** The job and employee store (src/lib/db.ts). The source reads the whole JSON file,
    changes one list and writes the whole file back; here the file's contents are the
    fields of one `Database` object and every operation changes them in place. */
module Store {

  import opened Types
  import opened Text
  import opened Seqs

  /** `new Date(s).getTime()` in milliseconds, None for an Invalid Date (NaN). */
  type InstantOf = string -> Option<int>

  function JobKey(j: Job): string { j.id }

  function EmployeeKey(e: Employee): string { e.id }

  /** `{ ...j, month: j.month ?? j.createdAt.slice(0, 7) }`. */
  function WithDefaultMonth(j: Job): (r: Job)
    ensures r.month == Some(if j.month.Some? then j.month.value else Slice(j.createdAt, 7))
    ensures r.(month := j.month) == j
  {
    if j.month.Some? then j else j.(month := Some(Slice(j.createdAt, 7)))
  }

  /** A job that `getAllJobs` hides at time `now`: it has a non-empty `expiresAt`, nobody
      has claimed it (status OPEN), and the deadline is strictly before `now`. A
      deadline that is not a date compares false and hides nothing. */
  predicate HiddenAt(j: Job, now: int, instantOf: InstantOf) {
    && Truthy(j.expiresAt)
    && j.status == Open
    && match instantOf(j.expiresAt.value)
       case Some(t) => t < now
       case None => false
  }

  /** Every job with its month defaulted, in stored order. */
  function DefaultMonths(jobs: seq<Job>): (r: seq<Job>)
    ensures |r| == |jobs|
    ensures forall i :: 0 <= i < |jobs| ==> r[i] == WithDefaultMonth(jobs[i])
  {
    if jobs == [] then [] else [WithDefaultMonth(jobs[0])] + DefaultMonths(jobs[1..])
  }

  lemma {:induction false} DefaultMonthsSplit(a: seq<Job>, b: seq<Job>)
    ensures DefaultMonths(a + b) == DefaultMonths(a) + DefaultMonths(b)
  {
    if a == [] {
      assert a + b == b;
    } else {
      assert (a + b)[0] == a[0] && (a + b)[1..] == a[1..] + b;
      DefaultMonthsSplit(a[1..], b);
    }
  }

  /** What the `filter` of `getAllJobs` keeps. */
  function NotHidden(now: int, instantOf: InstantOf): Job -> bool {
    j => !HiddenAt(j, now, instantOf)
  }

  /** What `getAllJobs` returns: months defaulted, hidden jobs dropped. */
  function VisibleJobs(jobs: seq<Job>, now: int, instantOf: InstantOf): (r: seq<Job>)
    ensures forall i :: 0 <= i < |r| ==> !HiddenAt(r[i], now, instantOf) && r[i].month.Some?
    ensures IsSubsequence(r, DefaultMonths(jobs))
    ensures |r| <= |jobs|
  {
    var r := Filter(DefaultMonths(jobs), NotHidden(now, instantOf));
    assert forall i :: 0 <= i < |r| ==> r[i] in DefaultMonths(jobs);
    r
  }

  /** The listing of a job list in two parts is the listing of each part; a single job
      is listed, with its month defaulted, exactly when it is not hidden. So every
      listed job appears once, in its stored place. */
  lemma VisibleJobsSplit(a: seq<Job>, b: seq<Job>, now: int, instantOf: InstantOf)
    ensures VisibleJobs(a + b, now, instantOf) == VisibleJobs(a, now, instantOf) + VisibleJobs(b, now, instantOf)
    ensures |a| == 1 ==>
              VisibleJobs(a, now, instantOf) == if HiddenAt(a[0], now, instantOf) then [] else [WithDefaultMonth(a[0])]
  {
    DefaultMonthsSplit(a, b);
    FilterSplit(DefaultMonths(a), DefaultMonths(b), NotHidden(now, instantOf));
    if |a| == 1 {
      assert DefaultMonths(a) == [WithDefaultMonth(a[0])];
      assert HiddenAt(WithDefaultMonth(a[0]), now, instantOf) == HiddenAt(a[0], now, instantOf);
    }
  }

  /** A stored job is listed (with its month defaulted) exactly when it is not hidden;
      in particular a job that is no longer OPEN is always listed. */
  lemma VisibleJobsListsUnhidden(jobs: seq<Job>, now: int, instantOf: InstantOf, i: int)
    requires 0 <= i < |jobs|
    ensures WithDefaultMonth(jobs[i]) in VisibleJobs(jobs, now, instantOf) <==> !HiddenAt(jobs[i], now, instantOf)
    ensures jobs[i].status != Open ==> WithDefaultMonth(jobs[i]) in VisibleJobs(jobs, now, instantOf)
  {
    var j := WithDefaultMonth(jobs[i]);
    assert j == DefaultMonths(jobs)[i];
    assert HiddenAt(j, now, instantOf) == HiddenAt(jobs[i], now, instantOf);
  }

  class Database {
    var jobs: seq<Job>
    var employees: seq<Employee>

    constructor (jobs: seq<Job>, employees: seq<Employee>)
      ensures this.jobs == jobs && this.employees == employees
    {
      this.jobs := jobs;
      this.employees := employees;
    }

    /** `getAllJobs`: the stored jobs as listed at time `now`. */
    method GetAllJobs(now: int, instantOf: InstantOf) returns (r: seq<Job>)
      ensures r == VisibleJobs(jobs, now, instantOf)
    {
      r := VisibleJobs(jobs, now, instantOf);
    }

    /** `createJob`: the new job goes in front of all stored jobs. */
    method CreateJob(job: Job) returns (r: Job)
      modifies this
      ensures jobs == [job] + old(jobs) && employees == old(employees)
      ensures r == job
    {
      jobs := [job] + jobs;
      r := job;
    }

    /** `updateJob`: replaces the first job with the same id; null (None) and no write
        when there is none. */
    method UpdateJob(updated: Job) returns (r: Option<Job>)
      modifies this
      ensures employees == old(employees)
      ensures match IndexOfKey(old(jobs), JobKey, updated.id)
              case None => r.None? && jobs == old(jobs)
              case Some(i) => r == Some(updated) && jobs == old(jobs)[i := updated]
    {
      var index := IndexOfKey(jobs, JobKey, updated.id);
      if index.None? {
        return None;
      }
      jobs := jobs[index.value := updated];
      r := Some(updated);
    }

    /** `getJobById`: the first job with the id, or null (None). */
    method GetJobById(id: string) returns (r: Option<Job>)
      ensures r == FindByKey(jobs, JobKey, id)
    {
      r := FindByKey(jobs, JobKey, id);
    }

    /** `deleteJob`: drops every job with the id; false and no write when none had it. */
    method DeleteJob(id: string) returns (removed: bool)
      modifies this
      ensures removed <==> exists i :: 0 <= i < |old(jobs)| && old(jobs)[i].id == id
      ensures jobs == (if removed then RemoveKey(old(jobs), JobKey, id) else old(jobs))
      ensures employees == old(employees)
    {
      var kept := RemoveKey(jobs, JobKey, id);
      if |kept| == |jobs| {
        return false;
      }
      jobs := kept;
      removed := true;
    }

    /** `getAllEmployees`: the stored list as it is. */
    method GetAllEmployees() returns (r: seq<Employee>)
      ensures r == employees
    {
      r := employees;
    }

    /** `createEmployee`: the new employee goes after all stored ones. */
    method CreateEmployee(employee: Employee) returns (r: Employee)
      modifies this
      ensures employees == old(employees) + [employee] && jobs == old(jobs)
      ensures r == employee
    {
      employees := employees + [employee];
      r := employee;
    }

    /** `updateEmployee`: replaces the first employee with the same id; null (None) and
        no write when there is none. */
    method UpdateEmployee(updated: Employee) returns (r: Option<Employee>)
      modifies this
      ensures jobs == old(jobs)
      ensures match IndexOfKey(old(employees), EmployeeKey, updated.id)
              case None => r.None? && employees == old(employees)
              case Some(i) => r == Some(updated) && employees == old(employees)[i := updated]
    {
      var index := IndexOfKey(employees, EmployeeKey, updated.id);
      if index.None? {
        return None;
      }
      employees := employees[index.value := updated];
      r := Some(updated);
    }

    /** `deleteEmployee`: drops every employee with the id; false and no write when none
        had it. */
    method DeleteEmployee(id: string) returns (removed: bool)
      modifies this
      ensures removed <==> exists i :: 0 <= i < |old(employees)| && old(employees)[i].id == id
      ensures employees == (if removed then RemoveKey(old(employees), EmployeeKey, id) else old(employees))
      ensures jobs == old(jobs)
    {
      var kept := RemoveKey(employees, EmployeeKey, id);
      if |kept| == |employees| {
        return false;
      }
      employees := kept;
      removed := true;
    }

    /** `getEmployeeById`: the first employee with the id, or null (None). */
    method GetEmployeeById(id: string) returns (r: Option<Employee>)
      ensures r == FindByKey(employees, EmployeeKey, id)
    {
      r := FindByKey(employees, EmployeeKey, id);
    }
  }
}
