/** `GET` and `POST` on /api/jobs (src/app/api/jobs/route.ts). The id that
    `Math.random()` would give and the clock are parameters. */
module JobsRoute {

  import opened Types
  import opened Text
  import opened Calendar
  import opened Store
  import opened Market

  /** The parsed request body. The director's form also sends `jobType`, `unitPrice`
      and `totalUnits` (src/app/page.tsx:252-261). */
  datatype JobBody = JobBody(
    title: string,
    description: Option<string>,
    totalSalary: int,
    month: Option<string>,
    expiresAt: Option<string>,
    groupId: Option<string>,
    groupName: Option<string>,
    jobType: Option<JobType>,
    unitPrice: Option<int>,
    totalUnits: Option<int>)

  /** The server clock: `now.toISOString()`, `now.getFullYear()`, `now.getMonth() + 1`. */
  datatype Clock = Clock(iso: string, year: int, month: int)

  /** A truthy optional text, kept; anything else, left out. */
  function IfTruthy(o: Option<string>): Option<string> {
    if Truthy(o) then o else None
  }

  /** The job record `POST` builds. */
  function NewJob(body: JobBody, id: string, now: Clock): (j: Job)
    ensures j.id == id && j.title == body.title && j.totalSalary == body.totalSalary
    ensures j.status == Open && j.assignments == [] && j.createdAt == now.iso
    ensures j.description == OrElse(body.description, "")
    ensures j.month == Some(OrElse(body.month, MonthKey(Month(now.year, now.month))))
    ensures j.expiresAt.Some? <==> Truthy(body.expiresAt)
    ensures j.expiresAt.Some? ==> j.expiresAt == body.expiresAt
    ensures j.groupId.Some? <==> Truthy(body.groupId)
    ensures j.groupId.Some? ==> j.groupId == body.groupId
    ensures j.groupName.Some? <==> Truthy(body.groupName)
    ensures j.groupName.Some? ==> j.groupName == body.groupName
    ensures j.jobType.None? && j.unitPrice.None? && j.totalUnits.None?
  {
    var month := OrElse(body.month, MonthKey(Month(now.year, now.month)));
    Job(id := id, title := body.title, description := OrElse(body.description, ""),
        totalSalary := body.totalSalary, status := Open, createdAt := now.iso,
        month := Some(month), assignments := [],
        expiresAt := IfTruthy(body.expiresAt), groupId := IfTruthy(body.groupId),
        groupName := IfTruthy(body.groupName),
        jobType := None, unitPrice := None, totalUnits := None)
  }

  /** Without a month in the body, the job's month is the current month's key, which
      reads back as the current (year, month). */
  lemma DefaultMonthIsCurrent(body: JobBody, id: string, now: Clock)
    requires !Truthy(body.month) && now.year >= 0 && 1 <= now.month <= 12
    ensures ParseMonthKey(NewJob(body, id, now).month.value) == Some(Month(now.year, now.month))
  {
    ParseMonthKeyRoundTrip(Month(now.year, now.month));
  }

  /** A new job comes back unchanged from `getAllJobs`, unless its own deadline is
      already before `now`; a mini job posted here is stored as a standard one. */
  lemma NewJobListed(body: JobBody, id: string, now: Clock, t: int, instantOf: InstantOf)
    requires !Truthy(body.expiresAt) || (instantOf(body.expiresAt.value).Some? ==> instantOf(body.expiresAt.value).value >= t)
    ensures VisibleJobs([NewJob(body, id, now)], t, instantOf) == [NewJob(body, id, now)]
  {
  }

  /** A job posted here is a standard job on the market that offers its whole salary. */
  lemma NewJobOnMarket(body: JobBody, id: string, now: Clock)
    ensures !IsMini(NewJob(body, id, now)) && OnMarket(NewJob(body, id, now))
    ensures RemainingValue(NewJob(body, id, now)) == body.totalSalary as real
  {
    UnclaimedOffersEverything(NewJob(body, id, now));
  }

  /** `GET`: exactly what `getAllJobs` returns. */
  method Get(db: Database, now: int, instantOf: InstantOf) returns (r: seq<Job>)
    ensures r == VisibleJobs(db.jobs, now, instantOf)
  {
    r := db.GetAllJobs(now, instantOf);
  }

  /** `POST`: builds the job and stores it in front of all others. */
  method Post(db: Database, body: JobBody, id: string, now: Clock) returns (created: Job)
    modifies db
    ensures created == NewJob(body, id, now)
    ensures db.jobs == [created] + old(db.jobs) && db.employees == old(db.employees)
  {
    var job := NewJob(body, id, now);
    created := db.CreateJob(job);
  }
}
