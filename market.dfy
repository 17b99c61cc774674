/** The job market as an employee sees it (src/app/page.tsx): which jobs are still on
    the market, which of them the viewer may claim, how much money they still hold, and
    the on-site / post-production / mini filter. */
module Market {

  import opened Types
  import opened Seqs

  /** `assignments.reduce((a, b) => a + b.percentage, 0)`. */
  function ClaimedPercentage(assignments: seq<JobAssignment>): int
  {
    if assignments == [] then 0
    else ClaimedPercentage(assignments[..|assignments| - 1]) + assignments[|assignments| - 1].percentage
  }

  /** Adding one assignment adds its percentage to the claimed total. */
  lemma ClaimedAfterAppend(assignments: seq<JobAssignment>, a: JobAssignment)
    ensures ClaimedPercentage(assignments + [a]) == ClaimedPercentage(assignments) + a.percentage
  {
    assert (assignments + [a])[..|assignments|] == assignments;
  }

  predicate IsMini(j: Job) {
    j.jobType == Some(Mini)
  }

  /** `job.totalUnits ?? 0`. */
  function Capacity(j: Job): int {
    if j.totalUnits.Some? then j.totalUnits.value else 0
  }

  /** `job.unitPrice ?? 0`. */
  function UnitPrice(j: Job): int {
    if j.unitPrice.Some? then j.unitPrice.value else 0
  }

  /** Whether a job is listed on the market: a standard job while less than 100% of it
      is claimed, whoever holds the rest; a mini job while it has fewer assignments
      (not fewer claimed units) than `totalUnits`, which defaults to 0. */
  predicate OnMarket(j: Job) {
    if IsMini(j) then |j.assignments| < Capacity(j) else ClaimedPercentage(j.assignments) < 100
  }

  /** `openJobs`. */
  function OpenJobs(jobs: seq<Job>): (r: seq<Job>)
    ensures forall i :: 0 <= i < |r| ==> OnMarket(r[i])
    ensures forall i :: 0 <= i < |jobs| ==> (jobs[i] in r <==> OnMarket(jobs[i]))
    ensures IsSubsequence(r, jobs)
  {
    Filter(jobs, OnMarket)
  }

  /** The open jobs of a list in two parts are those of each part; a job on the
      market is kept once, in its place. */
  lemma OpenJobsSplit(a: seq<Job>, b: seq<Job>)
    ensures OpenJobs(a + b) == OpenJobs(a) + OpenJobs(b)
    ensures |a| == 1 ==> OpenJobs(a) == if OnMarket(a[0]) then a else []
  {
    FilterSplit(a, b, OnMarket);
  }

  /** `job.assignments.some((a) => a.employeeId === currentEmployee?.id)`; with nobody
      logged in (`me` is None) nothing matches. */
  predicate HoldsPart(j: Job, me: Option<string>) {
    exists i :: 0 <= i < |j.assignments| && me == Some(j.assignments[i].employeeId)
  }

  /** What `availableJobs` keeps: a job on the market in which the viewer holds no
      assignment at all, whatever that assignment's status. */
  function Claimable(me: Option<string>): Job -> bool {
    j => OnMarket(j) && !HoldsPart(j, me)
  }

  /** `availableJobs`. */
  function AvailableJobs(jobs: seq<Job>, me: Option<string>): (r: seq<Job>)
    ensures forall i :: 0 <= i < |r| ==> OnMarket(r[i]) && !HoldsPart(r[i], me)
    ensures forall i :: 0 <= i < |jobs| ==> (jobs[i] in r <==> OnMarket(jobs[i]) && !HoldsPart(jobs[i], me))
    ensures IsSubsequence(r, jobs)
  {
    Filter(jobs, Claimable(me))
  }

  /** The claimable jobs are an order-preserving selection of the open jobs. */
  lemma AvailableWithinOpen(jobs: seq<Job>, me: Option<string>)
    ensures IsSubsequence(AvailableJobs(jobs, me), OpenJobs(jobs))
  {
    FilterNarrower(jobs, Claimable(me), OnMarket);
  }

  /** The money a job still offers: for a mini job `unitPrice × (totalUnits − number of
      assignments)`, for a standard job `totalSalary × (100 − claimed%) / 100`, divided
      exactly. */
  function RemainingValue(j: Job): real
  {
    if IsMini(j) then (UnitPrice(j) * (Capacity(j) - |j.assignments|)) as real
    else (j.totalSalary * (100 - ClaimedPercentage(j.assignments))) as real / 100.0
  }

  function SumRemaining(jobs: seq<Job>): real
  {
    if jobs == [] then 0.0 else RemainingValue(jobs[0]) + SumRemaining(jobs[1..])
  }

  /** `availableValue`: what the viewer's claimable jobs still hold. */
  function AvailableValue(jobs: seq<Job>, me: Option<string>): real
  {
    SumRemaining(AvailableJobs(jobs, me))
  }

  /** A job on the market has something left: a positive remaining share or unit count,
      so with non-negative prices it never offers a negative amount. */
  lemma RemainingValueOnMarket(j: Job)
    requires OnMarket(j) && j.totalSalary >= 0 && UnitPrice(j) >= 0
    ensures RemainingValue(j) >= 0.0
    ensures IsMini(j) ==> Capacity(j) - |j.assignments| > 0
    ensures !IsMini(j) ==> 100 - ClaimedPercentage(j.assignments) > 0
  {
  }

  /** With non-negative prices the available value is never negative. */
  lemma {:induction false} AvailableValueNonNegative(jobs: seq<Job>, me: Option<string>)
    requires forall i :: 0 <= i < |jobs| ==> jobs[i].totalSalary >= 0 && UnitPrice(jobs[i]) >= 0
    ensures AvailableValue(jobs, me) >= 0.0
  {
    var r := AvailableJobs(jobs, me);
    forall i | 0 <= i < |r|
      ensures r[i].totalSalary >= 0 && UnitPrice(r[i]) >= 0
    {
      assert r[i] in jobs by { SubsequenceMembers(r, jobs, r[i]); }
    }
    SumRemainingNonNegative(r);
  }

  lemma {:induction false} SumRemainingNonNegative(jobs: seq<Job>)
    requires forall i :: 0 <= i < |jobs| ==> OnMarket(jobs[i]) && jobs[i].totalSalary >= 0 && UnitPrice(jobs[i]) >= 0
    ensures SumRemaining(jobs) >= 0.0
  {
    if jobs != [] {
      RemainingValueOnMarket(jobs[0]);
      SumRemainingNonNegative(jobs[1..]);
    }
  }

  /** An unclaimed standard job offers its whole salary; an unclaimed mini job offers
      every unit. */
  lemma UnclaimedOffersEverything(j: Job)
    requires j.assignments == []
    ensures RemainingValue(j) == if IsMini(j) then (UnitPrice(j) * Capacity(j)) as real else j.totalSalary as real
  {
  }

  /** The available value splits over any division of the job list. */
  lemma {:induction false} AvailableValueSplits(a: seq<Job>, b: seq<Job>, me: Option<string>)
    ensures AvailableValue(a + b, me) == AvailableValue(a, me) + AvailableValue(b, me)
  {
    AvailableJobsSplit(a, b, me);
    SumRemainingSplits(AvailableJobs(a, me), AvailableJobs(b, me));
  }

  /** The claimable jobs of a list in two parts are those of each part; a claimable
      job is kept once, in its place. */
  lemma AvailableJobsSplit(a: seq<Job>, b: seq<Job>, me: Option<string>)
    ensures AvailableJobs(a + b, me) == AvailableJobs(a, me) + AvailableJobs(b, me)
    ensures |a| == 1 ==> AvailableJobs(a, me) == if OnMarket(a[0]) && !HoldsPart(a[0], me) then a else []
  {
    FilterSplit(a, b, Claimable(me));
  }

  lemma {:induction false} SumRemainingSplits(a: seq<Job>, b: seq<Job>)
    ensures SumRemaining(a + b) == SumRemaining(a) + SumRemaining(b)
  {
    if a != [] {
      assert (a + b)[0] == a[0] && (a + b)[1..] == a[1..] + b;
      SumRemainingSplits(a[1..], b);
    } else {
      assert a + b == b;
    }
  }

  /** A mini job counts assignments, not the units they hold: one assignment holding
      every unit leaves the job on the market with all but one unit still priced in. */
  lemma MiniCountsAssignmentsNotUnits(j: Job)
    requires IsMini(j) && Capacity(j) >= 2 && |j.assignments| == 1
    requires j.assignments[0].units == Some(Capacity(j))
    ensures OnMarket(j)
    ensures RemainingValue(j) == (UnitPrice(j) * (Capacity(j) - 1)) as real
  {
  }

  /** The market tabs. */
  datatype MarketFilter = AllJobs | OnSite | PostProduction | MiniJobs

  predicate MatchesFilter(f: MarketFilter, j: Job) {
    match f
    case AllJobs => true
    case OnSite => Truthy(j.expiresAt) && !IsMini(j)
    case PostProduction => !Truthy(j.expiresAt) && !IsMini(j)
    case MiniJobs => IsMini(j)
  }

  /** The predicate `filteredJobs` filters by on the tab `f`. */
  function InTab(f: MarketFilter): Job -> bool {
    j => MatchesFilter(f, j)
  }

  /** `filteredJobs`. */
  function FilterMarket(jobs: seq<Job>, f: MarketFilter): (r: seq<Job>)
    ensures forall i :: 0 <= i < |r| ==> MatchesFilter(f, r[i])
    ensures forall i :: 0 <= i < |jobs| ==> (jobs[i] in r <==> MatchesFilter(f, jobs[i]))
    ensures IsSubsequence(r, jobs)
  {
    Filter(jobs, InTab(f))
  }

  /** The tab's jobs of a list in two parts are those of each part; a matching job is
      kept once, in its place. */
  lemma FilterMarketSplit(a: seq<Job>, b: seq<Job>, f: MarketFilter)
    ensures FilterMarket(a + b, f) == FilterMarket(a, f) + FilterMarket(b, f)
    ensures |a| == 1 ==> FilterMarket(a, f) == if MatchesFilter(f, a[0]) then a else []
  {
    FilterSplit(a, b, InTab(f));
  }

  /** The three specific tabs split the market: every job shows under exactly one. */
  lemma TabsPartition(j: Job)
    ensures MatchesFilter(OnSite, j) || MatchesFilter(PostProduction, j) || MatchesFilter(MiniJobs, j)
    ensures !(MatchesFilter(OnSite, j) && MatchesFilter(PostProduction, j))
    ensures !(MatchesFilter(OnSite, j) && MatchesFilter(MiniJobs, j))
    ensures !(MatchesFilter(PostProduction, j) && MatchesFilter(MiniJobs, j))
  {
  }
}
