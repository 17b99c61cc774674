/** The job-group template of `parseJobGroup` (src/app/page.tsx:41-108): a shoot-day
    line becomes seven on-site crew jobs that expire at the end of the shoot day and one
    editing job per episode; any other input becomes a single placeholder job. The
    regular-expression match, the year guess from the clock and the local end-of-day
    instant are parameters: a match is given as its captured fields. */
module ShootDay {

  import opened Types
  import opened Text
  import opened Calendar
  import opened Seqs

  /** A job of the preview, before it is stored. */
  datatype PreviewJob = PreviewJob(
    title: string,
    description: string,
    totalSalary: int,
    month: string,
    expiresAt: Option<string>,
    isOnSite: bool)

  datatype JobGroupDraft = JobGroupDraft(groupName: string, jobs: seq<PreviewJob>)

  /** What a matched shoot-day line supplies: the trimmed film name, the day and month
      as written, the guessed year, the episode numbers found (none when the line names
      no episode), and the ISO text of 23:59:59.999 local time on the shoot day. */
  datatype ShootLine = ShootLine(
    filmName: string,
    day: nat,
    month: nat,
    year: int,
    episodes: seq<nat>,
    expiresAt: string)

  /** Episodes to edit: those named, or episode 1 when none is. */
  function Episodes(s: ShootLine): (r: seq<nat>)
    ensures |r| >= 1
    ensures s.episodes != [] ==> r == s.episodes
  {
    if s.episodes == [] then [1] else s.episodes
  }

  /** The month every job of the group belongs to. */
  function ShootMonth(s: ShootLine): string {
    MonthKey(Month(s.year, s.month))
  }

  function CrewDescription(s: ShootLine): string {
    "Ngày quay " + NatToString(s.day) + "/" + NatToString(s.month) + " — " + s.filmName
  }

  function CrewJob(s: ShootLine, title: string, salary: int): (j: PreviewJob)
    ensures j.isOnSite && j.expiresAt == Some(s.expiresAt) && j.month == ShootMonth(s)
  {
    PreviewJob(title, CrewDescription(s), salary, ShootMonth(s), Some(s.expiresAt), true)
  }

  /** Director number `i`, 3,000,000. */
  function Director(s: ShootLine, i: nat): PreviewJob {
    CrewJob(s, "Đạo diễn " + s.filmName + " (" + NatToString(i) + ")", 3_000_000)
  }

  /** Camera operator on camera `i`, 1,200,000. */
  function Camera(s: ShootLine, i: nat): PreviewJob {
    CrewJob(s, "Quay phim " + s.filmName + " (Máy " + NatToString(i) + ")", 1_200_000)
  }

  /** Lighting technician number `i`, 800,000. */
  function Lighting(s: ShootLine, i: nat): PreviewJob {
    CrewJob(s, "Ánh sáng " + s.filmName + " (" + NatToString(i) + ")", 800_000)
  }

  /** The location sound recordist, 1,000,000. */
  function Sound(s: ShootLine): PreviewJob {
    CrewJob(s, "Thu âm hiện trường " + s.filmName, 1_000_000)
  }

  /** The editing job for episode `ep`: 3,000,000, post-production, no deadline. */
  function Editing(s: ShootLine, ep: nat): (j: PreviewJob)
    ensures !j.isOnSite && j.expiresAt.None? && j.month == ShootMonth(s) && j.totalSalary == 3_000_000
  {
    PreviewJob("Dựng phim " + s.filmName + " — Tập " + NatToString(ep),
               "Hậu kỳ tập " + NatToString(ep) + " — " + s.filmName,
               3_000_000, ShootMonth(s), None, false)
  }

  /** The seven on-site jobs, in the order they are pushed. */
  function Crew(s: ShootLine): (r: seq<PreviewJob>)
    ensures |r| == 7
    ensures forall k :: 0 <= k < |r| ==>
              r[k].isOnSite && r[k].expiresAt == Some(s.expiresAt) && r[k].month == ShootMonth(s)
  {
    [Director(s, 1), Director(s, 2), Camera(s, 1), Camera(s, 2),
     Lighting(s, 1), Lighting(s, 2), Sound(s)]
  }

  /** One editing job per episode, in episode order. */
  function EditingJobs(s: ShootLine, eps: seq<nat>): (r: seq<PreviewJob>)
    ensures |r| == |eps|
  {
    if eps == [] then [] else EditingJobs(s, eps[..|eps| - 1]) + [Editing(s, eps[|eps| - 1])]
  }

  /** The editing job at position `i` is the one for the `i`-th episode. */
  lemma {:induction false} EditingJobAt(s: ShootLine, eps: seq<nat>, i: nat)
    requires i < |eps|
    ensures EditingJobs(s, eps)[i] == Editing(s, eps[i])
    decreases |eps|
  {
    var init := eps[..|eps| - 1];
    if i < |init| {
      EditingJobAt(s, init, i);
    }
  }

  /** One more episode adds its editing job at the back. */
  lemma EditingSnoc(s: ShootLine, eps: seq<nat>, ep: nat)
    ensures EditingJobs(s, eps + [ep]) == EditingJobs(s, eps) + [Editing(s, ep)]
  {
    assert (eps + [ep])[..|eps|] == eps;
  }

  /** The group a shoot-day line stands for. */
  function ShootDayPlan(s: ShootLine): JobGroupDraft {
    JobGroupDraft("Ngày quay " + s.filmName + " " + NatToString(s.day) + "/" + NatToString(s.month),
                  Crew(s) + EditingJobs(s, Episodes(s)))
  }

  /** The group for any other input: named after the trimmed input, or "Nhóm job mới"
      when that is empty, holding one 1,000,000 job titled with the trimmed input. */
  function Fallback(trimmed: string, currentMonth: string): (d: JobGroupDraft)
    ensures trimmed != [] ==> d.groupName == trimmed
    ensures trimmed == [] ==> d.groupName == "Nhóm job mới"
    ensures d.jobs == [PreviewJob(trimmed, "", 1_000_000, currentMonth, None, false)]
  {
    JobGroupDraft(if trimmed != [] then trimmed else "Nhóm job mới",
                  [PreviewJob(trimmed, "", 1_000_000, currentMonth, None, false)])
  }

  /** `parseJobGroup`: the jobs are pushed one by one, as the source's `for` loops do. */
  method ParseJobGroup(line: Option<ShootLine>, trimmed: string, currentMonth: string)
    returns (draft: JobGroupDraft)
    ensures line.Some? ==> draft == ShootDayPlan(line.value)
    ensures line.None? ==> draft == Fallback(trimmed, currentMonth)
  {
    if line.None? {
      return Fallback(trimmed, currentMonth);
    }
    var s := line.value;
    var jobs := PushCrew(s);
    jobs := PushEditing(s, jobs);
    draft := JobGroupDraft("Ngày quay " + s.filmName + " " + NatToString(s.day) + "/" + NatToString(s.month), jobs);
  }

  /** The on-site part of `parseJobGroup`: two directors, two camera operators, two
      lighting technicians, then the sound recordist. */
  method PushCrew(s: ShootLine) returns (jobs: seq<PreviewJob>)
    ensures jobs == Crew(s)
  {
    jobs := PushNumbered([], (i: nat) => Director(s, i));
    jobs := PushNumbered(jobs, (i: nat) => Camera(s, i));
    jobs := PushNumbered(jobs, (i: nat) => Lighting(s, i));
    jobs := jobs + [Sound(s)];
  }

  /** `for (let i = 1; i <= 2; i++) jobs.push(make(i))`. */
  method PushNumbered(jobs: seq<PreviewJob>, make: nat -> PreviewJob) returns (r: seq<PreviewJob>)
    ensures r == jobs + [make(1), make(2)]
  {
    r := jobs;
    for i := 1 to 3
      invariant r == jobs + [make(1), make(2)][..i - 1]
    {
      r := r + [make(i)];
    }
  }

  /** The post-production part of `parseJobGroup`: one editing job per episode. */
  method PushEditing(s: ShootLine, crew: seq<PreviewJob>) returns (jobs: seq<PreviewJob>)
    ensures jobs == crew + EditingJobs(s, Episodes(s))
  {
    var eps := Episodes(s);
    jobs := crew;
    var n := 0;
    while n < |eps|
      invariant 0 <= n <= |eps|
      invariant jobs == crew + EditingJobs(s, eps[..n])
    {
      PushEditingStep(s, crew, eps, n, jobs);
      jobs := jobs + [Editing(s, eps[n])];
      n := n + 1;
    }
    assert eps[..n] == eps;
  }

  /** One step of `PushEditing`: pushing the next episode's job extends the list by it. */
  lemma PushEditingStep(s: ShootLine, crew: seq<PreviewJob>, eps: seq<nat>, n: nat, jobs: seq<PreviewJob>)
    requires n < |eps| && jobs == crew + EditingJobs(s, eps[..n])
    ensures jobs + [Editing(s, eps[n])] == crew + EditingJobs(s, eps[..n + 1])
  {
    PrefixSnoc(eps, n);
    EditingSnoc(s, eps[..n], eps[n]);
  }

  /** Sum of the salaries of a list of preview jobs. */
  function TotalSalary(jobs: seq<PreviewJob>): int {
    if jobs == [] then 0 else TotalSalary(jobs[..|jobs| - 1]) + jobs[|jobs| - 1].totalSalary
  }

  lemma {:induction false} TotalSalarySplits(a: seq<PreviewJob>, b: seq<PreviewJob>)
    ensures TotalSalary(a + b) == TotalSalary(a) + TotalSalary(b)
    decreases |b|
  {
    if b == [] {
      assert a + b == a;
    } else {
      var b' := b[..|b| - 1];
      assert (a + b)[..|a + b| - 1] == a + b';
      TotalSalarySplits(a, b');
    }
  }

  lemma {:induction false} EditingTotal(s: ShootLine, eps: seq<nat>)
    ensures TotalSalary(EditingJobs(s, eps)) == 3_000_000 * |eps|
    decreases |eps|
  {
    if eps != [] {
      var r := EditingJobs(s, eps);
      assert r[..|r| - 1] == EditingJobs(s, eps[..|eps| - 1]);
      assert r[|r| - 1] == Editing(s, eps[|eps| - 1]);
      EditingTotal(s, eps[..|eps| - 1]);
    }
  }

  /** A shoot day yields 7 + n jobs worth 11,000,000 + 3,000,000·n in all, where n is
      the number of episodes (1 when the line names none). */
  lemma ShootDayTotals(s: ShootLine)
    ensures |ShootDayPlan(s).jobs| == 7 + |Episodes(s)|
    ensures TotalSalary(ShootDayPlan(s).jobs) == 11_000_000 + 3_000_000 * |Episodes(s)|
  {
    TotalSalarySplits(Crew(s), EditingJobs(s, Episodes(s)));
    EditingTotal(s, Episodes(s));
    CrewTotal(s);
  }

  /** The seven on-site jobs are worth 2·3,000,000 + 2·1,200,000 + 2·800,000 + 1,000,000. */
  lemma CrewTotal(s: ShootLine)
    ensures TotalSalary(Crew(s)) == 11_000_000
  {
    SevenTotal(Director(s, 1), Director(s, 2), Camera(s, 1), Camera(s, 2),
               Lighting(s, 1), Lighting(s, 2), Sound(s));
  }

  lemma SevenTotal(a: PreviewJob, b: PreviewJob, c: PreviewJob, d: PreviewJob,
                   e: PreviewJob, f: PreviewJob, g: PreviewJob)
    ensures TotalSalary([a, b, c, d, e, f, g])
            == a.totalSalary + b.totalSalary + c.totalSalary + d.totalSalary
               + e.totalSalary + f.totalSalary + g.totalSalary
  {
    var s := [a, b, c, d, e, f, g];
    assert TotalSalary(s[..1]) == a.totalSalary by { assert s[..1][..0] == []; }
    assert TotalSalary(s[..2]) == TotalSalary(s[..1]) + b.totalSalary by { assert s[..2][..1] == s[..1]; }
    assert TotalSalary(s[..3]) == TotalSalary(s[..2]) + c.totalSalary by { assert s[..3][..2] == s[..2]; }
    assert TotalSalary(s[..4]) == TotalSalary(s[..3]) + d.totalSalary by { assert s[..4][..3] == s[..3]; }
    assert TotalSalary(s[..5]) == TotalSalary(s[..4]) + e.totalSalary by { assert s[..5][..4] == s[..4]; }
    assert TotalSalary(s[..6]) == TotalSalary(s[..5]) + f.totalSalary by { assert s[..6][..5] == s[..5]; }
    assert TotalSalary(s) == TotalSalary(s[..6]) + g.totalSalary by { assert s[..6] == s[..|s| - 1]; }
  }

  /** The first seven jobs are on-site and expire together at the end of the shoot day;
      every later job edits one episode, in order, pays 3,000,000 and never expires;
      every job belongs to the shoot month. */
  lemma ShootDayShape(s: ShootLine, i: nat)
    requires i < |ShootDayPlan(s).jobs|
    ensures ShootDayPlan(s).jobs[i].month == ShootMonth(s)
    ensures i < 7 ==> ShootDayPlan(s).jobs[i].isOnSite && ShootDayPlan(s).jobs[i].expiresAt == Some(s.expiresAt)
    ensures i >= 7 ==> i - 7 < |Episodes(s)| && ShootDayPlan(s).jobs[i] == Editing(s, Episodes(s)[i - 7])
  {
    var jobs := ShootDayPlan(s).jobs;
    if i < 7 {
      assert jobs[i] == Crew(s)[i];
    } else {
      assert jobs[i] == EditingJobs(s, Episodes(s))[i - 7];
      EditingJobAt(s, Episodes(s), i - 7);
    }
  }

  /** Every job of a shoot day is filed under a month key that reads back as the
      shoot month, so the whole group lands in one salary month. */
  lemma ShootMonthReadsBack(s: ShootLine)
    requires s.year >= 0 && 1 <= s.month <= 12
    ensures ParseMonthKey(ShootMonth(s)) == Some(Month(s.year, s.month))
  {
    ParseMonthKeyRoundTrip(Month(s.year, s.month));
  }
}
