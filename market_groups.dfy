/** The market list grouped by shoot day (src/app/page.tsx): the filtered open jobs are
    put into groups keyed by `groupId`, jobs without one into a group under the key
    `"__standalone__"`. A group's header (label and shoot date) comes from the first job
    seen with its key; groups appear in the order their first job appears. */
module MarketGroups {

  import opened Types
  import opened Text
  import opened Calendar
  import opened Seqs

  /** The key of the group for jobs without a (non-empty) `groupId`. A job whose
      `groupId` is literally this text lands in the same group. */
  const StandaloneKey: string := "__standalone__"

  function GroupKey(j: Job): string {
    if Truthy(j.groupId) then j.groupId.value else StandaloneKey
  }

  /** `{ label, date?, jobs }` stored under `key` in the `Map`; `caption` is `label`. */
  datatype Group = Group(key: string, caption: string, date: Option<string>, jobs: seq<Job>)

  function KeyOfGroup(g: Group): string { g.key }

  /** What the shoot-date `find` looks for: a job of the group with a deadline. */
  predicate Dated(j: Job, groupId: string) {
    j.groupId == Some(groupId) && Truthy(j.expiresAt)
  }

  /** `openJobs.find(j => j.groupId === groupId && j.expiresAt)`. */
  function FirstDated(openJobs: seq<Job>, groupId: string): (r: Option<Job>)
    ensures r.Some? ==> r.value in openJobs && r.value.groupId == Some(groupId) && Truthy(r.value.expiresAt)
    ensures r.None? <==> forall i :: 0 <= i < |openJobs| ==> !Dated(openJobs[i], groupId)
    ensures r.Some? ==>
              exists i :: 0 <= i < |openJobs| && openJobs[i] == r.value && forall k :: 0 <= k < i ==> !Dated(openJobs[k], groupId)
  {
    if openJobs == [] then None
    else if Dated(openJobs[0], groupId) then Some(openJobs[0])
    else
      var rest := openJobs[1..];
      assert forall i :: 1 <= i < |openJobs| ==> openJobs[i] == rest[i - 1];
      var r := FirstDated(rest, groupId);
      if r.None? then r
      else
        var i :| 0 <= i < |rest| && rest[i] == r.value && forall k :: 0 <= k < i ==> !Dated(rest[k], groupId);
        assert openJobs[i + 1] == r.value;
        r
  }

  /** The shoot date of a group: the local `day/month/year` of the deadline of the first
      open job of the group that has one, "NaN/NaN/NaN" when that deadline is not a
      date, and "" when no open job of the group has a deadline. */
  function ShootDate(openJobs: seq<Job>, groupId: string, local: LocalTime): (r: string)
    ensures r == "" <==> FirstDated(openJobs, groupId).None?
    ensures FirstDated(openJobs, groupId).Some? ==>
              match local(FirstDated(openJobs, groupId).value.expiresAt.value)
              case None => r == "NaN/NaN/NaN"
              case Some(d) => r == IntToString(d.day) + "/" + IntToString(d.month) + "/" + IntToString(d.year)
  {
    match FirstDated(openJobs, groupId)
    case None => ""
    case Some(j) =>
      match local(j.expiresAt.value)
      case None => "NaN/NaN/NaN"
      case Some(d) => IntToString(d.day) + "/" + IntToString(d.month) + "/" + IntToString(d.year)
  }

  /** The group a job opens when its key is not in the map yet, still without jobs: a
      grouped job gives `groupName ?? groupId` and the shoot date, an ungrouped one an
      empty label and no date. */
  function Header(j: Job, openJobs: seq<Job>, local: LocalTime): (g: Group)
    ensures g.key == GroupKey(j) && g.jobs == []
    ensures Truthy(j.groupId) ==> g.date.Some? && (g.caption == if j.groupName.Some? then j.groupName.value else j.groupId.value)
    ensures !Truthy(j.groupId) ==> g.caption == "" && g.date.None?
  {
    if Truthy(j.groupId) then
      var caption := if j.groupName.Some? then j.groupName.value else j.groupId.value;
      Group(j.groupId.value, caption, Some(ShootDate(openJobs, j.groupId.value, local)), [])
    else Group(StandaloneKey, "", None, [])
  }

  /** Position of the first job with group key `k` in `p`, or `|p|` when there is none. */
  function FirstSeen(p: seq<Job>, k: string): nat {
    match IndexOfKey(p, GroupKey, k)
    case Some(i) => i
    case None => |p|
  }

  /** Number of jobs shown over all groups. */
  function TotalJobs(groups: seq<Group>): nat {
    if groups == [] then 0 else TotalJobs(groups[..|groups| - 1]) + |groups[|groups| - 1].jobs|
  }

  lemma TotalJobsSnoc(groups: seq<Group>, g: Group)
    ensures TotalJobs(groups + [g]) == TotalJobs(groups) + |g.jobs|
  {
    assert (groups + [g])[..|groups|] == groups;
  }

  /** Replacing one group changes the total by the difference in its job count. */
  lemma {:induction false} TotalJobsUpdate(groups: seq<Group>, a: int, g: Group)
    requires 0 <= a < |groups|
    ensures TotalJobs(groups[a := g]) == TotalJobs(groups) - |groups[a].jobs| + |g.jobs|
    decreases |groups|
  {
    var n := |groups| - 1;
    var init := groups[..n];
    if a == n {
      assert groups[a := g][..n] == init;
    } else {
      TotalJobsUpdate(init, a, g);
      assert groups[a := g][..n] == init[a := g];
    }
  }

  /** The keys of the map, in insertion order (`groups.keys()`). */
  function Keys(groups: seq<Group>): (r: seq<string>)
    ensures |r| == |groups| && forall a :: 0 <= a < |groups| ==> r[a] == groups[a].key
  {
    seq(|groups|, a requires 0 <= a < |groups| => groups[a].key)
  }

  predicate KeysDistinct(groups: seq<Group>) {
    forall a, b :: 0 <= a < b < |groups| ==> groups[a].key != groups[b].key
  }

  /** `g` was opened by the first job of `p` with its key and holds exactly the jobs of
      `p` with that key, in order. */
  ghost predicate HeadedBy(g: Group, p: seq<Job>, openJobs: seq<Job>, local: LocalTime) {
    && FirstSeen(p, g.key) < |p|
    && g == Header(p[FirstSeen(p, g.key)], openJobs, local).(jobs := WithKey(p, GroupKey, g.key))
  }

  ghost predicate AllHeaded(groups: seq<Group>, p: seq<Job>, openJobs: seq<Job>, local: LocalTime) {
    forall a :: 0 <= a < |groups| ==> HeadedBy(groups[a], p, openJobs, local)
  }

  /** Every job's key has a group. */
  predicate Covers(groups: seq<Group>, p: seq<Job>) {
    forall i :: 0 <= i < |p| ==> GroupKey(p[i]) in Keys(groups)
  }

  /** Groups come in the order of their first jobs. */
  predicate InFirstSeenOrder(groups: seq<Group>, p: seq<Job>) {
    forall a, b :: 0 <= a < b < |groups| ==> FirstSeen(p, groups[a].key) < FirstSeen(p, groups[b].key)
  }

  /** `groups` is what the loop builds from the jobs `p`: one group per distinct key, in
      order of each key's first job, each group headed by that first job and holding
      exactly the jobs with its key in their order. */
  ghost predicate IsGrouping(groups: seq<Group>, p: seq<Job>, openJobs: seq<Job>, local: LocalTime) {
    && KeysDistinct(groups)
    && AllHeaded(groups, p, openJobs, local)
    && Covers(groups, p)
    && InFirstSeenOrder(groups, p)
  }

  /** A job put at the back does not move the first job of a key already present, and
      is itself the first job of its key when that key was absent. */
  lemma FirstSeenSnoc(p: seq<Job>, job: Job, k: string)
    ensures FirstSeen(p, k) < |p| ==> FirstSeen(p + [job], k) == FirstSeen(p, k)
    ensures FirstSeen(p, k) == |p| && GroupKey(job) == k ==> FirstSeen(p + [job], k) == |p|
  {
    IndexOfKeySnoc(p, GroupKey, job, k);
  }

  /** A group keeps its header when a job is put at the back of the list, and gains that
      job exactly when the job has its key. */
  lemma HeadedSnoc(g: Group, p: seq<Job>, job: Job, openJobs: seq<Job>, local: LocalTime)
    requires HeadedBy(g, p, openJobs, local)
    ensures HeadedBy(if GroupKey(job) == g.key then g.(jobs := g.jobs + [job]) else g, p + [job], openJobs, local)
  {
    var f := FirstSeen(p, g.key);
    FirstSeenSnoc(p, job, g.key);
    WithKeySnoc(p, GroupKey, job, g.key);
    assert (p + [job])[f] == p[f];
  }

  /** Every group's key occurs in `p`. */
  predicate AllSeen(groups: seq<Group>, p: seq<Job>) {
    forall a :: 0 <= a < |groups| ==> FirstSeen(p, groups[a].key) < |p|
  }

  lemma HeadedSeen(groups: seq<Group>, p: seq<Job>, openJobs: seq<Job>, local: LocalTime)
    requires AllHeaded(groups, p, openJobs, local)
    ensures AllSeen(groups, p)
  {
    forall a | 0 <= a < |groups|
      ensures FirstSeen(p, groups[a].key) < |p|
    {
      assert HeadedBy(groups[a], p, openJobs, local);
    }
  }

  /** Pushing a job onto the group with its key keeps every group headed. */
  lemma HeadedAfterPush(groups: seq<Group>, p: seq<Job>, job: Job, openJobs: seq<Job>, local: LocalTime, a: int)
    requires AllHeaded(groups, p, openJobs, local) && KeysDistinct(groups)
    requires 0 <= a < |groups| && groups[a].key == GroupKey(job)
    ensures AllHeaded(groups[a := groups[a].(jobs := groups[a].jobs + [job])], p + [job], openJobs, local)
  {
    var g' := groups[a := groups[a].(jobs := groups[a].jobs + [job])];
    forall b | 0 <= b < |g'|
      ensures HeadedBy(g'[b], p + [job], openJobs, local)
    {
      assert HeadedBy(groups[b], p, openJobs, local);
      HeadedSnoc(groups[b], p, job, openJobs, local);
    }
  }

  /** Pushing a job onto the group with its key keeps the groups' order and keys. */
  lemma OrderAfterPush(groups: seq<Group>, p: seq<Job>, job: Job, a: int)
    requires InFirstSeenOrder(groups, p) && AllSeen(groups, p) && KeysDistinct(groups) && Covers(groups, p)
    requires 0 <= a < |groups| && groups[a].key == GroupKey(job)
    ensures var g' := groups[a := groups[a].(jobs := groups[a].jobs + [job])];
            InFirstSeenOrder(g', p + [job]) && AllSeen(g', p + [job]) && KeysDistinct(g') && Covers(g', p + [job])
  {
    var g' := groups[a := groups[a].(jobs := groups[a].jobs + [job])];
    var p' := p + [job];
    forall b | 0 <= b < |g'|
      ensures g'[b].key == groups[b].key
      ensures FirstSeen(p', g'[b].key) == FirstSeen(p, groups[b].key)
    {
      FirstSeenSnoc(p, job, groups[b].key);
    }
    assert Keys(g') == Keys(groups);
    assert Covers(g', p') by {
      assert forall i :: 0 <= i < |p| ==> p'[i] == p[i];
      assert Keys(g')[a] == GroupKey(p'[|p|]);
    }
  }

  /** A job whose key already has a group is pushed onto that group. */
  lemma StepExisting(groups: seq<Group>, p: seq<Job>, job: Job, openJobs: seq<Job>, local: LocalTime, a: int)
    requires IsGrouping(groups, p, openJobs, local)
    requires 0 <= a < |groups| && groups[a].key == GroupKey(job)
    ensures IsGrouping(groups[a := groups[a].(jobs := groups[a].jobs + [job])], p + [job], openJobs, local)
  {
    HeadedSeen(groups, p, openJobs, local);
    HeadedAfterPush(groups, p, job, openJobs, local, a);
    OrderAfterPush(groups, p, job, a);
  }

  /** The first job of a key heads the group it opens. */
  lemma NewGroupHeaded(p: seq<Job>, job: Job, openJobs: seq<Job>, local: LocalTime)
    requires forall i :: 0 <= i < |p| ==> GroupKey(p[i]) != GroupKey(job)
    ensures HeadedBy(Header(job, openJobs, local).(jobs := [job]), p + [job], openJobs, local)
  {
    var k := GroupKey(job);
    FirstSeenSnoc(p, job, k);
    WithKeySnoc(p, GroupKey, job, k);
    assert WithKey(p, GroupKey, k) == [];
    assert (p + [job])[|p|] == job;
  }

  /** A new group for a job whose key had none keeps every group headed. */
  lemma HeadedAfterOpen(groups: seq<Group>, p: seq<Job>, job: Job, openJobs: seq<Job>, local: LocalTime)
    requires AllHeaded(groups, p, openJobs, local) && Covers(groups, p)
    requires GroupKey(job) !in Keys(groups)
    ensures AllHeaded(groups + [Header(job, openJobs, local).(jobs := [job])], p + [job], openJobs, local)
  {
    var k := GroupKey(job);
    var h := Header(job, openJobs, local).(jobs := [job]);
    var p' := p + [job];
    var g' := groups + [h];
    assert forall i :: 0 <= i < |p| ==> GroupKey(p[i]) != k;
    NewGroupHeaded(p, job, openJobs, local);
    forall b | 0 <= b < |g'|
      ensures HeadedBy(g'[b], p', openJobs, local)
    {
      if b < |groups| {
        assert g'[b] == groups[b] && HeadedBy(groups[b], p, openJobs, local);
        assert groups[b].key != k by {
          assert Keys(groups)[b] == groups[b].key;
        }
        HeadedSnoc(groups[b], p, job, openJobs, local);
        assert HeadedBy(groups[b], p', openJobs, local);
      } else {
        assert g'[b] == h;
      }
    }
  }

  /** A new group for a job whose key had none goes last, after the groups of keys seen
      earlier. */
  lemma OrderAfterOpen(groups: seq<Group>, p: seq<Job>, job: Job, h: Group)
    requires InFirstSeenOrder(groups, p) && AllSeen(groups, p) && KeysDistinct(groups) && Covers(groups, p)
    requires GroupKey(job) !in Keys(groups) && h.key == GroupKey(job)
    ensures InFirstSeenOrder(groups + [h], p + [job]) && AllSeen(groups + [h], p + [job])
    ensures KeysDistinct(groups + [h]) && Covers(groups + [h], p + [job])
  {
    var k := GroupKey(job);
    var p' := p + [job];
    var g' := groups + [h];
    assert forall i :: 0 <= i < |p| ==> GroupKey(p[i]) != k;
    forall b | 0 <= b < |g'|
      ensures FirstSeen(p', g'[b].key) == if b < |groups| then FirstSeen(p, groups[b].key) else |p|
    {
      if b < |groups| {
        assert g'[b] == groups[b];
        FirstSeenSnoc(p, job, groups[b].key);
      } else {
        FirstSeenSnoc(p, job, k);
      }
    }
    assert KeysDistinct(g') by {
      assert forall b :: 0 <= b < |groups| ==> Keys(groups)[b] == groups[b].key;
    }
    assert Covers(g', p') by {
      assert Keys(g') == Keys(groups) + [k];
      assert forall i :: 0 <= i < |p| ==> p'[i] == p[i];
    }
  }

  /** A job whose key has no group yet opens a new group at the end, headed by it. */
  lemma StepNew(groups: seq<Group>, p: seq<Job>, job: Job, openJobs: seq<Job>, local: LocalTime)
    requires IsGrouping(groups, p, openJobs, local)
    requires GroupKey(job) !in Keys(groups)
    ensures IsGrouping(groups + [Header(job, openJobs, local).(jobs := [job])], p + [job], openJobs, local)
  {
    HeadedSeen(groups, p, openJobs, local);
    HeadedAfterOpen(groups, p, job, openJobs, local);
    OrderAfterOpen(groups, p, job, Header(job, openJobs, local).(jobs := [job]));
  }

  /** The grouping loop over `filteredJobs`: every job is placed in turn. */
  method GroupJobs(filtered: seq<Job>, openJobs: seq<Job>, local: LocalTime) returns (groups: seq<Group>)
    ensures IsGrouping(groups, filtered, openJobs, local)
    ensures TotalJobs(groups) == |filtered|
  {
    groups := [];
    ghost var done: seq<Job> := [];
    var n := 0;
    while n < |filtered|
      invariant 0 <= n <= |filtered| && done == filtered[..n]
      invariant IsGrouping(groups, done, openJobs, local)
      invariant TotalJobs(groups) == n
    {
      groups := Place(groups, filtered[n], openJobs, local, done);
      PrefixSnoc(filtered, n);
      done := done + [filtered[n]];
      n := n + 1;
    }
    assert filtered[..n] == filtered;
  }

  /** One iteration of the grouping loop. The `Map` lookup `has` is the first group
      with the job's key; `set` of a new group followed by `get(key).jobs.push(job)` is
      one append of that group already holding the job. */
  method Place(groups: seq<Group>, job: Job, openJobs: seq<Job>, local: LocalTime, ghost p: seq<Job>)
    returns (r: seq<Group>)
    requires IsGrouping(groups, p, openJobs, local)
    ensures IsGrouping(r, p + [job], openJobs, local)
    ensures TotalJobs(r) == TotalJobs(groups) + 1
  {
    var at := IndexOfKey(groups, KeyOfGroup, GroupKey(job));
    if at.None? {
      var g := Header(job, openJobs, local).(jobs := [job]);
      assert GroupKey(job) !in Keys(groups);
      StepNew(groups, p, job, openJobs, local);
      TotalJobsSnoc(groups, g);
      r := groups + [g];
    } else {
      var a := at.value;
      var g := groups[a].(jobs := groups[a].jobs + [job]);
      StepExisting(groups, p, job, openJobs, local, a);
      TotalJobsUpdate(groups, a, g);
      r := groups[a := g];
    }
  }

  /** Every job of the list is shown in exactly one group: the one with its key. */
  lemma ExactlyOneGroup(groups: seq<Group>, p: seq<Job>, openJobs: seq<Job>, local: LocalTime, i: int)
    requires IsGrouping(groups, p, openJobs, local) && 0 <= i < |p|
    ensures exists a :: 0 <= a < |groups| && p[i] in groups[a].jobs
    ensures forall a :: 0 <= a < |groups| ==> (p[i] in groups[a].jobs <==> groups[a].key == GroupKey(p[i]))
    ensures forall a, b :: 0 <= a < b < |groups| ==> !(p[i] in groups[a].jobs && p[i] in groups[b].jobs)
  {
    assert GroupKey(p[i]) in Keys(groups);
    var a :| 0 <= a < |groups| && Keys(groups)[a] == GroupKey(p[i]);
    assert HeadedBy(groups[a], p, openJobs, local);
    assert p[i] in groups[a].jobs;
  }

  /** Every group holds at least one job, and the jobs of a group keep the list's order. */
  lemma GroupsNonEmptyInOrder(groups: seq<Group>, p: seq<Job>, openJobs: seq<Job>, local: LocalTime, a: int)
    requires IsGrouping(groups, p, openJobs, local) && 0 <= a < |groups|
    ensures groups[a].jobs != [] && IsSubsequence(groups[a].jobs, p)
  {
    assert HeadedBy(groups[a], p, openJobs, local);
    var f := FirstSeen(p, groups[a].key);
    assert GroupKey(p[f]) == groups[a].key;
  }

  /** Two jobs share a group exactly when they have the same key. */
  lemma SameGroupIffSameKey(groups: seq<Group>, p: seq<Job>, openJobs: seq<Job>, local: LocalTime, i: int, k: int)
    requires IsGrouping(groups, p, openJobs, local) && 0 <= i < |p| && 0 <= k < |p|
    ensures GroupKey(p[i]) == GroupKey(p[k]) ==>
              forall a :: 0 <= a < |groups| ==> (p[i] in groups[a].jobs <==> p[k] in groups[a].jobs)
    ensures GroupKey(p[i]) != GroupKey(p[k]) ==>
              forall a :: 0 <= a < |groups| ==> !(p[i] in groups[a].jobs && p[k] in groups[a].jobs)
  {
    ExactlyOneGroup(groups, p, openJobs, local, i);
    ExactlyOneGroup(groups, p, openJobs, local, k);
  }

  /** A job whose group id is literally "__standalone__" is shown in the same group as
      the jobs that have no group id. */
  lemma StandaloneIdCollides(groups: seq<Group>, p: seq<Job>, openJobs: seq<Job>, local: LocalTime, i: int, k: int)
    requires IsGrouping(groups, p, openJobs, local) && 0 <= i < |p| && 0 <= k < |p|
    requires p[i].groupId == Some(StandaloneKey) && !Truthy(p[k].groupId)
    ensures forall a :: 0 <= a < |groups| ==> (p[i] in groups[a].jobs <==> p[k] in groups[a].jobs)
  {
    SameGroupIffSameKey(groups, p, openJobs, local, i, k);
  }
}
