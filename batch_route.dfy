/** `POST` on /api/jobs/batch (src/app/api/jobs/batch/route.ts): one OPEN job per
    item of the request, all under one freshly drawn group id. The group id, the
    per-job ids and the creation time are parameters. */
module BatchRoute {

  import opened Types
  import opened Seqs
  import opened Store

  datatype BatchItem = BatchItem(
    title: string,
    description: Option<string>,
    totalSalary: int,
    month: Option<string>,
    expiresAt: Option<string>,
    groupId: Option<string>,
    groupName: Option<string>)

  /** 400 for a missing or empty list, 201 with the created jobs otherwise. */
  datatype BatchResponse = BadRequest | Created(jobs: seq<Job>)

  /** The job built for one item. */
  function BatchJob(item: BatchItem, id: string, groupId: string, createdAt: string): (j: Job)
    ensures j.id == id && j.title == item.title && j.totalSalary == item.totalSalary
    ensures j.status == Open && j.assignments == [] && j.createdAt == createdAt
    ensures j.description == OrElse(item.description, "")
    ensures j.month == item.month
    ensures j.groupId == Some(OrElse(item.groupId, groupId))
    ensures j.groupName.Some? <==> Truthy(item.groupName)
    ensures j.groupName.Some? ==> j.groupName == item.groupName
    ensures j.expiresAt.Some? <==> Truthy(item.expiresAt)
    ensures j.expiresAt.Some? ==> j.expiresAt == item.expiresAt
  {
    Job(id := id, title := item.title, description := OrElse(item.description, ""),
        totalSalary := item.totalSalary, status := Open, createdAt := createdAt,
        month := item.month, assignments := [],
        expiresAt := if Truthy(item.expiresAt) then item.expiresAt else None,
        groupId := Some(OrElse(item.groupId, groupId)),
        groupName := if Truthy(item.groupName) then item.groupName else None,
        jobType := None, unitPrice := None, totalUnits := None)
  }

  /** The jobs built for `items`, in input order. */
  function BatchJobs(items: seq<BatchItem>, ids: seq<string>, groupId: string, createdAt: string): (r: seq<Job>)
    requires |ids| == |items|
    ensures |r| == |items|
    ensures forall i :: 0 <= i < |items| ==> r[i] == BatchJob(items[i], ids[i], groupId, createdAt)
  {
    if items == [] then []
    else BatchJobs(items[..|items| - 1], ids[..|ids| - 1], groupId, createdAt)
         + [BatchJob(items[|items| - 1], ids[|ids| - 1], groupId, createdAt)]
  }

  /** Every job of one batch is OPEN, unclaimed and created at the same instant, and
      all items that bring no group id of their own share the request's group id. */
  lemma {:induction false} BatchShape(items: seq<BatchItem>, ids: seq<string>, groupId: string, createdAt: string, i: int, k: int)
    requires |ids| == |items| && 0 <= i < |items| && 0 <= k < |items|
    ensures var r := BatchJobs(items, ids, groupId, createdAt);
            && r[i].status == Open && r[i].assignments == []
            && r[i].createdAt == r[k].createdAt
            && (!Truthy(items[i].groupId) && !Truthy(items[k].groupId) ==> r[i].groupId == r[k].groupId == Some(groupId))
  {
  }

  /** `POST`. For each item in order the job is stored with `createJob`, which puts it in
      front, so the batch ends up at the head of the store in reverse input order. */
  method Post(db: Database, input: Option<seq<BatchItem>>, groupId: string, ids: seq<string>, createdAt: string)
    returns (resp: BatchResponse)
    requires input.Some? ==> |ids| == |input.value|
    modifies db
    ensures input.None? || input.value == [] ==> resp == BadRequest && db.jobs == old(db.jobs)
    ensures input.Some? && input.value != [] ==>
              && resp == Created(BatchJobs(input.value, ids, groupId, createdAt))
              && db.jobs == Reversed(resp.jobs) + old(db.jobs)
    ensures db.employees == old(db.employees)
  {
    if input.None? || |input.value| == 0 {
      return BadRequest;
    }
    var items := input.value;
    var created: seq<Job> := [];
    ghost var doneItems: seq<BatchItem> := [];
    ghost var doneIds: seq<string> := [];
    var n := 0;
    while n < |items|
      invariant 0 <= n <= |items| && doneItems == items[..n] && doneIds == ids[..n]
      invariant created == BatchJobs(doneItems, doneIds, groupId, createdAt)
      invariant db.jobs == Reversed(created) + old(db.jobs)
      invariant db.employees == old(db.employees)
    {
      var job := BatchJob(items[n], ids[n], groupId, createdAt);
      var _ := db.CreateJob(job);
      BatchJobsSnoc(doneItems, doneIds, items[n], ids[n], groupId, createdAt);
      PrependReversedSnoc(created, job, old(db.jobs));
      PrefixSnoc(items, n);
      PrefixSnoc(ids, n);
      created := created + [job];
      doneItems := doneItems + [items[n]];
      doneIds := doneIds + [ids[n]];
      n := n + 1;
    }
    assert items[..n] == items && ids[..n] == ids;
    resp := Created(created);
  }

  /** One more item adds its job at the back. */
  lemma BatchJobsSnoc(items: seq<BatchItem>, ids: seq<string>, item: BatchItem, id: string, groupId: string, createdAt: string)
    requires |ids| == |items|
    ensures BatchJobs(items + [item], ids + [id], groupId, createdAt)
            == BatchJobs(items, ids, groupId, createdAt) + [BatchJob(item, id, groupId, createdAt)]
  {
    assert (items + [item])[..|items|] == items && (ids + [id])[..|ids|] == ids;
  }
}
