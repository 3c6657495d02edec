/**
 The history backfill: runsFor, jobsFor, hasWork and pass of dashboard/lib/backfill.js,
 and the settler of frozen jobs (dashboard/lib/settle.js), over the tables of runs
 and jobs. What GitHub answers, and whether rate limit is left, depends on how many
 requests were made before; a request that fails is made, but not counted among the
 calls.
 */
module Backfill {
  import opened Wrappers

  const MAX_PAGES: nat := 20
  const PAGE: nat := 100
  const BATCH: nat := 25

  datatype Conclusion = Unfinished | Passed | Failed

  /** A row of the table of jobs; `late` when it was last seen well after its run completed. */
  datatype JobRow = JobRow(id: int, runId: int, conclusion: Conclusion, late: bool, classified: bool)

  /** A job as it is written to the table. */
  datatype Job = Job(id: int, runId: int, conclusion: Conclusion, late: bool)

  /** A page of a run list: its length, its completed runs, and the others on it. */
  datatype Page = Page(length: nat, completed: seq<int>, active: seq<int>) | PageFailed

  datatype JobList = Listed(jobs: seq<Job>) | ListFailed

  /** GitHub on one frozen job. */
  datatype OneJob = Found(conclusion: Conclusion, late: bool) | Limited | Gone(late: bool) | JobFailed

  datatype Source = Source(
    rate: nat -> bool,
    pages: nat -> Page,
    jobs: (nat, int) -> JobList,
    job: (nat, int) -> OneJob,
    causes: nat -> bool,
    runOf: int -> int)              // the run a job's id belongs to

  /** The ids of runs are positive, and the jobs listed for a run are that run's. */
  ghost predicate TellsTruly(source: Source) {
    && (forall n: nat, run: int | source.jobs(n, run).Listed? :: OfRun(source, run, source.jobs(n, run).jobs))
    && (forall n: nat | source.pages(n).Page? :: forall r | r in source.pages(n).completed :: r > 0)
  }

  predicate OfRun(source: Source, run: int, jobs: seq<Job>) {
    forall j | j in jobs :: j.id > 0 && j.runId == run && source.runOf(j.id) == run
  }

  // ---- the tables -----------------------------------------------------------------

  /** persistJob: a row already there keeps its run and its cause. */
  function Upsert(jobs: seq<JobRow>, j: Job): seq<JobRow> {
    if jobs == [] then [JobRow(j.id, j.runId, j.conclusion, j.late, false)]
    else if jobs[0].id == j.id then [jobs[0].(conclusion := j.conclusion, late := j.late)] + jobs[1..]
    else [jobs[0]] + Upsert(jobs[1..], j)
  }

  function UpsertAll(jobs: seq<JobRow>, more: seq<Job>): seq<JobRow> {
    if more == [] then jobs else Upsert(UpsertAll(jobs, more[..|more| - 1]), more[|more| - 1])
  }

  /** detailUnavailable: stands in for the jobs of a run that has none to show. */
  function Marker(run: int): Job {
    Job(-run, run, Passed, true)
  }

  /** The runs with a job on record. */
  function RunsOf(jobs: seq<JobRow>): set<int> {
    set j | j in jobs :: j.runId
  }

  predicate Frozen(runs: seq<int>, j: JobRow) {
    j.id > 0 && j.conclusion == Unfinished && !j.late && j.runId in runs
  }

  predicate Unexplained(j: JobRow) {
    j.id > 0 && j.conclusion == Failed && !j.classified
  }

  predicate Distinct(xs: seq<int>) {
    forall i, j | 0 <= i < j < |xs| :: xs[i] != xs[j]
  }

  function Without(xs: seq<int>, gone: set<int>): (r: seq<int>)
    ensures |r| <= |xs| && forall x :: x in r <==> x in xs && x !in gone
    ensures Distinct(xs) ==> Distinct(r)
  {
    if xs == [] then []
    else
      var init, last := xs[..|xs| - 1], xs[|xs| - 1];
      assert xs == init + [last];
      var r := Without(init, gone);
      assert forall i | 0 <= i < |r| :: r[i] in init;
      if last in gone then r else r + [last]
  }

  /** pendingRuns: the completed runs without a job on record. */
  function PendingRuns(runs: seq<int>, jobs: seq<JobRow>): seq<int> {
    Without(runs, RunsOf(jobs))
  }

  /** The ids of the rows that meet p, in the order of the table. */
  function Ids(jobs: seq<JobRow>, p: JobRow -> bool): seq<int> {
    if jobs == [] then []
    else
      var ids := Ids(jobs[..|jobs| - 1], p);
      if p(jobs[|jobs| - 1]) then ids + [jobs[|jobs| - 1].id] else ids
  }

  function FrozenIn(runs: seq<int>): JobRow -> bool {
    (j: JobRow) => Frozen(runs, j)
  }

  function Stale(runs: seq<int>, jobs: seq<JobRow>): seq<int> {
    Ids(jobs, FrozenIn(runs))
  }

  function Unclassified(jobs: seq<JobRow>): seq<int> {
    Ids(jobs, Unexplained)
  }

  /** The row with that id changed. */
  function Change(jobs: seq<JobRow>, id: int, f: JobRow -> JobRow): (r: seq<JobRow>)
    ensures |r| == |jobs|
    ensures forall i | 0 <= i < |jobs| :: r[i] == if jobs[i].id == id then f(jobs[i]) else jobs[i]
  {
    seq(|jobs|, i requires 0 <= i < |jobs| => if jobs[i].id == id then f(jobs[i]) else jobs[i])
  }

  predicate DistinctIds(jobs: seq<JobRow>) {
    forall i, j | 0 <= i < j < |jobs| :: jobs[i].id != jobs[j].id
  }

  /** Ids name one row each; a job is its run's, and a marker that of the run it is named after. */
  predicate Sound(source: Source, runs: seq<int>, jobs: seq<JobRow>) {
    && Distinct(runs) && DistinctIds(jobs)
    && (forall r | r in runs :: r > 0)
    && forall j | j in jobs :: OfItsRun(source, j)
  }

  predicate OfItsRun(source: Source, j: JobRow) {
    if j.id > 0 then source.runOf(j.id) == j.runId else j.runId == -j.id
  }

  // ---- a run is asked about once -----------------------------------------------------

  /** What the answer about a run leaves on record. */
  function AfterAnswer(jobs: seq<JobRow>, run: int, answer: JobList): seq<JobRow> {
    match answer
    case ListFailed => Upsert(jobs, Marker(run))
    case Listed(more) => if more == [] then Upsert(jobs, Marker(run)) else UpsertAll(jobs, more)
  }

  lemma RunsFirst(first: JobRow, rest: seq<JobRow>)
    ensures RunsOf([first] + rest) == {first.runId} + RunsOf(rest)
  {
    forall r ensures r in RunsOf([first] + rest) <==> r in {first.runId} + RunsOf(rest) {
      assert ([first] + rest)[0] == first;
      if r in RunsOf(rest) {
        var x :| x in rest && x.runId == r;
        assert x in [first] + rest;
      }
    }
  }

  lemma {:induction false} UpsertKeepsIds(source: Source, jobs: seq<JobRow>, j: Job)
    requires DistinctIds(jobs) && (forall x | x in jobs :: OfItsRun(source, x))
    requires if j.id > 0 then source.runOf(j.id) == j.runId else j.runId == -j.id
    ensures var after := Upsert(jobs, j);
      && DistinctIds(after) && (forall x | x in after :: OfItsRun(source, x))
      && (forall x | x in after :: x.id == j.id || x in jobs)
  {
    if jobs != [] && jobs[0].id != j.id {
      var rest := Upsert(jobs[1..], j);
      UpsertKeepsIds(source, jobs[1..], j);
      assert forall k | 0 <= k < |rest| :: rest[k] in rest;
    } else if jobs != [] {
      assert jobs[0] in jobs && OfItsRun(source, jobs[0]);
    }
  }

  lemma {:induction false} UpsertRuns(source: Source, jobs: seq<JobRow>, j: Job)
    requires forall x | x in jobs :: OfItsRun(source, x)
    requires if j.id > 0 then source.runOf(j.id) == j.runId else j.runId == -j.id
    ensures RunsOf(Upsert(jobs, j)) == RunsOf(jobs) + {j.runId}
  {
    var after := Upsert(jobs, j);
    if jobs == [] {
      assert after[0] in after;
    } else {
      var first, rest := jobs[0], jobs[1..];
      assert jobs == [first] + rest;
      RunsFirst(first, rest);
      assert first in jobs && OfItsRun(source, first);
      if first.id == j.id {
        assert after == [after[0]] + rest;
        RunsFirst(after[0], rest);
      } else {
        UpsertRuns(source, rest, j);
        RunsFirst(first, Upsert(rest, j));
      }
    }
  }

  lemma UpsertRows(source: Source, jobs: seq<JobRow>, j: Job)
    requires DistinctIds(jobs) && (forall x | x in jobs :: OfItsRun(source, x))
    requires if j.id > 0 then source.runOf(j.id) == j.runId else j.runId == -j.id
    ensures var after := Upsert(jobs, j);
      && DistinctIds(after) && (forall x | x in after :: OfItsRun(source, x))
      && RunsOf(after) == RunsOf(jobs) + {j.runId}
  {
    UpsertKeepsIds(source, jobs, j);
    UpsertRuns(source, jobs, j);
  }

  lemma {:induction false} UpsertAllRows(source: Source, jobs: seq<JobRow>, run: int, more: seq<Job>)
    requires DistinctIds(jobs) && (forall x | x in jobs :: OfItsRun(source, x)) && OfRun(source, run, more)
    ensures var after := UpsertAll(jobs, more);
      && DistinctIds(after) && (forall x | x in after :: OfItsRun(source, x))
      && RunsOf(after) == RunsOf(jobs) + if more == [] then {} else {run}
  {
    if more != [] {
      var init, last := more[..|more| - 1], more[|more| - 1];
      assert more == init + [last];
      UpsertAllRows(source, jobs, run, init);
      UpsertRows(source, UpsertAll(jobs, init), last);
    }
  }

  lemma {:induction false} WithoutMore(xs: seq<int>, gone: set<int>, x: int)
    ensures Without(xs, gone + {x}) == Without(Without(xs, gone), {x})
  {
    if xs != [] {
      var init, last := xs[..|xs| - 1], xs[|xs| - 1];
      WithoutMore(init, gone, x);
      WithoutSnoc(Without(init, gone), last, {x});
    }
  }

  lemma WithoutSnoc(xs: seq<int>, x: int, gone: set<int>)
    ensures Without(xs + [x], gone) == Without(xs, gone) + if x in gone then [] else [x]
  {
    assert (xs + [x])[..|xs|] == xs;
  }

  lemma {:induction false} WithoutOne(xs: seq<int>, x: int)
    requires Distinct(xs)
    ensures |Without(xs, {x})| == |xs| - if x in xs then 1 else 0
  {
    if xs != [] {
      WithoutOne(xs[..|xs| - 1], x);
      assert xs == xs[..|xs| - 1] + [xs[|xs| - 1]];
    }
  }

  /**
   Whatever comes back about a pending run, be it its jobs, an empty list or a failure,
   the run is not pending any more, and every other run is as it was.
   */
  lemma AnswerClearsRun(source: Source, runs: seq<int>, jobs: seq<JobRow>, run: int, answer: JobList)
    requires Sound(source, runs, jobs) && run in runs
    requires answer.Listed? ==> OfRun(source, run, answer.jobs)
    ensures var after := AfterAnswer(jobs, run, answer);
      && Sound(source, runs, after)
      && PendingRuns(runs, after) == Without(PendingRuns(runs, jobs), {run})
  {
    if answer.Listed? && answer.jobs != [] {
      UpsertAllRows(source, jobs, run, answer.jobs);
    } else {
      UpsertRows(source, jobs, Marker(run));
    }
    WithoutMore(runs, RunsOf(jobs), run);
  }

  /** The row of an id, if there is one. */
  function RowOf(jobs: seq<JobRow>, id: int): (r: Option<JobRow>)
    ensures r.Some? ==> r.value in jobs && r.value.id == id
    ensures r.None? ==> forall j | j in jobs :: j.id != id
  {
    if jobs == [] then None
    else if jobs[0].id == id then Some(jobs[0])
    else
      assert jobs == [jobs[0]] + jobs[1..];
      RowOf(jobs[1..], id)
  }

  /** The last a list says of a job. */
  function LastOf(more: seq<Job>, id: int): (j: Option<Job>)
    ensures j.Some? ==> j.value in more && j.value.id == id
    ensures j.None? ==> forall x | x in more :: x.id != id
  {
    if more == [] then None
    else if more[|more| - 1].id == id then Some(more[|more| - 1])
    else
      assert more == more[..|more| - 1] + [more[|more| - 1]];
      LastOf(more[..|more| - 1], id)
  }

  /** What an answer about a run says of a job: what it lists, or that the run has no jobs to show. */
  function SaidOf(run: int, answer: JobList, id: int): Option<Job> {
    if answer.Listed? && answer.jobs != [] then LastOf(answer.jobs, id)
    else if id == -run then Some(Job(id, run, Passed, true))
    else None
  }

  /** A job is recorded as it was said last; a row already there keeps its run and its cause. */
  function Recorded(before: Option<JobRow>, said: Option<Job>): Option<JobRow> {
    match (before, said)
    case (_, None) => before
    case (None, Some(j)) => Some(JobRow(j.id, j.runId, j.conclusion, j.late, false))
    case (Some(r), Some(j)) => Some(JobRow(r.id, r.runId, j.conclusion, j.late, r.classified))
  }

  lemma {:induction false} UpsertRecords(jobs: seq<JobRow>, j: Job, id: int)
    ensures RowOf(Upsert(jobs, j), id) == Recorded(RowOf(jobs, id), if j.id == id then Some(j) else None)
  {
    if jobs != [] && jobs[0].id != j.id {
      UpsertRecords(jobs[1..], j, id);
    }
  }

  lemma {:induction false} UpsertAllRecords(jobs: seq<JobRow>, run: int, more: seq<Job>, id: int)
    requires forall j | j in more :: j.runId == run
    ensures RowOf(UpsertAll(jobs, more), id) == Recorded(RowOf(jobs, id), LastOf(more, id))
  {
    if more != [] {
      UpsertAllRecords(jobs, run, more[..|more| - 1], id);
      UpsertRecords(UpsertAll(jobs, more[..|more| - 1]), more[|more| - 1], id);
    }
  }

  /** An answer about a run is put on record, job for job, and nothing else is touched. */
  lemma AnswerIsRecorded(jobs: seq<JobRow>, run: int, answer: JobList, id: int)
    requires answer.Listed? ==> forall j | j in answer.jobs :: j.runId == run
    ensures RowOf(AfterAnswer(jobs, run, answer), id) == Recorded(RowOf(jobs, id), SaidOf(run, answer, id))
  {
    UpsertRecords(jobs, Marker(run), id);
    if answer.Listed? {
      UpsertAllRecords(jobs, run, answer.jobs, id);
    }
  }

  /** An empty list is why the marker is there: by itself it would leave the run pending. */
  lemma EmptyListLeavesPending(source: Source, runs: seq<int>, jobs: seq<JobRow>, run: int)
    requires Sound(source, runs, jobs) && run in PendingRuns(runs, jobs)
    ensures PendingRuns(runs, UpsertAll(jobs, [])) == PendingRuns(runs, jobs)
    ensures run !in PendingRuns(runs, AfterAnswer(jobs, run, Listed([])))
  {
    AnswerClearsRun(source, runs, jobs, run, Listed([]));
  }

  // ---- rows that change in place ---------------------------------------------------

  /** A change that keeps the row's id and run. */
  predicate Tame(f: JobRow -> JobRow, j: JobRow) {
    f(j).id == j.id && f(j).runId == j.runId
  }

  lemma ChangeKeepsRuns(source: Source, runs: seq<int>, jobs: seq<JobRow>, id: int, f: JobRow -> JobRow)
    requires Sound(source, runs, jobs) && forall j | j in jobs :: Tame(f, j)
    ensures Sound(source, runs, Change(jobs, id, f))
    ensures PendingRuns(runs, Change(jobs, id, f)) == PendingRuns(runs, jobs)
  {
    var after := Change(jobs, id, f);
    forall i | 0 <= i < |jobs|
      ensures after[i].id == jobs[i].id && after[i].runId == jobs[i].runId && OfItsRun(source, after[i])
    {
      assert jobs[i] in jobs && Tame(f, jobs[i]) && OfItsRun(source, jobs[i]);
    }
    forall r ensures r in RunsOf(after) <==> r in RunsOf(jobs) {
      if r in RunsOf(jobs) {
        var i :| 0 <= i < |jobs| && jobs[i].runId == r;
        assert after[i] in after;
      }
    }
    assert RunsOf(after) == RunsOf(jobs);
  }

  lemma {:induction false} IdsHold(jobs: seq<JobRow>, p: JobRow -> bool, id: int)
    ensures id in Ids(jobs, p) <==> exists i | 0 <= i < |jobs| :: p(jobs[i]) && jobs[i].id == id
  {
    if jobs != [] {
      var init := jobs[..|jobs| - 1];
      IdsHold(init, p, id);
      assert id in Ids(init, p) ==> exists i | 0 <= i < |init| :: p(init[i]) && init[i].id == id;
      if i :| 0 <= i < |jobs| && p(jobs[i]) && jobs[i].id == id {
        assert i < |init| ==> init[i] == jobs[i];
      }
    }
  }

  lemma {:induction false} IdsDistinct(jobs: seq<JobRow>, p: JobRow -> bool)
    requires DistinctIds(jobs)
    ensures Distinct(Ids(jobs, p))
  {
    if jobs != [] {
      var init, last := jobs[..|jobs| - 1], jobs[|jobs| - 1];
      IdsDistinct(init, p);
      IdsHold(init, p, last.id);
      assert last.id !in Ids(init, p);
    }
  }

  /** If only the row with that id can stop meeting p, and does, its id alone goes. */
  lemma {:induction false} IdsLess(jobs: seq<JobRow>, after: seq<JobRow>, p: JobRow -> bool, id: int)
    requires |jobs| == |after|
    requires forall i | 0 <= i < |jobs| ::
      after[i].id == jobs[i].id && (p(after[i]) <==> p(jobs[i]) && jobs[i].id != id)
    ensures Ids(after, p) == Without(Ids(jobs, p), {id})
  {
    if jobs != [] {
      var init, last := jobs[..|jobs| - 1], jobs[|jobs| - 1];
      IdsLess(init, after[..|jobs| - 1], p, id);
      WithoutSnoc(Ids(init, p), last.id, {id});
    }
  }

  /** If no row comes to meet p, no more ids are left outside a set. */
  lemma {:induction false} IdsFewer(jobs: seq<JobRow>, after: seq<JobRow>, p: JobRow -> bool, gone: set<int>)
    requires |jobs| == |after|
    requires forall i | 0 <= i < |jobs| :: after[i].id == jobs[i].id && (p(after[i]) ==> p(jobs[i]))
    ensures |Without(Ids(after, p), gone)| <= |Without(Ids(jobs, p), gone)|
    ensures forall x | x in Ids(after, p) :: x in Ids(jobs, p)
  {
    if jobs != [] {
      var n := |jobs| - 1;
      IdsFewer(jobs[..n], after[..n], p, gone);
      WithoutSnoc(Ids(jobs[..n], p), jobs[n].id, gone);
      WithoutSnoc(Ids(after[..n], p), after[n].id, gone);
    }
  }

  lemma {:induction false} WithoutAll(xs: seq<int>, gone: set<int>)
    requires forall x | x in xs :: x in gone
    ensures Without(xs, gone) == []
  {
    if xs != [] {
      WithoutAll(xs[..|xs| - 1], gone);
    }
  }

  /** Taking out the first of distinct ids leaves the rest. */
  lemma {:induction false} WithoutFirst(xs: seq<int>, n: nat)
    requires Distinct(xs) && n <= |xs|
    ensures |Without(xs, set x | x in xs[..n])| == |xs| - n
  {
    var gone := set x | x in xs[..n];
    if xs != [] {
      var init, last := xs[..|xs| - 1], xs[|xs| - 1];
      if n == |xs| {
        assert xs[..n] == xs;
        WithoutAll(xs, gone);
      } else {
        WithoutFirst(init, n);
        assert init[..n] == xs[..n];
        assert last !in gone;
      }
    }
  }

  /** The row is as GitHub told it: its conclusion when the job was found, when it was seen also when it is gone. */
  ghost predicate AsTold(before: JobRow, answer: OneJob, after: JobRow) {
    && after.id == before.id && after.runId == before.runId && after.classified == before.classified
    && after.conclusion == (match answer case Found(conclusion, _) => conclusion case _ => before.conclusion)
    && after.late == (match answer case Found(_, late) => late case Gone(late) => late case _ => before.late)
  }

  /** What GitHub says of one job makes of its row; a job it no longer has is marked seen. */
  function Retold(r: JobRow, answer: OneJob): (after: JobRow)
    ensures AsTold(r, answer, after)
  {
    match answer
    case Found(conclusion, late) => r.(conclusion := conclusion, late := late)
    case Gone(late) => r.(late := late)
    case Limited => r
    case JobFailed => r
  }

  /** Of the first n of a batch, asked about one by one from request `first` on, the rows are as told. */
  ghost predicate AllRetold(source: Source, first: nat, batch: seq<int>, n: nat, before: seq<JobRow>,
      after: seq<JobRow>)
    requires n <= |batch|
  {
    && |after| == |before|
    && (forall k, i | 0 <= k < |before| && 0 <= i < n && batch[i] == before[k].id ::
          after[k] == Retold(before[k], source.job(first + i, batch[i])))
    && (forall k | 0 <= k < |before| && before[k].id !in batch[..n] :: after[k] == before[k])
  }

  function Retelling(answer: OneJob): JobRow -> JobRow {
    (j: JobRow) => Retold(j, answer)
  }

  lemma RetoldNext(source: Source, first: nat, batch: seq<int>, n: nat, before: seq<JobRow>, after: seq<JobRow>)
    requires n < |batch| && Distinct(batch) && AllRetold(source, first, batch, n, before, after)
    ensures AllRetold(source, first, batch, n + 1, before,
                      Change(after, batch[n], Retelling(source.job(first + n, batch[n]))))
  {
    assert batch[..n + 1] == batch[..n] + [batch[n]];
    forall k | 0 <= k < |before| ensures after[k].id == before[k].id {
      if before[k].id in batch[..n] {
        var i :| 0 <= i < n && batch[i] == before[k].id;
      }
    }
    assert batch[n] !in batch[..n];
  }

  lemma RetoldSame(jobs: seq<JobRow>, id: int, answer: OneJob)
    requires answer.Limited? || answer.JobFailed?
    ensures Change(jobs, id, Retelling(answer)) == jobs
  {
  }

  /** No row freezes. */
  predicate NoneFreezes(runs: seq<int>, before: seq<JobRow>, after: seq<JobRow>) {
    && |after| == |before|
    && forall i | 0 <= i < |before| ::
      after[i].id == before[i].id && (Frozen(runs, after[i]) ==> Frozen(runs, before[i]))
  }

  /** A change to a row that was frozen. */
  lemma SettledOne(runs: seq<int>, before: seq<JobRow>, jobs: seq<JobRow>, id: int, f: JobRow -> JobRow)
    requires DistinctIds(before) && NoneFreezes(runs, before, jobs) && id in Stale(runs, before)
    requires forall j | j in jobs :: Tame(f, j)
    ensures NoneFreezes(runs, before, Change(jobs, id, f))
  {
    IdsHold(before, FrozenIn(runs), id);
    var k :| 0 <= k < |before| && FrozenIn(runs)(before[k]) && before[k].id == id;
    forall i | 0 <= i < |before| && jobs[i].id == id ensures i == k && f(jobs[i]).id == id {
      assert jobs[i] in jobs && Tame(f, jobs[i]);
    }
  }

  /** What a batch asked about so far leaves as it was, and as it was told. */
  ghost predicate SettledUpTo(source: Source, runs: seq<int>, first: nat, batch: seq<int>, n: nat,
      before: seq<JobRow>, after: seq<JobRow>)
    requires n <= |batch|
  {
    && Sound(source, runs, after) && PendingRuns(runs, after) == PendingRuns(runs, before)
    && NoneFreezes(runs, before, after) && AllRetold(source, first, batch, n, before, after)
  }

  lemma SettleStep(source: Source, runs: seq<int>, first: nat, batch: seq<int>, n: nat, before: seq<JobRow>,
      after: seq<JobRow>)
    requires Sound(source, runs, before) && Distinct(batch) && forall id | id in batch :: id in Stale(runs, before)
    requires n < |batch| && SettledUpTo(source, runs, first, batch, n, before, after)
    ensures SettledUpTo(source, runs, first, batch, n + 1, before,
                        Change(after, batch[n], Retelling(source.job(first + n, batch[n]))))
  {
    var f := Retelling(source.job(first + n, batch[n]));
    ChangeKeepsRuns(source, runs, after, batch[n], f);
    SettledOne(runs, before, after, batch[n], f);
    RetoldNext(source, first, batch, n, before, after);
  }

  /** The rows once the first n of a batch were asked about, one by one. */
  function Settlings(source: Source, first: nat, batch: seq<int>, n: nat, jobs: seq<JobRow>): seq<JobRow>
    requires n <= |batch|
  {
    if n == 0 then jobs
    else
      Change(Settlings(source, first, batch, n - 1, jobs), batch[n - 1],
        Retelling(source.job(first + n - 1, batch[n - 1])))
  }

  /** Each row asked about is as it was told, no other changes, and none freezes. */
  lemma {:induction false} SettlingsMean(source: Source, runs: seq<int>, first: nat, batch: seq<int>, n: nat,
      jobs: seq<JobRow>)
    requires Sound(source, runs, jobs) && Distinct(batch) && forall id | id in batch :: id in Stale(runs, jobs)
    requires n <= |batch|
    ensures SettledUpTo(source, runs, first, batch, n, jobs, Settlings(source, first, batch, n, jobs))
  {
    if n > 0 {
      var before := Settlings(source, first, batch, n - 1, jobs);
      SettlingsMean(source, runs, first, batch, n - 1, jobs);
      SettleStep(source, runs, first, batch, n - 1, jobs, before);
      assert Settlings(source, first, batch, n, jobs)
        == Change(before, batch[n - 1], Retelling(source.job(first + (n - 1), batch[n - 1])));
    }
  }

  lemma {:induction false} WithoutNone(xs: seq<int>)
    ensures Without(xs, {}) == xs
  {
    if xs != [] {
      WithoutNone(xs[..|xs| - 1]);
      assert xs == xs[..|xs| - 1] + [xs[|xs| - 1]];
    }
  }

  lemma {:induction false} WithoutBoth(xs: seq<int>, a: set<int>, b: set<int>)
    ensures Without(xs, a + b) == Without(Without(xs, a), b)
  {
    if xs != [] {
      WithoutBoth(xs[..|xs| - 1], a, b);
      WithoutSnoc(Without(xs[..|xs| - 1], a), xs[|xs| - 1], b);
    }
  }

  /** Once a batch of n was tried, at least n fewer frozen jobs are left to try. */
  lemma BatchTried(runs: seq<int>, before: seq<JobRow>, after: seq<JobRow>, tried: set<int>, n: nat)
    requires DistinctIds(before) && NoneFreezes(runs, before, after)
    requires n <= |Without(Stale(runs, before), tried)|
    ensures var untried := Without(Stale(runs, before), tried);
      |Without(Stale(runs, after), tried + set id | id in untried[..n])| <= |untried| - n
    ensures forall id | id in Stale(runs, after) :: id in Stale(runs, before)
  {
    var untried := Without(Stale(runs, before), tried);
    var batch := set id | id in untried[..n];
    IdsDistinct(before, FrozenIn(runs));
    WithoutBoth(Stale(runs, before), tried, batch);
    WithoutFirst(untried, n);
    IdsFewer(before, after, FrozenIn(runs), tried + batch);
  }

  function Classify(j: JobRow): JobRow {
    j.(classified := true)
  }

  /** Nothing but causes is written down. */
  predicate OnlyClassified(before: seq<JobRow>, after: seq<JobRow>) {
    && |after| == |before|
    && forall k | 0 <= k < |before| ::
         after[k] == before[k] || (Unexplained(before[k]) && after[k] == before[k].(classified := true))
  }

  lemma OneClassified(jobs: seq<JobRow>, before: seq<JobRow>, id: int)
    requires DistinctIds(jobs) && OnlyClassified(before, jobs) && id in Unclassified(jobs)
    ensures OnlyClassified(before, Change(jobs, id, Classify))
  {
    IdsHold(jobs, Unexplained, id);
  }

  /** Writing a cause down explains that failure and no other. */
  lemma Explained(source: Source, runs: seq<int>, jobs: seq<JobRow>, id: int)
    requires Sound(source, runs, jobs) && id in Unclassified(jobs)
    ensures var after := Change(jobs, id, Classify);
      && Sound(source, runs, after) && PendingRuns(runs, after) == PendingRuns(runs, jobs)
      && Unclassified(after) == Without(Unclassified(jobs), {id})
      && |Unclassified(after)| == |Unclassified(jobs)| - 1
  {
    ChangeKeepsRuns(source, runs, jobs, id, Classify);
    IdsDistinct(jobs, Unexplained);
    IdsLess(jobs, Change(jobs, id, Classify), Unexplained, id);
    WithoutOne(Unclassified(jobs), id);
  }

  // ---- the run lists -----------------------------------------------------------------

  function Add(xs: seq<int>, more: seq<int>): (r: seq<int>)
    ensures forall x :: x in r <==> x in xs || x in more
    ensures Distinct(xs) ==> Distinct(r)
    decreases |more|
  {
    if more == [] then xs
    else
      assert more == [more[0]] + more[1..];
      if more[0] in xs then Add(xs, more[1..]) else Add(xs + [more[0]], more[1..])
  }

  /** What the pages answered from request `from` up to `upto` said last of a run: whether it is completed. */
  function LastSaid(source: Source, from: nat, upto: nat, run: int): Option<bool>
    decreases upto
  {
    if upto <= from then None
    else
      match source.pages(upto - 1)
      case PageFailed => LastSaid(source, from, upto - 1, run)
      case Page(_, completed, active) =>
        if run in completed then Some(true)
        else if run in active then Some(false)
        else LastSaid(source, from, upto - 1, run)
  }

  lemma {:induction false} LastSaidJoins(source: Source, from: nat, mid: nat, upto: nat, run: int)
    requires from <= mid <= upto
    ensures LastSaid(source, from, upto, run)
         == if LastSaid(source, mid, upto, run).Some? then LastSaid(source, mid, upto, run)
            else LastSaid(source, from, mid, run)
    decreases upto
  {
    if mid < upto {
      LastSaidJoins(source, from, mid, upto - 1, run);
    }
  }

  /** The table of runs holds as completed what was last said to be, of the pages answered, and else what was. */
  ghost predicate RunsTold(source: Source, from: nat, upto: nat, before: seq<int>, after: seq<int>) {
    forall r :: r in after <==> LastSaid(source, from, upto, r).GetOr(r in before)
  }

  lemma RunsToldJoin(source: Source, from: nat, mid: nat, upto: nat, a: seq<int>, b: seq<int>, c: seq<int>)
    requires from <= mid <= upto && RunsTold(source, from, mid, a, b) && RunsTold(source, mid, upto, b, c)
    ensures RunsTold(source, from, upto, a, c)
  {
    forall r ensures r in c <==> LastSaid(source, from, upto, r).GetOr(r in a) {
      LastSaidJoins(source, from, mid, upto, r);
    }
  }

  /** The table of runs after one more answer. */
  function AfterPage(runs: seq<int>, answer: Page): seq<int> {
    match answer
    case PageFailed => runs
    case Page(_, completed, active) => Add(Without(runs, set r | r in active), completed)
  }

  lemma PageTold(source: Source, jobs: seq<JobRow>, from: nat, n: nat, before: seq<int>, runs: seq<int>)
    requires from <= n && RunsTold(source, from, n, before, runs) && Sound(source, runs, jobs) && TellsTruly(source)
    ensures RunsTold(source, from, n + 1, before, AfterPage(runs, source.pages(n)))
    ensures Sound(source, AfterPage(runs, source.pages(n)), jobs)
  {
  }

  /**
   One list read from request `from` up to `upto`: page after page of a hundred, until a
   shorter one, one that fails, the twentieth, or no rate limit is left.
   */
  ghost predicate ListRead(source: Source, from: nat, upto: nat) {
    && from <= upto <= from + 20
    && (forall n | from <= n < upto :: source.rate(n))
    && (forall n | from <= n < upto - 1 :: source.pages(n).Page? && source.pages(n).length >= 100)
    && (|| upto == from + 20 || !source.rate(upto)
        || (from < upto && (source.pages(upto - 1).PageFailed? || source.pages(upto - 1).length < 100)))
  }

  /** Full pages so far. */
  ghost predicate FullPages(source: Source, from: nat, upto: nat) {
    from <= upto && forall n | from <= n < upto ::
      source.rate(n) && source.pages(n).Page? && source.pages(n).length >= 100
  }

  lemma FullPagesEnd(source: Source, from: nat, upto: nat)
    requires FullPages(source, from, upto) && upto <= from + 20 && (upto == from + 20 || !source.rate(upto))
    ensures ListRead(source, from, upto) && NoneFailed(source, from, upto)
  {
  }

  lemma LastPageEnds(source: Source, from: nat, upto: nat)
    requires FullPages(source, from, upto) && upto < from + 20 && source.rate(upto)
    requires source.pages(upto).PageFailed? || source.pages(upto).length < 100
    ensures ListRead(source, from, upto + 1)
    ensures NoneFailed(source, from, upto + 1) <==> source.pages(upto).Page?
  {
  }

  /** No page of it failed. */
  ghost predicate NoneFailed(source: Source, from: nat, upto: nat) {
    forall n | from <= n < upto :: source.pages(n).Page?
  }

  /** The list of a repo, read from one request up to another. */
  datatype Reading = Reading(repo: string, from: nat, upto: nat)

  /** Lists read one after the other. */
  ghost predicate Readings(source: Source, rs: seq<Reading>, from: nat, upto: nat) {
    if rs == [] then from == upto
    else
      var last := rs[|rs| - 1];
      Readings(source, rs[..|rs| - 1], from, last.from) && ListRead(source, last.from, last.upto) && upto == last.upto
  }

  /** The repos whose list was looked at, and those of which no page failed. */
  ghost function LookedAt(rs: seq<Reading>): set<string> {
    if rs == [] then {} else LookedAt(rs[..|rs| - 1]) + {rs[|rs| - 1].repo}
  }

  ghost function ReadOf(source: Source, rs: seq<Reading>): set<string> {
    if rs == [] then {}
    else
      var last := rs[|rs| - 1];
      ReadOf(source, rs[..|rs| - 1]) + if NoneFailed(source, last.from, last.upto) then {last.repo} else {}
  }

  lemma OneReading(source: Source, rs: seq<Reading>, from: nat, upto: nat, r: Reading)
    requires Readings(source, rs, from, upto) && r.from == upto && ListRead(source, r.from, r.upto)
    ensures Readings(source, rs + [r], from, r.upto)
    ensures ReadOf(source, rs + [r])
         == ReadOf(source, rs) + if NoneFailed(source, r.from, r.upto) then {r.repo} else {}
    ensures LookedAt(rs + [r]) == LookedAt(rs) + {r.repo}
  {
    assert (rs + [r])[..|rs|] == rs;
  }

  /** Two fifths of the calls, rounded up, and at least four. */
  function ListBudget(maxCalls: nat): (b: nat)
    ensures 4 <= b && 2 * maxCalls <= 5 * b && (b == 4 || 5 * (b - 1) < 2 * maxCalls)
  {
    var share := (maxCalls * 4 + 9) / 10;
    if share < 4 then 4 else share
  }

  function Most(a: nat, b: nat): (m: nat)
    ensures a <= m && b <= m && (m == a || m == b)
  {
    if a < b then b else a
  }

  function First(xs: seq<int>): (batch: seq<int>)
    ensures |batch| <= |xs| && batch == xs[..|batch|] && (xs != [] ==> batch != [])
  {
    if |xs| < BATCH then xs else xs[..BATCH]
  }

  /**
   Nothing is left to do: every completed run has a row in the table of jobs, no job of
   one was last seen unfinished before it completed, and every failure has its cause.
   */
  ghost predicate Complete(runs: seq<int>, jobs: seq<JobRow>) {
    && (forall r | r in runs :: exists j | j in jobs :: j.runId == r)
    && (forall j | j in jobs && j.id > 0 ::
          && (j.conclusion == Unfinished && j.runId in runs ==> j.late)
          && (j.conclusion == Failed ==> j.classified))
  }

  lemma IdsEmpty(jobs: seq<JobRow>, p: JobRow -> bool)
    ensures Ids(jobs, p) == [] <==> forall j | j in jobs :: !p(j)
  {
    if j :| j in jobs && p(j) {
      IdsHold(jobs, p, j.id);
    }
    if Ids(jobs, p) != [] {
      IdsHold(jobs, p, Ids(jobs, p)[0]);
    }
  }

  lemma WorkMeans(runs: seq<int>, jobs: seq<JobRow>)
    ensures Complete(runs, jobs)
       <==> PendingRuns(runs, jobs) == [] && Stale(runs, jobs) == [] && Unclassified(jobs) == []
  {
    IdsEmpty(jobs, FrozenIn(runs));
    IdsEmpty(jobs, Unexplained);
    assert PendingRuns(runs, jobs) == [] <==> forall r | r in runs :: r in RunsOf(jobs) by {
      if PendingRuns(runs, jobs) != [] {
        assert PendingRuns(runs, jobs)[0] in PendingRuns(runs, jobs);
      }
    }
  }

  // ---- the pass ------------------------------------------------------------------------

  class Backfill {
    /** The completed runs, and the table of jobs. */
    var runs: seq<int>
    var jobs: seq<JobRow>
    var listed: set<string>
    var calls: nat
    var asks: nat
    var running: bool
    var done: bool

    constructor ()
      ensures !running && calls == 0 && runs == [] && jobs == []
    {
      runs, jobs, listed := [], [], {};
      calls, asks, running, done := 0, 0, false, false;
    }

    /** hasWork. */
    predicate HasWork()
      reads this
      ensures HasWork() <==> !Complete(runs, jobs)
    {
      WorkMeans(runs, jobs);
      PendingRuns(runs, jobs) != [] || Stale(runs, jobs) != [] || Unclassified(jobs) != []
    }

    /** One page of a run list, and what it says of the runs on it. */
    method ReadPage(source: Source) returns (answer: Page)
      modifies this`runs, this`calls, this`asks
      ensures answer == source.pages(old(asks)) && asks == old(asks) + 1
      ensures calls == old(calls) + if answer.PageFailed? then 0 else 1
      ensures runs == AfterPage(old(runs), answer)
    {
      answer := source.pages(asks);
      asks := asks + 1;
      if answer.Page? {
        calls := calls + 1;
        runs := Add(Without(runs, set r | r in answer.active), answer.completed);
      }
    }

    /** The pages of one repo's run list, while there is rate limit; false when a page fails. */
    method RunsFor(source: Source) returns (listedAll: bool)
      requires Sound(source, runs, jobs) && TellsTruly(source)
      modifies this`runs, this`calls, this`asks
      ensures old(calls) <= calls <= old(calls) + MAX_PAGES && ListRead(source, old(asks), asks)
      ensures calls - old(calls) == asks - old(asks) - if listedAll then 0 else 1
      ensures listedAll <==> NoneFailed(source, old(asks), asks)
      ensures Sound(source, runs, jobs) && RunsTold(source, old(asks), asks, old(runs), runs)
    {
      ghost var from, before := asks, runs;
      for page := 0 to MAX_PAGES
        invariant asks == from + page && calls == old(calls) + page
        invariant FullPages(source, from, asks)
        invariant Sound(source, runs, jobs) && RunsTold(source, from, asks, before, runs)
      {
        if !source.rate(asks) {
          FullPagesEnd(source, from, asks);
          return true;
        }
        PageTold(source, jobs, from, asks, before, runs);
        var answer := ReadPage(source);
        if answer.PageFailed? {
          LastPageEnds(source, from, asks - 1);
          return false;
        }
        if answer.length < PAGE {
          LastPageEnds(source, from, asks - 1);
          return true;
        }
      }
      FullPagesEnd(source, from, asks);
      return true;
    }

    /**
     Phase 1: the run lists not read yet, on their own share of the calls. A list counts
     as read when no page of it failed, though it was cut short.
     */
    method ListPhase(repos: seq<string>, source: Source, started: nat, maxCalls: nat)
      returns (ghost readings: seq<Reading>)
      requires calls == started && Sound(source, runs, jobs) && TellsTruly(source)
      modifies this`runs, this`calls, this`asks, this`listed
      ensures started <= calls <= started + ListBudget(maxCalls) + MAX_PAGES - 1
      ensures Sound(source, runs, jobs) && RunsTold(source, old(asks), asks, old(runs), runs)
      ensures Readings(source, readings, old(asks), asks) && listed == old(listed) + ReadOf(source, readings)
      ensures forall repo | repo in LookedAt(readings) :: repo in repos && repo !in old(listed)
      ensures forall repo | repo in repos && repo !in old(listed) && repo !in LookedAt(readings) ::
                calls - started >= ListBudget(maxCalls) || !source.rate(asks)
    {
      readings := [];
      for i := 0 to |repos|
        invariant started <= calls <= started + ListBudget(maxCalls) + MAX_PAGES - 1 && old(asks) <= asks
        invariant Sound(source, runs, jobs) && RunsTold(source, old(asks), asks, old(runs), runs)
        invariant Readings(source, readings, old(asks), asks) && listed == old(listed) + ReadOf(source, readings)
        invariant forall repo | repo in LookedAt(readings) :: repo in repos && repo !in old(listed)
        invariant forall k | 0 <= k < i && repos[k] !in old(listed) :: repos[k] in LookedAt(readings)
        invariant ReadOf(source, readings) <= LookedAt(readings)
      {
        if repos[i] in listed {
          continue;
        }
        if calls - started >= ListBudget(maxCalls) || !source.rate(asks) {
          return;
        }
        ghost var mid, before := asks, runs;
        var listedAll := RunsFor(source);
        RunsToldJoin(source, old(asks), mid, asks, old(runs), before, runs);
        OneReading(source, readings, old(asks), mid, Reading(repos[i], mid, asks));
        readings := readings + [Reading(repos[i], mid, asks)];
        if listedAll {
          listed := listed + {repos[i]};
        }
      }
    }

    method PersistJobs(more: seq<Job>)
      modifies this`jobs
      ensures jobs == UpsertAll(old(jobs), more)
    {
      for k := 0 to |more|
        invariant jobs == UpsertAll(old(jobs), more[..k])
      {
        assert more[..k + 1][..k] == more[..k];
        jobs := Upsert(jobs, more[k]);
      }
      assert more[..|more|] == more;
    }

    /** jobsFor, and the marker for a run with no jobs to show or none that can be had. */
    method JobsFor(run: int, source: Source)
      requires Sound(source, runs, jobs) && TellsTruly(source) && run in PendingRuns(runs, jobs)
      modifies this`jobs, this`calls, this`asks
      ensures asks == old(asks) + 1 && old(calls) <= calls <= old(calls) + 1
      ensures jobs == AfterAnswer(old(jobs), run, source.jobs(old(asks), run))
      ensures Sound(source, runs, jobs)
      ensures PendingRuns(runs, jobs) == Without(PendingRuns(runs, old(jobs)), {run})
      ensures |PendingRuns(runs, jobs)| == |PendingRuns(runs, old(jobs))| - 1
    {
      var answer := source.jobs(asks, run);
      ghost var before := jobs;
      asks := asks + 1;
      if answer.ListFailed? {
        jobs := Upsert(jobs, Marker(run));
      } else {
        calls := calls + 1;
        PersistJobs(answer.jobs);
        if |answer.jobs| == 0 {
          jobs := Upsert(jobs, Marker(run));
        }
      }
      AnswerClearsRun(source, runs, before, run, answer);
      WithoutOne(PendingRuns(runs, before), run);
    }

    /** The batch of pending runs of one round, as far as the budget goes. */
    method JobBatch(source: Source, started: nat, maxCalls: nat) returns (advanced: bool)
      requires started <= calls && Sound(source, runs, jobs) && TellsTruly(source)
      requires PendingRuns(runs, jobs) != [] && calls - started < maxCalls && source.rate(asks)
      modifies this`jobs, this`calls, this`asks
      ensures advanced && old(calls) <= calls <= started + maxCalls
      ensures Sound(source, runs, jobs)
      ensures forall r | r in PendingRuns(runs, jobs) :: r in PendingRuns(runs, old(jobs))
      ensures asks - old(asks) == |PendingRuns(runs, old(jobs))| - |PendingRuns(runs, jobs)| > 0
    {
      var batch := First(PendingRuns(runs, jobs));
      advanced := false;
      for i := 0 to |batch|
        invariant old(calls) <= calls <= started + maxCalls
        invariant Sound(source, runs, jobs)
        invariant forall r | r in PendingRuns(runs, jobs) :: r in PendingRuns(runs, old(jobs))
        invariant asks - old(asks) == |PendingRuns(runs, old(jobs))| - |PendingRuns(runs, jobs)| == i
        invariant forall j | i <= j < |batch| :: batch[j] in PendingRuns(runs, jobs)
        invariant advanced <==> i > 0
        invariant i == 0 ==> calls - started < maxCalls && source.rate(asks)
      {
        if calls - started >= maxCalls || !source.rate(asks) {
          break;
        }
        JobsFor(batch[i], source);
        advanced := true;
      }
    }

    /**
     Phase 2: the jobs of each pending run. Each is asked about at most once, whatever
     comes back, and no run becomes pending meanwhile.
     */
    method JobPhase(source: Source, started: nat, maxCalls: nat)
      requires started <= calls && Sound(source, runs, jobs) && TellsTruly(source)
      modifies this`jobs, this`calls, this`asks
      ensures old(calls) <= calls <= Most(old(calls), started + maxCalls)
      ensures Sound(source, runs, jobs)
      ensures forall r | r in PendingRuns(runs, jobs) :: r in PendingRuns(runs, old(jobs))
      ensures asks - old(asks) == |PendingRuns(runs, old(jobs))| - |PendingRuns(runs, jobs)|
      ensures (forall n: nat :: source.rate(n)) ==> PendingRuns(runs, jobs) == [] || calls - started >= maxCalls
    {
      while calls - started < maxCalls && source.rate(asks)
        invariant old(calls) <= calls <= Most(old(calls), started + maxCalls)
        invariant Sound(source, runs, jobs)
        invariant forall r | r in PendingRuns(runs, jobs) :: r in PendingRuns(runs, old(jobs))
        invariant asks - old(asks) == |PendingRuns(runs, old(jobs))| - |PendingRuns(runs, jobs)|
        decreases |PendingRuns(runs, jobs)|
      {
        if |PendingRuns(runs, jobs)| == 0 {
          break;
        }
        var advanced := JobBatch(source, started, maxCalls);
        if !advanced {
          break;
        }
      }
    }

    /** One call about one job, and what it changes of the job's row. */
    method AskJob(id: int, source: Source) returns (answer: OneJob)
      modifies this`jobs, this`asks
      ensures answer == source.job(old(asks), id) && asks == old(asks) + 1
      ensures jobs == Change(old(jobs), id, Retelling(answer))
    {
      answer := source.job(asks, id);
      asks := asks + 1;
      if answer.Found? || answer.Gone? {
        jobs := Change(jobs, id, Retelling(answer));
      } else {
        RetoldSame(jobs, id, answer);
      }
    }

    /**
     JobSettler.settle: one call for each frozen job of the batch, while calls and rate
     limit last and none comes back as limited.
     */
    method Settle(batch: seq<int>, source: Source, maxCalls: nat) returns (spent: nat)
      modifies this`jobs, this`asks
      ensures spent <= maxCalls && spent <= |batch| && asks == old(asks) + spent
      ensures jobs == Settlings(source, old(asks), batch, spent, old(jobs))
      ensures spent == |batch| || spent == maxCalls || !source.rate(asks)
        || (spent > 0 && source.job(asks - 1, batch[spent - 1]).Limited?)
    {
      spent := 0;
      while spent < |batch|
        invariant spent <= maxCalls && spent <= |batch| && asks == old(asks) + spent
        invariant jobs == Settlings(source, old(asks), batch, spent, old(jobs))
      {
        if spent >= maxCalls || !source.rate(asks) {
          return;
        }
        var answer := AskJob(batch[spent], source);
        spent := spent + 1;
        if answer.Limited? {
          return;
        }
      }
    }

    /** One batch of the frozen jobs not tried yet. */
    method SettleBatch(tried: set<int>, source: Source, allowed: nat) returns (spent: nat, triedNow: set<int>)
      requires Sound(source, runs, jobs)
      modifies this`jobs, this`calls, this`asks
      ensures spent <= allowed && calls == old(calls) + spent && asks == old(asks) + spent
      ensures Sound(source, runs, jobs) && PendingRuns(runs, jobs) == PendingRuns(runs, old(jobs))
      ensures var batch := First(Without(Stale(runs, old(jobs)), tried));
        && spent <= |batch| && AllRetold(source, old(asks), batch, spent, old(jobs), jobs)
        && triedNow == tried + set id | id in batch
      ensures |Without(Stale(runs, jobs), triedNow)| + spent <= |Without(Stale(runs, old(jobs)), tried)|
      ensures forall id | id in Stale(runs, jobs) :: id in Stale(runs, old(jobs))
    {
      var batch := First(Without(Stale(runs, jobs), tried));
      ghost var before := jobs;
      IdsDistinct(jobs, FrozenIn(runs));
      ghost var first := asks;
      spent := Settle(batch, source, allowed);
      SettlingsMean(source, runs, first, batch, spent, before);
      BatchTried(runs, before, jobs, tried, |batch|);
      triedNow := tried + set id | id in batch;
      calls := calls + spent;
    }

    /** Phase 2b: each frozen job is tried at most once a pass, and none freezes meanwhile. */
    method SettlePhase(source: Source, started: nat, maxCalls: nat)
      requires started <= calls && Sound(source, runs, jobs)
      modifies this`jobs, this`calls, this`asks
      ensures old(calls) <= calls <= Most(old(calls), started + maxCalls)
      ensures Sound(source, runs, jobs) && PendingRuns(runs, jobs) == PendingRuns(runs, old(jobs))
      ensures asks - old(asks) == calls - old(calls) <= |Stale(runs, old(jobs))|
      ensures forall id | id in Stale(runs, jobs) :: id in Stale(runs, old(jobs))
    {
      var tried: set<int> := {};
      WithoutNone(Stale(runs, jobs));
      while calls - started < maxCalls && source.rate(asks)
        invariant old(calls) <= calls <= Most(old(calls), started + maxCalls)
        invariant Sound(source, runs, jobs) && PendingRuns(runs, jobs) == PendingRuns(runs, old(jobs))
        invariant asks - old(asks) == calls - old(calls)
        invariant calls - old(calls) + |Without(Stale(runs, jobs), tried)| <= |Stale(runs, old(jobs))|
        invariant forall id | id in Stale(runs, jobs) :: id in Stale(runs, old(jobs))
        decreases started + maxCalls - calls
      {
        if |Without(Stale(runs, jobs), tried)| == 0 {
          break;
        }
        var spent;
        spent, tried := SettleBatch(tried, source, started + maxCalls - calls);
        if spent == 0 {
          break;
        }
      }
    }

    /** Phase 3: one call for the cause of each failure, none asked twice; false when one throws. */
    method CausePhase(source: Source, started: nat, maxCalls: nat) returns (ok: bool)
      requires started <= calls && Sound(source, runs, jobs)
      modifies this`jobs, this`calls, this`asks
      ensures old(calls) <= calls <= Most(old(calls), started + maxCalls)
      ensures Sound(source, runs, jobs) && PendingRuns(runs, jobs) == PendingRuns(runs, old(jobs))
      ensures forall id | id in Unclassified(jobs) :: id in Unclassified(old(jobs))
      ensures calls - old(calls) == |Unclassified(old(jobs))| - |Unclassified(jobs)|
      ensures OnlyClassified(old(jobs), jobs)
      ensures asks - old(asks) == calls - old(calls) + if ok then 0 else 1
      ensures ok && (forall n: nat :: source.rate(n)) ==> Unclassified(jobs) == [] || calls - started >= maxCalls
    {
      while calls - started < maxCalls && source.rate(asks)
        invariant old(calls) <= calls <= Most(old(calls), started + maxCalls)
        invariant Sound(source, runs, jobs) && PendingRuns(runs, jobs) == PendingRuns(runs, old(jobs))
        invariant forall id | id in Unclassified(jobs) :: id in Unclassified(old(jobs))
        invariant calls - old(calls) == |Unclassified(old(jobs))| - |Unclassified(jobs)| == asks - old(asks)
        invariant OnlyClassified(old(jobs), jobs)
        decreases started + maxCalls - calls
      {
        var batch := First(Unclassified(jobs));
        IdsDistinct(jobs, Unexplained);
        if batch == [] {
          break;
        }
        ghost var before := calls;
        for i := 0 to |batch|
          invariant old(calls) <= before <= calls <= Most(old(calls), started + maxCalls)
          invariant Sound(source, runs, jobs) && PendingRuns(runs, jobs) == PendingRuns(runs, old(jobs))
          invariant forall id | id in Unclassified(jobs) :: id in Unclassified(old(jobs))
          invariant calls - old(calls) == |Unclassified(old(jobs))| - |Unclassified(jobs)| == asks - old(asks)
          invariant Distinct(batch) && forall j | i <= j < |batch| :: batch[j] in Unclassified(jobs)
          invariant calls == before + i && OnlyClassified(old(jobs), jobs)
          invariant i == 0 ==> calls - started < maxCalls && source.rate(asks)
        {
          if calls - started >= maxCalls || !source.rate(asks) {
            break;
          }
          var found := source.causes(asks);
          asks := asks + 1;
          if !found {
            return false;
          }
          calls := calls + 1;
          Explained(source, runs, jobs, batch[i]);
          OneClassified(jobs, old(jobs), batch[i]);
          jobs := Change(jobs, batch[i], Classify);
        }
      }
      return true;
    }

    /**
     pass. It ends whatever fails, counted or not; it spends at most the calls it was
     given, or what the run lists may take; it says done exactly when the tables hold
     no run without jobs, no frozen job and no unexplained failure; and while rate
     limit is left it stops short of a pending run or an unexplained failure only when
     its calls are spent.
     */
    method Pass(repos: seq<string>, source: Source, maxCalls: nat) returns (ok: bool)
      requires Sound(source, runs, jobs) && TellsTruly(source)
      modifies this
      ensures Sound(source, runs, jobs)
      ensures old(running) ==> ok && running && calls == old(calls) && done == old(done) && jobs == old(jobs)
      ensures !old(running) ==>
        !running && old(calls) <= calls <= old(calls) + Most(maxCalls, ListBudget(maxCalls) + MAX_PAGES - 1)
      ensures !old(running) && ok ==> (done <==> Complete(runs, jobs))
      ensures !old(running) && ok && (forall n: nat :: source.rate(n)) && calls - old(calls) < maxCalls ==>
        PendingRuns(runs, jobs) == [] && Unclassified(jobs) == []
    {
      if running {
        return true;
      }
      running := true;
      var started := calls;
      ghost var readings := ListPhase(repos, source, started, maxCalls);
      JobPhase(source, started, maxCalls);
      SettlePhase(source, started, maxCalls);
      ok := CausePhase(source, started, maxCalls);
      if ok {
        WorkMeans(runs, jobs);
        done := |PendingRuns(runs, jobs)| == 0 && |Stale(runs, jobs)| == 0 && |Unclassified(jobs)| == 0;
      }
      running := false;
    }
  }
}
