/**
 GitHub's own answer about a head commit: latestRuns and githubVerdict of
 dashboard/lib/checks.js.
 */
module GithubView {
  import opened Wrappers
  import Rollup

  datatype Job = Job(completed: bool, conclusion: Option<string>, completedAt: Option<int>, runId: Option<int>)

  datatype Run = Run(
    id: int,
    workflowId: Option<int>,
    workflow: Option<string>,
    completed: bool,
    conclusion: Option<string>,
    createdAt: Option<int>,
    updatedAt: Option<int>,
    jobs: Option<seq<Job>>)

  /** checks holds the commit statuses and the check runs of other apps. */
  datatype Answer = Answer(head: Option<string>, fetchedAt: int, runs: seq<Run>, checks: seq<Job>)

  datatype Verdict = Pending | Red | Green

  /** The key of a workflow in latestRuns' map: a number or a name. */
  datatype RunKey = Number(n: int) | Name(s: string)

  function KeyOf(r: Run): RunKey {
    if r.workflowId.Some? then Number(r.workflowId.value)
    else if r.workflow.Some? then Name(r.workflow.value)
    else Number(r.id)
  }

  /** The map after the runs: each workflow's run with the greatest id, the first of equals. */
  function Newest(runs: seq<Run>): map<RunKey, Run> {
    if runs == [] then map[]
    else
      var m, r := Newest(runs[..|runs| - 1]), runs[|runs| - 1];
      if KeyOf(r) !in m || m[KeyOf(r)].id < r.id then m[KeyOf(r) := r] else m
  }

  /** Run i is the newest of its workflow. */
  ghost predicate IsNewest(runs: seq<Run>, i: nat)
    requires i < |runs|
  {
    forall j | 0 <= j < |runs| && KeyOf(runs[j]) == KeyOf(runs[i]) ::
      runs[j].id < runs[i].id || (runs[j].id == runs[i].id && i <= j)
  }

  /** The place of a workflow's newest run. */
  function NewestIndex(runs: seq<Run>, k: RunKey): (i: Option<nat>)
    ensures i.Some? ==> i.value < |runs| && KeyOf(runs[i.value]) == k && IsNewest(runs, i.value)
    ensures i.None? ==> forall j | 0 <= j < |runs| :: KeyOf(runs[j]) != k
  {
    if runs == [] then None
    else
      var init, last := runs[..|runs| - 1], |runs| - 1;
      var i := NewestIndex(init, k);
      assert forall j | 0 <= j < last :: runs[j] == init[j];
      if KeyOf(runs[last]) == k && (i.None? || init[i.value].id < runs[last].id) then Some(last) else i
  }

  lemma {:induction false} NewestMeans(runs: seq<Run>, k: RunKey)
    ensures k in Newest(runs) <==> NewestIndex(runs, k).Some?
    ensures k in Newest(runs) ==> Newest(runs)[k] == runs[NewestIndex(runs, k).value]
  {
    if runs != [] {
      NewestMeans(runs[..|runs| - 1], k);
    }
  }

  /** latestRuns, as the map whose values it sorts. */
  method LatestRuns(runs: seq<Run>) returns (byWorkflow: map<RunKey, Run>)
    ensures byWorkflow == Newest(runs)
  {
    byWorkflow := map[];
    for k := 0 to |runs|
      invariant byWorkflow == Newest(runs[..k])
    {
      assert runs[..k + 1][..k] == runs[..k];
      var r := runs[k];
      if KeyOf(r) !in byWorkflow || byWorkflow[KeyOf(r)].id < r.id {
        byWorkflow := byWorkflow[KeyOf(r) := r];
      }
    }
    assert runs[..|runs|] == runs;
  }

  // ---- the verdict ------------------------------------------------------------

  function Present(t: Option<int>): seq<int> {
    if t.Some? then [t.value] else []
  }

  function JobTimes(jobs: seq<Job>): (ts: seq<int>)
    ensures forall j | j in jobs && j.completedAt.Some? :: j.completedAt.value in ts
    ensures forall t | t in ts :: exists j | j in jobs :: j.completedAt == Some(t)
  {
    if jobs == [] then [] else Present(jobs[0].completedAt) + JobTimes(jobs[1..])
  }

  function RunTimes(runs: seq<Run>): seq<int> {
    if runs == [] then []
    else
      var run := runs[0];
      Present(run.createdAt) + Present(run.updatedAt) + JobTimes(run.jobs.GetOr([])) + RunTimes(runs[1..])
  }

  function MaxOr(ts: seq<int>, least: int): (m: int)
    ensures m >= least && (forall t | t in ts :: t <= m) && (m == least || m in ts)
  {
    if ts == [] then least
    else
      var rest := MaxOr(ts[1..], least);
      assert forall t | t in ts :: t == ts[0] || t in ts[1..];
      if rest < ts[0] then ts[0] else rest
  }

  /** When anything about the head last changed, 0 when nothing tells. */
  function LastChange(gc: Answer): int {
    var times := RunTimes(gc.runs) + JobTimes(gc.checks);
    if times == [] then 0 else MaxOr(times, times[0])
  }

  predicate JobDone(j: Job) {
    j.completed && Rollup.Passed(j.conclusion)
  }

  predicate JobOpen(r: Run) {
    exists j | j in r.jobs.GetOr([]) :: !j.completed
  }

  predicate JobBad(r: Run) {
    exists j | j in r.jobs.GetOr([]) :: !Rollup.Passed(j.conclusion)
  }

  /** githubVerdict, over the newest run of each workflow. */
  function VerdictOf(gc: Answer, settleMs: int): Verdict {
    var runs := Newest(gc.runs).Values;
    if runs == {} && gc.checks == [] then Pending
    else if exists r | r in runs :: !r.completed then Pending
    else if exists r | r in runs :: r.jobs.None? then Pending
    else if (exists r | r in runs :: JobOpen(r)) || (exists c | c in gc.checks :: !c.completed) then Pending
    else if || (exists r | r in runs :: !Rollup.Passed(r.conclusion))
            || (exists r | r in runs :: JobBad(r))
            || (exists c | c in gc.checks :: !Rollup.Passed(c.conclusion))
    then Red
    else if gc.fetchedAt - LastChange(gc) < settleMs then Pending
    else Green
  }

  /** The times an answer carries: of its runs, of their jobs, and of the other checks. */
  ghost predicate Carries(gc: Answer, t: int) {
    || (exists r | r in gc.runs :: r.createdAt == Some(t) || r.updatedAt == Some(t)
                                   || exists j | j in r.jobs.GetOr([]) :: j.completedAt == Some(t))
    || (exists c | c in gc.checks :: c.completedAt == Some(t))
  }

  lemma {:induction false} RunTimesMean(runs: seq<Run>, checks: seq<Job>, t: int)
    ensures t in RunTimes(runs) + JobTimes(checks) <==> Carries(Answer(None, 0, runs, checks), t)
  {
    if runs != [] {
      RunTimesMean(runs[1..], checks, t);
      var r := runs[0];
      assert runs == [r] + runs[1..];
      assert t in JobTimes(r.jobs.GetOr([])) <==> exists j | j in r.jobs.GetOr([]) :: j.completedAt == Some(t);
      assert Carries(Answer(None, 0, runs, checks), t) <==>
        || r.createdAt == Some(t) || r.updatedAt == Some(t)
        || (exists j | j in r.jobs.GetOr([]) :: j.completedAt == Some(t))
        || Carries(Answer(None, 0, runs[1..], checks), t);
    }
  }

  /** Nothing the answer carries changed within settleMs of the moment it was fetched. */
  ghost predicate Quiet(gc: Answer, settleMs: int) {
    && (forall t | Carries(gc, t) :: gc.fetchedAt - t >= settleMs)
    && ((forall t :: !Carries(gc, t)) ==> gc.fetchedAt >= settleMs)
  }

  /** A run that finished and passed, with every job read, finished and passed. */
  predicate RunDone(r: Run) {
    && r.completed && Rollup.Passed(r.conclusion)
    && r.jobs.Some? && forall j | j in r.jobs.value :: JobDone(j)
  }

  /** A finished run whose jobs were read and are finished. */
  predicate RunFinished(r: Run) {
    r.completed && r.jobs.Some? && forall j | j in r.jobs.value :: j.completed
  }

  /** Every workflow's newest run with all its jobs, and every other check, finished; and there is something. */
  ghost predicate EverythingFinished(gc: Answer) {
    && (gc.runs != [] || gc.checks != [])
    && (forall i | 0 <= i < |gc.runs| && IsNewest(gc.runs, i) :: RunFinished(gc.runs[i]))
    && (forall c | c in gc.checks :: c.completed)
  }

  /**
   Every workflow's newest run with all its jobs, and every other check, finished and
   passed; and there is something to pass.
   */
  ghost predicate EverythingPassed(gc: Answer) {
    && (gc.runs != [] || gc.checks != [])
    && (forall i | 0 <= i < |gc.runs| && IsNewest(gc.runs, i) :: RunDone(gc.runs[i]))
    && (forall c | c in gc.checks :: JobDone(c))
  }

  lemma NewestAre(runs: seq<Run>, r: Run)
    ensures r in Newest(runs).Values <==> exists i | 0 <= i < |runs| && IsNewest(runs, i) :: runs[i] == r
  {
    forall i | 0 <= i < |runs| && IsNewest(runs, i) ensures runs[i] in Newest(runs).Values {
      var k := KeyOf(runs[i]);
      NewestMeans(runs, k);
      assert NewestIndex(runs, k).value == i;
      assert Newest(runs)[k] == runs[i];
    }
    if r in Newest(runs).Values {
      var k :| k in Newest(runs) && Newest(runs)[k] == r;
      NewestMeans(runs, k);
    }
  }

  lemma NewestHold(runs: seq<Run>)
    ensures (forall r | r in Newest(runs).Values :: RunDone(r)) <==>
      forall i | 0 <= i < |runs| && IsNewest(runs, i) :: RunDone(runs[i])
    ensures (forall r | r in Newest(runs).Values :: RunFinished(r)) <==>
      forall i | 0 <= i < |runs| && IsNewest(runs, i) :: RunFinished(runs[i])
    ensures Newest(runs).Values == {} <==> runs == []
  {
    forall r ensures r in Newest(runs).Values <==> exists i | 0 <= i < |runs| && IsNewest(runs, i) :: runs[i] == r {
      NewestAre(runs, r);
    }
    if runs != [] {
      NewestMeans(runs, KeyOf(runs[0]));
      assert Newest(runs)[KeyOf(runs[0])] in Newest(runs).Values;
    }
  }

  lemma QuietMeans(gc: Answer, settleMs: int)
    ensures gc.fetchedAt - LastChange(gc) >= settleMs <==> Quiet(gc, settleMs)
  {
    var times := RunTimes(gc.runs) + JobTimes(gc.checks);
    forall t ensures t in times <==> Carries(gc, t) {
      RunTimesMean(gc.runs, gc.checks, t);
      assert Carries(gc, t) <==> Carries(Answer(None, 0, gc.runs, gc.checks), t);
    }
    if times == [] {
      assert forall t :: !Carries(gc, t);
    } else {
      assert Carries(gc, times[0]);
      assert Carries(gc, LastChange(gc));
    }
  }

  lemma RunMeans(r: Run)
    ensures RunFinished(r) <==> r.completed && r.jobs.Some? && !JobOpen(r)
    ensures RunDone(r) <==> RunFinished(r) && Rollup.Passed(r.conclusion) && !JobBad(r)
  {
    if r.jobs.Some? {
      assert r.jobs.GetOr([]) == r.jobs.value;
    }
  }

  lemma VerdictOfNewest(gc: Answer, settleMs: int)
    ensures
      var runs := Newest(gc.runs).Values;
      var finished := (runs != {} || gc.checks != [])
        && (forall r | r in runs :: RunFinished(r)) && (forall c | c in gc.checks :: c.completed);
      var done := (runs != {} || gc.checks != [])
        && (forall r | r in runs :: RunDone(r)) && (forall c | c in gc.checks :: JobDone(c));
      && (VerdictOf(gc, settleMs) == Green <==> done && gc.fetchedAt - LastChange(gc) >= settleMs)
      && (VerdictOf(gc, settleMs) == Red <==> finished && !done)
  {
    forall r: Run
      ensures RunFinished(r) <==> r.completed && r.jobs.Some? && !JobOpen(r)
      ensures RunDone(r) <==> RunFinished(r) && Rollup.Passed(r.conclusion) && !JobBad(r)
    {
      RunMeans(r);
    }
  }

  /** GitHub's green, in full: everything passed and nothing moved for settleMs. */
  lemma GreenMeans(gc: Answer, settleMs: int)
    ensures VerdictOf(gc, settleMs) == Green <==> EverythingPassed(gc) && Quiet(gc, settleMs)
  {
    VerdictOfNewest(gc, settleMs);
    NewestHold(gc.runs);
    QuietMeans(gc, settleMs);
  }

  /** Its red: everything finished, and not everything passed. All else is pending. */
  lemma RedMeans(gc: Answer, settleMs: int)
    ensures VerdictOf(gc, settleMs) == Red <==> EverythingFinished(gc) && !EverythingPassed(gc)
  {
    VerdictOfNewest(gc, settleMs);
    NewestHold(gc.runs);
  }

  /** What one workflow is: one number of GitHub's where both runs have it, else one name, else the run itself. */
  lemma SameWorkflow(a: Run, b: Run)
    ensures a.workflowId.Some? && b.workflowId.Some? ==> (KeyOf(a) == KeyOf(b) <==> a.workflowId == b.workflowId)
    ensures a.workflowId.None? && b.workflowId.None? && a.workflow.Some? ==>
      (KeyOf(a) == KeyOf(b) <==> a.workflow == b.workflow)
    ensures a.workflowId.None? && b.workflowId.None? && a.workflow.None? && b.workflow.None? ==>
      (KeyOf(a) == KeyOf(b) <==> a.id == b.id)
    ensures a.workflowId.Some? && b.workflowId.None? ==>
      (KeyOf(a) == KeyOf(b) <==> b.workflow.None? && a.workflowId == Some(b.id))
  {
  }
}
