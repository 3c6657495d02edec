/**
 The wait for a commit's checks: waitForChecks of dashboard/lib/checks.js. What
 the fleet and GitHub answer, and what the clock readings, are functions of how
 often they were asked, so a result over all of them holds for every run of the
 loop.
 */
module Waiting {
  import opened Wrappers
  import opened Targets
  import opened Text
  import Rollup
  import RollupCopies
  import GithubView

  const MAX_WAIT_S: int := 300

  datatype Options = Options(tickMs: int, crossFreshMs: int, crossStaleMs: int, confirmMs: int, settleMs: int)

  /** GitHub's answer as it arrives: an older source names no moment it was fetched. */
  datatype Reply = Reply(head: Option<string>, fetchedAt: Option<int>, runs: seq<GithubView.Run>,
      checks: seq<GithubView.Job>)

  datatype Orphan = Orphan(repo: string, runId: int)

  /**
   What the loop meets. now is the clock, by how often it was read and how long was
   slept; the rest is the n-th view of the fleet, the n-th answers of GitHub about
   the target and about one run (None when it did not answer), and the orphaned
   jobs of the n-th round.
   */
  datatype Source = Source(
    now: (nat, nat) -> int,
    glances: nat -> Glance,
    replies: nat -> Option<Reply>,
    reruns: nat -> Option<Rollup.Run>,
    orphans: nat -> seq<Orphan>)

  datatype End = Green | Red | Pending | Pointless

  /** Whose word the answer is: the rollup of the fleet's view, or GitHub's own answer. */
  datatype Checks = Fleet(found: Option<Rollup.CheckSet>) | GitHub

  /** fresher holds GitHub's rows laid over the fleet's view of that round. */
  datatype Outcome =
    | Unfinished
    | Ended(state: End, checks: Checks, answer: Option<GithubView.Answer>, round: nat, fresher: seq<Rollup.Run>,
      waitedMs: int)

  // ---- asking GitHub -----------------------------------------------------------

  type Weigh = GithubView.Answer -> GithubView.Verdict

  /** askedAt, lastGitHub, verdict and unread. */
  datatype Asked = Asked(at: int, last: Option<GithubView.Answer>, verdict: GithubView.Verdict, unread: bool)

  function Stamped(r: Reply, at: int): GithubView.Answer {
    GithubView.Answer(r.head, r.fetchedAt.GetOr(at), r.runs, r.checks)
  }

  /** askGitHub: no answer leaves the last one in force. */
  function Ask(reply: Option<Reply>, at: int, weigh: Weigh, before: Asked): Asked {
    if reply.None? then before.(at := at)
    else
      var gc := Stamped(reply.value, at);
      Asked(at, Some(gc), weigh(gc), true)
  }

  /** One of the first n answers of GitHub. */
  ghost predicate Gave(source: Source, n: nat, gc: GithubView.Answer) {
    exists i: nat, at: int | i < n && source.replies(i).Some? :: gc == Stamped(source.replies(i).value, at)
  }

  /** The last of its first n answers, or that it has not answered. */
  ghost predicate InForce(source: Source, n: nat, last: Option<GithubView.Answer>) {
    match last
    case None => forall i: nat | i < n :: source.replies(i).None?
    case Some(gc) => exists i: nat :: LastGave(source, n, gc, i)
  }

  ghost predicate LastGave(source: Source, n: nat, gc: GithubView.Answer, i: nat) {
    && i < n && source.replies(i).Some?
    && (exists at: int :: gc == Stamped(source.replies(i).value, at))
    && forall j: nat | i < j < n :: source.replies(j).None?
  }

  /** What is remembered of GitHub is the last answer it gave in this call, and the verdict is that answer's. */
  ghost predicate Remembers(source: Source, n: nat, weigh: Weigh, a: Asked) {
    InForce(source, n, a.last) && (a.last.Some? ==> a.verdict == weigh(a.last.value))
  }

  lemma InForceGave(source: Source, n: nat, last: Option<GithubView.Answer>)
    requires InForce(source, n, last) && last.Some?
    ensures Gave(source, n, last.value)
  {
    var i: nat :| LastGave(source, n, last.value, i);
  }

  lemma GaveStays(source: Source, n: nat, m: nat, gc: GithubView.Answer)
    requires Gave(source, n, gc) && n <= m
    ensures Gave(source, m, gc)
  {
    var i: nat, at: int :| i < n && source.replies(i).Some? && gc == Stamped(source.replies(i).value, at);
    assert i < m;
  }

  lemma AskRemembers(source: Source, n: nat, at: int, weigh: Weigh, before: Asked)
    requires Remembers(source, n, weigh, before)
    ensures Remembers(source, n + 1, weigh, Ask(source.replies(n), at, weigh, before))
  {
    if source.replies(n).Some? {
      assert LastGave(source, n + 1, Stamped(source.replies(n).value, at), n);
    } else if before.last.Some? {
      var i: nat :| LastGave(source, n, before.last.value, i);
      assert LastGave(source, n + 1, before.last.value, i);
    }
  }

  // ---- rows asked of GitHub ----------------------------------------------------

  /** Map.set on the rows kept by id, in the order the ids first came. */
  function Put(rows: seq<Rollup.Run>, f: Rollup.Run): seq<Rollup.Run> {
    if rows == [] then [f]
    else if rows[0].id == f.id then [f] + rows[1..]
    else [rows[0]] + Put(rows[1..], f)
  }

  lemma {:induction false} PutHolds(rows: seq<Rollup.Run>, f: Rollup.Run)
    ensures f in Put(rows, f)
    ensures forall r | r in Put(rows, f) :: r == f || r in rows
    ensures forall r | r in rows && r.id != f.id :: r in Put(rows, f)
  {
    if rows != [] {
      assert rows == [rows[0]] + rows[1..];
      PutHolds(rows[1..], f);
    }
  }

  /** Every row was an answer of GitHub about one run. */
  ghost predicate Answered(source: Source, rows: seq<Rollup.Run>) {
    forall f | f in rows :: exists i: nat :: source.reruns(i) == Some(f)
  }

  /** The rows once n more answers about single runs came, from the first-th on. */
  function Refreshed(source: Source, first: nat, n: nat, rows: seq<Rollup.Run>): seq<Rollup.Run> {
    if n == 0 then rows
    else
      var before, f := Refreshed(source, first, n - 1, rows), source.reruns(first + n - 1);
      if f.Some? then Put(before, f.value) else before
  }

  /** Every answer is held, unless a later one about the same run replaced it, and nothing else is new. */
  lemma {:induction false} RefreshedHolds(source: Source, first: nat, n: nat, rows: seq<Rollup.Run>)
    ensures Answered(source, rows) ==> Answered(source, Refreshed(source, first, n, rows))
    ensures forall i: nat | first <= i < first + n && source.reruns(i).Some? ::
      exists f | f in Refreshed(source, first, n, rows) :: f.id == source.reruns(i).value.id
    ensures n > 0 && source.reruns(first + n - 1).Some? ==>
      source.reruns(first + n - 1).value in Refreshed(source, first, n, rows)
  {
    if n > 0 {
      var before, f := Refreshed(source, first, n - 1, rows), source.reruns(first + n - 1);
      RefreshedHolds(source, first, n - 1, rows);
      if f.Some? {
        PutHolds(before, f.value);
        forall i: nat | first <= i < first + n && source.reruns(i).Some?
          ensures exists r | r in Put(before, f.value) :: r.id == source.reruns(i).value.id
        {
          if source.reruns(i).value.id == f.value.id {
            assert f.value in Put(before, f.value);
          } else {
            var r :| r in before && r.id == source.reruns(i).value.id;
            assert r in Put(before, f.value);
          }
        }
      }
    }
  }

  predicate Askable(r: Rollup.Run) {
    r.id > 0
  }

  /** Before a red counts, each failed run of it is asked of GitHub. */
  method ReadFailed(source: Source, failed: seq<Rollup.Run>, asked: nat, rows: seq<Rollup.Run>)
    returns (n: nat, fresher: seq<Rollup.Run>)
    ensures n == |Rollup.Pick(failed, Askable)|
    ensures forall r :: r in Rollup.Pick(failed, Askable) <==> r in failed && r.id > 0
    ensures fresher == Refreshed(source, asked, n, rows)
  {
    var todo := Rollup.Pick(failed, Askable);
    n, fresher := 0, rows;
    while n < |todo|
      invariant n <= |todo|
      invariant fresher == Refreshed(source, asked, n, rows)
    {
      var f := source.reruns(asked + n);
      if f.Some? {
        fresher := Put(fresher, f.value);
      }
      n := n + 1;
    }
  }

  // ---- orphans -----------------------------------------------------------------

  /** The runs the wait hangs on: those the fleet or GitHub still shows unfinished. */
  predicate HangsOn(found: Option<Rollup.CheckSet>, last: Option<GithubView.Answer>, runId: int) {
    || (found.Some? && exists r | r in found.value.runs :: Rollup.IsActive(r) && r.id == runId)
    || (last.Some? && exists r | r in last.value.runs :: !r.completed && r.id == runId)
    || (last.Some? && exists c | c in last.value.checks :: !c.completed && c.runId == Some(runId))
  }

  predicate Orphaned(t: Target, found: Option<Rollup.CheckSet>, last: Option<GithubView.Answer>, os: seq<Orphan>) {
    exists o | o in os :: Rollup.SameRepo(o.repo, t.repo) && HangsOn(found, last, o.runId)
  }

  /** The ids of the runs the fleet's set or GitHub's answer shows unfinished, by itself or by one of its checks. */
  ghost function UnfinishedIds(found: Option<Rollup.CheckSet>, last: Option<GithubView.Answer>): set<int> {
    (if found.Some? then set r | r in found.value.runs && !r.completed :: r.id else {})
    + (if last.Some? then set r | r in last.value.runs && !r.completed :: r.id else {})
    + (if last.Some? then set c | c in last.value.checks && !c.completed && c.runId.Some? :: c.runId.value else {})
  }

  /** A job is orphaned that belongs to one of these runs, in the target's repository. */
  ghost predicate AwaitsOrphan(t: Target, found: Option<Rollup.CheckSet>, last: Option<GithubView.Answer>,
      os: seq<Orphan>)
  {
    exists o | o in os :: Lower(o.repo) == Lower(t.repo) && o.runId in UnfinishedIds(found, last)
  }

  lemma OrphanedMeans(t: Target, found: Option<Rollup.CheckSet>, last: Option<GithubView.Answer>, os: seq<Orphan>)
    ensures Orphaned(t, found, last, os) <==> AwaitsOrphan(t, found, last, os)
  {
    forall o: Orphan ensures HangsOn(found, last, o.runId) <==> o.runId in UnfinishedIds(found, last) {
    }
  }

  // ---- the promise -------------------------------------------------------------

  /** The set is the rollup of that round's view, with GitHub's rows laid over it, for the target. */
  ghost predicate RollupOf(collate: string -> int, source: Source, target: Target, r: Outcome, s: Rollup.CheckSet)
    requires r.Ended?
  {
    && Answered(source, r.fresher)
    && s in Rollup.CheckSets(collate, RollupCopies.Overlay(source.glances(r.round).view, r.fresher).Copies())
    && IsAskedFor(target, None, s)
  }

  /** Heads as GitHub gives them: whole commit names, all of one length. */
  ghost predicate WholeHeads(source: Source, target: Target) {
    && !Named(target.head)
    && forall i: nat | source.replies(i).Some?
      && Named(source.replies(i).value.head) :: |source.replies(i).value.head.value| == 40
  }

  lemma SameWholeHead(a: Option<string>, b: Option<string>, sha: Option<string>)
    requires Named(a) && Named(b) && |a.value| == |b.value| && Rollup.SameCommit(a, b) && Rollup.SameCommit(b, sha)
    ensures Rollup.SameCommit(a, sha)
  {
    assert Lower(a.value) == Lower(b.value);
  }

  /** A green: GitHub said so in this call, and where the fleet's rollup is handed on, it is green for the same head. */
  ghost predicate GreenIsTrue(collate: string -> int, source: Source, target: Target, settleMs: int, asks: nat,
      r: Outcome)
    requires r.Ended?
  {
    && r.answer.Some? && InForce(source, asks, r.answer)
    && GithubView.EverythingPassed(r.answer.value) && GithubView.Quiet(r.answer.value, settleMs)
    && (r.checks.Fleet? ==>
          && r.checks.found.Some?
          && RollupOf(collate, source, target, r, r.checks.found.value)
          && r.checks.found.value.state == Rollup.Green && AllRunsPassed(r.checks.found.value)
          && (Named(r.answer.value.head) && WholeHeads(source, target) ==>
                Rollup.SameCommit(r.answer.value.head, r.checks.found.value.sha)))
  }

  /** A red: GitHub's own, or the fleet's rollup with a finished run that did not pass. */
  ghost predicate RedIsTrue(collate: string -> int, source: Source, target: Target, asks: nat, r: Outcome)
    requires r.Ended?
  {
    if r.checks.GitHub? then
      r.answer.Some? && InForce(source, asks, r.answer)
        && GithubView.EverythingFinished(r.answer.value) && !GithubView.EverythingPassed(r.answer.value)
    else
      && r.checks.found.Some?
      && RollupOf(collate, source, target, r, r.checks.found.value)
      && r.checks.found.value.state == Rollup.Red
      && exists x | x in r.checks.found.value.runs :: Rollup.Failed(x)
  }

  /** Waiting is called pointless on the word of a view that is not stale, or for an orphaned job the wait hangs on. */
  ghost predicate PointlessIsTrue(source: Source, target: Target, r: Outcome)
    requires r.Ended?
  {
    && r.checks.Fleet?
    && (|| (!source.glances(r.round).stale && source.glances(r.round).hopeless(r.checks.found))
        || AwaitsOrphan(target, r.checks.found, r.answer, source.orphans(r.round)))
  }

  /**
   A pending answer: at its last look GitHub had not finished, the rollup of the
   fleet's view was not red, waiting was called pointless by a stale view at most, and
   no job was orphaned that the wait hangs on.
   */
  ghost predicate PendingIsTrue(collate: string -> int, source: Source, target: Target, settleMs: int, asks: nat,
      r: Outcome)
    requires r.Ended?
  {
    && Answered(source, r.fresher) && InForce(source, asks, r.answer)
    && (r.answer.Some? ==>
          && (GithubView.EverythingPassed(r.answer.value) ==> !GithubView.Quiet(r.answer.value, settleMs))
          && (GithubView.EverythingFinished(r.answer.value) ==> GithubView.EverythingPassed(r.answer.value)))
    && exists seen: Option<GithubView.Answer>, last: Option<GithubView.Answer> ::
         LastLook(collate, source, target, asks, r, seen, last)
  }

  /** The last look: at the head GitHub had named by then, and at the orphans with what it had answered. */
  ghost predicate LastLook(collate: string -> int, source: Source, target: Target, asks: nat, r: Outcome,
      seen: Option<GithubView.Answer>, last: Option<GithubView.Answer>)
    requires r.Ended?
  {
    && (seen.Some? ==> Gave(source, asks, seen.value)) && (last.Some? ==> Gave(source, asks, last.value))
    && var g := source.glances(r.round);
    LeavesOpen(target, g, FindCheckSet(collate, RollupCopies.Overlay(g.view, r.fresher), At(target, seen)),
      last, source.orphans(r.round))
  }

  ghost predicate LeavesOpen(target: Target, g: Glance, found: Option<Rollup.CheckSet>,
      last: Option<GithubView.Answer>, orphans: seq<Orphan>)
  {
    && (found.Some? ==> found.value.state != Rollup.Red)
    && ((found.Some? ==> found.value.state == Rollup.Pending) && g.hopeless(found) ==> g.stale)
    && !AwaitsOrphan(target, found, last, orphans)
  }

  // ---- the clock ---------------------------------------------------------------

  /** The clock moves only while sleeping, and at least as far as was slept. */
  ghost predicate Steady(source: Source) {
    && (forall k: nat, s: nat :: source.now(k, s) == source.now(0, s))
    && (forall s: nat, later: nat | s <= later :: source.now(0, later) - source.now(0, s) >= later - s)
  }

  /** Nothing but sleep takes time, and sleep takes as long as asked. */
  ghost predicate Exact(source: Source) {
    Steady(source) && forall s: nat :: source.now(0, s) == source.now(0, 0) + s
  }

  predicate Sensible(o: Options) {
    o.tickMs >= 10 && o.confirmMs > 0
  }

  function LimitMs(waitS: int): (ms: int)
    ensures 0 <= ms <= 300_000
    ensures if waitS <= 0 then ms == 0 else if waitS <= 300 then ms == waitS * 1000 else ms == 300_000
  {
    var atLeast := if waitS < 0 then 0 else waitS;
    (if atLeast < MAX_WAIT_S then atLeast else MAX_WAIT_S) * 1000
  }

  /** How many rounds are left: two for each sleep that still fits, and one that finds the time up. */
  function RoundsLeft(deadline: int, now: int, justAsked: bool): (n: int)
    ensures n >= 1
  {
    2 * (((if deadline < now then 0 else deadline - now) + 9) / 10) + (if justAsked then 1 else 2)
  }

  lemma RoundsLeftFalls(deadline: int, now: int, later: int, justAsked: bool)
    requires now < deadline && now + 10 <= later
    ensures RoundsLeft(deadline, later, false) < RoundsLeft(deadline, now, justAsked)
  {
  }

  lemma SleepUsesARound(source: Source, deadline: int, slept: nat, later: nat, askedAt: int)
    requires Steady(source) && source.now(0, slept) < deadline && slept + 10 <= later
    ensures RoundsLeft(deadline, source.now(0, later), false)
          < RoundsLeft(deadline, source.now(0, slept), askedAt == source.now(0, slept))
  {
    assert source.now(0, later) - source.now(0, slept) >= later - slept;
    RoundsLeftFalls(deadline, source.now(0, slept), source.now(0, later), askedAt == source.now(0, slept));
  }

  // ---- the wait ----------------------------------------------------------------

  /** What the loop consults: decide, githubVerdict, and whether a job it hangs on is orphaned in a round. */
  datatype Rules = Rules(
    judge: (Glance, seq<Rollup.Run>, Target) -> Decision,
    weigh: Weigh,
    orphaned: (Option<Rollup.CheckSet>, Option<GithubView.Answer>, nat) -> bool)

  /** The target with the head GitHub named when it last answered. */
  function At(target: Target, last: Option<GithubView.Answer>): Target {
    if last.Some? && Named(last.value.head) then target.(head := last.value.head) else target
  }

  /** What an end of the loop rests on: the verdict of an answer, or what was judged of the fleet's view. */
  ghost predicate Judged(rules: Rules, source: Source, target: Target, asks: nat, r: Outcome,
      seen: Option<GithubView.Answer>)
    requires r.Ended?
  {
    && Answered(source, r.fresher)
    && (seen.Some? ==> Gave(source, asks, seen.value))
    && InForce(source, asks, r.answer)
    && var said := rules.judge(source.glances(r.round), r.fresher, At(target, seen));
    match r.state
    case Green =>
      && r.answer.Some? && rules.weigh(r.answer.value) == GithubView.Green
      && (r.checks.Fleet? ==>
            && said == Decision(SaysGreen, r.checks.found)
            && (Named(r.answer.value.head) ==> Rollup.SameCommit(r.answer.value.head, At(target, seen).head)))
    case Red =>
      if r.checks.Fleet? then said == Decision(SaysRed, r.checks.found)
      else r.answer.Some? && rules.weigh(r.answer.value) == GithubView.Red
    case Pointless =>
      && r.checks.Fleet?
      && (|| (said == Decision(SaysPointless, r.checks.found) && !source.glances(r.round).stale)
          || rules.orphaned(r.checks.found, r.answer, r.round))
    case Pending =>
      && said.state != SaysRed
      && (said.state == SaysPointless ==> source.glances(r.round).stale)
      && (r.answer.Some? ==> rules.weigh(r.answer.value) == GithubView.Pending)
      && NoOrphan(rules, source, asks, said.found, r.round)
  }

  /** No job is orphaned that the wait hangs on, by what GitHub had answered when that was looked at. */
  ghost predicate NoOrphan(rules: Rules, source: Source, asks: nat, found: Option<Rollup.CheckSet>, round: nat) {
    exists last: Option<GithubView.Answer> | last.Some? ==> Gave(source, asks, last.value) ::
      !rules.orphaned(found, last, round)
  }

  lemma NoOrphanStays(rules: Rules, source: Source, n: nat, m: nat, found: Option<Rollup.CheckSet>, round: nat)
    requires NoOrphan(rules, source, n, found, round) && n <= m
    ensures NoOrphan(rules, source, m, found, round)
  {
    var last: Option<GithubView.Answer> :|
      (last.Some? ==> Gave(source, n, last.value)) && !rules.orphaned(found, last, round);
    if last.Some? {
      GaveStays(source, n, m, last.value);
    }
  }

  /** Nothing was settled by a round: not by the fleet's view, not by GitHub, not by an orphan. */
  ghost predicate Unsettled(rules: Rules, source: Source, asks: nat, d: Decision, round: nat) {
    && d.state != SaysRed
    && (d.state == SaysPointless ==> source.glances(round).stale)
    && NoOrphan(rules, source, asks, d.found, round)
  }

  /** The variables of the loop. asks, reran, readings and slept count what the source was asked, read and told. */
  datatype Loop = Loop(
    round: nat, asks: nat, reran: nat, readings: nat, slept: nat,
    asked: Asked, nextCross: int, fresher: seq<Rollup.Run>)

  /** now(), at the next reading. */
  function Clock(source: Source, s: Loop): int {
    source.now(s.readings, s.slept)
  }

  ghost predicate Sound(rules: Rules, source: Source, s: Loop) {
    && Remembers(source, s.asks, rules.weigh, s.asked)
    && Answered(source, s.fresher)
    && (s.asked.unread || Undecided(s.asked))
    && (Steady(source) ==> s.asked.at <= source.now(0, s.slept))
  }

  /** GitHub has not answered, or not with a finished verdict. */
  predicate Undecided(a: Asked) {
    a.last.None? || a.verdict == GithubView.Pending
  }

  method AskGitHub(rules: Rules, source: Source, s: Loop) returns (next: Loop)
    requires Sound(rules, source, s)
    ensures Sound(rules, source, next)
    ensures next == s.(asks := s.asks + 1, readings := s.readings + 1,
                       asked := Ask(source.replies(s.asks), Clock(source, s), rules.weigh, s.asked))
  {
    AskRemembers(source, s.asks, Clock(source, s), rules.weigh, s.asked);
    next := s.(asks := s.asks + 1, readings := s.readings + 1,
               asked := Ask(source.replies(s.asks), Clock(source, s), rules.weigh, s.asked));
  }

  function Finish(state: End, checks: Checks, s: Loop, source: Source, start: int): Outcome {
    Ended(state, checks, s.asked.last, s.round, s.fresher, Clock(source, s) - start)
  }

  /** What the fleet's view says, once each failed run of a red was asked of GitHub. */
  method JudgeFleet(rules: Rules, source: Source, t: Target, s: Loop) returns (d: Decision, next: Loop)
    requires Sound(rules, source, s)
    ensures Sound(rules, source, next) && next == s.(reran := next.reran, fresher := next.fresher)
    ensures d == rules.judge(source.glances(s.round), next.fresher, t)
    ensures var first := rules.judge(source.glances(s.round), s.fresher, t);
      next.fresher == if first.state == SaysRed && first.found.Some?
        then Refreshed(source, s.reran, |Rollup.Pick(first.found.value.failed, Askable)|, s.fresher)
        else s.fresher
  {
    var g := source.glances(s.round);
    next := s;
    d := rules.judge(g, s.fresher, t);
    if d.state == SaysRed && d.found.Some? {
      RefreshedHolds(source, s.reran, |Rollup.Pick(d.found.value.failed, Askable)|, s.fresher);
      var n, fresher := ReadFailed(source, d.found.value.failed, s.reran, s.fresher);
      next := s.(reran := s.reran + n, fresher := fresher);
      d := rules.judge(g, next.fresher, t);
    }
  }

  /** A green of the fleet: GitHub is asked unless it was within confirmMs, and may name another head by now. */
  method ConfirmGreen(rules: Rules, source: Source, o: Options, head: Option<string>, s: Loop)
    returns (moved: bool, next: Loop)
    requires Sound(rules, source, s)
    ensures Sound(rules, source, next)
    ensures next == s.(asks := next.asks, readings := next.readings, asked := next.asked)
    ensures next.asks == if Clock(source, s) - s.asked.at >= o.confirmMs then s.asks + 1 else s.asks
    ensures next.asks == s.asks ==> next.asked == s.asked
    ensures next.asks > s.asks && Steady(source) ==> next.asked.at == source.now(0, s.slept)
    ensures moved <==>
      var last := next.asked.last;
      last.Some? && Named(last.value.head) && !Rollup.SameCommit(last.value.head, head)
  {
    next := s.(readings := s.readings + 1);
    if Clock(source, s) - s.asked.at >= o.confirmMs {
      next := AskGitHub(rules, source, next);
    }
    var last := next.asked.last;
    moved := last.Some? && Named(last.value.head) && !Rollup.SameCommit(last.value.head, head);
  }

  /** A round up to the orphans: what the fleet's view, and for a green GitHub, ends or holds. */
  method WeighFleet(rules: Rules, source: Source, target: Target, o: Options, start: int, s: Loop)
    returns (r: Outcome, d: Decision, held: bool, moved: bool, next: Loop)
    requires Sound(rules, source, s)
    ensures Sound(rules, source, next) && next.slept == s.slept && next.round == s.round
    ensures next.asks >= s.asks
    ensures r.Ended? ==> r.state != Pending && Judged(rules, source, target, next.asks, r, s.asked.last)
    ensures !r.Ended? && !moved ==> Unsettled(rules, source, next.asks, d, s.round)
    ensures !r.Ended? && !moved && d.state == SaysGreen ==> held && Undecided(next.asked)
    ensures held ==> d.state == SaysGreen && !moved
    ensures moved ==>
      && next.asked.last.Some? && Named(next.asked.last.value.head)
      && !Rollup.SameCommit(next.asked.last.value.head, At(target, s.asked.last).head)
    ensures d == rules.judge(source.glances(s.round), next.fresher, At(target, s.asked.last))
    ensures r.Ended? && Steady(source) ==> r.waitedMs == source.now(0, s.slept) - start
    ensures Steady(source) ==> next.asked.at in {s.asked.at, source.now(0, s.slept)}
    ensures Steady(source) && Sensible(o) && moved ==> s.asked.at < next.asked.at
  {
    var g, t := source.glances(s.round), At(target, s.asked.last);
    r, held, moved := Unfinished, false, false;
    d, next := JudgeFleet(rules, source, t, s);
    if d.state == SaysRed {
      r := Finish(Red, Fleet(d.found), next, source, start);
      return;
    }
    if d.state == SaysGreen {
      moved, next := ConfirmGreen(rules, source, o, t.head, next);
      if s.asked.last.Some? {
        InForceGave(source, s.asks, s.asked.last);
        GaveStays(source, s.asks, next.asks, s.asked.last.value);
      }
      if moved {
        // Judge the new head.
        return;
      }
      var last := next.asked.last;
      if last.Some? && next.asked.verdict == GithubView.Green {
        r := Finish(Green, Fleet(d.found), next, source, start);
        return;
      }
      if last.Some? && next.asked.verdict == GithubView.Red {
        r := Finish(Red, GitHub, next, source, start);
        return;
      }
      held := true;
    }
    if (d.state == SaysPointless && !g.stale) || rules.orphaned(d.found, next.asked.last, s.round) {
      r := Finish(Pointless, Fleet(d.found), next, source, start);
    } else {
      if next.asked.last.Some? {
        InForceGave(source, next.asks, next.asked.last);
      }
    }
  }

  /** GitHub asked once nextCross is reached, sooner when the view is stale, empty or known to lag. */
  method CrossCheck(rules: Rules, source: Source, o: Options, eager: bool, held: bool, s: Loop) returns (next: Loop)
    requires Sound(rules, source, s)
    ensures Sound(rules, source, next)
    ensures next.round == s.round && next.slept == s.slept && next.fresher == s.fresher && next.asks >= s.asks
    ensures held ==> next.asked == s.asked
    ensures !held ==>
      var cross := if eager && s.asked.at + o.crossStaleMs < s.nextCross then s.asked.at + o.crossStaleMs
        else s.nextCross;
      next.asks == if Clock(source, s) >= cross then s.asks + 1 else s.asks
  {
    next := s;
    if eager && s.asked.at + o.crossStaleMs < s.nextCross {
      next := next.(nextCross := s.asked.at + o.crossStaleMs);
    }
    if !held {
      var due := Clock(source, next) >= next.nextCross;
      next := next.(readings := next.readings + 1);
      if due {
        next := AskGitHub(rules, source, next);
        next := next.(nextCross := Clock(source, next) + (if eager then o.crossStaleMs else o.crossFreshMs),
                      readings := next.readings + 1);
      }
    }
  }

  /** The rest of a round: GitHub asked when the fleet's view has not ended the wait, then the deadline, then sleep. */
  method WeighGitHub(rules: Rules, source: Source, o: Options, start: int, deadline: int, d: Decision, held: bool,
      s: Loop)
    returns (r: Outcome, next: Loop)
    requires Sound(rules, source, s) && (held ==> Undecided(s.asked))
    ensures Sound(rules, source, next) && next.round == s.round
    ensures r.Ended? ==>
      && r.round == s.round && r.fresher == s.fresher && r.state != Pointless && r.answer == next.asked.last
      && (Steady(source) ==> r.waitedMs == source.now(0, s.slept) - start)
      && (r.state == Pending && Steady(source) ==> r.waitedMs >= deadline - start)
      && (r.state in {Green, Red} ==>
            && r.checks.GitHub? && r.answer.Some?
            && rules.weigh(r.answer.value) == if r.state == Green then GithubView.Green else GithubView.Red)
      && (r.state == Pending ==> Undecided(next.asked))
    ensures !r.Ended? ==> Undecided(next.asked)
    ensures next.asks >= s.asks && next.slept >= s.slept
    ensures !r.Ended? ==>
      && (o.tickMs >= 10 ==> s.slept + 10 <= next.slept)
      && (Steady(source) ==>
            && source.now(0, s.slept) < deadline
            && next.slept == s.slept + SleepMs(deadline - source.now(0, s.slept), o.tickMs))
  {
    r := Unfinished;
    var stale := source.glances(s.round).stale;
    var eager := stale || d.found.None? || exists f | f in s.fresher :: Rollup.IsActive(f);
    // A held green asked GitHub already; this is for the rest.
    next := CrossCheck(rules, source, o, eager, held, s);
    // GitHub's finished answer ends a wait the fleet has not finished.
    if !held && next.asked.unread && next.asked.last.Some? && next.asked.verdict != GithubView.Pending {
      var state := if next.asked.verdict == GithubView.Green then Green else Red;
      r := Finish(state, GitHub, next, source, start);
      return;
    }
    next := next.(asked := next.asked.(unread := false));
    var now := Clock(source, next);
    next := next.(readings := next.readings + 1);
    if now >= deadline {
      var checks := if next.asked.last.Some? && (stale || d.found.None? || held) then GitHub else Fleet(d.found);
      r := Finish(Pending, checks, next, source, start);
      return;
    }
    var ms := SleepMs(deadline - Clock(source, next), o.tickMs);
    next := next.(readings := next.readings + 1, slept := next.slept + ms);
  }

  function SleepMs(toGo: int, tickMs: int): (ms: nat)
    ensures tickMs >= 10 ==> 10 <= ms <= tickMs
    ensures ms <= if toGo < 10 then 10 else toGo
  {
    var atLeast := if toGo < 10 then 10 else toGo;
    var ms := if atLeast < tickMs then atLeast else tickMs;
    if ms < 0 then 0 else ms
  }

  /** Enough rounds are left for the loop to end by itself. */
  ghost predicate CanEnd(source: Source, o: Options, deadline: int, s: Loop, left: nat) {
    Steady(source) && Sensible(o) ==>
      left >= RoundsLeft(deadline, source.now(0, s.slept), s.asked.at == source.now(0, s.slept))
  }

  /** The loop of waitForChecks, whatever judges the fleet's view. */
  method Poll(rules: Rules, target: Target, source: Source, o: Options, waitS: int, rounds: nat)
    returns (r: Outcome, asks: nat, seen: Option<GithubView.Answer>)
    ensures r.Ended? ==> Judged(rules, source, target, asks, r, seen)
    ensures r.Ended? && r.state == Pending && Steady(source) ==> r.waitedMs >= LimitMs(waitS)
    ensures r.Ended? && Exact(source) ==> r.waitedMs < LimitMs(waitS) + 10
    ensures Steady(source) && Sensible(o) && rounds >= RoundsLeft(LimitMs(waitS), 0, true) ==> r.Ended?
  {
    var start := source.now(0, 0);
    var deadline := start + LimitMs(waitS);
    var s := Loop(0, 0, 0, 1, 0, Asked(start, None, GithubView.Pending, false), start + o.crossFreshMs, []);
    // The head first: a fleet answer about the previous head is no answer.
    s := AskGitHub(rules, source, s);
    var left := rounds;
    r, asks, seen := Unfinished, s.asks, s.asked.last;
    while left > 0
      invariant Sound(rules, source, s)
      invariant Exact(source) ==> s.slept < LimitMs(waitS) + 10
      invariant rounds >= RoundsLeft(LimitMs(waitS), 0, true) ==> CanEnd(source, o, deadline, s, left)
    {
      seen := s.asked.last;
      var d, held, moved, next;
      r, d, held, moved, next := WeighFleet(rules, source, target, o, start, s);
      if r.Ended? {
        asks := next.asks;
        return;
      }
      if !moved {
        ghost var n := next.asks;
        r, next := WeighGitHub(rules, source, o, start, deadline, d, held, next);
        if r.Ended? {
          asks := next.asks;
          if seen.Some? {
            GaveStays(source, s.asks, asks, seen.value);
          }
          NoOrphanStays(rules, source, n, asks, d.found, s.round);
          return;
        }
        if Steady(source) && Sensible(o) {
          SleepUsesARound(source, deadline, s.slept, next.slept, s.asked.at);
        }
      }
      s := next.(round := next.round + 1);
      left := left - 1;
    }
    r := Unfinished;
  }

  function RulesOf(collate: string -> int, source: Source, target: Target, settleMs: int): Rules {
    Rules(
      (g: Glance, fresher: seq<Rollup.Run>, t: Target) => Decide(collate, g, fresher, t),
      (gc: GithubView.Answer) => GithubView.VerdictOf(gc, settleMs),
      (found: Option<Rollup.CheckSet>, last: Option<GithubView.Answer>, round: nat) =>
        Orphaned(target, found, last, source.orphans(round)))
  }

  /** What the fleet's settled answer about the target stands for. */
  lemma SettledOnTarget(collate: string -> int, view: RollupCopies.View, target: Target, t: Target,
      found: Option<Rollup.CheckSet>)
    requires found == FindCheckSet(collate, view, t) && found.Some? && t == target.(head := t.head)
    ensures found.value in Rollup.CheckSets(collate, view.Copies()) && IsAskedFor(target, None, found.value)
    ensures Named(t.head) ==> Rollup.SameCommit(t.head, found.value.sha)
    ensures found.value.state == Rollup.Green ==> AllRunsPassed(found.value)
    ensures found.value.state == Rollup.Red ==> exists x | x in found.value.runs :: Rollup.Failed(x)
  {
    SettledMeans(collate, view.Copies(), found.value);
  }

  lemma AnswerOpen(source: Source, target: Target, collate: string -> int, settleMs: int,
      answer: Option<GithubView.Answer>)
    requires answer.Some? ==>
      RulesOf(collate, source, target, settleMs).weigh(answer.value) == GithubView.Pending
    ensures answer.Some? ==>
      && (GithubView.EverythingPassed(answer.value) ==> !GithubView.Quiet(answer.value, settleMs))
      && (GithubView.EverythingFinished(answer.value) ==> GithubView.EverythingPassed(answer.value))
  {
    if answer.Some? {
      GithubView.GreenMeans(answer.value, settleMs);
      GithubView.RedMeans(answer.value, settleMs);
    }
  }

  lemma JudgedOpen(rules: Rules, source: Source, target: Target, asks: nat, r: Outcome,
      seen: Option<GithubView.Answer>)
    requires r.Ended? && r.state == Pending && Judged(rules, source, target, asks, r, seen)
    ensures var said := rules.judge(source.glances(r.round), r.fresher, At(target, seen));
      && said.state != SaysRed && (said.state == SaysPointless ==> source.glances(r.round).stale)
      && NoOrphan(rules, source, asks, said.found, r.round)
    ensures seen.Some? ==> Gave(source, asks, seen.value)
    ensures Answered(source, r.fresher)
    ensures r.answer.Some? ==> rules.weigh(r.answer.value) == GithubView.Pending
  {
  }

  lemma OrphanFree(collate: string -> int, source: Source, target: Target, settleMs: int, asks: nat,
      found: Option<Rollup.CheckSet>, round: nat)
    returns (last: Option<GithubView.Answer>)
    requires NoOrphan(RulesOf(collate, source, target, settleMs), source, asks, found, round)
    ensures last.Some? ==> Gave(source, asks, last.value)
    ensures !Orphaned(target, found, last, source.orphans(round))
  {
    var rules := RulesOf(collate, source, target, settleMs);
    last :| (last.Some? ==> Gave(source, asks, last.value)) && !rules.orphaned(found, last, round);
  }

  lemma PendingHolds(collate: string -> int, source: Source, target: Target, settleMs: int, asks: nat, r: Outcome,
      seen: Option<GithubView.Answer>)
    requires r.Ended? && r.state == Pending
    requires Judged(RulesOf(collate, source, target, settleMs), source, target, asks, r, seen)
    ensures PendingIsTrue(collate, source, target, settleMs, asks, r)
  {
    var g, t := source.glances(r.round), At(target, seen);
    var found := FindCheckSet(collate, RollupCopies.Overlay(g.view, r.fresher), t);
    JudgedOpen(RulesOf(collate, source, target, settleMs), source, target, asks, r, seen);
    assert RulesOf(collate, source, target, settleMs).judge(g, r.fresher, t) == Decide(collate, g, r.fresher, t);
    AnswerOpen(source, target, collate, settleMs, r.answer);
    var last := OrphanFree(collate, source, target, settleMs, asks, found, r.round);
    assert LeavesOpen(target, g, found, last, source.orphans(r.round)) by {
      DecisionMeans(collate, g, r.fresher, t);
      OrphanedMeans(target, found, last, source.orphans(r.round));
    }
    assert LastLook(collate, source, target, asks, r, seen, last);
  }

  lemma EndHolds(collate: string -> int, source: Source, target: Target, settleMs: int, asks: nat, r: Outcome,
      seen: Option<GithubView.Answer>)
    requires r.Ended? && Judged(RulesOf(collate, source, target, settleMs), source, target, asks, r, seen)
    ensures r.state == Green ==> GreenIsTrue(collate, source, target, settleMs, asks, r)
    ensures r.state == Red ==> RedIsTrue(collate, source, target, asks, r)
    ensures r.state == Pointless ==> PointlessIsTrue(source, target, r)
    ensures r.state == Pending ==> PendingIsTrue(collate, source, target, settleMs, asks, r)
  {
    var g, t := source.glances(r.round), At(target, seen);
    DecisionMeans(collate, g, r.fresher, t);
    if r.state == Pointless {
      OrphanedMeans(target, r.checks.found, r.answer, source.orphans(r.round));
    }
    if r.state == Pending {
      PendingHolds(collate, source, target, settleMs, asks, r, seen);
    }
    if r.checks.Fleet? && r.state in {Green, Red} {
      SettledOnTarget(collate, RollupCopies.Overlay(g.view, r.fresher), target, t, r.checks.found);
    }
    if r.state == Red && r.checks.GitHub? {
      GithubView.RedMeans(r.answer.value, settleMs);
    }
    if r.state == Green {
      GithubView.GreenMeans(r.answer.value, settleMs);
      if r.checks.Fleet? && Named(r.answer.value.head) && WholeHeads(source, target) {
        SameWholeHead(r.answer.value.head, t.head, r.checks.found.value.sha);
      }
    }
  }

  /**
   waitForChecks. A green means GitHub said in this call that everything passed and
   was quiet, and where the fleet's rollup is handed on, that it is green for the
   same head; a red and a pointless wait are as well founded; a pending answer
   means the time was up; and when the clock moves only in sleep the loop ends by
   itself.
   */
  method WaitForChecks(collate: string -> int, target: Target, source: Source, o: Options, waitS: int, rounds: nat)
    returns (r: Outcome, asks: nat)
    ensures r.Ended? && r.state == Green ==> GreenIsTrue(collate, source, target, o.settleMs, asks, r)
    ensures r.Ended? && r.state == Red ==> RedIsTrue(collate, source, target, asks, r)
    ensures r.Ended? && r.state == Pointless ==> PointlessIsTrue(source, target, r)
    ensures r.Ended? && r.state == Pending ==> PendingIsTrue(collate, source, target, o.settleMs, asks, r)
    ensures r.Ended? && r.state == Pending && Steady(source) ==> r.waitedMs >= LimitMs(waitS)
    ensures r.Ended? && Exact(source) ==> r.waitedMs < LimitMs(waitS) + 10
    ensures Steady(source) && Sensible(o) && rounds >= RoundsLeft(LimitMs(waitS), 0, true) ==> r.Ended?
  {
    var seen;
    r, asks, seen := Poll(RulesOf(collate, source, target, o.settleMs), target, source, o, waitS, rounds);
    if r.Ended? {
      EndHolds(collate, source, target, o.settleMs, asks, r, seen);
    }
  }
}
