/**
 A commit's checks as one answer: latest, checkSets, overlay and findCheckSet of
 dashboard/lib/checks.js, and mergeRunPages of dashboard/lib/github.js. Several
 copies of one run may be at hand, from different pages, lists and times.
 */
module Rollup {
  import opened Wrappers
  import opened Text

  const PASSED: set<string> := {"success", "skipped", "neutral"}

  datatype Run = Run(
    id: int,
    repo: string,
    sha: Option<string>,
    branch: Option<string>,
    workflow: Option<string>,
    completed: bool,
    conclusion: Option<string>,
    runAttempt: Option<int>,
    updatedAt: Option<int>,
    prNumber: Option<int>,
    prHead: Option<string>)

  datatype State = Green | Red | Pending

  datatype CheckSet = CheckSet(
    repo: string,
    prNumber: Option<int>,
    branch: Option<string>,
    sha: Option<string>,
    runs: seq<Run>,
    failed: seq<Run>,
    superseded: seq<Run>,
    state: State)

  predicate Passed(conclusion: Option<string>): (p: bool)
    ensures p <==> conclusion in {Some("success"), Some("skipped"), Some("neutral")}
  {
    conclusion.GetOr("") in PASSED
  }

  predicate IsActive(r: Run) {
    !r.completed
  }

  predicate Failed(r: Run) {
    r.completed && !Passed(r.conclusion)
  }

  // ---- which copy of a run counts -------------------------------------------

  /** Of two rows for one run, the higher attempt, else the later update; a tie keeps a. */
  function Latest(a: Run, b: Run): Run {
    if a.runAttempt.Some? && b.runAttempt.Some? && a.runAttempt != b.runAttempt then
      if b.runAttempt.value > a.runAttempt.value then b else a
    else if b.updatedAt.GetOr(0) > a.updatedAt.GetOr(0) then b
    else a
  }

  /** newerRun: the same choice with a missing attempt read as 0. */
  function NewerRun(a: Run, b: Run): Run {
    var aa, ba := a.runAttempt.GetOr(0), b.runAttempt.GetOr(0);
    if aa != ba then if ba > aa then b else a
    else if b.updatedAt.GetOr(0) > a.updatedAt.GetOr(0) then b
    else a
  }

  /** Copy a describes an earlier moment of the run than copy b. */
  predicate Earlier(a: Run, b: Run) {
    var aa, ba := a.runAttempt.GetOr(0), b.runAttempt.GetOr(0);
    aa < ba || (aa == ba && a.updatedAt.GetOr(0) < b.updatedAt.GetOr(0))
  }

  /** Every copy names its attempt. */
  predicate AttemptsPresent(copies: seq<Run>) {
    forall c | c in copies :: c.runAttempt.Some?
  }

  /** Of any two different copies of one run, one is the earlier. */
  predicate NoTies(copies: seq<Run>) {
    forall a, b | a in copies && b in copies && a.id == b.id :: a == b || Earlier(a, b) || Earlier(b, a)
  }

  /** The two rules the code has for the copies of one run. */
  datatype Rule = InChecks | InPages

  function Choose(rule: Rule, a: Run, b: Run): (c: Run)
    ensures c == a || c == b
  {
    match rule
    case InChecks => Latest(a, b)
    case InPages => NewerRun(a, b)
  }

  /** The map byId after the copies, taken in the order they come. */
  function ById(rule: Rule, copies: seq<Run>): map<int, Run> {
    if copies == [] then map[]
    else
      var m, c := ById(rule, copies[..|copies| - 1]), copies[|copies| - 1];
      m[c.id := if c.id in m then Choose(rule, m[c.id], c) else c]
  }

  lemma {:induction false} ByIdHoldsCopies(rule: Rule, copies: seq<Run>)
    ensures var m := ById(rule, copies);
      && (forall id | id in m :: m[id] in copies && m[id].id == id)
      && (forall c | c in copies :: c.id in m)
  {
    if copies != [] {
      ByIdHoldsCopies(rule, copies[..|copies| - 1]);
      assert copies == copies[..|copies| - 1] + [copies[|copies| - 1]];
    }
  }

  /** The rule picks the later of two copies whenever it can tell: always by InPages, by attempt otherwise. */
  predicate Ranked(rule: Rule, copies: seq<Run>) {
    NoTies(copies) && (rule == InChecks ==> AttemptsPresent(copies))
  }

  /** Each run is kept as the latest of its copies, whatever order they came in. */
  lemma {:induction false} LatestCopyWins(rule: Rule, copies: seq<Run>)
    requires Ranked(rule, copies)
    ensures var m := ById(rule, copies);
      forall c | c in copies :: c.id in m && (m[c.id] == c || Earlier(c, m[c.id]))
  {
    if copies != [] {
      var init, last := copies[..|copies| - 1], copies[|copies| - 1];
      assert copies == init + [last];
      LatestCopyWins(rule, init);
      ByIdHoldsCopies(rule, init);
      var m, before := ById(rule, copies), ById(rule, init);
      forall c | c in copies ensures c.id in m && (m[c.id] == c || Earlier(c, m[c.id])) {
        if c in init && c.id == last.id {
          assert before[c.id] in copies && last in copies;
        }
      }
    }
  }

  // ---- the rows in id order -------------------------------------------------

  predicate AscendingIds(rows: seq<Run>) {
    forall i, j | 0 <= i < j < |rows| :: rows[i].id < rows[j].id
  }

  function MinKey(ids: set<int>): (k: int)
    requires ids != {}
    ensures k in ids && forall x | x in ids :: k <= x
  {
    HasMin(ids);
    var k :| k in ids && forall x | x in ids :: k <= x;
    k
  }

  lemma Member<T>(s: set<T>) returns (x: T)
    requires s != {}
    ensures x in s
  {
    x :| x in s;
  }

  lemma {:induction false} HasMin(ids: set<int>)
    requires ids != {}
    ensures exists k | k in ids :: forall x | x in ids :: k <= x
  {
    var k := Member(ids);
    if ids == {k} {
      assert forall x | x in ids :: k <= x;
    } else {
      HasMin(ids - {k});
      var m :| m in ids - {k} && forall x | x in ids - {k} :: m <= x;
      var least := if k < m then k else m;
      forall x | x in ids ensures least <= x {
        assert x == k || x in ids - {k};
      }
      assert least in ids;
    }
  }

  /** The values of the map, sorted by id. */
  function SortedRows(m: map<int, Run>): (rows: seq<Run>)
    requires forall id | id in m :: m[id].id == id
    ensures AscendingIds(rows)
    ensures forall r :: r in rows <==> r.id in m && m[r.id] == r
    decreases |m|
  {
    if m.Keys == {} then []
    else
      var k := MinKey(m.Keys);
      var rest := SortedRows(m - {k});
      assert forall i | 0 <= i < |rest| :: rest[i] in rest;
      [m[k]] + rest
  }

  function AllRuns(copies: seq<Run>): (rows: seq<Run>)
    ensures AscendingIds(rows)
  {
    ByIdHoldsCopies(InChecks, copies);
    SortedRows(ById(InChecks, copies))
  }

  // ---- one commit's set -----------------------------------------------------

  /** Runs are grouped by repository and commit, else branch, else the run itself. */
  function GroupOf(r: Run): (string, string) {
    (r.repo, if r.sha.Some? then r.sha.value else if r.branch.Some? then r.branch.value else IntText(r.id))
  }

  function WorkflowKey(r: Run): string {
    r.workflow.GetOr(IntText(r.id))
  }

  function InGroup(rows: seq<Run>, key: (string, string)): (g: seq<Run>)
    ensures forall r :: r in g <==> r in rows && GroupOf(r) == key
  {
    if rows == [] then []
    else
      var init, last := rows[..|rows| - 1], rows[|rows| - 1];
      assert rows == init + [last];
      var g := InGroup(init, key);
      if GroupOf(last) == key then g + [last] else g
  }

  lemma {:induction false} GroupAscends(rows: seq<Run>, key: (string, string))
    requires AscendingIds(rows)
    ensures AscendingIds(InGroup(rows, key))
  {
    if rows != [] {
      var init := rows[..|rows| - 1];
      GroupAscends(init, key);
      var g := InGroup(init, key);
      assert forall i | 0 <= i < |g| :: g[i] in init;
    }
  }

  predicate OnePerWorkflow(kept: seq<Run>) {
    forall i, j | 0 <= i < j < |kept| :: WorkflowKey(kept[i]) != WorkflowKey(kept[j])
  }

  /** byWorkflow.set: a workflow keeps the place it first took, and the run that came last. */
  function PutByWorkflow(kept: seq<Run>, r: Run): (k: seq<Run>)
    requires OnePerWorkflow(kept)
    ensures OnePerWorkflow(k)
    ensures forall x :: x in k <==> x == r || (x in kept && WorkflowKey(x) != WorkflowKey(r))
  {
    if kept == [] then [r]
    else if WorkflowKey(kept[0]) == WorkflowKey(r) then
      assert forall i | 0 < i < |kept| :: kept[i] in kept[1..];
      [r] + kept[1..]
    else
      var rest := PutByWorkflow(kept[1..], r);
      assert forall i | 0 <= i < |rest| :: rest[i] in rest;
      [kept[0]] + rest
  }

  /** The newest run of each workflow of a group, in the order the workflows first appeared. */
  function NewestPerWorkflow(g: seq<Run>): (k: seq<Run>)
    ensures OnePerWorkflow(k)
    ensures g != [] ==> k != []
  {
    if g == [] then []
    else
      var k := PutByWorkflow(NewestPerWorkflow(g[..|g| - 1]), g[|g| - 1]);
      assert g[|g| - 1] in k;
      k
  }

  lemma {:induction false} NewestAre(g: seq<Run>)
    requires AscendingIds(g)
    ensures forall r :: r in NewestPerWorkflow(g) <==>
      r in g && forall x | x in g && WorkflowKey(x) == WorkflowKey(r) :: x.id <= r.id
  {
    if g != [] {
      var init, last := g[..|g| - 1], g[|g| - 1];
      assert g == init + [last];
      NewestAre(init);
      assert forall x | x in init :: x.id < last.id;
    }
  }

  /** The sort by workflow name; how names collate is the locale's business. */
  function InsertByName(collate: string -> int, r: Run, rows: seq<Run>): (s: seq<Run>)
    ensures forall x :: x in s <==> x == r || x in rows
    ensures |s| == |rows| + 1
  {
    if rows == [] || collate(r.workflow.GetOr("")) <= collate(rows[0].workflow.GetOr("")) then [r] + rows
    else [rows[0]] + InsertByName(collate, r, rows[1..])
  }

  function SortByName(collate: string -> int, rows: seq<Run>): (s: seq<Run>)
    ensures forall x :: x in s <==> x in rows
    ensures |s| == |rows|
  {
    if rows == [] then [] else InsertByName(collate, rows[0], SortByName(collate, rows[1..]))
  }

  function Pick(rows: seq<Run>, p: Run -> bool): (s: seq<Run>)
    ensures forall r :: r in s <==> r in rows && p(r)
    ensures |s| <= |rows|
  {
    if rows == [] then [] else (if p(rows[0]) then [rows[0]] else []) + Pick(rows[1..], p)
  }

  predicate HasPR(r: Run) {
    r.prNumber.Some?
  }

  lemma {:induction false} FirstPicked(rows: seq<Run>, p: Run -> bool) returns (k: nat)
    requires Pick(rows, p) != []
    ensures k < |rows| && Pick(rows, p)[0] == rows[k] && p(rows[k])
    ensures forall m | 0 <= m < k :: !p(rows[m])
  {
    if p(rows[0]) {
      k := 0;
    } else {
      k := FirstPicked(rows[1..], p);
      k := k + 1;
    }
  }

  /** The first run with a PR, else the first run. */
  function HeadRun(rows: seq<Run>): (r: Run)
    requires rows != []
    ensures r in rows
  {
    var withPR := Pick(rows, HasPR);
    if withPR != [] then withPR[0] else rows[0]
  }

  /** heads: the head the PR's newest run to name one names. */
  function PrHead(all: seq<Run>, repo: string, pr: int): Option<string> {
    if all == [] then None
    else
      var last := all[|all| - 1];
      if last.repo == repo && last.prNumber == Some(pr) && last.prHead.GetOr("") != "" then last.prHead
      else PrHead(all[..|all| - 1], repo, pr)
  }

  /** Of the PR's rows that name a head, the one with the greatest id. */
  ghost predicate NewestToNameHead(all: seq<Run>, repo: string, pr: int, r: Run) {
    && r in all && NamesHead(r, repo, pr)
    && forall x | x in all && NamesHead(x, repo, pr) :: x.id <= r.id
  }

  ghost predicate NamesHead(r: Run, repo: string, pr: int) {
    r.repo == repo && r.prNumber == Some(pr) && r.prHead.Some? && r.prHead.value != ""
  }

  lemma {:induction false} NoHead(all: seq<Run>, repo: string, pr: int)
    ensures PrHead(all, repo, pr).None? ==> forall r | r in all :: !NamesHead(r, repo, pr)
  {
    if all != [] {
      NoHead(all[..|all| - 1], repo, pr);
      assert all == all[..|all| - 1] + [all[|all| - 1]];
    }
  }

  lemma {:induction false} HeadRow(all: seq<Run>, repo: string, pr: int) returns (r: Run)
    requires AscendingIds(all) && PrHead(all, repo, pr).Some?
    ensures NewestToNameHead(all, repo, pr, r) && r.prHead == PrHead(all, repo, pr)
  {
    var init, last := all[..|all| - 1], all[|all| - 1];
    assert all == init + [last];
    r := last;
    if !NamesHead(last, repo, pr) {
      r := HeadRow(init, repo, pr);
    }
  }

  lemma OneNewest(all: seq<Run>, repo: string, pr: int, r: Run, x: Run)
    requires AscendingIds(all) && NewestToNameHead(all, repo, pr, r) && NewestToNameHead(all, repo, pr, x)
    ensures r == x
  {
    var i :| 0 <= i < |all| && all[i] == r;
    var j :| 0 <= j < |all| && all[j] == x;
  }

  /** A PR's head is what that row names; there is none exactly when no row names one. */
  lemma HeadMeans(all: seq<Run>, repo: string, pr: int)
    requires AscendingIds(all)
    ensures forall r | NewestToNameHead(all, repo, pr, r) :: PrHead(all, repo, pr) == r.prHead
    ensures PrHead(all, repo, pr).Some? <==> exists r :: NewestToNameHead(all, repo, pr, r)
    ensures PrHead(all, repo, pr).None? <==> forall r | r in all :: !NamesHead(r, repo, pr)
  {
    NoHead(all, repo, pr);
    if PrHead(all, repo, pr).Some? {
      var r := HeadRow(all, repo, pr);
      forall x | NewestToNameHead(all, repo, pr, x) ensures x == r {
        OneNewest(all, repo, pr, r, x);
      }
    }
  }

  /** newestInPR: the newest run of a workflow on any commit of the PR. */
  function NewestInPR(all: seq<Run>, repo: string, pr: int, workflow: string): (id: Option<int>)
    ensures id.None? ==> forall r | r in all :: !OfPR(r, repo, pr, workflow)
    ensures AscendingIds(all) && id.Some? ==>
      (exists r | r in all :: OfPR(r, repo, pr, workflow) && r.id == id.value)
      && forall r | r in all && OfPR(r, repo, pr, workflow) :: r.id <= id.value
  {
    if all == [] then None
    else
      var init, last := all[..|all| - 1], all[|all| - 1];
      assert all == init + [last];
      if OfPR(last, repo, pr, workflow) then
        assert last in all;
        Some(last.id)
      else NewestInPR(init, repo, pr, workflow)
  }

  predicate OfPR(r: Run, repo: string, pr: int, workflow: string) {
    r.repo == repo && r.prNumber == Some(pr) && r.workflow.GetOr("") == workflow
  }

  /** Shas arrive at different lengths: one is a prefix of the other, whatever the case. */
  predicate SameCommit(a: Option<string>, b: Option<string>) {
    && a.GetOr("") != "" && b.GetOr("") != ""
    && (StartsWith(Lower(a.value), Lower(b.value)) || StartsWith(Lower(b.value), Lower(a.value)))
  }

  predicate SameRepo(a: string, b: string) {
    Lower(a) == Lower(b)
  }

  /** The commit is its PR's head. */
  predicate IsHead(all: seq<Run>, head: Run) {
    head.prNumber.Some? && SameCommit(PrHead(all, head.repo, head.prNumber.value), head.sha)
  }

  /** The commit is the one its PR's newest row to name a head names. */
  ghost predicate OnHead(all: seq<Run>, head: Run) {
    && head.prNumber.Some?
    && exists r | r in all ::
         NewestToNameHead(all, head.repo, head.prNumber.value, r) && SameCommit(r.prHead, head.sha)
  }

  lemma IsHeadMeans(all: seq<Run>, head: Run)
    requires AscendingIds(all)
    ensures IsHead(all, head) <==> OnHead(all, head)
  {
    if head.prNumber.Some? {
      HeadMeans(all, head.repo, head.prNumber.value);
      var h := PrHead(all, head.repo, head.prNumber.value);
      if r :| r in all && NewestToNameHead(all, head.repo, head.prNumber.value, r)
              && SameCommit(r.prHead, head.sha) {
        assert h == Some(r.prHead.value);
      }
    }
  }

  /** Commit names stand for one commit when both are there and agree, whatever the case, as far as both go. */
  lemma SameCommitMeans(a: Option<string>, b: Option<string>)
    ensures SameCommit(a, b) <==>
      && a.Some? && b.Some? && a.value != "" && b.value != ""
      && forall i | 0 <= i < |a.value| && i < |b.value| :: LowerChar(a.value[i]) == LowerChar(b.value[i])
  {
    if a.GetOr("") != "" && b.GetOr("") != "" {
      var x, y := Lower(a.value), Lower(b.value);
      assert StartsWith(x, y) ==> forall i | 0 <= i < |y| :: x[i] == x[..|y|][i];
      assert StartsWith(y, x) ==> forall i | 0 <= i < |x| :: y[i] == y[..|x|][i];
    }
  }

  /** Finished here, yet the workflow ran later on another of the PR's commits: the branch left and came back. */
  predicate Superseded(all: seq<Run>, head: Run, r: Run) {
    && IsHead(all, head) && !IsActive(r)
    && NewestInPR(all, head.repo, head.prNumber.value, r.workflow.GetOr("")).GetOr(r.id) > r.id
  }

  function SetOf(collate: string -> int, all: seq<Run>, group: seq<Run>): (s: CheckSet)
    requires group != []
  {
    var rs := SortByName(collate, NewestPerWorkflow(group));
    assert |rs| > 0;
    var head := HeadRun(rs);
    var superseded := Pick(rs, (r: Run) => Superseded(all, head, r));
    var active := Pick(rs, IsActive);
    var failed := Pick(rs, (r: Run) => Failed(r) && r !in superseded);
    CheckSet(
      head.repo, head.prNumber, head.branch, head.sha, rs, failed, superseded,
      if active != [] || superseded != [] then Pending else if failed != [] then Red else Green)
  }

  /** The group keys in the order their first run comes. */
  function GroupKeys(all: seq<Run>): (ks: seq<(string, string)>)
    ensures forall r | r in all :: GroupOf(r) in ks
    ensures forall k | k in ks :: InGroup(all, k) != []
  {
    if all == [] then []
    else
      var init, last := all[..|all| - 1], all[|all| - 1];
      assert all == init + [last];
      var ks := GroupKeys(init);
      assert last in InGroup(all, GroupOf(last));
      assert forall k | k in ks :: InGroup(init, k)[0] in InGroup(all, k);
      if GroupOf(last) in ks then ks else ks + [GroupOf(last)]
  }

  function SetsOf(collate: string -> int, all: seq<Run>, keys: seq<(string, string)>): (ss: seq<CheckSet>)
    requires forall k | k in keys :: InGroup(all, k) != []
    ensures |ss| == |keys|
    ensures forall i | 0 <= i < |keys| :: ss[i] == SetOf(collate, all, InGroup(all, keys[i]))
  {
    seq(|keys|, i requires 0 <= i < |keys| => SetOf(collate, all, InGroup(all, keys[i])))
  }

  function NewestUpdate(rows: seq<Run>): (t: int)
    ensures t >= 0 && forall r | r in rows :: r.updatedAt.GetOr(0) <= t
    ensures t == 0 || exists r | r in rows :: r.updatedAt == Some(t)
  {
    if rows == [] then 0
    else
      var rest := NewestUpdate(rows[1..]);
      if rest < rows[0].updatedAt.GetOr(0) then rows[0].updatedAt.GetOr(0) else rest
  }

  /** Pending sets first, then the most recently updated. */
  predicate ListedBefore(a: CheckSet, b: CheckSet) {
    if (a.state == Pending) != (b.state == Pending) then a.state == Pending
    else NewestUpdate(a.runs) >= NewestUpdate(b.runs)
  }

  function InsertSet(s: CheckSet, ss: seq<CheckSet>): (r: seq<CheckSet>)
    requires PendingFirst(ss)
    ensures PendingFirst(r)
    ensures forall x :: x in r <==> x == s || x in ss
  {
    if ss == [] || ListedBefore(s, ss[0]) then
      assert ss != [] && s.state != Pending ==> forall i | 0 <= i < |ss| :: ss[i].state != Pending;
      [s] + ss
    else
      var rest := InsertSet(s, ss[1..]);
      assert forall i | 0 <= i < |rest| :: rest[i] in rest;
      assert ss[0].state != Pending ==> forall x | x in ss[1..] :: x.state != Pending;
      [ss[0]] + rest
  }

  /** No pending set comes after one that is not. */
  predicate PendingFirst(ss: seq<CheckSet>) {
    forall i, j | 0 <= i < j < |ss| && ss[j].state == Pending :: ss[i].state == Pending
  }

  function SortSets(ss: seq<CheckSet>): (r: seq<CheckSet>)
    ensures PendingFirst(r)
    ensures forall x :: x in r <==> x in ss
  {
    if ss == [] then [] else InsertSet(ss[0], SortSets(ss[1..]))
  }

  /** checkSets: every commit's answer, pending ones first. */
  function CheckSets(collate: string -> int, copies: seq<Run>): (ss: seq<CheckSet>)
    ensures PendingFirst(ss)
  {
    var all := AllRuns(copies);
    SortSets(SetsOf(collate, all, GroupKeys(all)))
  }

  // ---- what a set says --------------------------------------------------------

  /** The runs that decide a commit: of each workflow, the run with the greatest id. */
  ghost predicate Decides(all: seq<Run>, key: (string, string), r: Run) {
    && r in all && GroupOf(r) == key
    && forall x | x in all && GroupOf(x) == key && WorkflowKey(x) == WorkflowKey(r) :: x.id <= r.id
  }

  /** On its PR's head, and the workflow ran later for the PR. */
  ghost predicate RanLaterElsewhere(all: seq<Run>, head: Run, r: Run) {
    && OnHead(all, head)
    && exists x | x in all ::
         && x.repo == head.repo && x.prNumber == head.prNumber && x.workflow.GetOr("") == r.workflow.GetOr("")
         && x.id > r.id
  }

  lemma SetRuns(collate: string -> int, all: seq<Run>, key: (string, string), r: Run)
    requires AscendingIds(all) && InGroup(all, key) != []
    ensures r in SetOf(collate, all, InGroup(all, key)).runs <==> Decides(all, key, r)
  {
    GroupAscends(all, key);
    NewestAre(InGroup(all, key));
    assert r in SetOf(collate, all, InGroup(all, key)).runs <==> r in NewestPerWorkflow(InGroup(all, key));
  }

  lemma SupersededMeans(all: seq<Run>, head: Run, r: Run)
    requires AscendingIds(all)
    ensures Superseded(all, head, r) <==> r.completed && RanLaterElsewhere(all, head, r)
  {
    IsHeadMeans(all, head);
    if IsHead(all, head) {
      var newest := NewestInPR(all, head.repo, head.prNumber.value, r.workflow.GetOr(""));
      if newest.Some? && newest.value > r.id {
        var x :| x in all && OfPR(x, head.repo, head.prNumber.value, r.workflow.GetOr("")) && x.id == newest.value;
        assert RanLaterElsewhere(all, head, r);
      }
    }
  }

  lemma EmptyPick(rows: seq<Run>, p: Run -> bool)
    ensures Pick(rows, p) == [] <==> forall r | r in rows :: !p(r)
  {
    assert Pick(rows, p) != [] ==> Pick(rows, p)[0] in Pick(rows, p);
  }

  ghost predicate AllDone(all: seq<Run>, head: Run, runs: seq<Run>) {
    forall r | r in runs :: r.completed && !RanLaterElsewhere(all, head, r)
  }

  ghost predicate AllPassed(runs: seq<Run>) {
    forall r | r in runs :: Passed(r.conclusion)
  }

  lemma SetState(collate: string -> int, all: seq<Run>, group: seq<Run>)
    requires AscendingIds(all) && group != []
    ensures var s := SetOf(collate, all, group);
      && s.runs != [] && var head := HeadRun(s.runs);
      && s.repo == head.repo && s.sha == head.sha && s.prNumber == head.prNumber && s.branch == head.branch
      && (forall r :: r in s.superseded <==> r in s.runs && r.completed && RanLaterElsewhere(all, head, r))
      && (forall r :: r in s.failed <==> r in s.runs && Failed(r) && !RanLaterElsewhere(all, head, r))
      && (s.state == Green <==> AllDone(all, head, s.runs) && AllPassed(s.runs))
      && (s.state == Red <==> AllDone(all, head, s.runs) && !AllPassed(s.runs))
  {
    var rs := SortByName(collate, NewestPerWorkflow(group));
    assert |rs| > 0;
    var head := HeadRun(rs);
    var superseded := Pick(rs, (r: Run) => Superseded(all, head, r));
    forall r | r in rs ensures Superseded(all, head, r) <==> r.completed && RanLaterElsewhere(all, head, r) {
      SupersededMeans(all, head, r);
    }
    EmptyPick(rs, IsActive);
    EmptyPick(rs, (r: Run) => Superseded(all, head, r));
    EmptyPick(rs, (r: Run) => Failed(r) && r !in superseded);
  }

  /** The first row, in order, with a PR, else the first. */
  ghost predicate IsHeadRun(rows: seq<Run>, r: Run) {
    exists k | 0 <= k < |rows| :: rows[k] == r
      && (forall m | 0 <= m < k :: rows[m].prNumber.None?)
      && (r.prNumber.None? ==> k == 0 && forall m | 0 <= m < |rows| :: rows[m].prNumber.None?)
  }

  lemma HeadRunMeans(rows: seq<Run>)
    requires rows != []
    ensures IsHeadRun(rows, HeadRun(rows))
  {
    EmptyPick(rows, HasPR);
    if Pick(rows, HasPR) != [] {
      var k := FirstPicked(rows, HasPR);
      assert rows[k] == HeadRun(rows);
    } else {
      assert forall m | 0 <= m < |rows| :: !HasPR(rows[m]);
      assert rows[0] == HeadRun(rows);
    }
  }

  /**
   The rollup of one commit. Its runs are the newest of each workflow; it is named
   after the first of them with a PR; it is green exactly when all of them finished
   and passed and, on the PR's head, none ran later for the PR; red exactly when all
   finished, none ran later, and one did not pass. Listed as failed are the finished
   ones that did not pass and did not run later.
   */
  lemma SetMeans(collate: string -> int, all: seq<Run>, key: (string, string))
    requires AscendingIds(all) && InGroup(all, key) != []
    ensures var s := SetOf(collate, all, InGroup(all, key));
      && s.runs != [] && var head := HeadRun(s.runs);
      && IsHeadRun(s.runs, head)
      && s.repo == head.repo && s.sha == head.sha && s.prNumber == head.prNumber && s.branch == head.branch
      && (forall r :: r in s.runs <==> Decides(all, key, r))
      && (forall r :: r in s.superseded <==> r in s.runs && r.completed && RanLaterElsewhere(all, head, r))
      && (forall r :: r in s.failed <==> r in s.runs && Failed(r) && !RanLaterElsewhere(all, head, r))
      && (s.state == Green <==> AllDone(all, head, s.runs) && AllPassed(s.runs))
      && (s.state == Red <==> AllDone(all, head, s.runs) && !AllPassed(s.runs))
  {
    SetState(collate, all, InGroup(all, key));
    HeadRunMeans(SetOf(collate, all, InGroup(all, key)).runs);
    forall r ensures r in SetOf(collate, all, InGroup(all, key)).runs <==> Decides(all, key, r) {
      SetRuns(collate, all, key, r);
    }
  }

  // ---- the loops of checkSets -------------------------------------------------

  /** byId: one pass over the active and recent rows. */
  method MergeCopies(copies: seq<Run>) returns (byId: map<int, Run>)
    ensures byId == ById(InChecks, copies)
  {
    byId := map[];
    for k := 0 to |copies|
      invariant byId == ById(InChecks, copies[..k])
    {
      assert copies[..k + 1][..k] == copies[..k];
      var r := copies[k];
      byId := byId[r.id := if r.id in byId then Latest(byId[r.id], r) else r];
    }
    assert copies[..|copies|] == copies;
  }

  /** heads and newestInPR: one pass over the rows in id order, later rows overwriting. */
  method ReadPRs(all: seq<Run>) returns (heads: map<(string, int), string>, newest: map<(string, int, string), int>)
    ensures forall repo, pr :: Lookup(heads, (repo, pr)) == PrHead(all, repo, pr)
    ensures AscendingIds(all) ==> HeadsRight(all, heads)
    ensures forall repo, pr, w :: Lookup(newest, (repo, pr, w)) == NewestInPR(all, repo, pr, w)
  {
    heads, newest := map[], map[];
    for k := 0 to |all|
      invariant forall repo, pr :: Lookup(heads, (repo, pr)) == PrHead(all[..k], repo, pr)
      invariant forall repo, pr, w :: Lookup(newest, (repo, pr, w)) == NewestInPR(all[..k], repo, pr, w)
    {
      assert all[..k + 1][..k] == all[..k];
      var r := all[k];
      if r.prNumber.None? {
        continue;
      }
      if r.prHead.GetOr("") != "" {
        heads := heads[(r.repo, r.prNumber.value) := r.prHead.value];
      }
      newest := newest[(r.repo, r.prNumber.value, r.workflow.GetOr("")) := r.id];
    }
    assert all[..|all|] == all;
    if AscendingIds(all) {
      forall repo, pr, h {:trigger HeadRight(all, heads, repo, pr, h)} ensures HeadRight(all, heads, repo, pr, h) {
        HeadMeans(all, repo, pr);
        assert Lookup(heads, (repo, pr)) == PrHead(all, repo, pr);
      }
    }
  }

  /** The map holds exactly the heads that the PRs' newest rows to name one name. */
  ghost predicate HeadsRight(all: seq<Run>, heads: map<(string, int), string>) {
    forall repo, pr, h :: HeadRight(all, heads, repo, pr, h)
  }

  ghost predicate HeadRight(all: seq<Run>, heads: map<(string, int), string>, repo: string, pr: int, h: string) {
    (repo, pr) in heads && heads[(repo, pr)] == h <==>
      exists r | r in all :: NewestToNameHead(all, repo, pr, r) && r.prHead == Some(h)
  }
}
