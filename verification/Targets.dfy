/**
 Which commit a caller means, and what its checks say of it: findCheckSet and
 decide of dashboard/lib/checks.js.
 */
module Targets {
  import opened Wrappers
  import opened Text
  import opened Rollup
  import opened RollupCopies

  /** head is the head as GitHub names it now, when it is known. */
  datatype Target = Target(repo: string, pr: Option<int>, sha: Option<string>, branch: Option<string>,
      head: Option<string>)

  /** hopeless tells, of the set found, whether the fleet's own state makes waiting for it pointless. */
  datatype Glance = Glance(view: View, stale: bool, hopeless: Option<CheckSet> -> bool)

  datatype Said = SaysGreen | SaysRed | SaysPending | SaysPointless

  datatype Decision = Decision(state: Said, found: Option<CheckSet>)

  predicate Named(head: Option<string>) {
    head.GetOr("") != ""
  }

  predicate Matches(t: Target, s: CheckSet) {
    && SameRepo(s.repo, t.repo)
    && (t.pr.None? || s.prNumber == t.pr)
    && (t.sha.None? || SameCommit(t.sha, s.sha))
    && (t.branch.None? || s.branch == t.branch)
  }

  /** The first set that matches and is of the commit, when one is asked for. */
  function FirstMatch(ss: seq<CheckSet>, t: Target, commit: Option<string>): (r: Option<CheckSet>)
    ensures r.Some? ==> r.value in ss && Wanted(t, commit, r.value)
    ensures r.None? ==> forall s | s in ss :: !Wanted(t, commit, s)
  {
    if ss == [] then None
    else if Wanted(t, commit, ss[0]) then Some(ss[0])
    else
      assert ss == [ss[0]] + ss[1..];
      FirstMatch(ss[1..], t, commit)
  }

  predicate Wanted(t: Target, commit: Option<string>, s: CheckSet) {
    Matches(t, s) && (commit.Some? ==> SameCommit(commit, s.sha))
  }

  /** The row of the PR with the greatest id that names a head, the first of equals. */
  function NewestNaming(rows: seq<Run>, repo: string, pr: int): (r: Option<Run>)
    ensures r.Some? ==> r.value in rows && Names(r.value, repo, pr)
    ensures r.Some? ==> forall x | x in rows && Names(x, repo, pr) :: x.id <= r.value.id
    ensures r.None? ==> forall x | x in rows :: !Names(x, repo, pr)
  {
    if rows == [] then None
    else
      var init, last := rows[..|rows| - 1], rows[|rows| - 1];
      assert rows == init + [last];
      var best := NewestNaming(init, repo, pr);
      if Names(last, repo, pr) && (best.None? || best.value.id < last.id) then Some(last) else best
  }

  predicate Names(r: Run, repo: string, pr: int) {
    SameRepo(r.repo, repo) && r.prNumber == Some(pr) && Named(r.prHead)
  }

  function MaxId(rows: seq<Run>): (m: int)
    ensures forall r | r in rows :: r.id <= m
    ensures rows != [] ==> exists r | r in rows :: r.id == m
  {
    if rows == [] then 0
    else if |rows| == 1 then rows[0].id
    else
      var rest := MaxId(rows[1..]);
      assert rows == [rows[0]] + rows[1..];
      if rest < rows[0].id then rows[0].id else rest
  }

  /** The matching set with the newest run, the first of equals. */
  function NewestMatch(ss: seq<CheckSet>, t: Target): (r: Option<CheckSet>)
    ensures r.Some? ==> r.value in ss && Matches(t, r.value)
    ensures r.Some? ==> forall s | s in ss && Matches(t, s) :: MaxId(s.runs) <= MaxId(r.value.runs)
    ensures r.None? ==> forall s | s in ss :: !Matches(t, s)
  {
    if ss == [] then None
    else
      var init, last := ss[..|ss| - 1], ss[|ss| - 1];
      assert ss == init + [last];
      var best := NewestMatch(init, t);
      if Matches(t, last) && (best.None? || MaxId(best.value.runs) < MaxId(last.runs)) then Some(last) else best
  }

  /** findCheckSet: the head's set when the head is known, never another commit's. */
  function FindCheckSet(collate: string -> int, view: View, t: Target): (r: Option<CheckSet>)
    ensures r.Some? ==> r.value in CheckSets(collate, view.Copies()) && Matches(t, r.value)
    ensures r.Some? && Named(t.head) ==> SameCommit(t.head, r.value.sha)
  {
    var sets := CheckSets(collate, view.Copies());
    if Named(t.head) then FirstMatch(sets, t, t.head)
    else if t.pr.None? then FirstMatch(sets, t, None)
    else
      var withHead := NewestNaming(view.Copies(), t.repo, t.pr.value);
      if withHead.Some? then FirstMatch(sets, t, withHead.value.prHead) else NewestMatch(sets, t)
  }

  /** decide: a finished result beats whatever the fleet's state says of waiting. */
  function Decide(collate: string -> int, g: Glance, fresher: seq<Run>, t: Target): Decision {
    DecideOn(g, FindCheckSet(collate, Overlay(g.view, fresher), t))
  }

  function DecideOn(g: Glance, found: Option<CheckSet>): (d: Decision)
    ensures d.found == found
    ensures d.state == SaysGreen ==> found.Some? && found.value.state == Green
    ensures d.state == SaysRed ==> found.Some? && found.value.state == Red
    ensures d.state == SaysPointless ==> g.hopeless(found)
  {
    if found.Some? && found.value.state == Green then Decision(SaysGreen, found)
    else if found.Some? && found.value.state == Red then Decision(SaysRed, found)
    else if g.hopeless(found) then Decision(SaysPointless, found)
    else Decision(SaysPending, found)
  }

  /** All four answers, exactly: a finished rollup first, then whether waiting is pointless. */
  lemma DecisionMeans(collate: string -> int, g: Glance, fresher: seq<Run>, t: Target)
    ensures var found := FindCheckSet(collate, Overlay(g.view, fresher), t);
      Decide(collate, g, fresher, t) == Decision(
        if found.Some? && found.value.state == Green then SaysGreen
        else if found.Some? && found.value.state == Red then SaysRed
        else if g.hopeless(found) then SaysPointless
        else SaysPending, found)
  {
  }

  /** The first match is settled only when every match is. */
  lemma {:induction false} SettledMeansAll(ss: seq<CheckSet>, t: Target, commit: Option<string>)
    requires PendingFirst(ss) && FirstMatch(ss, t, commit).Some? && FirstMatch(ss, t, commit).value.state != Pending
    ensures forall s | s in ss && Wanted(t, commit, s) :: s.state != Pending
  {
    if Wanted(t, commit, ss[0]) {
      forall s | s in ss && Wanted(t, commit, s) ensures s.state != Pending {
        var i :| 0 <= i < |ss| && ss[i] == s;
      }
    } else {
      assert PendingFirst(ss[1..]);
      SettledMeansAll(ss[1..], t, commit);
      assert ss == [ss[0]] + ss[1..];
    }
  }

  /** The commit whose checks are asked for: the head named, else the one the PR's newest row names. */
  function CommitAsked(view: View, t: Target): Option<string> {
    if Named(t.head) then t.head
    else if t.pr.None? then None
    else
      var withHead := NewestNaming(view.Copies(), t.repo, t.pr.value);
      if withHead.Some? then withHead.value.prHead else None
  }

  /** The commit is known: no set stands in for it. */
  predicate CommitKnown(view: View, t: Target) {
    Named(t.head) || t.pr.None? || NewestNaming(view.Copies(), t.repo, t.pr.value).Some?
  }

  /** The set is of the repository, PR, commit and branch asked for, as far as these are given. */
  ghost predicate IsAskedFor(t: Target, commit: Option<string>, s: CheckSet) {
    && Lower(s.repo) == Lower(t.repo)
    && (t.pr.Some? ==> s.prNumber == t.pr)
    && (t.sha.Some? ==> SameCommit(t.sha, s.sha))
    && (t.branch.Some? ==> s.branch == t.branch)
    && (commit.Some? ==> SameCommit(commit, s.sha))
  }

  /** Set i is the first listed that is asked for. */
  ghost predicate FirstAskedFor(ss: seq<CheckSet>, t: Target, commit: Option<string>, i: nat) {
    && i < |ss| && IsAskedFor(t, commit, ss[i])
    && forall j | 0 <= j < i :: !IsAskedFor(t, commit, ss[j])
  }

  lemma {:induction false} FirstMatchIs(ss: seq<CheckSet>, t: Target, commit: Option<string>) returns (i: nat)
    requires FirstMatch(ss, t, commit).Some?
    ensures FirstAskedFor(ss, t, commit, i) && FirstMatch(ss, t, commit) == Some(ss[i])
  {
    if Wanted(t, commit, ss[0]) {
      i := 0;
    } else {
      i := FirstMatchIs(ss[1..], t, commit);
      i := i + 1;
    }
  }

  /** What is found is the first set asked for, and nothing only if there is none. */
  ghost predicate FoundFirst(ss: seq<CheckSet>, t: Target, commit: Option<string>, found: Option<CheckSet>) {
    match found
    case Some(s) => exists i: nat :: FirstAskedFor(ss, t, commit, i) && ss[i] == s
    case None => forall s | s in ss :: !IsAskedFor(t, commit, s)
  }

  lemma FirstMatchMeans(ss: seq<CheckSet>, t: Target, commit: Option<string>)
    ensures FoundFirst(ss, t, commit, FirstMatch(ss, t, commit))
  {
    if FirstMatch(ss, t, commit).Some? {
      var i := FirstMatchIs(ss, t, commit);
    } else {
      forall s | s in ss ensures !IsAskedFor(t, commit, s) {
        assert !Wanted(t, commit, s);
      }
    }
  }

  /**
   Where the commit is known, a set is found exactly when one listed is asked for, and
   then the first such: never an older commit's.
   */
  lemma FoundMeans(collate: string -> int, view: View, t: Target)
    requires CommitKnown(view, t)
    ensures FoundFirst(CheckSets(collate, view.Copies()), t, CommitAsked(view, t), FindCheckSet(collate, view, t))
  {
    FirstMatchMeans(CheckSets(collate, view.Copies()), t, CommitAsked(view, t));
  }

  /** Of the sets asked for, the first with the newest run. */
  ghost predicate NewestAskedFor(ss: seq<CheckSet>, t: Target, i: nat) {
    && i < |ss| && IsAskedFor(t, None, ss[i])
    && forall j | 0 <= j < |ss| && IsAskedFor(t, None, ss[j]) ::
         if j < i then MaxId(ss[j].runs) < MaxId(ss[i].runs) else MaxId(ss[j].runs) <= MaxId(ss[i].runs)
  }

  lemma AskedForMatches(t: Target, s: CheckSet)
    ensures IsAskedFor(t, None, s) <==> Matches(t, s)
  {
  }

  lemma NewestOfMore(ss: seq<CheckSet>, t: Target, k: nat)
    requires ss != [] && NewestAskedFor(ss[..|ss| - 1], t, k)
    ensures NewestAskedFor(ss, t,
              if Matches(t, ss[|ss| - 1]) && MaxId(ss[k].runs) < MaxId(ss[|ss| - 1].runs) then |ss| - 1 else k)
  {
    AskedForMatches(t, ss[|ss| - 1]);
    forall j | 0 <= j < |ss| - 1 && IsAskedFor(t, None, ss[j])
      ensures if j < k then MaxId(ss[j].runs) < MaxId(ss[k].runs) else MaxId(ss[j].runs) <= MaxId(ss[k].runs)
    {
      assert ss[..|ss| - 1][j] == ss[j];
    }
  }

  lemma {:induction false} NewestMatchIs(ss: seq<CheckSet>, t: Target) returns (i: nat)
    requires NewestMatch(ss, t).Some?
    ensures NewestAskedFor(ss, t, i) && NewestMatch(ss, t) == Some(ss[i])
  {
    var init, n := ss[..|ss| - 1], |ss| - 1;
    if NewestMatch(init, t).Some? {
      var k := NewestMatchIs(init, t);
      NewestOfMore(ss, t, k);
      i := if Matches(t, ss[n]) && MaxId(ss[k].runs) < MaxId(ss[n].runs) then n else k;
    } else {
      i := n;
      AskedForMatches(t, ss[n]);
      forall j | 0 <= j < n ensures !IsAskedFor(t, None, ss[j]) {
        assert init[j] in init;
        AskedForMatches(t, ss[j]);
      }
    }
  }

  ghost predicate FoundNewest(ss: seq<CheckSet>, t: Target, found: Option<CheckSet>) {
    match found
    case Some(s) => exists i: nat :: NewestAskedFor(ss, t, i) && ss[i] == s
    case None => forall s | s in ss :: !IsAskedFor(t, None, s)
  }

  lemma NewestMatchMeans(ss: seq<CheckSet>, t: Target)
    ensures FoundNewest(ss, t, NewestMatch(ss, t))
  {
    if NewestMatch(ss, t).Some? {
      var i := NewestMatchIs(ss, t);
    } else {
      forall s | s in ss ensures !IsAskedFor(t, None, s) {
        assert !Matches(t, s);
      }
    }
  }

  /** Where no row of the PR names a head, the commit with the newest run stands in for it. */
  lemma StandInMeans(collate: string -> int, view: View, t: Target)
    requires !CommitKnown(view, t)
    ensures FoundNewest(CheckSets(collate, view.Copies()), t, FindCheckSet(collate, view, t))
  {
    NewestMatchMeans(CheckSets(collate, view.Copies()), t);
  }

  /** The row a PR's head is read from: of those that name one, that with the greatest id, the first of equals. */
  ghost predicate NamesTheHead(rows: seq<Run>, repo: string, pr: int, i: nat) {
    && i < |rows| && Lower(rows[i].repo) == Lower(repo) && rows[i].prNumber == Some(pr)
    && rows[i].prHead.Some? && rows[i].prHead.value != ""
    && forall j | 0 <= j < |rows| && Lower(rows[j].repo) == Lower(repo) && rows[j].prNumber == Some(pr)
         && rows[j].prHead.Some? && rows[j].prHead.value != "" ::
         if j < i then rows[j].id < rows[i].id else rows[j].id <= rows[i].id
  }

  lemma {:induction false} NamingRow(rows: seq<Run>, repo: string, pr: int) returns (i: nat)
    requires NewestNaming(rows, repo, pr).Some?
    ensures NamesTheHead(rows, repo, pr, i) && NewestNaming(rows, repo, pr) == Some(rows[i])
  {
    var init, n := rows[..|rows| - 1], |rows| - 1;
    assert forall j | 0 <= j < n :: init[j] == rows[j];
    if NewestNaming(init, repo, pr).Some? {
      var k := NamingRow(init, repo, pr);
      i := if Names(rows[n], repo, pr) && rows[k].id < rows[n].id then n else k;
    } else {
      i := n;
      forall j | 0 <= j < n ensures !Names(rows[j], repo, pr) {
        assert init[j] in init;
      }
    }
  }

  /** Which commit is asked for: the head named, else, of a PR, the one its newest row to name a head names. */
  lemma CommitMeans(view: View, t: Target)
    ensures t.head.Some? && t.head.value != "" ==> CommitKnown(view, t) && CommitAsked(view, t) == t.head
    ensures t.head.GetOr("") == "" && t.pr.None? ==> CommitKnown(view, t) && CommitAsked(view, t) == None
    ensures t.head.GetOr("") == "" && t.pr.Some? && CommitKnown(view, t) ==>
      exists i: nat :: NamesTheHead(view.Copies(), t.repo, t.pr.value, i)
        && CommitAsked(view, t) == view.Copies()[i].prHead
    ensures t.head.GetOr("") == "" && t.pr.Some? && !CommitKnown(view, t) ==>
      forall i: nat :: !NamesTheHead(view.Copies(), t.repo, t.pr.value, i)
  {
    if t.pr.Some? && NewestNaming(view.Copies(), t.repo, t.pr.value).Some? {
      var i := NamingRow(view.Copies(), t.repo, t.pr.value);
    } else if t.pr.Some? {
      forall i: nat | i < |view.Copies()| ensures !NamesTheHead(view.Copies(), t.repo, t.pr.value, i) {
        assert !Names(view.Copies()[i], t.repo, t.pr.value);
      }
    }
  }

  /**
   A settled answer about a commit hides no set of that commit still pending: the
   same commit may be listed twice, under shas of different lengths.
   */
  lemma SettledHidesNoPending(collate: string -> int, view: View, t: Target)
    requires CommitKnown(view, t)
    requires var found := FindCheckSet(collate, view, t); found.Some? && found.value.state != Pending
    ensures forall s | s in CheckSets(collate, view.Copies())
      && Wanted(t, CommitAsked(view, t), s) :: s.state != Pending
  {
    SettledMeansAll(CheckSets(collate, view.Copies()), t, CommitAsked(view, t));
  }

  /** Every set listed is the rollup of one commit's rows. */
  lemma ListedIsRollup(collate: string -> int, copies: seq<Run>, s: CheckSet) returns (key: (string, string))
    requires s in CheckSets(collate, copies)
    ensures InGroup(AllRuns(copies), key) != [] && s == SetOf(collate, AllRuns(copies), InGroup(AllRuns(copies), key))
  {
    var all := AllRuns(copies);
    var keys := GroupKeys(all);
    var ss := SetsOf(collate, all, keys);
    assert s in ss;
    var i :| 0 <= i < |ss| && ss[i] == s;
    key := keys[i];
  }

  /** Every run the set shows finished and passed. */
  predicate AllRunsPassed(s: CheckSet) {
    s.runs != [] && forall r | r in s.runs :: r.completed && Passed(r.conclusion)
  }

  /** The fleet's green and red about a commit, in terms of its runs. */
  lemma SettledMeans(collate: string -> int, copies: seq<Run>, s: CheckSet)
    requires s in CheckSets(collate, copies)
    ensures s.state == Green ==> AllRunsPassed(s)
    ensures s.state == Red ==> (forall r | r in s.runs :: r.completed) && exists r | r in s.runs :: Failed(r)
  {
    var key := ListedIsRollup(collate, copies, s);
    SetMeans(collate, AllRuns(copies), key);
  }
}
