/**
 What a listing of check sets holds, and in what order (checkSets of
 dashboard/lib/checks.js): which copy stands for a run, which runs make a set,
 which sets are listed and which comes first.
 */
module RollupListing {
  import opened Wrappers
  import opened Text
  import opened Rollup

  // ---- the copy that stands for a run -------------------------------------------

  /** Of the copies of a run, number i is the latest, and the first listed of equally late ones. */
  ghost predicate FirstLatest(copies: seq<Run>, i: nat)
    requires i < |copies|
  {
    forall j | 0 <= j < |copies| && copies[j].id == copies[i].id && j != i ::
      if j < i then Earlier(copies[j], copies[i]) else !Earlier(copies[i], copies[j])
  }

  /** Where attempts are told, and always among pages, a run is kept as that copy. */
  lemma {:induction false} KeptCopy(rule: Rule, copies: seq<Run>, id: int) returns (i: nat)
    requires rule == InChecks ==> AttemptsPresent(copies)
    requires id in ById(rule, copies)
    ensures i < |copies| && copies[i].id == id && FirstLatest(copies, i) && ById(rule, copies)[id] == copies[i]
  {
    var init, last := copies[..|copies| - 1], copies[|copies| - 1];
    assert copies == init + [last];
    if id !in ById(rule, init) {
      ByIdHoldsCopies(rule, init);
      i := |copies| - 1;
      forall j | 0 <= j < |init| ensures copies[j].id != id {
        assert init[j] in init;
      }
    } else {
      var k := KeptCopy(rule, init, id);
      assert init[k] == copies[k] && forall j | 0 <= j < |init| :: init[j] == copies[j];
      assert init[k] in copies && last in copies;
      i := if last.id == id && Earlier(init[k], last) then |copies| - 1 else k;
    }
  }

  /** Where one copy does not tell its attempt, or both tell the same, the later update is kept, of equals the first. */
  lemma LatestMeans(a: Run, b: Run)
    ensures Latest(a, b) ==
      if a.runAttempt.Some? && b.runAttempt.Some? && a.runAttempt.value < b.runAttempt.value then b
      else if a.runAttempt.Some? && b.runAttempt.Some? && b.runAttempt.value < a.runAttempt.value then a
      else if a.updatedAt.GetOr(0) < b.updatedAt.GetOr(0) then b else a
  {
  }

  lemma RowIsLatest(copies: seq<Run>, r: Run)
    requires AttemptsPresent(copies)
    ensures r in AllRuns(copies) <==> exists i | 0 <= i < |copies| :: copies[i] == r && FirstLatest(copies, i)
  {
    ByIdHoldsCopies(InChecks, copies);
    if r.id in ById(InChecks, copies) {
      var k := KeptCopy(InChecks, copies, r.id);
      if i :| 0 <= i < |copies| && copies[i] == r && FirstLatest(copies, i) {
        assert i == k;
      }
    }
  }

  /** There is one row for each run that was listed, one of its copies; where attempts are told, the latest. */
  lemma AllRunsMean(copies: seq<Run>, r: Run)
    ensures r in AllRuns(copies) ==> r in copies
    ensures r in copies ==> exists x | x in AllRuns(copies) :: x.id == r.id
    ensures AttemptsPresent(copies) ==>
      (r in AllRuns(copies) <==> exists i | 0 <= i < |copies| :: copies[i] == r && FirstLatest(copies, i))
  {
    var m := ById(InChecks, copies);
    ByIdHoldsCopies(InChecks, copies);
    if r in copies {
      assert m[r.id] in AllRuns(copies);
    }
    if AttemptsPresent(copies) {
      RowIsLatest(copies, r);
    }
  }

  // ---- the runs of a set ------------------------------------------------------------

  /** Runs with a commit are one group by repository and commit, those without by branch, else each alone. */
  lemma GroupsMean(a: Run, b: Run)
    ensures a.sha.Some? && b.sha.Some? ==> (GroupOf(a) == GroupOf(b) <==> a.repo == b.repo && a.sha == b.sha)
    ensures a.sha.None? && b.sha.None? && a.branch.Some? && b.branch.Some? ==>
      (GroupOf(a) == GroupOf(b) <==> a.repo == b.repo && a.branch == b.branch)
    ensures a.sha.None? && b.sha.None? && a.branch.None? && b.branch.None? ==>
      (GroupOf(a) == GroupOf(b) <==> a.repo == b.repo && a.id == b.id)
  {
    if IntText(a.id) == IntText(b.id) {
      SameInt(a.id, b.id);
    }
  }

  /** Named runs are of one workflow by name, unnamed ones each of its own. */
  lemma WorkflowsMean(a: Run, b: Run)
    ensures a.workflow.Some? && b.workflow.Some? ==> (WorkflowKey(a) == WorkflowKey(b) <==> a.workflow == b.workflow)
    ensures a.workflow.None? && b.workflow.None? ==> (WorkflowKey(a) == WorkflowKey(b) <==> a.id == b.id)
  {
    if IntText(a.id) == IntText(b.id) {
      SameInt(a.id, b.id);
    }
  }

  lemma {:induction false} NoSign(n: nat)
    ensures IntText(n) != "" && IntText(n)[0] != '-'
  {
    if n >= 10 {
      NoSign(n / 10);
    }
  }

  lemma SameInt(a: int, b: int)
    requires IntText(a) == IntText(b)
    ensures a == b
  {
    var x: nat, y: nat := if a < 0 then -a else a, if b < 0 then -b else b;
    NoSign(x);
    NoSign(y);
    assert IntText(a)[0] == IntText(b)[0];
    assert a < 0 ==> IntText(a) == "-" + IntText(x) && IntText(a)[1..] == IntText(x);
    assert b < 0 ==> IntText(b) == "-" + IntText(y) && IntText(b)[1..] == IntText(y);
    SameIntText(x, y);
  }

  predicate Named(collate: string -> int, name: int, r: Run) {
    collate(r.workflow.GetOr("")) == name
  }

  function OfName(collate: string -> int, name: int): Run -> bool {
    (r: Run) => Named(collate, name, r)
  }

  ghost predicate ByName(collate: string -> int, rows: seq<Run>) {
    forall i, j | 0 <= i < j < |rows| :: collate(rows[i].workflow.GetOr("")) <= collate(rows[j].workflow.GetOr(""))
  }

  lemma {:induction false} InsertedByName(collate: string -> int, r: Run, rows: seq<Run>)
    requires ByName(collate, rows)
    ensures ByName(collate, InsertByName(collate, r, rows))
  {
    if rows != [] && collate(r.workflow.GetOr("")) > collate(rows[0].workflow.GetOr("")) {
      var rest := InsertByName(collate, r, rows[1..]);
      InsertedByName(collate, r, rows[1..]);
      forall i | 0 <= i < |rest|
        ensures collate(rows[0].workflow.GetOr("")) <= collate(rest[i].workflow.GetOr(""))
      {
        assert rest[i] in rest;
      }
    }
  }

  lemma PickStep(r: Run, rows: seq<Run>, p: Run -> bool)
    ensures Pick([r] + rows, p) == (if p(r) then [r] else []) + Pick(rows, p)
  {
    assert ([r] + rows)[1..] == rows;
  }

  /** Of two runs of different names the order does not tell in the list of either. */
  lemma PickPast(a: Run, b: Run, rows: seq<Run>, p: Run -> bool)
    requires !(p(a) && p(b))
    ensures Pick([a] + ([b] + rows), p) == Pick([b] + ([a] + rows), p)
  {
    PickStep(a, [b] + rows, p);
    PickStep(b, rows, p);
    PickStep(b, [a] + rows, p);
    PickStep(a, rows, p);
  }

  lemma {:induction false} InsertedInPlace(collate: string -> int, r: Run, rows: seq<Run>, name: int)
    ensures Pick(InsertByName(collate, r, rows), OfName(collate, name)) == Pick([r] + rows, OfName(collate, name))
  {
    var p := OfName(collate, name);
    if rows != [] && collate(r.workflow.GetOr("")) > collate(rows[0].workflow.GetOr("")) {
      InsertedInPlace(collate, r, rows[1..], name);
      PickStep(rows[0], InsertByName(collate, r, rows[1..]), p);
      PickStep(rows[0], [r] + rows[1..], p);
      PickPast(rows[0], r, rows[1..], p);
      assert rows == [rows[0]] + rows[1..];
    }
  }

  /** The runs of a set are listed by their names, those of one name as they first appeared. */
  lemma {:induction false} RunsByName(collate: string -> int, rows: seq<Run>, name: int)
    ensures ByName(collate, SortByName(collate, rows))
    ensures Pick(SortByName(collate, rows), OfName(collate, name)) == Pick(rows, OfName(collate, name))
  {
    if rows != [] {
      RunsByName(collate, rows[1..], name);
      InsertedByName(collate, rows[0], SortByName(collate, rows[1..]));
      InsertedInPlace(collate, rows[0], SortByName(collate, rows[1..]), name);
      PickStep(rows[0], SortByName(collate, rows[1..]), OfName(collate, name));
    }
  }

  // ---- the listing --------------------------------------------------------------------

  /** Set a has to come before set b: a is pending and b is not, or both or neither and a was updated later. */
  ghost predicate Precedes(a: CheckSet, b: CheckSet) {
    if a.state == Pending then b.state != Pending || NewestUpdate(a.runs) > NewestUpdate(b.runs)
    else b.state != Pending && NewestUpdate(a.runs) > NewestUpdate(b.runs)
  }

  ghost predicate InOrder(ss: seq<CheckSet>) {
    forall i, j | 0 <= i < j < |ss| :: !Precedes(ss[j], ss[i])
  }

  /** A set of the rank of s: neither has to come before the other. */
  predicate Level(s: CheckSet, x: CheckSet) {
    (s.state == Pending <==> x.state == Pending) && NewestUpdate(s.runs) == NewestUpdate(x.runs)
  }

  function LevelOf(ss: seq<CheckSet>, s: CheckSet): seq<CheckSet> {
    if ss == [] then [] else (if Level(s, ss[0]) then [ss[0]] else []) + LevelOf(ss[1..], s)
  }

  lemma OrderedAfter(a: CheckSet, ss: seq<CheckSet>)
    requires InOrder(ss) && forall x | x in ss :: !Precedes(x, a)
    ensures InOrder([a] + ss)
  {
    forall j | 0 <= j < |ss| ensures !Precedes(ss[j], a) {
      assert ss[j] in ss;
    }
  }

  lemma FirstLeads(a: CheckSet, ss: seq<CheckSet>, x: CheckSet)
    requires InOrder([a] + ss) && x in ss
    ensures !Precedes(x, a)
  {
    var j :| 0 <= j < |ss| && ss[j] == x;
    assert ([a] + ss)[j + 1] == x && !Precedes(([a] + ss)[j + 1], ([a] + ss)[0]);
  }

  lemma {:induction false} InsertedInOrder(x: CheckSet, ss: seq<CheckSet>)
    requires PendingFirst(ss) && InOrder(ss)
    ensures InOrder(InsertSet(x, ss))
  {
    if ss == [] {
      OrderedAfter(x, ss);
    } else {
      assert [ss[0]] + ss[1..] == ss;
      forall y | y in ss[1..] ensures !Precedes(y, ss[0]) {
        FirstLeads(ss[0], ss[1..], y);
      }
      if ListedBefore(x, ss[0]) {
        OrderedAfter(x, ss);
      } else {
        InsertedInOrder(x, ss[1..]);
        OrderedAfter(ss[0], InsertSet(x, ss[1..]));
      }
    }
  }

  lemma {:induction false} InsertedOnce(x: CheckSet, ss: seq<CheckSet>)
    requires PendingFirst(ss)
    ensures multiset(InsertSet(x, ss)) == multiset(ss) + multiset{x}
  {
    if ss != [] && !ListedBefore(x, ss[0]) {
      assert ss == [ss[0]] + ss[1..];
      InsertedOnce(x, ss[1..]);
    }
  }

  lemma LevelStep(x: CheckSet, ss: seq<CheckSet>, s: CheckSet)
    ensures LevelOf([x] + ss, s) == (if Level(s, x) then [x] else []) + LevelOf(ss, s)
  {
    assert ([x] + ss)[1..] == ss;
  }

  lemma NotLevel(x: CheckSet, y: CheckSet, s: CheckSet)
    requires !ListedBefore(x, y)
    ensures !(Level(s, x) && Level(s, y))
  {
  }

  lemma {:induction false} InsertedLevel(x: CheckSet, ss: seq<CheckSet>, s: CheckSet)
    requires PendingFirst(ss)
    ensures LevelOf(InsertSet(x, ss), s) == (if Level(s, x) then [x] else []) + LevelOf(ss, s)
  {
    if ss == [] || ListedBefore(x, ss[0]) {
      LevelStep(x, ss, s);
    } else {
      LevelStep(ss[0], InsertSet(x, ss[1..]), s);
      InsertedLevel(x, ss[1..], s);
      NotLevel(x, ss[0], s);
    }
  }

  /** The sort loses and repeats nothing, and leaves sets of one rank as they were. */
  lemma {:induction false} SortKeeps(ss: seq<CheckSet>, s: CheckSet)
    ensures multiset(SortSets(ss)) == multiset(ss) && LevelOf(SortSets(ss), s) == LevelOf(ss, s)
  {
    if ss != [] {
      SortKeeps(ss[1..], s);
      InsertedOnce(ss[0], SortSets(ss[1..]));
      InsertedLevel(ss[0], SortSets(ss[1..]), s);
      assert ss == [ss[0]] + ss[1..];
    }
  }

  lemma {:induction false} SortedInOrder(ss: seq<CheckSet>)
    ensures InOrder(SortSets(ss))
  {
    if ss != [] {
      SortedInOrder(ss[1..]);
      InsertedInOrder(ss[0], SortSets(ss[1..]));
    }
  }

  ghost predicate Apart(keys: seq<(string, string)>) {
    forall i, j | 0 <= i < j < |keys| :: keys[i] != keys[j]
  }

  lemma ApartMore(keys: seq<(string, string)>, key: (string, string))
    requires Apart(keys) && key !in keys
    ensures Apart(keys + [key])
  {
  }

  /** Each group once, and only groups of rows there are. */
  lemma {:induction false} KeysMean(all: seq<Run>)
    ensures Apart(GroupKeys(all))
    ensures forall k :: k in GroupKeys(all) <==> exists r | r in all :: GroupOf(r) == k
  {
    if all != [] {
      var init, last := all[..|all| - 1], all[|all| - 1];
      assert all == init + [last];
      KeysMean(init);
      var ks := GroupKeys(init);
      if GroupOf(last) !in ks {
        ApartMore(ks, GroupOf(last));
      }
      forall k ensures k in GroupKeys(all) <==> exists r | r in all :: GroupOf(r) == k {
        assert k in GroupKeys(all) <==> k in ks || k == GroupOf(last);
        assert (exists r | r in all :: GroupOf(r) == k)
          <==> (exists r | r in init :: GroupOf(r) == k) || GroupOf(last) == k;
      }
    }
  }

  /** A set is the rollup of the rows of r's group. */
  ghost predicate RollsUp(collate: string -> int, all: seq<Run>, s: CheckSet, r: Run) {
    InGroup(all, GroupOf(r)) != [] && s == SetOf(collate, all, InGroup(all, GroupOf(r)))
  }

  lemma ListedHasRow(collate: string -> int, all: seq<Run>, i: nat) returns (r: Run)
    requires i < |GroupKeys(all)|
    ensures r in all && RollsUp(collate, all, SetsOf(collate, all, GroupKeys(all))[i], r)
  {
    var keys := GroupKeys(all);
    KeysMean(all);
    assert keys[i] in keys;
    r :| r in all && GroupOf(r) == keys[i];
  }

  lemma RowIsListed(collate: string -> int, all: seq<Run>, s: CheckSet, r: Run)
    requires r in all && RollsUp(collate, all, s, r)
    ensures s in SetsOf(collate, all, GroupKeys(all))
  {
    var keys := GroupKeys(all);
    assert GroupOf(r) in keys;
    var i :| 0 <= i < |keys| && keys[i] == GroupOf(r);
    assert SetsOf(collate, all, keys)[i] == s;
  }

  lemma ListedAre(collate: string -> int, all: seq<Run>, s: CheckSet)
    ensures s in SetsOf(collate, all, GroupKeys(all)) <==> exists r | r in all :: RollsUp(collate, all, s, r)
  {
    var ss := SetsOf(collate, all, GroupKeys(all));
    if s in ss {
      var i: nat :| 0 <= i < |ss| && ss[i] == s;
      var r := ListedHasRow(collate, all, i);
    }
    if r :| r in all && RollsUp(collate, all, s, r) {
      RowIsListed(collate, all, s, r);
    }
  }

  lemma ListedOnce(collate: string -> int, copies: seq<Run>)
    ensures var all := AllRuns(copies);
      multiset(CheckSets(collate, copies)) == multiset(SetsOf(collate, all, GroupKeys(all))) && Apart(GroupKeys(all))
    ensures InOrder(CheckSets(collate, copies))
  {
    var all := AllRuns(copies);
    var ss := SetsOf(collate, all, GroupKeys(all));
    KeysMean(all);
    SortedInOrder(ss);
    if ss != [] {
      SortKeeps(ss, ss[0]);
    }
  }

  /**
   The listing. Of every commit with a row the rollup is listed, and nothing else,
   each once; pending sets first, then those whose runs were updated last.
   */
  lemma ListingMeans(collate: string -> int, copies: seq<Run>, s: CheckSet)
    ensures InOrder(CheckSets(collate, copies))
    ensures |CheckSets(collate, copies)| == |GroupKeys(AllRuns(copies))| && Apart(GroupKeys(AllRuns(copies)))
    ensures s in CheckSets(collate, copies)
       <==> exists r | r in AllRuns(copies) :: RollsUp(collate, AllRuns(copies), s, r)
  {
    var all := AllRuns(copies);
    ListedOnce(collate, copies);
    ListedAre(collate, all, s);
    assert |multiset(CheckSets(collate, copies))| == |multiset(SetsOf(collate, all, GroupKeys(all)))|;
  }
}
