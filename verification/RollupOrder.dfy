/**
 When the order of a run's copies decides which of them counts (latest of
 dashboard/lib/checks.js, newerRun of dashboard/lib/github.js, folded over the
 copies as they come).
 */
module RollupOrder {
  import opened Wrappers
  import opened Rollup

  // ---- one run's copies -------------------------------------------------------

  /** The copies of one run, and the rows of all others, in their order. */
  function Own(rows: seq<Run>, id: int): seq<Run> {
    if rows == [] then []
    else
      var own := Own(rows[..|rows| - 1], id);
      if rows[|rows| - 1].id == id then own + [rows[|rows| - 1]] else own
  }

  function Drop(rows: seq<Run>, id: int): seq<Run> {
    if rows == [] then []
    else
      var others := Drop(rows[..|rows| - 1], id);
      if rows[|rows| - 1].id == id then others else others + [rows[|rows| - 1]]
  }

  /** The copies of one run, folded in their order. */
  function Fold(rule: Rule, copies: seq<Run>): (r: Run)
    requires copies != []
    ensures r in copies
  {
    if |copies| == 1 then copies[0] else Choose(rule, Fold(rule, copies[..|copies| - 1]), copies[|copies| - 1])
  }

  function Kept(rule: Rule, own: seq<Run>): Option<Run> {
    if own == [] then None else Some(Fold(rule, own))
  }

  lemma OwnSnoc(rows: seq<Run>, r: Run, id: int)
    ensures Own(rows + [r], id) == if r.id == id then Own(rows, id) + [r] else Own(rows, id)
  {
    assert (rows + [r])[..|rows|] == rows;
  }

  lemma FoldSnoc(rule: Rule, copies: seq<Run>, c: Run)
    ensures Fold(rule, copies + [c]) == if copies == [] then c else Choose(rule, Fold(rule, copies), c)
  {
    assert (copies + [c])[..|copies|] == copies;
  }

  lemma {:induction false} OwnAppend(xs: seq<Run>, ys: seq<Run>, id: int)
    ensures Own(xs + ys, id) == Own(xs, id) + Own(ys, id)
  {
    if ys == [] {
      assert xs + ys == xs;
    } else {
      var init, last := ys[..|ys| - 1], ys[|ys| - 1];
      OwnAppend(xs, init, id);
      assert (Own(xs, id) + Own(init, id)) + [last] == Own(xs, id) + (Own(init, id) + [last]);
      assert xs + ys == (xs + init) + [last];
      OwnSnoc(xs + init, last, id);
    }
  }

  /** What is kept of a run depends on its own copies alone. */
  lemma {:induction false} KeptOf(rule: Rule, copies: seq<Run>, id: int)
    ensures Lookup(ById(rule, copies), id) == Kept(rule, Own(copies, id))
  {
    if copies != [] {
      var init := copies[..|copies| - 1];
      KeptOf(rule, init, id);
      FoldSnoc(rule, Own(init, id), copies[|copies| - 1]);
    }
  }

  lemma {:induction false} OwnOfRest(rows: seq<Run>, gone: int, id: int)
    ensures Own(Drop(rows, gone), id) == if id == gone then [] else Own(rows, id)
  {
    if rows != [] {
      var init, last := rows[..|rows| - 1], rows[|rows| - 1];
      OwnOfRest(init, gone, id);
      OwnSnoc(Drop(init, gone), last, id);
    }
  }

  lemma {:induction false} OwnHolds(rows: seq<Run>, id: int)
    ensures forall c :: c in Own(rows, id) <==> c in rows && c.id == id
  {
    if rows != [] {
      OwnHolds(rows[..|rows| - 1], id);
      assert rows == rows[..|rows| - 1] + [rows[|rows| - 1]];
    }
  }

  /** Taking out the copies of a run leaves the others, each as often as before. */
  lemma {:induction false} OwnAndRest(rows: seq<Run>, id: int)
    ensures multiset(Own(rows, id)) + multiset(Drop(rows, id)) == multiset(rows)
  {
    if rows != [] {
      OwnAndRest(rows[..|rows| - 1], id);
      assert rows == rows[..|rows| - 1] + [rows[|rows| - 1]];
    }
  }

  lemma {:induction false} OwnOfOwn(rows: seq<Run>, id: int)
    requires forall c | c in rows :: c.id == id
    ensures Own(rows, id) == rows
    ensures forall other | other != id :: Own(rows, other) == []
  {
    if rows != [] {
      OwnOfOwn(rows[..|rows| - 1], id);
      assert rows == rows[..|rows| - 1] + [rows[|rows| - 1]];
    }
  }

  lemma SameLooks(a: map<int, Run>, b: map<int, Run>)
    requires forall id: int :: Lookup(a, id) == Lookup(b, id)
    ensures a == b
  {
    forall id ensures id in a <==> id in b {
      assert Lookup(a, id) == Lookup(b, id);
    }
    forall id | id in a ensures a[id] == b[id] {
      assert Lookup(a, id) == Lookup(b, id);
    }
  }

  // ---- the copy that counts, whatever the order ---------------------------------

  /** The attempts do not tell two copies apart, so their updates have to. */
  predicate ByUpdate(rule: Rule, x: Run, y: Run) {
    match rule
    case InChecks => x.runAttempt.None? || y.runAttempt.None? || x.runAttempt == y.runAttempt
    case InPages => x.runAttempt.GetOr(0) == y.runAttempt.GetOr(0)
  }

  /** A copy that is kept against the other on either side. */
  predicate Outranks(rule: Rule, x: Run, y: Run) {
    || x == y
    || if ByUpdate(rule, x, y) then x.updatedAt.GetOr(0) > y.updatedAt.GetOr(0)
       else x.runAttempt.GetOr(0) > y.runAttempt.GetOr(0)
  }

  lemma OutranksMeans(rule: Rule, x: Run, y: Run)
    ensures Outranks(rule, x, y) <==> Choose(rule, x, y) == x && Choose(rule, y, x) == x
  {
  }

  /** One of the copies outranks every other. */
  predicate HasWinner(rule: Rule, copies: seq<Run>) {
    exists x | x in copies :: forall y | y in copies :: Outranks(rule, x, y)
  }

  lemma {:induction false} WinnerIsKept(rule: Rule, copies: seq<Run>, x: Run)
    requires x in copies && forall y | y in copies :: Outranks(rule, x, y)
    ensures Fold(rule, copies) == x
  {
    if |copies| > 1 {
      var init, last := copies[..|copies| - 1], copies[|copies| - 1];
      assert copies == init + [last];
      if x in init {
        WinnerIsKept(rule, init, x);
        OutranksMeans(rule, x, last);
      } else {
        OutranksMeans(rule, x, Fold(rule, init));
      }
    }
  }

  /** A first copy that is kept against everything after it. */
  lemma {:induction false} FirstIsKept(rule: Rule, y: Run, rest: seq<Run>)
    requires forall c | c in rest :: Choose(rule, y, c) == y
    ensures Fold(rule, [y] + rest) == y
  {
    if rest != [] {
      var init, last := rest[..|rest| - 1], rest[|rest| - 1];
      assert rest == init + [last] && [y] + rest == ([y] + init) + [last];
      FirstIsKept(rule, y, init);
      FoldSnoc(rule, [y] + init, last);
    }
  }

  lemma {:induction false} FoldStays(rule: Rule, front: seq<Run>, rest: seq<Run>)
    requires front != []
    ensures Fold(rule, front + rest) == Fold(rule, front) || Fold(rule, front + rest) in rest
  {
    if rest == [] {
      assert front + rest == front;
    } else {
      var init, last := rest[..|rest| - 1], rest[|rest| - 1];
      assert rest == init + [last] && front + rest == (front + init) + [last];
      FoldStays(rule, front, init);
      FoldSnoc(rule, front + init, last);
    }
  }

  /** The copies equal to w, and those that are not. */
  function Equals(copies: seq<Run>, w: Run): (e: seq<Run>)
    ensures forall c :: c in e <==> c in copies && c == w
  {
    if copies == [] then [] else (if copies[0] == w then [w] else []) + Equals(copies[1..], w)
  }

  function Others(copies: seq<Run>, w: Run): (o: seq<Run>)
    ensures forall c :: c in o <==> c in copies && c != w
    ensures multiset(Equals(copies, w)) + multiset(o) == multiset(copies)
  {
    if copies == [] then []
    else
      assert copies == [copies[0]] + copies[1..];
      (if copies[0] == w then [] else [copies[0]]) + Others(copies[1..], w)
  }

  /** However the copies are listed, the same one is kept. */
  ghost predicate KeepsOne(rule: Rule, own: seq<Run>) {
    own != [] && forall ys: seq<Run> | multiset(ys) == multiset(own) :: Kept(rule, ys) == Some(Fold(rule, own))
  }

  lemma Listed(xs: seq<Run>, ys: seq<Run>)
    requires multiset(xs) == multiset(ys)
    ensures |xs| == |ys| && forall c :: c in xs <==> c in ys
  {
    assert |multiset(xs)| == |multiset(ys)|;
    forall c ensures c in xs <==> c in ys {
      assert c in multiset(xs) <==> c in multiset(ys);
    }
  }

  /** The copy always kept holds against another put last. */
  lemma KeptAgainstLast(rule: Rule, own: seq<Run>, rest: seq<Run>, y: Run)
    requires KeepsOne(rule, own) && multiset(rest + [y]) == multiset(own) && Fold(rule, own) != y
    ensures Choose(rule, Fold(rule, own), y) == Fold(rule, own)
  {
    assert Kept(rule, rest + [y]) == Some(Fold(rule, own));
    FoldSnoc(rule, rest, y);
  }

  lemma Relisted(rest: seq<Run>, y: Run, w: Run)
    ensures multiset(([y] + Equals(rest, w)) + Others(rest, w)) == multiset(rest + [y])
  {
  }

  lemma KeptInListing(rule: Rule, own: seq<Run>, ys: seq<Run>)
    requires KeepsOne(rule, own) && multiset(ys) == multiset(own)
    ensures ys != [] && Fold(rule, ys) == Fold(rule, own)
  {
    assert Kept(rule, ys) == Some(Fold(rule, own));
  }

  lemma FirstStays(rule: Rule, y: Run, w: Run, rest: seq<Run>)
    requires w != y && Choose(rule, y, w) == y
    ensures Fold(rule, ([y] + Equals(rest, w)) + Others(rest, w)) != w
  {
    FirstIsKept(rule, y, Equals(rest, w));
    FoldStays(rule, [y] + Equals(rest, w), Others(rest, w));
  }

  /** And against another put before it. */
  lemma KeptAfterFirst(rule: Rule, own: seq<Run>, rest: seq<Run>, y: Run)
    requires KeepsOne(rule, own) && multiset(rest + [y]) == multiset(own) && Fold(rule, own) != y
    ensures Choose(rule, y, Fold(rule, own)) == Fold(rule, own)
  {
    var w := Fold(rule, own);
    Relisted(rest, y, w);
    KeptInListing(rule, own, ([y] + Equals(rest, w)) + Others(rest, w));
    if Choose(rule, y, w) != w {
      FirstStays(rule, y, w, rest);
    }
  }

  lemma KeptOutranks(rule: Rule, own: seq<Run>, i: nat)
    requires KeepsOne(rule, own) && i < |own|
    ensures Outranks(rule, Fold(rule, own), own[i])
  {
    var rest := own[..i] + own[i + 1..];
    assert own == own[..i] + [own[i]] + own[i + 1..];
    assert multiset(rest + [own[i]]) == multiset(own);
    if Fold(rule, own) != own[i] {
      KeptAgainstLast(rule, own, rest, own[i]);
      KeptAfterFirst(rule, own, rest, own[i]);
      OutranksMeans(rule, Fold(rule, own), own[i]);
    }
  }

  /** Which copy of a run is kept does not depend on their order exactly when one outranks all others. */
  lemma KeepsOneIff(rule: Rule, own: seq<Run>)
    requires own != []
    ensures KeepsOne(rule, own) <==> HasWinner(rule, own)
  {
    if HasWinner(rule, own) {
      var x :| x in own && forall y | y in own :: Outranks(rule, x, y);
      WinnerIsKept(rule, own, x);
      forall ys: seq<Run> | multiset(ys) == multiset(own) ensures Kept(rule, ys) == Some(x) {
        Listed(ys, own);
        WinnerIsKept(rule, ys, x);
      }
    }
    if KeepsOne(rule, own) {
      var w := Fold(rule, own);
      forall y | y in own ensures Outranks(rule, w, y) {
        var i :| 0 <= i < |own| && own[i] == y;
        KeptOutranks(rule, own, i);
      }
    }
  }

  // ---- many runs ------------------------------------------------------------------

  /** Every run has a copy that outranks its others. */
  predicate Winners(rule: Rule, copies: seq<Run>) {
    forall c | c in copies :: HasWinner(rule, Own(copies, c.id))
  }

  lemma SomeListed(xs: seq<Run>)
    requires xs != []
    ensures exists c :: c in xs
  {
    assert xs[0] in xs;
  }

  /** Two listings of the same copies come to the same rows. */
  lemma OrderDoesNotMatter(rule: Rule, xs: seq<Run>, ys: seq<Run>)
    requires Winners(rule, xs) && forall c :: c in xs <==> c in ys
    ensures ById(rule, xs) == ById(rule, ys)
  {
    forall id: int ensures Lookup(ById(rule, xs), id) == Lookup(ById(rule, ys), id) {
      KeptOf(rule, xs, id);
      KeptOf(rule, ys, id);
      OwnHolds(xs, id);
      OwnHolds(ys, id);
      var own, again := Own(xs, id), Own(ys, id);
      assert forall c :: c in own <==> c in again;
      if again != [] {
        SomeListed(again);
      }
      if own != [] {
        assert own[0] in xs && own[0].id == id;
        var x :| x in own && forall y | y in own :: Outranks(rule, x, y);
        WinnerIsKept(rule, own, x);
        assert x in again;
        WinnerIsKept(rule, again, x);
      }
    }
    SameLooks(ById(rule, xs), ById(rule, ys));
  }

  /** Listed in any order, the copies come to the same rows. */
  ghost predicate OrderFree(rule: Rule, copies: seq<Run>) {
    forall ys: seq<Run> | multiset(ys) == multiset(copies) :: ById(rule, ys) == ById(rule, copies)
  }

  /** One run's copies put first, in another order. */
  lemma OrderShows(rule: Rule, copies: seq<Run>, id: int, own: seq<Run>)
    requires OrderFree(rule, copies)
    requires multiset(own) == multiset(Own(copies, id))
    ensures Kept(rule, own) == Kept(rule, Own(copies, id))
  {
    var rest := Drop(copies, id);
    OwnAndRest(copies, id);
    assert multiset(own + rest) == multiset(copies);
    assert ById(rule, own + rest) == ById(rule, copies);
    Listed(own, Own(copies, id));
    OwnHolds(copies, id);
    OwnOfOwn(own, id);
    OwnAppend(own, rest, id);
    OwnOfRest(copies, id, id);
    assert Own(own + rest, id) == own;
    KeptOf(rule, own + rest, id);
    KeptOf(rule, copies, id);
  }

  lemma OrderFreeRun(rule: Rule, copies: seq<Run>, c: Run)
    requires OrderFree(rule, copies) && c in copies
    ensures HasWinner(rule, Own(copies, c.id))
  {
    var own := Own(copies, c.id);
    OwnHolds(copies, c.id);
    assert c in own;
    forall ys: seq<Run> | multiset(ys) == multiset(own) ensures Kept(rule, ys) == Some(Fold(rule, own)) {
      OrderShows(rule, copies, c.id, ys);
    }
    KeepsOneIff(rule, own);
  }

  /**
   The rows do not depend on the order the copies arrive in exactly when each run
   has a copy that outranks all its others.
   */
  lemma OrderDoesNotMatterIff(rule: Rule, copies: seq<Run>)
    ensures OrderFree(rule, copies) <==> Winners(rule, copies)
  {
    if Winners(rule, copies) {
      forall ys: seq<Run> | multiset(ys) == multiset(copies) ensures ById(rule, ys) == ById(rule, copies) {
        Listed(ys, copies);
        OrderDoesNotMatter(rule, copies, ys);
      }
    }
    if OrderFree(rule, copies) {
      forall c | c in copies ensures HasWinner(rule, Own(copies, c.id)) {
        OrderFreeRun(rule, copies, c);
      }
    }
  }

  /** With attempts present and no ties there is one: the latest copy. */
  lemma RankedHasWinners(rule: Rule, copies: seq<Run>)
    requires Ranked(rule, copies)
    ensures Winners(rule, copies)
  {
    LatestCopyWins(rule, copies);
    ByIdHoldsCopies(rule, copies);
    forall c | c in copies ensures HasWinner(rule, Own(copies, c.id)) {
      OwnHolds(copies, c.id);
      var x := ById(rule, copies)[c.id];
      assert x in Own(copies, c.id);
      forall y | y in Own(copies, c.id) ensures Outranks(rule, x, y) {
        assert x == y || Earlier(y, x);
      }
    }
  }

  lemma Three(rule: Rule, a: Run, b: Run, c: Run)
    requires a.id == b.id == c.id
    ensures ById(rule, [a, b, c]) == map[a.id := Choose(rule, Choose(rule, a, b), c)]
  {
    var none: seq<Run> := [];
    assert [a, b, c][..2] == [a, b] && [a, b][..1] == [a] && [a][..0] == none;
    assert ById(rule, none) == map[];
    assert ById(rule, [a]) == map[a.id := a];
    assert ById(rule, [a, b]) == map[a.id := Choose(rule, a, b)];
  }

  /** With an attempt missing there may be none: the same three copies, listed twice. */
  lemma MissingAttemptsDependOnOrder(a: Run, b: Run, c: Run)
    requires a.id == b.id == c.id
    requires a.runAttempt == Some(3) && b.runAttempt == None && c.runAttempt == Some(2)
    requires a.updatedAt == Some(1) && b.updatedAt == Some(2) && c.updatedAt == Some(3)
    ensures ById(InChecks, [a, b, c]) == map[a.id := c]
    ensures ById(InChecks, [b, c, a]) == map[a.id := a]
  {
    Three(InChecks, a, b, c);
    Three(InChecks, b, c, a);
  }

  /** The answers of a page of copies, in whatever order they arrived. */
  lemma RollupIgnoresOrder(collate: string -> int, xs: seq<Run>, ys: seq<Run>)
    requires Winners(InChecks, xs) && forall c :: c in xs <==> c in ys
    ensures CheckSets(collate, xs) == CheckSets(collate, ys)
  {
    OrderDoesNotMatter(InChecks, xs, ys);
  }
}
