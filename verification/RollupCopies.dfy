/**
 Where the copies of a run come from: pages of GitHub's answers (mergeRunPages,
 dashboard/lib/github.js) and fresher rows laid over the fleet's view (overlay,
 dashboard/lib/checks.js).
 */
module RollupCopies {
  import opened Wrappers
  import opened Rollup
  import opened RollupOrder

  function Flatten(pages: seq<seq<Run>>): seq<Run> {
    if pages == [] then [] else Flatten(pages[..|pages| - 1]) + pages[|pages| - 1]
  }

  /**
   mergeRunPages: the map whose values are handed on. Each run is there once, as
   the latest of its copies, in whatever order pages and copies came.
   */
  method MergeRunPages(pages: seq<seq<Run>>) returns (byId: map<int, Run>)
    ensures byId == ById(InPages, Flatten(pages))
    ensures NoTies(Flatten(pages)) ==>
      forall c | c in Flatten(pages) :: c.id in byId && (byId[c.id] == c || Earlier(c, byId[c.id]))
  {
    byId := map[];
    for p := 0 to |pages|
      invariant byId == ById(InPages, Flatten(pages[..p]))
    {
      assert pages[..p + 1][..p] == pages[..p];
      var page := pages[p];
      ghost var before := Flatten(pages[..p]);
      assert before + page[..0] == before;
      for k := 0 to |page|
        invariant byId == ById(InPages, before + page[..k])
      {
        var run := page[k];
        ghost var sofar := before + page[..k];
        assert before + page[..k + 1] == sofar + [run];
        assert (sofar + [run])[..|sofar|] == sofar;
        byId := byId[run.id := if run.id in byId then NewerRun(byId[run.id], run) else run];
      }
      assert before + page[..|page|] == before + page == Flatten(pages[..p + 1]);
    }
    assert pages[..|pages|] == pages;
    if NoTies(Flatten(pages)) {
      LatestCopyWins(InPages, Flatten(pages));
    }
  }

  // ---- overlay ---------------------------------------------------------------

  /** The two lists of a fleet view. */
  datatype View = View(runs: seq<Run>, recent: seq<Run>) {
    function Copies(): seq<Run> {
      runs + recent
    }
  }

  /** One fresher row over the view: the first copy held or the row, whichever is later, and no other copy. */
  function LayOver(g: View, f: Run): View {
    var row := LaidRow(g, f);
    var runs, recent := Drop(g.runs, f.id), Drop(g.recent, f.id);
    if IsActive(row) then View(runs + [row], recent) else View(runs, [row] + recent)
  }

  /** A laid row stands last among the unfinished runs, or first among the recent ones, in place of any copy of it. */
  lemma LaidWhere(g: View, f: Run)
    ensures var row, g' := LaidRow(g, f), LayOver(g, f);
      && (forall r :: r in g'.runs <==> (r in g.runs && r.id != f.id) || (r == row && !row.completed))
      && (forall r :: r in g'.recent <==> (r in g.recent && r.id != f.id) || (r == row && row.completed))
      && (if row.completed then g'.recent != [] && g'.recent[0] == row
          else g'.runs != [] && g'.runs[|g'.runs| - 1] == row)
  {
    DropHolds(g.runs, f.id);
    DropHolds(g.recent, f.id);
  }

  lemma {:induction false} DropHolds(rows: seq<Run>, id: int)
    ensures forall r :: r in Drop(rows, id) <==> r in rows && r.id != id
  {
    if rows != [] {
      DropHolds(rows[..|rows| - 1], id);
      assert rows == rows[..|rows| - 1] + [rows[|rows| - 1]];
    }
  }

  function Overlay(g: View, rows: seq<Run>): View {
    if rows == [] then g else LayOver(Overlay(g, rows[..|rows| - 1]), rows[|rows| - 1])
  }

  /** The row laid over the view: the later of the first copy held and the fresher row. */
  function LaidRow(g: View, f: Run): Run {
    LaidCopy(Own(g.Copies(), f.id), f)
  }

  function LaidCopy(held: seq<Run>, f: Run): Run {
    if held != [] then Latest(held[0], f) else f
  }

  lemma LaidCopies(g: View, f: Run, id: int)
    ensures Own(LayOver(g, f).Copies(), id) == if id != f.id then Own(g.Copies(), id) else [LaidRow(g, f)]
  {
    var row := LaidRow(g, f);
    OwnHolds(g.Copies(), f.id);
    OwnOfRest(g.runs, f.id, id);
    OwnOfRest(g.recent, f.id, id);
    OwnAppend(g.runs, g.recent, id);
    LaidBetween(Drop(g.runs, f.id), row, Drop(g.recent, f.id), id);
  }

  lemma LaidBetween(runs: seq<Run>, row: Run, recent: seq<Run>, id: int)
    ensures var mid := if row.id == id then Own(runs, id) + [row] else Own(runs, id);
      && Own((runs + [row]) + recent, id) == mid + Own(recent, id)
      && Own(runs + ([row] + recent), id) == mid + Own(recent, id)
  {
    OwnSnoc(runs, row, id);
    OwnAppend(runs + [row], recent, id);
    assert runs + ([row] + recent) == (runs + [row]) + recent;
  }

  /** The first copy the view holds of a run, if any. */
  function First(own: seq<Run>): seq<Run> {
    if own == [] then [] else [own[0]]
  }

  /** What an overlay leaves of the copies held of a run: all without a fresher row of it, else one. */
  function Overlaid(own: seq<Run>, fresher: seq<Run>): seq<Run> {
    if fresher == [] then own else [Fold(InChecks, First(own) + fresher)]
  }

  lemma OverlaidSnoc(own: seq<Run>, fresher: seq<Run>, f: Run)
    ensures Overlaid(own, fresher + [f]) == [LaidCopy(Overlaid(own, fresher), f)]
  {
    assert First(own) + (fresher + [f]) == (First(own) + fresher) + [f];
    FoldSnoc(InChecks, First(own) + fresher, f);
    assert fresher == [] ==> First(own) + fresher == First(own);
  }

  /** The copy left is the first one held and the fresher rows, folded in their order. */
  lemma {:induction false} OverlaidCopies(g: View, rows: seq<Run>, id: int)
    ensures Own(Overlay(g, rows).Copies(), id) == Overlaid(Own(g.Copies(), id), Own(rows, id))
  {
    if rows != [] {
      var init, f := rows[..|rows| - 1], rows[|rows| - 1];
      OverlaidCopies(g, init, id);
      LaidCopies(Overlay(g, init), f, id);
      if f.id == id {
        OverlaidSnoc(Own(g.Copies(), id), Own(init, id), f);
      }
    }
  }

  /** Whether the overlay keeps of a run what listing the rows after the view would. */
  lemma OverlaidKept(g: View, rows: seq<Run>, id: int)
    ensures var own, fresher := Own(g.Copies(), id), Own(rows, id);
      && (Lookup(ById(InChecks, Overlay(g, rows).Copies()), id) == Lookup(ById(InChecks, g.Copies() + rows), id)
          <==> fresher == [] || Fold(InChecks, First(own) + fresher) == Fold(InChecks, own + fresher))
  {
    OverlaidCopies(g, rows, id);
    KeptOf(InChecks, Overlay(g, rows).Copies(), id);
    KeptOf(InChecks, g.Copies() + rows, id);
    OwnAppend(g.Copies(), rows, id);
    assert Own(rows, id) == [] ==> Own(g.Copies(), id) + Own(rows, id) == Own(g.Copies(), id);
  }

  /**
   Laying fresher rows over a view that holds each of those runs at most once is the
   same, for the rollup, as listing them after it: GitHub's answer about a re-run
   stays in force until the fleet's view catches up, and no longer.
   */
  lemma OverlayIsLatest(g: View, rows: seq<Run>)
    requires forall f | f in rows :: |Own(g.Copies(), f.id)| <= 1
    ensures ById(InChecks, Overlay(g, rows).Copies()) == ById(InChecks, g.Copies() + rows)
  {
    var a, b := ById(InChecks, Overlay(g, rows).Copies()), ById(InChecks, g.Copies() + rows);
    forall id: int ensures Lookup(a, id) == Lookup(b, id) {
      OverlaidKept(g, rows, id);
      OwnHolds(rows, id);
      if Own(rows, id) != [] {
        assert Own(rows, id)[0] in rows && Own(rows, id)[0].id == id;
        assert First(Own(g.Copies(), id)) == Own(g.Copies(), id);
      }
    }
    SameLooks(a, b);
  }

  /** The copy kept of a run's copies, when they can be told apart, is the latest. */
  lemma FoldIsLatest(own: seq<Run>, c: Run)
    requires own != [] && Ranked(InChecks, own) && (forall x | x in own :: x.id == own[0].id) && c in own
    ensures Fold(InChecks, own) == c || Earlier(c, Fold(InChecks, own))
  {
    LatestCopyWins(InChecks, own);
    KeptOf(InChecks, own, c.id);
    OwnOfOwn(own, c.id);
  }

  /** Some copy held is later than the first one held and than every fresher row. */
  predicate HoldsLater(own: seq<Run>, fresher: seq<Run>) {
    exists c | c in own :: Earlier(own[0], c) && forall f | f in fresher :: Earlier(f, c)
  }

  /** The latest of the copies. */
  predicate IsLatest(x: Run, copies: seq<Run>) {
    x in copies && forall c | c in copies :: x == c || Earlier(c, x)
  }

  lemma FoldsLatest(own: seq<Run>)
    requires own != [] && Ranked(InChecks, own) && forall x | x in own :: x.id == own[0].id
    ensures IsLatest(Fold(InChecks, own), own)
  {
    forall c | c in own ensures Fold(InChecks, own) == c || Earlier(c, Fold(InChecks, own)) {
      FoldIsLatest(own, c);
    }
  }

  /** Of the latest of all and the latest of some: they differ exactly when the copies left out held a later one. */
  lemma LatestOfSome(own: seq<Run>, fresher: seq<Run>, best: Run, some: Run)
    requires fresher != [] && IsLatest(best, own + fresher) && IsLatest(some, First(own) + fresher)
    ensures some == best <==> !HoldsLater(own, fresher)
  {
    forall c | c in First(own) + fresher ensures c in own + fresher {
    }
    if some != best {
      assert some in own + fresher;
      assert Earlier(some, best);
      assert best !in First(own) + fresher;
      assert best in own;
      assert own[0] in First(own) + fresher;
      assert HoldsLater(own, fresher);
    } else {
      forall c | c in own ensures !(Earlier(own[0], c) && forall f | f in fresher :: Earlier(f, c)) {
        assert c in own + fresher;
      }
    }
  }

  lemma FirstSuffices(own: seq<Run>, fresher: seq<Run>)
    requires fresher != [] && Ranked(InChecks, own + fresher)
    requires forall x | x in own + fresher :: x.id == fresher[0].id
    ensures Fold(InChecks, First(own) + fresher) == Fold(InChecks, own + fresher) <==> !HoldsLater(own, fresher)
  {
    forall c | c in First(own) + fresher ensures c in own + fresher {
    }
    FoldsLatest(First(own) + fresher);
    FoldsLatest(own + fresher);
    LatestOfSome(own, fresher, Fold(InChecks, own + fresher), Fold(InChecks, First(own) + fresher));
  }

  /**
   With attempts present and no ties, an overlay gives the rollup what listing the
   rows after the view would exactly when the view holds, of each of those runs, no
   copy later than both the first copy held and the fresher rows.
   */
  lemma OverlayIsLatestIff(g: View, rows: seq<Run>)
    requires Ranked(InChecks, g.Copies() + rows)
    ensures ById(InChecks, Overlay(g, rows).Copies()) == ById(InChecks, g.Copies() + rows)
       <==> forall f | f in rows :: !HoldsLater(Own(g.Copies(), f.id), Own(rows, f.id))
  {
    var a, b := ById(InChecks, Overlay(g, rows).Copies()), ById(InChecks, g.Copies() + rows);
    forall id: int
      ensures Lookup(a, id) == Lookup(b, id)
         <==> Own(rows, id) == [] || !HoldsLater(Own(g.Copies(), id), Own(rows, id))
    {
      OverlaidKept(g, rows, id);
      OwnHolds(g.Copies(), id);
      OwnHolds(rows, id);
      if Own(rows, id) != [] {
        FirstSuffices(Own(g.Copies(), id), Own(rows, id));
      }
    }
    forall f | f in rows ensures Own(rows, f.id) != [] {
      OwnHolds(rows, f.id);
    }
    if forall f | f in rows :: !HoldsLater(Own(g.Copies(), f.id), Own(rows, f.id)) {
      forall id: int ensures Lookup(a, id) == Lookup(b, id) {
        OwnHolds(rows, id);
        if Own(rows, id) != [] {
          assert Own(rows, id)[0] in rows && Own(rows, id)[0].id == id;
        }
      }
      SameLooks(a, b);
    }
  }

  /** A view that holds a run twice, active and recent: the fresher row hides the later copy. */
  lemma OverlayCanLoseALaterCopy(one: Run, two: Run, three: Run)
    requires one.id == two.id == three.id
    requires one.runAttempt == Some(1) && two.runAttempt == Some(2) && three.runAttempt == Some(3)
    ensures var g := View([one], [three]);
      && Lookup(ById(InChecks, g.Copies() + [two]), one.id) == Some(three)
      && Lookup(ById(InChecks, Overlay(g, [two]).Copies()), one.id) == Some(two)
  {
    var g, id := View([one], [three]), one.id;
    assert g.Copies() == [one, three] && g.Copies() + [two] == [one, three, two];
    Three(InChecks, one, three, two);
    OwnOfOwn([one, three], id);
    OwnOfOwn([two], id);
    OverlaidCopies(g, [two], id);
    assert First([one, three]) + [two] == [one] + [two];
    FoldSnoc(InChecks, [one], two);
    KeptOf(InChecks, Overlay(g, [two]).Copies(), id);
  }
}
