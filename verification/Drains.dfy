/**
 When a drain that did not hold is put back: drainsToReassert of
 dashboard/lib/host-switch.js.
 */
module Drains {
  import opened Wrappers

  datatype DrainState = Draining | Drained

  datatype Runner = Runner(name: string, dirName: string, drainState: Option<DrainState>, drainBy: Option<string>,
      running: bool, working: bool)

  datatype Due = Due(name: string, dirName: string, owner: Option<string>)

  datatype Watch = Watch(since: int, actedAt: Option<int>)

  // ---- drains that did not hold ------------------------------------------------------

  /** Drained, yet its service runs, and no job it is finishing explains that. */
  predicate Slipped(r: Runner) {
    r.dirName != "" && r.drainState.Some? && r.running && !(r.drainState == Some(Draining) && r.working)
  }

  /** It slipped long enough ago, and was not drained again too recently. */
  predicate IsDue(w: Watch, now: int, graceMs: int, retryMs: int) {
    now - w.since >= graceMs && (w.actedAt.None? || now - w.actedAt.value >= retryMs)
  }

  /** One look at one runner. */
  function Looked(before: Option<Watch>, slipped: bool, now: int, graceMs: int, retryMs: int): (Option<Watch>, bool) {
    if !slipped then (None, false)
    else
      var w := before.GetOr(Watch(now, None));
      if IsDue(w, now, graceMs, retryMs) then (Some(w.(actedAt := Some(now))), true) else (Some(w), false)
  }

  predicate DirsApart(runners: seq<Runner>) {
    forall i, j | 0 <= i < j < |runners| && runners[i].dirName != "" :: runners[i].dirName != runners[j].dirName
  }

  /** One look at a host. */
  datatype Visit = Visit(now: int, runners: seq<Runner>)

  /** What is seen and due of each runner depends on that runner alone, and nothing unlisted is remembered or due. */
  ghost predicate Reports(v: Visit, seen: map<string, Watch>, due: seq<Due>, next: map<string, Watch>, graceMs: int,
      retryMs: int)
  {
    && (forall r | r in v.runners ::
          var (w, isDue) := Looked(Lookup(seen, r.dirName), Slipped(r), v.now, graceMs, retryMs);
          Lookup(next, r.dirName) == w && (isDue <==> Due(r.name, r.dirName, r.drainBy) in due))
    && (forall dir | dir in next :: exists r | r in v.runners :: r.dirName == dir)
    && (forall d | d in due :: exists r | r in v.runners :: Slipped(r) && d == Due(r.name, r.dirName, r.drainBy))
  }

  /** drainsToReassert, for the runners of one host: each has a directory of its own, or none. */
  method DrainsToReassert(runners: seq<Runner>, now: int, seen: map<string, Watch>, graceMs: int, retryMs: int)
    returns (due: seq<Due>, next: map<string, Watch>)
    requires DirsApart(runners)
    ensures Reports(Visit(now, runners), seen, due, next, graceMs, retryMs)
  {
    next, due := map[], [];
    for i := 0 to |runners|
      invariant forall j | 0 <= j < i ::
        var (w, isDue) := Looked(Lookup(seen, runners[j].dirName), Slipped(runners[j]), now, graceMs, retryMs);
        Lookup(next, runners[j].dirName) == w
          && (isDue <==> Due(runners[j].name, runners[j].dirName, runners[j].drainBy) in due)
      invariant forall dir | dir in next :: exists j | 0 <= j < i :: runners[j].dirName == dir
      invariant forall d | d in due ::
        exists j | 0 <= j < i ::
          Slipped(runners[j]) && d == Due(runners[j].name, runners[j].dirName, runners[j].drainBy)
    {
      var r := runners[i];
      if r.dirName == "" || r.drainState.None? || !r.running {
        continue;
      }
      if r.drainState == Some(Draining) && r.working {
        continue;
      }
      var w := if r.dirName in seen then seen[r.dirName] else Watch(now, None);
      next := next[r.dirName := w];
      if now - w.since < graceMs {
        continue;
      }
      if w.actedAt.Some? && now - w.actedAt.value < retryMs {
        continue;
      }
      next := next[r.dirName := w.(actedAt := Some(now))];
      due := due + [Due(r.name, r.dirName, r.drainBy)];
    }
  }

  // ---- one runner over many looks ------------------------------------------------------

  datatype Glimpse = Glimpse(now: int, slipped: bool)

  function WatchAfter(h: seq<Glimpse>, n: nat, graceMs: int, retryMs: int): Option<Watch>
    requires n <= |h|
  {
    if n == 0 then None
      else Looked(WatchAfter(h, n - 1, graceMs, retryMs), h[n - 1].slipped, h[n - 1].now, graceMs, retryMs).0
  }

  /** The runner is drained again at look i. */
  predicate DueAt(h: seq<Glimpse>, i: nat, graceMs: int, retryMs: int) {
    i < |h| && Looked(WatchAfter(h, i, graceMs, retryMs), h[i].slipped, h[i].now, graceMs, retryMs).1
  }

  /** The first look of the unbroken episode that includes i. */
  function EpisodeFrom(h: seq<Glimpse>, i: nat): (g: nat)
    requires i < |h| && h[i].slipped
    ensures g <= i && (forall k | g <= k <= i :: h[k].slipped) && (g == 0 || !h[g - 1].slipped)
  {
    if i == 0 || !h[i - 1].slipped then i else EpisodeFrom(h, i - 1)
  }

  /** The last look of g..n that drained the runner again. */
  function LastDue(h: seq<Glimpse>, g: nat, n: nat, graceMs: int, retryMs: int): (j: Option<nat>)
    requires n <= |h|
    ensures j.Some? ==> g <= j.value < n && DueAt(h, j.value, graceMs, retryMs)
    ensures j.Some? ==> forall k: nat | j.value < k < n :: !DueAt(h, k, graceMs, retryMs)
    ensures j.None? ==> forall k: nat | g <= k < n :: !DueAt(h, k, graceMs, retryMs)
    decreases n
  {
    if n <= g then None
    else if DueAt(h, n - 1, graceMs, retryMs) then Some(n - 1)
    else LastDue(h, g, n - 1, graceMs, retryMs)
  }

  /** What is remembered: when the episode began, and when in it the runner was last drained again. */
  lemma {:induction false} WatchMeans(h: seq<Glimpse>, n: nat, graceMs: int, retryMs: int)
    requires 0 < n <= |h|
    ensures WatchAfter(h, n, graceMs, retryMs) ==
      if !h[n - 1].slipped then None
      else
        var g := EpisodeFrom(h, n - 1);
        var j := LastDue(h, g, n, graceMs, retryMs);
        Some(Watch(h[g].now, if j.Some? then Some(h[j.value].now) else None))
  {
    if n > 1 {
      WatchMeans(h, n - 1, graceMs, retryMs);
    }
    if h[n - 1].slipped {
      var g := EpisodeFrom(h, n - 1);
      assert LastDue(h, g, n, graceMs, retryMs)
        == if DueAt(h, n - 1, graceMs, retryMs) then Some(n - 1) else LastDue(h, g, n - 1, graceMs, retryMs);
    }
  }

  ghost predicate Forward(h: seq<Glimpse>) {
    forall i, j | 0 <= i < j < |h| :: h[i].now <= h[j].now
  }

  /** Every re-drain of looks g..i was at least the retry time before look i. */
  ghost predicate Spaced(h: seq<Glimpse>, g: nat, i: nat, graceMs: int, retryMs: int)
    requires i < |h|
  {
    forall j: nat | g <= j < i && DueAt(h, j, graceMs, retryMs) :: h[i].now - h[j].now >= retryMs
  }

  lemma LastDecides(h: seq<Glimpse>, g: nat, i: nat, graceMs: int, retryMs: int)
    requires i < |h| && Forward(h)
    ensures var last := LastDue(h, g, i, graceMs, retryMs);
      Spaced(h, g, i, graceMs, retryMs) <==> last.None? || h[i].now - h[last.value].now >= retryMs
  {
    var last := LastDue(h, g, i, graceMs, retryMs);
    forall j: nat | g <= j < i && DueAt(h, j, graceMs, retryMs) ensures last.Some? && h[j].now <= h[last.value].now {
      if last.Some? && j < last.value {
        assert h[j].now <= h[last.value].now;
      }
    }
  }

  lemma DueAtFirst(h: seq<Glimpse>, i: nat, graceMs: int, retryMs: int)
    requires i < |h| && h[i].slipped && EpisodeFrom(h, i) == i
    ensures DueAt(h, i, graceMs, retryMs) <==> 0 >= graceMs
  {
    if i > 0 {
      WatchMeans(h, i, graceMs, retryMs);
    }
  }

  lemma DueLater(h: seq<Glimpse>, i: nat, graceMs: int, retryMs: int)
    requires i < |h| && h[i].slipped && EpisodeFrom(h, i) < i
    ensures var g := EpisodeFrom(h, i);
      var last := LastDue(h, g, i, graceMs, retryMs);
      DueAt(h, i, graceMs, retryMs) <==>
        && h[i].now - h[g].now >= graceMs
        && (last.None? || h[i].now - h[last.value].now >= retryMs)
  {
    assert h[i - 1].slipped && EpisodeFrom(h, i) == EpisodeFrom(h, i - 1);
    WatchMeans(h, i, graceMs, retryMs);
  }

  /**
   Within an unbroken episode a runner is drained again exactly when the grace has
   passed since the episode began and the retry time since every re-drain in it.
   */
  lemma DueMeans(h: seq<Glimpse>, i: nat, graceMs: int, retryMs: int)
    requires i < |h| && Forward(h)
    ensures DueAt(h, i, graceMs, retryMs) <==>
      && h[i].slipped
      && h[i].now - h[EpisodeFrom(h, i)].now >= graceMs
      && Spaced(h, EpisodeFrom(h, i), i, graceMs, retryMs)
  {
    if h[i].slipped {
      if EpisodeFrom(h, i) == i {
        DueAtFirst(h, i, graceMs, retryMs);
      } else {
        DueLater(h, i, graceMs, retryMs);
        LastDecides(h, EpisodeFrom(h, i), i, graceMs, retryMs);
      }
    }
  }

  // ---- the runners of a host over many looks --------------------------------------------

  /** The runner in the directory is drained and runs, and is not one that still finishes its job. */
  ghost predicate Astray(v: Visit, dir: string) {
    exists r | r in v.runners ::
      && r.dirName == dir && dir != "" && r.running
      && (r.drainState == Some(Drained) || (r.drainState == Some(Draining) && !r.working))
  }

  /** Look after look, each with what the one before remembered. */
  ghost predicate Visits(vs: seq<Visit>, seen: seq<map<string, Watch>>, dues: seq<seq<Due>>, graceMs: int,
      retryMs: int)
  {
    && |seen| == |vs| + 1 && |dues| == |vs| && seen[0] == map[]
    && forall k | 0 <= k < |vs| ::
         DirsApart(vs[k].runners) && Reports(vs[k], seen[k], dues[k], seen[k + 1], graceMs, retryMs)
  }

  ghost function GlimpsesOf(vs: seq<Visit>, dir: string): (h: seq<Glimpse>)
    ensures |h| == |vs|
  {
    seq(|vs|, k requires 0 <= k < |vs| => Glimpse(vs[k].now, Astray(vs[k], dir)))
  }

  lemma SlippedIsAstray(v: Visit, r: Runner)
    requires DirsApart(v.runners) && r in v.runners
    ensures Slipped(r) <==> Astray(v, r.dirName)
  {
    forall x | x in v.runners && x.dirName == r.dirName && r.dirName != "" ensures x == r {
      var i :| 0 <= i < |v.runners| && v.runners[i] == x;
      var j :| 0 <= j < |v.runners| && v.runners[j] == r;
      assert i == j;
    }
    assert r.drainState.Some? ==> r.drainState.value == Drained || r.drainState.value == Draining;
  }

  lemma OneLook(v: Visit, seen: map<string, Watch>, due: seq<Due>, next: map<string, Watch>, graceMs: int,
      retryMs: int, dir: string)
    requires DirsApart(v.runners) && Reports(v, seen, due, next, graceMs, retryMs)
    ensures Lookup(next, dir) == Looked(Lookup(seen, dir), Astray(v, dir), v.now, graceMs, retryMs).0
  {
    if r :| r in v.runners && r.dirName == dir {
      SlippedIsAstray(v, r);
    }
  }

  lemma {:induction false} SeenIsWatch(vs: seq<Visit>, seen: seq<map<string, Watch>>, dues: seq<seq<Due>>,
      graceMs: int, retryMs: int, dir: string, n: nat)
    requires Visits(vs, seen, dues, graceMs, retryMs) && n <= |vs|
    ensures Lookup(seen[n], dir) == WatchAfter(GlimpsesOf(vs, dir), n, graceMs, retryMs)
  {
    if n > 0 {
      SeenIsWatch(vs, seen, dues, graceMs, retryMs, dir, n - 1);
      OneLook(vs[n - 1], seen[n - 1], dues[n - 1], seen[n - 1 + 1], graceMs, retryMs, dir);
    }
  }

  /**
   Over many looks at a host, a runner is drained again exactly when it is astray, and
   has been since an episode began at least the grace ago, in which every re-drain was
   at least the retry time ago.
   */
  lemma DrainedAgain(vs: seq<Visit>, seen: seq<map<string, Watch>>, dues: seq<seq<Due>>, graceMs: int, retryMs: int,
      i: nat, r: Runner)
    requires Visits(vs, seen, dues, graceMs, retryMs) && i < |vs| && r in vs[i].runners
    requires Forward(GlimpsesOf(vs, r.dirName))
    ensures var h := GlimpsesOf(vs, r.dirName);
      Due(r.name, r.dirName, r.drainBy) in dues[i] <==>
        && Astray(vs[i], r.dirName)
        && vs[i].now - vs[EpisodeFrom(h, i)].now >= graceMs && Spaced(h, EpisodeFrom(h, i), i, graceMs, retryMs)
  {
    var h := GlimpsesOf(vs, r.dirName);
    SeenIsWatch(vs, seen, dues, graceMs, retryMs, r.dirName, i);
    SlippedIsAstray(vs[i], r);
    assert Reports(vs[i], seen[i], dues[i], seen[i + 1], graceMs, retryMs);
    assert Due(r.name, r.dirName, r.drainBy) in dues[i] <==> DueAt(h, i, graceMs, retryMs);
    DueMeans(h, i, graceMs, retryMs);
  }
}
