/**
 One step of the night cap (decideNightCap of dashboard/lib/night-cap.js) read from
 outside: who is acted on, who gets a slot and what is remembered, told by the
 runners, the jobs, the clock and what the step before left; and over any run of
 steps, when a command may be sent again.
 */
module NightCapMemory {
  import opened Wrappers
  import opened Text
  import opened NightCap
  import opened NightCapLoop
  import Slots

  // ---- what is known of a runner -------------------------------------------------

  /** The runners with a job. */
  ghost function Working(rs: seq<Runner>): set<int> {
    set n | 0 <= n < |rs| && (rs[n].workingLocally || rs[n].ghBusy)
  }

  ghost predicate Caps(i: Input) {
    i.inWindow && i.cfg.mode in {Observe, Enforce}
  }

  /** It takes jobs now. */
  ghost predicate Ready(r: Runner) {
    r.drainState == NotDrained && r.ghOnline && !r.ghUnknown
  }

  ghost predicate Parked(r: Runner) {
    r.drainState in {Draining, Drained} && r.drainBy == Some("night-cap")
  }

  /** The same was sent less than retryMs ago, as the step before remembers. */
  ghost predicate Recent(i: Input, name: string, kind: Kind) {
    name in i.prev && i.prev[name].action == kind && i.now < i.prev[name].at + i.cfg.retryMs
  }

  ghost predicate HasSlot(i: Input, r: Runner) {
    exists k | k in Slotting(i) && k < |OursOf(i.runners)| :: OursOf(i.runners)[k] == r
  }

  ghost function LowerAll(labels: seq<string>): set<string> {
    set l | l in labels :: Lower(l)
  }

  /** It could start the job now or after a resume: idle, of that repository, with the labels, and nobody else's. */
  ghost predicate CanTake(r: Runner, q: Job) {
    && !r.workingLocally && !r.ghBusy && (r.drainState == NotDrained || Parked(r))
    && r.repo == q.repo && LowerAll(q.labels) <= LowerAll(r.labels)
  }

  // ---- the slots -------------------------------------------------------------------

  lemma OneMoreWorking(rs: seq<Runner>, n: nat)
    requires n < |rs|
    ensures Working(rs[..n + 1]) == Working(rs[..n]) + (if Busy(rs[n]) then {n} else {}) && n !in Working(rs[..n])
  {
    assert forall m | 0 <= m < n :: rs[..n + 1][m] == rs[..n][m] == rs[m];
    assert rs[..n + 1][n] == rs[n];
  }

  lemma {:induction false} CountIsCard(rs: seq<Runner>, n: nat)
    requires n <= |rs|
    ensures Count(rs[..n], Busy) == |Working(rs[..n])|
  {
    if n > 0 {
      CountIsCard(rs, n - 1);
      CountSnoc(rs, n - 1, Busy);
      OneMoreWorking(rs, n - 1);
    }
  }

  lemma BusyCountMeans(rs: seq<Runner>)
    ensures BusyCount(rs) == |Working(rs)|
  {
    CountIsCard(rs, |rs|);
    assert rs[..|rs|] == rs;
  }

  /** As many as the cap leaves over those busy. */
  lemma SlotCountMeans(i: Input)
    ensures SlotCount(i) == if Caps(i) then Max(i.cfg.maxBusy - |Working(i.runners)|, 0) else 0
  {
    BusyCountMeans(i.runners);
  }

  lemma FitsMeans(q: Job, r: Runner)
    ensures Fits(q, r) && Parkable(r) <==> CanTake(r, q)
    ensures Fits(q, r) <==> r.repo == q.repo && LowerAll(q.labels) <= LowerAll(r.labels)
  {
    if Covers(r.labels, q.labels) {
      forall l | l in LowerAll(q.labels) ensures l in LowerAll(r.labels) {
      }
    }
    if LowerAll(q.labels) <= LowerAll(r.labels) {
      forall n | n in q.labels ensures exists h | h in r.labels :: Lower(h) == Lower(n) {
        assert Lower(n) in LowerAll(r.labels);
      }
    }
  }

  lemma {:induction false} FilterKeeps<T(!new)>(xs: seq<T>, p: T -> bool, x: T)
    ensures multiset(Filter(xs, p))[x] == if p(x) then multiset(xs)[x] else 0
  {
    if xs != [] {
      FilterKeeps(xs[1..], p, x);
      assert xs == [xs[0]] + xs[1..];
    }
  }

  /** A runner would help the job, and one here could start it. */
  ghost predicate Helped(i: Input, q: Job) {
    && (q.cause.None? || q.cause.value !in NOT_RUNNER_CAUSES)
    && exists r | r in i.runners :: !r.ephemeral && r.dirName.GetOr("") != ""
         && r.repo == q.repo && LowerAll(q.labels) <= LowerAll(r.labels)
  }

  /** Those jobs wait, and no others, each as often as it is queued. */
  lemma WaitingMeans(i: Input, q: Job)
    ensures multiset(Waiting(i.jobs, OursOf(i.runners)))[q] == if Helped(i, q) then multiset(i.jobs)[q] else 0
  {
    var ours := OursOf(i.runners);
    forall r ensures Fits(q, r) <==> r.repo == q.repo && LowerAll(q.labels) <= LowerAll(r.labels) {
      FitsMeans(q, r);
    }
    assert CouldStart(q, ours) ==> exists r | r in ours :: Fits(q, r);
    assert CouldStart(q, ours) <==> Helped(i, q);
    FilterKeeps(i.jobs, StartableOn(ours), q);
    SortKeepsAll(Filter(i.jobs, StartableOn(ours)));
  }

  /** The runner would do for waiting job j, and is not kept for an older one. */
  ghost predicate WouldDo(i: Input, k: nat, j: nat)
    requires j < |Waiting(i.jobs, OursOf(i.runners))|
  {
    && k < |OursOf(i.runners)|
    && var r := OursOf(i.runners)[k];
    && CanTake(r, Waiting(i.jobs, OursOf(i.runners))[j])
    && (Ready(r) || Recent(i, r.name, Resume) || Parked(r))
    && !(k in Slotting(i) && Slotting(i)[k] < j)
  }

  lemma WouldDoMeans(i: Input, k: nat, j: nat)
    requires k < |OursOf(i.runners)| && j < |Waiting(i.jobs, OursOf(i.runners))|
    ensures var ours := OursOf(i.runners); var waiting := Waiting(i.jobs, ours);
      WouldDo(i, k, j)
      <==> Slots.FreeFor(FitTable(waiting, ours), RankTable(ours, Remembered(i)), Slotting(i), j, k)
  {
    FitsMeans(Waiting(i.jobs, OursOf(i.runners))[j], OursOf(i.runners)[k]);
  }

  /** Runner b is nearer to starting a job than k: takes jobs already, or is coming back, or is listed first. */
  ghost predicate Nearer(i: Input, b: nat, k: nat)
    requires b < |OursOf(i.runners)| && k < |OursOf(i.runners)|
  {
    var rb, rk := OursOf(i.runners)[b], OursOf(i.runners)[k];
    if Ready(rb) || Ready(rk) then Ready(rb) && (!Ready(rk) || b < k)
    else if Recent(i, rb.name, Resume) || Recent(i, rk.name, Resume) then
      Recent(i, rb.name, Resume) && (!Recent(i, rk.name, Resume) || b < k)
    else Parked(rb) && (!Parked(rk) || b < k)
  }

  lemma NearerMeans(i: Input, b: nat, k: nat)
    requires b < |OursOf(i.runners)| && k < |OursOf(i.runners)|
    requires RankTable(OursOf(i.runners), Remembered(i))(b) < Slots.UNUSABLE
    ensures Nearer(i, b, k) <==> Slots.Better(RankTable(OursOf(i.runners), Remembered(i)), b, k)
  {
  }

  /** A slot: a waiting job on an idle runner that can take it, and none nearer to starting it was left. */
  lemma SlotMeans(i: Input, k: nat)
    requires k in Slotting(i)
    ensures var ours := OursOf(i.runners); var waiting := Waiting(i.jobs, ours);
      && Caps(i) && k < |ours| && Slotting(i)[k] < |waiting| && WouldDo(i, k, Slotting(i)[k])
      && forall b: nat | b < |ours| && Nearer(i, b, k) :: !WouldDo(i, b, Slotting(i)[k])
  {
    var ours := OursOf(i.runners);
    var waiting := Waiting(i.jobs, ours);
    StepSlotsAreGood(i);
    assert Slots.WellSlotted(FitTable(waiting, ours), RankTable(ours, Remembered(i)), |ours|, Slotting(i), k);
    var j := Slotting(i)[k];
    WouldDoMeans(i, k, j);
    forall b: nat | b < |ours| && Nearer(i, b, k) ensures !WouldDo(i, b, j) {
      WouldDoMeans(i, b, j);
      if WouldDo(i, b, j) {
        NearerMeans(i, b, k);
      }
    }
  }

  /** A waiting job without one: the slots all went to older jobs, or every runner that would do did. */
  lemma LeftMeans(i: Input, j: nat)
    requires Caps(i) && j < |Waiting(i.jobs, OursOf(i.runners))| && j !in Slotting(i).Values
    ensures
      || (|Slotting(i)| == SlotCount(i) && forall k | k in Slotting(i) :: Slotting(i)[k] < j)
      || forall k: nat :: !WouldDo(i, k, j)
  {
    var ours := OursOf(i.runners);
    var waiting := Waiting(i.jobs, ours);
    StepSlotsAreGood(i);
    assert Slots.RightlyLeft(
      FitTable(waiting, ours), RankTable(ours, Remembered(i)), |ours|, SlotCount(i), Slotting(i), j);
    forall k: nat | k < |ours|
      ensures WouldDo(i, k, j)
         <==> Slots.FreeFor(FitTable(waiting, ours), RankTable(ours, Remembered(i)), Slotting(i), j, k)
    {
      WouldDoMeans(i, k, j);
    }
  }

  /** A slot goes to a job of that key. */
  ghost predicate KeyServed(i: Input, key: string) {
    var waiting := Waiting(i.jobs, OursOf(i.runners));
    exists k | k in Slotting(i) && Slotting(i)[k] < |waiting| :: waiting[Slotting(i)[k]].key == key
  }

  /** A run is held exactly when one of its jobs waits and no slot goes to a job of that key. */
  lemma HeldMeans(i: Input, run: int)
    ensures run in HeldRuns(i) <==>
      Caps(i) && exists q | q in Waiting(i.jobs, OursOf(i.runners)) :: q.runId == run && !KeyServed(i, q.key)
  {
  }

  // ---- who is acted on -----------------------------------------------------------------

  /** What the step would have of a runner, whether or not that was sent before. */
  ghost predicate Wanted(i: Input, r: Runner, kind: Kind) {
    match kind
    case Resume => Parked(r) && (Caps(i) ==> HasSlot(i, r))
    case Drain =>
      && Caps(i) && r.drainState == NotDrained && !HasSlot(i, r)
      && if r.workingLocally then |Working(i.runners)| > i.cfg.maxBusy else !r.ghBusy && r.ghOnline && !r.ghUnknown
  }

  /** What the step asks for, of all runners. */
  function Asked(i: Input): seq<Action> {
    ActionsUpTo(i, |OursOf(i.runners)|)
  }

  lemma OursAt(i: Input, r: Runner) returns (k: nat)
    requires DistinctNames(i.runners) && r in i.runners && Ours(r)
    ensures k < |OursOf(i.runners)| && OursOf(i.runners)[k] == r
    ensures forall m: nat | m < |OursOf(i.runners)| && OursOf(i.runners)[m].name == r.name :: m == k
    ensures HasSlot(i, r) <==> k in Slotting(i)
  {
    var ours := OursOf(i.runners);
    FilterDistinct(i.runners, Ours);
    assert r in ours;
    k :| 0 <= k < |ours| && ours[k] == r;
    if HasSlot(i, r) {
      var m :| m in Slotting(i) && m < |ours| && ours[m] == r;
      SameName(ours, m, k);
    }
    forall m: nat | m < |ours| && ours[m].name == r.name ensures m == k {
      SameName(ours, m, k);
    }
  }

  lemma VerdictMeans(i: Input, r: Runner, k: nat, kind: Kind)
    requires k < |OursOf(i.runners)| && OursOf(i.runners)[k] == r && (HasSlot(i, r) <==> k in Slotting(i))
    ensures VerdictAt(i, k) == Act(kind) <==> Wanted(i, r, kind) && !Recent(i, r.name, kind)
    ensures VerdictAt(i, k).Forget? <==> Dropped(i, r)
  {
    BusyCountMeans(i.runners);
    if k in Slotting(i) {
      SlotMeans(i, k);
    }
  }

  /**
   An action is asked for exactly of the runners here, that outlive their job, of which
   the step would have it and to which it was not sent less than retryMs ago. On a host
   switched off nothing is issued, else all that is asked for.
   */
  lemma AskedIff(i: Input, r: Runner, kind: Kind)
    requires DistinctNames(i.runners) && r in i.runners
    ensures (exists a | a in Asked(i) :: a.name == r.name && a.kind == kind) <==>
      !r.ephemeral && r.dirName.GetOr("") != "" && Wanted(i, r, kind) && !Recent(i, r.name, kind)
    ensures Issued(i) == if i.hostOff then [] else Asked(i)
  {
    if Ours(r) {
      var k := OursAt(i, r);
      VerdictMeans(i, r, k, kind);
      if VerdictAt(i, k) == Act(kind) {
        ActionListed(i, |OursOf(i.runners)|, k, kind);
        assert ActionFor(r, kind).name == r.name;
      }
    }
    if a :| a in Asked(i) && a.name == r.name && a.kind == kind {
      AskedOf(i, r, a);
    }
  }

  /** An action names a runner here, by its own name, directory and repository. */
  lemma AskedOf(i: Input, r: Runner, a: Action)
    requires DistinctNames(i.runners) && r in i.runners && a in Asked(i) && a.name == r.name
    ensures Ours(r) && a == Action(r.name, r.dirName.value, r.repo, a.kind)
    ensures Wanted(i, r, a.kind) && !Recent(i, r.name, a.kind)
  {
    var ours := OursOf(i.runners);
    var k := ActionHasRunner(i, |ours|, a);
    assert ours[k] in ours && ours[k].name == r.name;
    var m :| 0 <= m < |i.runners| && i.runners[m] == ours[k];
    var n :| 0 <= n < |i.runners| && i.runners[n] == r;
    SameName(i.runners, m, n);
    var k' := OursAt(i, r);
    VerdictMeans(i, r, k, a.kind);
  }

  /** Actions come in the order of the runners, so at most one for each. */
  lemma {:induction false} AskedInOrder(i: Input, n: nat, x: nat, y: nat) returns (k: nat, l: nat)
    requires n <= |OursOf(i.runners)| && x < y < |ActionsUpTo(i, n)|
    ensures k < l < n
    ensures ActionsUpTo(i, n)[x].name == OursOf(i.runners)[k].name
    ensures ActionsUpTo(i, n)[y].name == OursOf(i.runners)[l].name
  {
    if y < |ActionsUpTo(i, n - 1)| {
      k, l := AskedInOrder(i, n - 1, x, y);
    } else {
      k := ActionHasRunner(i, n - 1, ActionsUpTo(i, n - 1)[x]);
      l := n - 1;
    }
  }

  // ---- what is remembered ----------------------------------------------------------------

  /** A parked runner that stands idle without a slot: nothing sent to it is waited for any more. */
  ghost predicate Dropped(i: Input, r: Runner) {
    && Caps(i) && Parked(r) && !r.workingLocally && !r.ghBusy && !HasSlot(i, r)
  }

  /** The step remembers an action as sent: in observe mode nothing is. */
  ghost predicate Sends(i: Input, name: string, kind: Kind) {
    i.cfg.mode != Observe && exists a | a in Issued(i) :: a.name == name && a.kind == kind
  }

  ghost predicate DropsName(i: Input, name: string) {
    exists r | r in i.runners :: r.name == name && !r.ephemeral && r.dirName.GetOr("") != "" && Dropped(i, r)
  }

  /** What was sent and is neither too old nor settled nor replaced by what is sent now. */
  ghost predicate Kept(i: Input, name: string, s: Sent) {
    && name in i.prev && i.prev[name] == s && i.now < s.at + i.cfg.retryMs && !DropsName(i, name)
    && (forall kind: Kind :: !Sends(i, name, kind))
  }

  lemma SentMeans(i: Input, name: string, s: Sent)
    requires DistinctNames(i.runners)
    ensures name in SentMap(Issued(i), i.now) <==> exists a | a in Issued(i) :: a.name == name
    ensures name in SentMap(Issued(i), i.now) && SentMap(Issued(i), i.now)[name] == s
       <==> s.at == i.now && exists a | a in Issued(i) :: a.name == name && a.kind == s.action
  {
    SentMapKeys(Issued(i), i.now);
    FilterDistinct(i.runners, Ours);
    if a :| a in Issued(i) && a.name == name {
      forall b | b in Issued(i) && b.name == name ensures b == a {
        var j := ActionHasRunner(i, |OursOf(i.runners)|, a);
        var k := ActionHasRunner(i, |OursOf(i.runners)|, b);
        SameName(OursOf(i.runners), j, k);
      }
      SentMapOf(Issued(i), i.now, a);
    }
  }

  lemma ForgottenMeans(i: Input, name: string)
    requires DistinctNames(i.runners)
    ensures name in ForgottenUpTo(i, |OursOf(i.runners)|) <==> DropsName(i, name)
  {
    var ours := OursOf(i.runners);
    if r :| r in i.runners && r.name == name && Ours(r) && Dropped(i, r) {
      var k := OursAt(i, r);
      VerdictMeans(i, r, k, Drain);
    }
    if k: nat :| k < |ours| && VerdictAt(i, k).Forget? && ours[k].name == name {
      var r := ours[k];
      assert r in ours;
      var m := OursAt(i, r);
      VerdictMeans(i, r, k, Drain);
      assert Dropped(i, r);
    }
  }

  /** The memory after a step holds exactly what was sent now, as of now, and what is kept. */
  lemma MemoryIff(i: Input, name: string, s: Sent)
    requires DistinctNames(i.runners)
    ensures name in PendingAfter(i) && PendingAfter(i)[name] == s
       <==> (s.at == i.now && Sends(i, name, s.action)) || Kept(i, name, s)
  {
    SentMeans(i, name, s);
    ForgottenMeans(i, name);
    if a :| a in Issued(i) && a.name == name {
      assert Sends(i, name, a.kind) <==> i.cfg.mode != Observe;
    }
  }

  // ---- over any run of steps ---------------------------------------------------------------

  ghost predicate Follows(steps: seq<Input>, k: nat)
    requires 0 < k < |steps|
  {
    steps[k].prev == PendingAfter(steps[k - 1]) && steps[k - 1].now <= steps[k].now
  }

  /**
   Steps one after the other, each with the memory the one before left. Runners, jobs,
   mode, cap and window may be anything at each; the clock does not go back.
   */
  ghost predicate Steps(steps: seq<Input>, retryMs: int) {
    && (forall k | 0 <= k < |steps| :: DistinctNames(steps[k].runners) && steps[k].cfg.retryMs == retryMs)
    && (forall k | 0 < k < |steps| :: Follows(steps, k))
  }

  /** A step that shows a drain in effect; or a resume, or that it has lost its slot. */
  ghost predicate Shows(i: Input, name: string, kind: Kind) {
    exists r | r in i.runners && r.name == name ::
      match kind
      case Drain => Parked(r)
      case Resume => r.drainState == NotDrained || Dropped(i, r)
  }

  ghost predicate Holds(pending: Pending, name: string, s: Sent) {
    name in pending && pending[name] == s
  }

  /** What was sent is remembered through a step that comes soon after and does not show it. */
  lemma StepKeepsSent(i: Input, name: string, s: Sent)
    requires DistinctNames(i.runners) && Holds(i.prev, name, s) && i.now < s.at + i.cfg.retryMs
    requires !Shows(i, name, s.action)
    ensures Holds(PendingAfter(i), name, s)
  {
    forall kind: Kind ensures !Sends(i, name, kind) {
      if a :| a in Issued(i) && a.name == name && a.kind == kind {
        var k := ActionHasRunner(i, |OursOf(i.runners)|, a);
        var r := OursOf(i.runners)[k];
        assert r in OursOf(i.runners);
        AskedOf(i, r, a);
        assert !Recent(i, name, kind) && Wanted(i, r, kind);
      }
    }
    MemoryIff(i, name, s);
  }

  lemma SentNow(steps: seq<Input>, retryMs: int, name: string, kind: Kind, b: nat)
    requires Steps(steps, retryMs) && 0 < b < |steps| && Sends(steps[b - 1], name, kind)
    ensures Holds(steps[b].prev, name, Sent(kind, steps[b - 1].now))
  {
    assert Follows(steps, b);
    MemoryIff(steps[b - 1], name, Sent(kind, steps[b - 1].now));
  }

  lemma SentBefore(steps: seq<Input>, retryMs: int, name: string, s: Sent, b: nat)
    requires Steps(steps, retryMs) && 0 < b < |steps| && Holds(steps[b - 1].prev, name, s)
    requires steps[b - 1].now < s.at + retryMs && !Shows(steps[b - 1], name, s.action)
    ensures Holds(steps[b].prev, name, s)
  {
    assert Follows(steps, b);
    StepKeepsSent(steps[b - 1], name, s);
  }

  /** Nothing shows what was sent from step a on and before step b, and all of them come soon after. */
  ghost predicate Unshown(steps: seq<Input>, retryMs: int, name: string, s: Sent, a: nat, b: nat) {
    b <= |steps| && forall c | a < c < b :: !Shows(steps[c], name, s.action) && steps[c].now < s.at + retryMs
  }

  lemma {:induction false} SentStays(steps: seq<Input>, retryMs: int, name: string, s: Sent, a: nat, b: nat)
    requires Steps(steps, retryMs) && a < b < |steps| && Unshown(steps, retryMs, name, s, a, b)
    requires Holds(steps[a + 1].prev, name, s)
    ensures Holds(steps[b].prev, name, s)
    decreases b
  {
    if b > a + 1 {
      SentStays(steps, retryMs, name, s, a, b - 1);
      SentBefore(steps, retryMs, name, s, b);
    }
  }

  lemma {:induction false} NotBack(steps: seq<Input>, retryMs: int, c: nat, b: nat)
    requires Steps(steps, retryMs) && c <= b < |steps|
    ensures steps[c].now <= steps[b].now
    decreases b
  {
    if c < b {
      assert Follows(steps, b);
      NotBack(steps, retryMs, c, b - 1);
    }
  }

  /**
   Over any run: an action sent to a runner is not asked for again before retryMs are
   over, unless a step in between showed a drain in effect, or a resume, or that the
   runner to resume had no slot any more.
   */
  lemma NotSentAgain(steps: seq<Input>, retryMs: int, name: string, kind: Kind, a: nat, b: nat)
    requires Steps(steps, retryMs) && a < b < |steps| && Sends(steps[a], name, kind)
    requires exists x | x in Asked(steps[b]) :: x.name == name && x.kind == kind
    requires steps[b].now < steps[a].now + retryMs
    ensures exists c | a < c < b :: Shows(steps[c], name, kind)
  {
    if forall c | a < c < b :: !Shows(steps[c], name, kind) {
      var s := Sent(kind, steps[a].now);
      forall c | a < c < b ensures steps[c].now < s.at + retryMs {
        NotBack(steps, retryMs, c, b);
      }
      SentNow(steps, retryMs, name, kind, a + 1);
      SentStays(steps, retryMs, name, s, a, b);
      var x :| x in Asked(steps[b]) && x.name == name && x.kind == kind;
      var k := ActionHasRunner(steps[b], |OursOf(steps[b].runners)|, x);
      var r := OursOf(steps[b].runners)[k];
      assert r in OursOf(steps[b].runners);
      AskedOf(steps[b], r, x);
    }
  }
}
