/**
 The night cap closed into a loop. Between two ticks jobs start on runners that
 can take them and finish on runners that run them; at a tick the controller's
 actions take effect as drain-runner.sh carries them out. Nobody else writes a
 drain marker in this loop, and an offline runner comes back only by a resume,
 after which GitHub lists it online.
 */
module NightCapLoop {
  import opened Wrappers
  import opened NightCap
  import Slots

  /** The runners, and what the controller remembers between ticks. */
  datatype Host = Host(runners: seq<Runner>, pending: Pending)

  // ---- what one step promises, whatever the environment ---------------------

  /** The slots of a step are handed out as Slots.GoodSlots says. */
  lemma StepSlotsAreGood(i: Input)
    ensures
      var ours := OursOf(i.runners);
      var waiting := Waiting(i.jobs, ours);
      Slots.GoodSlots(FitTable(waiting, ours), RankTable(ours, Remembered(i)), |ours|, |waiting|, SlotCount(i),
        Slotting(i))
  {
    var ours := OursOf(i.runners);
    var waiting := Waiting(i.jobs, ours);
    Slots.AssignFromNone(FitTable(waiting, ours), RankTable(ours, Remembered(i)), |ours|, |waiting|, SlotCount(i));
  }

  /**
   The controller only resumes what it drained itself, never touches a runner
   somebody else drained, never drains a runner GitHub has handed a job whose
   Worker has not started, and drains a working one only over the cap.
   */
  lemma ActionsAreSafe(i: Input, a: Action)
    requires a in Issued(i)
    ensures !i.hostOff
    ensures exists r | r in i.runners ::
      && Ours(r) && a == ActionFor(r, a.kind) && !Others(r)
      && (a.kind == Resume ==> Own(r))
      && (a.kind == Drain ==> !Marked(r) && Capping(i))
      && (a.kind == Drain && Busy(r) ==> r.workingLocally && BusyCount(i.runners) > i.cfg.maxBusy)
  {
    var k := ActionHasRunner(i, |OursOf(i.runners)|, a);
    var r := OursOf(i.runners)[k];
    assert r in OursOf(i.runners);
  }

  lemma {:induction false} ActionHasRunner(i: Input, n: nat, a: Action) returns (k: nat)
    requires n <= |OursOf(i.runners)| && a in ActionsUpTo(i, n)
    ensures k < n && VerdictAt(i, k) == Act(a.kind) && a == ActionFor(OursOf(i.runners)[k], a.kind)
  {
    if a in ActionsUpTo(i, n - 1) {
      k := ActionHasRunner(i, n - 1, a);
    } else {
      k := n - 1;
    }
  }

  // ---- effects --------------------------------------------------------------

  /** drain-runner.sh --by=night-cap on one runner: a foreign marker is left alone. */
  function Carry(kind: Kind, r: Runner): Runner {
    if Others(r) then r
    else
      match kind
      case Drain =>
        if r.workingLocally then r.(drainState := Draining, drainBy := Some(NIGHT_CAP_OWNER))
        else r.(drainState := Drained, drainBy := Some(NIGHT_CAP_OWNER), ghOnline := false)
      case Resume =>
        if Marked(r) then r.(drainState := NotDrained, drainBy := None, ghOnline := true, ghUnknown := false) else r
  }

  function IndexAmongOurs(rs: seq<Runner>, n: nat): nat
    requires n <= |rs|
  {
    |OursOf(rs[..n])|
  }

  /** The verdict on runner n of the whole list. */
  function VerdictOn(i: Input, n: nat): Verdict
    requires n < |i.runners|
  {
    if Ours(i.runners[n]) then Judge(i, i.runners[n], IndexAmongOurs(i.runners, n) in Slotting(i)) else Leave
  }

  lemma {:induction false} FilterPrefix(rs: seq<Runner>, n: nat)
    requires n <= |rs|
    ensures OursOf(rs) == OursOf(rs[..n]) + OursOf(rs[n..])
  {
    if n == 0 {
      assert rs[..0] == [] && rs[0..] == rs;
    } else {
      FilterPrefix(rs[1..], n - 1);
      assert rs[..n][1..] == rs[1..][..n - 1];
      assert rs[n..] == rs[1..][n - 1..];
    }
  }

  /** Our runner n stands at IndexAmongOurs(n) in the list the step walks. */
  lemma OurPlace(rs: seq<Runner>, n: nat)
    requires n < |rs| && Ours(rs[n])
    ensures IndexAmongOurs(rs, n) < |OursOf(rs)| && OursOf(rs)[IndexAmongOurs(rs, n)] == rs[n]
  {
    FilterPrefix(rs, n);
    assert rs[n..][0] == rs[n];
  }

  /** Where the step's actions take effect: the verdicts carried out on every runner. */
  function AfterTick(i: Input): seq<Runner> {
    seq(|i.runners|, n requires 0 <= n < |i.runners| =>
      match VerdictOn(i, n)
      case Act(kind) => if i.hostOff || !Applied(i) then i.runners[n] else Carry(kind, i.runners[n])
      case _ => i.runners[n])
  }

  // ---- the memory stays truthful --------------------------------------------

  /** A remembered drain is on a runner carrying the cap's marker, a remembered resume on one that is not. */
  predicate Truthful(h: Host) {
    forall n | 0 <= n < |h.runners| && h.runners[n].name in h.pending ::
      match h.pending[h.runners[n].name].action
      case Drain => Own(h.runners[n])
      case Resume => !Own(h.runners[n])
  }

  lemma {:induction false} SentMapOf(actions: seq<Action>, now: int, a: Action)
    requires a in actions
    requires forall b | b in actions && b.name == a.name :: b == a
    ensures a.name in SentMap(actions, now) && SentMap(actions, now)[a.name] == Sent(a.kind, now)
  {
    var init, last := actions[..|actions| - 1], actions[|actions| - 1];
    assert actions == init + [last];
    if a != last {
      SentMapOf(init, now, a);
    }
  }

  lemma {:induction false} ActionListed(i: Input, n: nat, k: nat, kind: Kind)
    requires k < n <= |OursOf(i.runners)| && VerdictAt(i, k) == Act(kind)
    ensures ActionFor(OursOf(i.runners)[k], kind) in ActionsUpTo(i, n)
  {
    if k < n - 1 {
      ActionListed(i, n - 1, k, kind);
    }
  }

  lemma SameName(rs: seq<Runner>, j: nat, k: nat)
    requires DistinctNames(rs) && j < |rs| && k < |rs| && rs[j].name == rs[k].name
    ensures j == k
  {
  }

  /** What is remembered of our runner k after the step. */
  lemma RememberedOf(i: Input, k: nat)
    requires DistinctNames(i.runners) && k < |OursOf(i.runners)|
    ensures
      var name := OursOf(i.runners)[k].name;
      match VerdictAt(i, k)
      case Act(kind) =>
        (Applied(i) && !i.hostOff ==> name in PendingAfter(i) && PendingAfter(i)[name] == Sent(kind, i.now))
      case Forget => name !in PendingAfter(i)
      case Leave => name in PendingAfter(i) ==> name in Remembered(i) && PendingAfter(i)[name] == Remembered(i)[name]
  {
    var ours := OursOf(i.runners);
    FilterDistinct(i.runners, Ours);
    var all := |ours|;
    SentMapKeys(Issued(i), i.now);
    forall a | a in Issued(i) && a.name == ours[k].name
      ensures VerdictAt(i, k) == Act(a.kind) && a == ActionFor(ours[k], a.kind)
    {
      var j := ActionHasRunner(i, all, a);
      SameName(ours, j, k);
    }
    if VerdictAt(i, k).Act? && !i.hostOff {
      ActionListed(i, all, k, VerdictAt(i, k).kind);
      SentMapOf(Issued(i), i.now, ActionFor(ours[k], VerdictAt(i, k).kind));
    }
  }

  /** A runner the step does not walk is not sent anything, so what is remembered of it can only age out. */
  lemma RememberedOfOther(i: Input, n: nat)
    requires DistinctNames(i.runners) && n < |i.runners| && !Ours(i.runners[n])
    ensures
      var name := i.runners[n].name;
      name in PendingAfter(i) ==> name in i.prev && PendingAfter(i)[name] == i.prev[name]
  {
    SentMapKeys(Issued(i), i.now);
    forall a | a in Issued(i) ensures a.name != i.runners[n].name {
      var k := ActionHasRunner(i, |OursOf(i.runners)|, a);
      var r := OursOf(i.runners)[k];
      assert r in i.runners && Ours(r);
      var m :| 0 <= m < |i.runners| && i.runners[m] == r;
      assert m != n;
    }
  }

  lemma TickKeepsTruth(i: Input)
    requires DistinctNames(i.runners) && Truthful(Host(i.runners, i.prev))
    requires Applied(i) && !i.hostOff
    ensures Truthful(Host(AfterTick(i), PendingAfter(i)))
  {
    var after := AfterTick(i);
    forall n | 0 <= n < |after| && after[n].name in PendingAfter(i)
      ensures match PendingAfter(i)[after[n].name].action
        case Drain => Own(after[n])
        case Resume => !Own(after[n])
    {
      var r := i.runners[n];
      if Ours(r) {
        OurPlace(i.runners, n);
        RememberedOf(i, IndexAmongOurs(i.runners, n));
      } else {
        RememberedOfOther(i, n);
      }
    }
  }

  // ---- the load never rises -------------------------------------------------

  /** An idle runner that would take a job now. */
  predicate Open(r: Runner) {
    !Busy(r) && !Marked(r) && Online(r)
  }

  /** A runner the cap counts but cannot park: ephemeral, or without a directory here. */
  predicate Beyond(r: Runner) {
    !Ours(r)
  }

  predicate OpenBeyond(r: Runner) {
    Open(r) && Beyond(r)
  }

  /** One of those that takes jobs, or will when it is done with the one it has. */
  predicate Loose(r: Runner) {
    Beyond(r) && !Marked(r) && Online(r)
  }

  /** Jobs running, and jobs that could start without the cap's say. */
  function Load(rs: seq<Runner>): nat {
    Count(rs, Busy) + Count(rs, Open)
  }

  function Max(a: int, b: int): int {
    if a < b then b else a
  }

  /** The bound a loop can only lower: the cap and the loose runners, or the present load. */
  function Bound(cfg: Config, rs: seq<Runner>): int {
    Max(cfg.maxBusy + Count(rs, Loose), Load(rs))
  }

  lemma {:induction false} CountAppend<T>(xs: seq<T>, ys: seq<T>, p: T -> bool)
    ensures Count(xs + ys, p) == Count(xs, p) + Count(ys, p)
  {
    if xs == [] {
      assert xs + ys == ys;
    } else {
      assert (xs + ys)[1..] == xs[1..] + ys;
      CountAppend(xs[1..], ys, p);
    }
  }

  lemma CountSnoc<T>(xs: seq<T>, n: nat, p: T -> bool)
    requires n < |xs|
    ensures Count(xs[..n + 1], p) == Count(xs[..n], p) + (if p(xs[n]) then 1 else 0)
  {
    assert xs[..n + 1] == xs[..n] + [xs[n]];
    CountAppend(xs[..n], [xs[n]], p);
    assert [xs[n]][1..] == [];
  }

  lemma {:induction false} CountImplies<T>(xs: seq<T>, ys: seq<T>, p: T -> bool, q: T -> bool)
    requires |xs| == |ys| && forall n | 0 <= n < |xs| :: p(xs[n]) ==> q(ys[n])
    ensures Count(xs, p) <= Count(ys, q)
  {
    if xs != [] {
      assert forall n | 0 <= n < |xs[1..]| :: xs[1..][n] == xs[n + 1] && ys[1..][n] == ys[n + 1];
      CountImplies(xs[1..], ys[1..], p, q);
    }
  }

  /** The slots below index m. */
  function Below(slotting: Slots.Slotting, m: nat): set<nat> {
    set k | k in slotting && k < m
  }

  lemma OneMoreOurs(before: seq<Runner>, slotting: Slots.Slotting, n: nat)
    requires n < |before|
    ensures
      var m, m' := IndexAmongOurs(before, n), IndexAmongOurs(before, n + 1);
      if Ours(before[n]) && m in slotting then Below(slotting, m') == Below(slotting, m) + {m}
        && m !in Below(slotting, m)
      else Below(slotting, m') == Below(slotting, m)
  {
    var m, m' := IndexAmongOurs(before, n), IndexAmongOurs(before, n + 1);
    FilterPrefix(before[..n + 1], n);
    assert before[..n + 1][..n] == before[..n] && before[..n + 1][n..] == [before[n]];
    assert OursOf([before[n]]) == if Ours(before[n]) then [before[n]] else [] by {
      assert [before[n]][1..] == [];
    }
    assert m' == m + (if Ours(before[n]) then 1 else 0);
  }

  /** After a tick a runner is open only if it was open beyond the cap's reach, or is kept for a job. */
  lemma {:induction false} OpenAreSlotted(before: seq<Runner>, after: seq<Runner>, slotting: Slots.Slotting, n: nat)
    requires |before| == |after| && n <= |before|
    requires forall m | 0 <= m < |before| && Open(after[m]) ::
      OpenBeyond(before[m]) || (Ours(before[m]) && IndexAmongOurs(before, m) in slotting)
    ensures Count(after[..n], Open) <= Count(before[..n], OpenBeyond) + |Below(slotting, IndexAmongOurs(before, n))|
  {
    if n > 0 {
      OpenAreSlotted(before, after, slotting, n - 1);
      CountSnoc(after, n - 1, Open);
      CountSnoc(before, n - 1, OpenBeyond);
      OneMoreOurs(before, slotting, n - 1);
    }
  }

  lemma SlotsWithinCap(i: Input)
    ensures |Slotting(i)| <= SlotCount(i)
  {
    StepSlotsAreGood(i);
  }

  lemma BelowIsFew(slotting: Slots.Slotting, m: nat)
    ensures |Below(slotting, m)| <= |slotting|
  {
    SubsetIsSmaller(Below(slotting, m), slotting.Keys);
  }

  lemma {:induction false} SubsetIsSmaller<T>(a: set<T>, b: set<T>)
    requires a <= b
    ensures |a| <= |b|
  {
    if a != {} {
      var x :| x in a;
      SubsetIsSmaller(a - {x}, b - {x});
    }
  }

  lemma OpenAfterTick(i: Input, n: nat)
    requires Capping(i) && !i.hostOff && i.cfg.mode == Enforce && DistinctNames(i.runners)
    requires Truthful(Host(i.runners, i.prev)) && n < |i.runners|
    ensures Busy(AfterTick(i)[n]) == Busy(i.runners[n]) && Loose(AfterTick(i)[n]) == Loose(i.runners[n])
    ensures AfterTick(i)[n].name == i.runners[n].name
    ensures Open(AfterTick(i)[n]) ==>
      OpenBeyond(i.runners[n]) || (Ours(i.runners[n]) && IndexAmongOurs(i.runners, n) in Slotting(i))
  {
  }

  /** One tick that takes effect does not raise the bound. */
  lemma TickKeepsBound(i: Input)
    requires Capping(i) && !i.hostOff && i.cfg.mode == Enforce && DistinctNames(i.runners)
    requires Truthful(Host(i.runners, i.prev))
    ensures Bound(i.cfg, AfterTick(i)) <= Bound(i.cfg, i.runners)
    ensures Count(AfterTick(i), Loose) == Count(i.runners, Loose)
    ensures DistinctNames(AfterTick(i))
  {
    var before, after := i.runners, AfterTick(i);
    forall n | 0 <= n < |before|
      ensures Busy(after[n]) == Busy(before[n]) && Loose(after[n]) == Loose(before[n])
      ensures after[n].name == before[n].name
      ensures Open(after[n]) ==>
        OpenBeyond(before[n]) || (Ours(before[n]) && IndexAmongOurs(before, n) in Slotting(i))
    {
      OpenAfterTick(i, n);
    }
    CountImplies(after, before, Busy, Busy);
    CountImplies(before, after, Busy, Busy);
    CountImplies(after, before, Loose, Loose);
    CountImplies(before, after, Loose, Loose);
    CountImplies(before, before, OpenBeyond, Open);
    CountImplies(before, before, OpenBeyond, Loose);
    OpenAreSlotted(before, after, Slotting(i), |before|);
    assert before[..|before|] == before && after[..|after|] == after;
    BelowIsFew(Slotting(i), IndexAmongOurs(before, |before|));
    SlotsWithinCap(i);
  }

  // ---- runs -----------------------------------------------------------------

  /** One thing that happens on the host inside an enforcing window. */
  datatype Event =
    | Tick(now: int, jobs: seq<Job>)
    | Start(n: nat, worker: bool)   // GitHub hands runner n a job; its Worker may already show
    | Worker(n: nat)                // the Worker of a job already handed over shows
    | Finish(n: nat)                // runner n's job ends; a draining runner stops
    | GoOffline(n: nat)

  function TickInput(cfg: Config, h: Host, now: int, jobs: seq<Job>): Input {
    Input(cfg, true, now, h.pending, false, h.runners, jobs)
  }

  predicate Possible(h: Host, e: Event) {
    match e
    case Tick(_, _) => true
    case Start(n, _) => n < |h.runners| && Open(h.runners[n])
    case Worker(n) => n < |h.runners| && h.runners[n].ghBusy
    case Finish(n) => n < |h.runners| && Busy(h.runners[n])
    case GoOffline(n) => n < |h.runners|
  }

  function Next(cfg: Config, h: Host, e: Event): Host
    requires Possible(h, e)
  {
    match e
    case Tick(now, jobs) =>
      var i := TickInput(cfg, h, now, jobs);
      Host(AfterTick(i), PendingAfter(i))
    case Start(n, worker) => h.(runners := h.runners[n := h.runners[n].(ghBusy := true, workingLocally := worker)])
    case Worker(n) => h.(runners := h.runners[n := h.runners[n].(workingLocally := true)])
    case Finish(n) =>
      var idle := h.runners[n].(ghBusy := false, workingLocally := false);
      h.(runners := h.runners[n := if Marked(idle) then idle.(drainState := Drained, ghOnline := false) else idle])
    case GoOffline(n) => h.(runners := h.runners[n := h.runners[n].(ghOnline := false)])
  }

  /** h' is where the events lead from h, each possible when it happens. */
  predicate Run(cfg: Config, h: Host, events: seq<Event>, h': Host)
    decreases |events|
  {
    if events == [] then h == h'
    else Possible(h, events[0]) && Run(cfg, Next(cfg, h, events[0]), events[1..], h')
  }

  ghost predicate Sound(h: Host) {
    DistinctNames(h.runners) && Truthful(h)
  }

  lemma {:induction false} CountUpdate<T>(xs: seq<T>, n: nat, x: T, p: T -> bool)
    requires n < |xs|
    ensures Count(xs[n := x], p) == Count(xs, p) - (if p(xs[n]) then 1 else 0) + (if p(x) then 1 else 0)
  {
    if n == 0 {
      assert xs[0 := x][1..] == xs[1..];
    } else {
      assert xs[n := x][1..] == xs[1..][n - 1 := x];
      CountUpdate(xs[1..], n - 1, x, p);
    }
  }

  /** Every event keeps the memory truthful and does not raise the bound. */
  lemma StepKeepsBound(cfg: Config, h: Host, e: Event)
    requires cfg.mode == Enforce && Sound(h) && Possible(h, e)
    ensures Sound(Next(cfg, h, e))
    ensures Bound(cfg, Next(cfg, h, e).runners) <= Bound(cfg, h.runners)
    ensures Count(Next(cfg, h, e).runners, Loose) <= Count(h.runners, Loose)
  {
    match e
    case Tick(now, jobs) =>
      var i := TickInput(cfg, h, now, jobs);
      TickKeepsTruth(i);
      TickKeepsBound(i);
    case _ =>
      OutsideKeepsBound(cfg, h, e.n, Next(cfg, h, e).runners[e.n]);
  }

  /** A change to one runner that keeps its name and marker, and swaps at most an open runner for a busy one. */
  lemma OutsideKeepsBound(cfg: Config, h: Host, n: nat, r: Runner)
    requires Sound(h) && n < |h.runners|
    requires r.name == h.runners[n].name && Own(r) == Own(h.runners[n]) && (Loose(r) ==> Loose(h.runners[n]))
    requires Busy(r) || Open(r) ==> Busy(h.runners[n]) || Open(h.runners[n])
    ensures Sound(h.(runners := h.runners[n := r]))
    ensures Bound(cfg, h.runners[n := r]) <= Bound(cfg, h.runners)
    ensures Count(h.runners[n := r], Loose) <= Count(h.runners, Loose)
  {
    CountUpdate(h.runners, n, r, Busy);
    CountUpdate(h.runners, n, r, Open);
    CountUpdate(h.runners, n, r, Loose);
  }

  /**
   The closed loop. Over any run of ticks, job starts and job finishes inside an
   enforcing window, the larger of the cap (raised by the loose runners) and the
   load never rises; so a host once within that bound stays within it.
   */
  lemma {:induction false} LoadNeverRises(cfg: Config, h: Host, events: seq<Event>, h': Host)
    requires cfg.mode == Enforce && Sound(h) && Run(cfg, h, events, h')
    ensures Sound(h')
    ensures Bound(cfg, h'.runners) <= Bound(cfg, h.runners)
    ensures Count(h'.runners, Loose) <= Count(h.runners, Loose)
    ensures Load(h.runners) <= cfg.maxBusy + Count(h.runners, Loose) ==>
              Count(h'.runners, Busy) <= Load(h'.runners) <= cfg.maxBusy + Count(h.runners, Loose)
    decreases |events|
  {
    if events != [] {
      StepKeepsBound(cfg, h, events[0]);
      LoadNeverRises(cfg, Next(cfg, h, events[0]), events[1..], h');
    }
  }

  // A host with one slot free: an idle ephemeral runner, a parked runner, and a job for it.
  const CAP_OF_ONE := Config(Enforce, 1, 180_000)
  const SPARE := Runner("a", None, "o/r", [], true, false, false, false, NotDrained, None, true)
  const PARKED := Runner("b", Some("b"), "o/r", [], false, false, false, false, Drained, Some(NIGHT_CAP_OWNER), false)
  const QUEUED := Job("1/1", 1, "o/r", [], 0, None)

  lemma FilterOne<T(!new)>(x: T, p: T -> bool)
    ensures Filter([x], p) == if p(x) then [x] else []
  {
    assert [x][1..] == [];
  }

  lemma ParkedIsOurs()
    ensures OursOf([SPARE, PARKED]) == [PARKED]
  {
    assert [SPARE, PARKED][1..] == [PARKED];
    FilterOne(PARKED, Ours);
  }

  lemma QueuedIsWaiting()
    ensures Waiting([QUEUED], [PARKED]) == [QUEUED]
  {
    assert CouldStart(QUEUED, [PARKED]) by {
      assert PARKED in [PARKED] && Fits(QUEUED, PARKED);
    }
    assert StartableOn([PARKED])(QUEUED);
    FilterOne(QUEUED, StartableOn([PARKED]));
    assert [QUEUED][1..] == [];
    assert SortByAge([QUEUED]) == InsertByAge(QUEUED, SortByAge([]));
  }

  lemma CountTwo(a: Runner, b: Runner, p: Runner -> bool)
    ensures Count([a, b], p) == (if p(a) then 1 else 0) + (if p(b) then 1 else 0)
  {
    assert [a, b] == [a] + [b];
    CountAppend([a], [b], p);
    assert [a][1..] == [] && [b][1..] == [];
  }

  lemma ParkedGetsTheSlot(i: Input)
    requires i == Input(CAP_OF_ONE, true, 0, map[], false, [SPARE, PARKED], [QUEUED])
    ensures 0 in Slotting(i)
  {
    ParkedIsOurs();
    QueuedIsWaiting();
    CountTwo(SPARE, PARKED, Busy);
    var fits, rank := FitTable([QUEUED], [PARKED]), RankTable([PARKED], Remembered(i));
    assert Slots.Candidate(fits, rank, 0, 0, map[]);
    assert Slots.Pick(fits, rank, 1, 0, map[]) == Some(0);
    assert Slotting(i) == Slots.Assign(fits, rank, 1, 1, 0, 1, map[]);
  }

  /**
   The bound cannot do without the loose runners: the queued
   job brings the parked runner back, and with the idle ephemeral runner two
   jobs can then start under a cap of one.
   */
  lemma EphemeralRunnersEscapeTheCap(h: Host, e: Event)
    requires h == Host([SPARE, PARKED], map[]) && e == Tick(0, [QUEUED])
    ensures Sound(h) && Possible(h, e)
    ensures Load(h.runners) <= CAP_OF_ONE.maxBusy < Load(Next(CAP_OF_ONE, h, e).runners)
  {
    var i := TickInput(CAP_OF_ONE, h, 0, [QUEUED]);
    ParkedGetsTheSlot(i);
    assert IndexAmongOurs(h.runners, 1) == 0 by {
      assert h.runners[..1] == [SPARE];
      FilterOne(SPARE, Ours);
    }
    assert VerdictOn(i, 1) == Act(Resume);
    var back := Carry(Resume, PARKED);
    assert AfterTick(i) == [SPARE, back];
    CountTwo(SPARE, PARKED, Busy);
    CountTwo(SPARE, PARKED, Open);
    CountTwo(SPARE, back, Busy);
    CountTwo(SPARE, back, Open);
  }

  // ---- the end of the window, and the way back under the cap -----------------

  /**
   When the window ends, or the cap is switched off, one step takes the cap's marker
   off every runner, except where it may not act: on a runner without a directory here
   or an ephemeral one, in observe mode, or on a host switched off. No other marker
   changes.
   */
  lemma WindowEndResumesAll(i: Input, n: nat)
    requires !Capping(i) && DistinctNames(i.runners) && Truthful(Host(i.runners, i.prev)) && n < |i.runners|
    ensures Own(AfterTick(i)[n])
       <==> Own(i.runners[n]) && (!Ours(i.runners[n]) || i.cfg.mode == Observe || i.hostOff)
    ensures !Own(i.runners[n]) ==> AfterTick(i)[n] == i.runners[n]
  {
    if Own(i.runners[n]) && Ours(i.runners[n]) && !i.hostOff {
      OurPlace(i.runners, n);
      var k := IndexAmongOurs(i.runners, n);
      assert VerdictAt(i, k) == Act(Resume);
      ActionListed(i, |OursOf(i.runners)|, k, Resume);
      assert Issued(i) != [];
    }
  }

  /** Over the cap, every working runner the cap may touch is draining after the step. */
  lemma OverCapDrains(i: Input, n: nat)
    requires Capping(i) && i.cfg.mode == Enforce && !i.hostOff && BusyCount(i.runners) > i.cfg.maxBusy
    requires DistinctNames(i.runners) && Truthful(Host(i.runners, i.prev))
    requires n < |i.runners| && Ours(i.runners[n]) && i.runners[n].workingLocally && !Others(i.runners[n])
    ensures Own(AfterTick(i)[n])
  {
    SlotsWithinCap(i);
    assert Slotting(i) == map[];
  }

  /** And the end of a draining runner's job takes it out of the load for good. */
  lemma DrainedFinishLowersLoad(cfg: Config, h: Host, n: nat)
    requires n < |h.runners| && Busy(h.runners[n]) && Marked(h.runners[n])
    ensures Load(Next(cfg, h, Finish(n)).runners) == Load(h.runners) - 1
  {
    var r' := Next(cfg, h, Finish(n)).runners[n];
    CountUpdate(h.runners, n, r', Busy);
    CountUpdate(h.runners, n, r', Open);
  }
}
