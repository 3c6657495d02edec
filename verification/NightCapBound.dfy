/**
 When the night cap holds by itself: the hosts on which no run of an enforcing
 window leads past maxBusy, exactly (decideNightCap of dashboard/lib/night-cap.js).
 */
module NightCapBound {
  import opened Wrappers
  import opened Text
  import opened NightCap
  import opened NightCapLoop
  import Slots

  /** A runner that runs a job, would take one, or would after a resume by the cap. */
  predicate Live(r: Runner) {
    Busy(r) || Open(r) || (Ours(r) && Own(r))
  }

  /** No run leads past the cap. */
  ghost predicate StaysWithinCap(cfg: Config, h: Host) {
    forall events, h' | Run(cfg, h, events, h') :: Load(h'.runners) <= cfg.maxBusy
  }

  /** Nor does one in which every queued job has a key of its own, as queuedJobs gives it. */
  ghost predicate StaysWithinCapKeyed(cfg: Config, h: Host) {
    forall events, h' | Run(cfg, h, events, h') && Keyed(events) :: Load(h'.runners) <= cfg.maxBusy
  }

  predicate KeysApart(jobs: seq<Job>) {
    forall i, j | 0 <= i < j < |jobs| :: jobs[i].key != jobs[j].key
  }

  predicate Keyed(events: seq<Event>) {
    forall e | e in events && e.Tick? :: KeysApart(e.jobs)
  }

  // ---- what holds without more --------------------------------------------------

  lemma {:induction false} CountBoth<T>(xs: seq<T>, p: T -> bool, q: T -> bool, both: T -> bool)
    requires forall x | x in xs :: !(p(x) && q(x)) && (both(x) <==> p(x) || q(x))
    ensures Count(xs, both) == Count(xs, p) + Count(xs, q)
  {
    if xs != [] {
      assert forall x | x in xs[1..] :: x in xs;
      assert xs[0] in xs;
      CountBoth(xs[1..], p, q, both);
    }
  }

  predicate Loaded(r: Runner) {
    Busy(r) || Open(r)
  }

  lemma LoadCounts(rs: seq<Runner>)
    ensures Load(rs) == Count(rs, Loaded)
  {
    CountBoth(rs, Busy, Open, Loaded);
  }

  /** Nothing that happens makes a runner live that is not. */
  lemma LiveNeverRises(cfg: Config, h: Host, e: Event)
    requires cfg.mode == Enforce && Possible(h, e)
    ensures Count(Next(cfg, h, e).runners, Live) <= Count(h.runners, Live)
  {
    var after := Next(cfg, h, e).runners;
    forall n | 0 <= n < |after| && Live(after[n]) ensures Live(h.runners[n]) {
      if e.Tick? {
        LiveAfterTick(TickInput(cfg, h, e.now, e.jobs), n);
      }
    }
    CountImplies(after, h.runners, Live, Live);
  }

  lemma LiveAfterTick(i: Input, n: nat)
    requires Capping(i) && n < |i.runners| && Live(AfterTick(i)[n])
    ensures Live(i.runners[n])
  {
  }

  lemma {:induction false} FewLiveStay(cfg: Config, h: Host, events: seq<Event>, h': Host)
    requires cfg.mode == Enforce && Run(cfg, h, events, h')
    ensures Load(h'.runners) <= Count(h.runners, Live)
    decreases |events|
  {
    if events == [] {
      LoadCounts(h.runners);
      CountImplies(h.runners, h.runners, Loaded, Live);
    } else {
      LiveNeverRises(cfg, h, events[0]);
      FewLiveStay(cfg, Next(cfg, h, events[0]), events[1..], h');
    }
  }

  // ---- the run that leads past the cap: the loose runners finish ------------------

  predicate BusyLoose(r: Runner) {
    Busy(r) && Loose(r)
  }

  lemma {:induction false} SomeCounted<T>(xs: seq<T>, p: T -> bool) returns (n: nat)
    requires Count(xs, p) > 0
    ensures n < |xs| && p(xs[n])
  {
    if p(xs[0]) {
      n := 0;
    } else {
      n := SomeCounted(xs[1..], p);
      n := n + 1;
    }
  }

  /** What finishing a loose runner's job leaves alone. */
  ghost predicate SameButFinished(h: Host, h': Host) {
    && Sound(h') && Load(h'.runners) == Load(h.runners)
    && Count(h'.runners, Loose) == Count(h.runners, Loose)
    && Count(h'.runners, Live) == Count(h.runners, Live)
  }

  lemma FinishLoose(cfg: Config, h: Host, n: nat)
    requires Sound(h) && n < |h.runners| && BusyLoose(h.runners[n])
    ensures var h' := Next(cfg, h, Finish(n));
      SameButFinished(h, h') && Count(h'.runners, BusyLoose) == Count(h.runners, BusyLoose) - 1
  {
    var r := Next(cfg, h, Finish(n)).runners[n];
    CountUpdate(h.runners, n, r, Busy);
    CountUpdate(h.runners, n, r, Open);
    CountUpdate(h.runners, n, r, Loose);
    CountUpdate(h.runners, n, r, Live);
    CountUpdate(h.runners, n, r, BusyLoose);
  }

  /** All loose runners finish their jobs. */
  lemma {:induction false} FinishAllLoose(cfg: Config, h: Host) returns (events: seq<Event>, h': Host)
    requires Sound(h)
    ensures Run(cfg, h, events, h') && SameButFinished(h, h') && Count(h'.runners, BusyLoose) == 0
    ensures forall e | e in events :: e.Finish?
    decreases Count(h.runners, BusyLoose)
  {
    if Count(h.runners, BusyLoose) == 0 {
      events, h' := [], h;
    } else {
      var n := SomeCounted(h.runners, BusyLoose);
      FinishLoose(cfg, h, n);
      var rest;
      rest, h' := FinishAllLoose(cfg, Next(cfg, h, Finish(n)));
      events := [Finish(n)] + rest;
      assert events[1..] == rest;
    }
  }

  // ---- and then jobs queue for every runner of ours --------------------------------

  /** A job of its own number that r could take. */
  function Call(r: Runner, number: nat): Job {
    Job(IntText(number), number, r.repo, [], 0, None)
  }

  function CallsTo(r: Runner, n: nat, from: nat): (jobs: seq<Job>)
    ensures |jobs| == n && forall i | 0 <= i < n :: jobs[i] == Call(r, from + i)
  {
    seq(n, (m: nat) => Call(r, from + m))
  }

  /** n jobs for each runner, numbered from `from` on. */
  function Calls(rs: seq<Runner>, n: nat, from: nat): (jobs: seq<Job>)
    ensures forall i | 0 <= i < |jobs| :: jobs[i].runId == from + i && jobs[i].key == IntText(from + i)
  {
    if rs == [] then []
    else
      var first, rest := CallsTo(rs[0], n, from), Calls(rs[1..], n, from + n);
      assert forall i | n <= i < |first + rest| :: (first + rest)[i] == rest[i - n];
      first + rest
  }

  /** Those of runner k. */
  lemma {:induction false} CallsHold(rs: seq<Runner>, n: nat, from: nat, k: nat) returns (base: nat)
    requires k < |rs|
    ensures forall number: nat | base <= number < base + n :: Call(rs[k], number) in Calls(rs, n, from)
  {
    var first, rest := CallsTo(rs[0], n, from), Calls(rs[1..], n, from + n);
    if k == 0 {
      base := from;
      forall number: nat | base <= number < base + n ensures Call(rs[k], number) in first + rest {
        assert first[number - base] == Call(rs[k], number);
      }
    } else {
      base := CallsHold(rs[1..], n, from + n, k - 1);
      assert rs[1..][k - 1] == rs[k];
    }
  }

  lemma CallsApart(rs: seq<Runner>, n: nat, from: nat)
    ensures KeysApart(Calls(rs, n, from))
  {
    var jobs := Calls(rs, n, from);
    forall i, j | 0 <= i < j < |jobs| ensures jobs[i].key != jobs[j].key {
      if jobs[i].key == jobs[j].key {
        SameIntText(from + i, from + j);
      }
    }
  }

  /** A time by which everything remembered has aged out. */
  lemma {:induction false} LateEnough(pending: Pending, retryMs: int) returns (now: int)
    ensures forall name | name in pending :: now - pending[name].at >= retryMs
    decreases |pending|
  {
    if pending.Keys == {} {
      now := 0;
    } else {
      var name :| name in pending.Keys;
      now := LateEnough(pending - {name}, retryMs);
      forall x | x in pending && x != name ensures now - pending[x].at >= retryMs {
        assert x in pending - {name};
      }
      if now < pending[name].at + retryMs {
        now := pending[name].at + retryMs;
      }
    }
  }

  /** The tick of the run: nothing remembered, and more jobs for each runner than there are runners. */
  predicate Flooded(i: Input) {
    && Capping(i) && i.cfg.mode == Enforce && !i.hostOff && Remembered(i) == map[]
    && i.jobs == Calls(OursOf(i.runners), |OursOf(i.runners)| + 1, 1)
  }

  lemma CallWaits(i: Input, k: nat, number: nat)
    requires Flooded(i) && k < |OursOf(i.runners)| && Call(OursOf(i.runners)[k], number) in i.jobs
    ensures Call(OursOf(i.runners)[k], number) in Waiting(i.jobs, OursOf(i.runners))
  {
    var ours := OursOf(i.runners);
    assert ours[k] in ours;
    assert Fits(Call(ours[k], number), ours[k]);
  }

  /** The first n indices, and n numbers from a base on. */
  function Indices(n: nat): (s: set<nat>)
    ensures |s| == n && forall k: nat :: k in s <==> k < n
  {
    if n == 0 then {} else Indices(n - 1) + {n - 1}
  }

  function Numbers(base: nat, n: nat): (s: set<int>)
    ensures |s| == n && forall x :: x in s <==> base <= x < base + n
  {
    if n == 0 then {} else Numbers(base, n - 1) + {base + n - 1}
  }

  /** The numbers of the jobs that got a slot. */
  function Given(waiting: seq<Job>, slotting: Slots.Slotting, ks: set<nat>): set<int>
    requires forall k | k in ks :: k in slotting && slotting[k] < |waiting|
  {
    set k | k in ks :: waiting[slotting[k]].runId
  }

  /** At most one job is given to each runner. */
  lemma {:induction false} GivenAreFew(waiting: seq<Job>, slotting: Slots.Slotting, ks: set<nat>)
    requires forall k | k in ks :: k in slotting && slotting[k] < |waiting|
    ensures |Given(waiting, slotting, ks)| <= |ks|
  {
    if ks != {} {
      var k :| k in ks;
      GivenAreFew(waiting, slotting, ks - {k});
      assert Given(waiting, slotting, ks) == Given(waiting, slotting, ks - {k}) + {waiting[slotting[k]].runId};
    }
  }

  lemma SlotsAreOurs(i: Input)
    ensures forall k | k in Slotting(i) ::
              k < |OursOf(i.runners)| && Slotting(i)[k] < |Waiting(i.jobs, OursOf(i.runners))|
  {
    StepSlotsAreGood(i);
    var ours := OursOf(i.runners);
    var waiting := Waiting(i.jobs, ours);
    forall k | k in Slotting(i) ensures k < |ours| && Slotting(i)[k] < |waiting| {
      assert Slots.WellSlotted(FitTable(waiting, ours), RankTable(ours, Remembered(i)), |ours|, Slotting(i), k);
    }
  }

  /** The jobs that got a slot: fewer than a runner's. */
  lemma FewGiven(i: Input)
    requires Flooded(i)
    ensures forall k | k in Slotting(i).Keys ::
              k in Slotting(i) && Slotting(i)[k] < |Waiting(i.jobs, OursOf(i.runners))|
    ensures |Given(Waiting(i.jobs, OursOf(i.runners)), Slotting(i), Slotting(i).Keys)| <= |OursOf(i.runners)|
  {
    SlotsAreOurs(i);
    SubsetIsSmaller(Slotting(i).Keys, Indices(|OursOf(i.runners)|));
    GivenAreFew(Waiting(i.jobs, OursOf(i.runners)), Slotting(i), Slotting(i).Keys);
  }

  lemma SomeOther(numbers: set<int>, given: set<int>) returns (x: int)
    requires |given| < |numbers|
    ensures x in numbers && x !in given
  {
    if forall x | x in numbers :: x in given {
      SubsetIsSmaller(numbers, given);
    }
    x :| x in numbers && x !in given;
  }

  lemma LeftAt(waiting: seq<Job>, slotting: Slots.Slotting, q: Job) returns (j: nat)
    requires forall k | k in slotting.Keys :: k in slotting && slotting[k] < |waiting|
    requires q in waiting && q.runId !in Given(waiting, slotting, slotting.Keys)
    ensures j < |waiting| && waiting[j] == q && j !in slotting.Values
  {
    j :| 0 <= j < |waiting| && waiting[j] == q;
  }

  /** Of the jobs of runner k, one is not among so few. */
  lemma SomeCall(ours: seq<Runner>, k: nat, given: set<int>) returns (number: nat)
    requires k < |ours| && |given| <= |ours|
    ensures Call(ours[k], number) in Calls(ours, |ours| + 1, 1) && number !in given
  {
    var base := CallsHold(ours, |ours| + 1, 1, k);
    var x := SomeOther(Numbers(base, |ours| + 1), given);
    number := x;
  }

  /** So one of a runner's jobs goes without a slot. */
  lemma CallLeft(i: Input, k: nat) returns (j: nat)
    requires Flooded(i) && k < |OursOf(i.runners)|
    ensures var waiting := Waiting(i.jobs, OursOf(i.runners));
      && j < |waiting| && j !in Slotting(i).Values
      && waiting[j].repo == OursOf(i.runners)[k].repo && waiting[j].labels == []
  {
    var ours := OursOf(i.runners);
    var waiting := Waiting(i.jobs, ours);
    FewGiven(i);
    var number := SomeCall(ours, k, Given(waiting, Slotting(i), Slotting(i).Keys));
    CallWaits(i, k, number);
    j := LeftAt(waiting, Slotting(i), Call(ours[k], number));
  }

  /** A runner of ours that takes jobs, or would after a resume. */
  predicate Usable(r: Runner) {
    Ours(r) && !Busy(r) && (Open(r) || Own(r))
  }

  /** Every slot goes, or every runner that can use one has one. */
  lemma SlotsGo(i: Input)
    requires Flooded(i)
    ensures |Slotting(i)| == SlotCount(i)
         || forall k | 0 <= k < |OursOf(i.runners)| && Usable(OursOf(i.runners)[k]) :: k in Slotting(i)
  {
    var ours := OursOf(i.runners);
    var waiting := Waiting(i.jobs, ours);
    var fits, rank := FitTable(waiting, ours), RankTable(ours, Remembered(i));
    StepSlotsAreGood(i);
    if |Slotting(i)| != SlotCount(i) {
      forall k | 0 <= k < |ours| && Usable(ours[k]) ensures k in Slotting(i) {
        var j := CallLeft(i, k);
        assert Slots.RightlyLeft(fits, rank, |ours|, SlotCount(i), Slotting(i), j);
        assert fits(j, k) && rank(k) < Slots.UNUSABLE;
        assert !Slots.FreeFor(fits, rank, Slotting(i), j, k);
      }
    }
  }

  // ---- the load after that tick -----------------------------------------------------

  lemma SlottedWell(i: Input, k: nat)
    requires Flooded(i) && k in Slotting(i)
    ensures k < |OursOf(i.runners)|
    ensures exists j: nat :: FitTable(Waiting(i.jobs, OursOf(i.runners)), OursOf(i.runners))(j, k)
    ensures RankTable(OursOf(i.runners), Remembered(i))(k) < Slots.UNUSABLE
  {
    var ours := OursOf(i.runners);
    var waiting := Waiting(i.jobs, ours);
    StepSlotsAreGood(i);
    assert Slots.WellSlotted(FitTable(waiting, ours), RankTable(ours, Remembered(i)), |ours|, Slotting(i), k);
  }

  /** A slotted runner is one that can use it. */
  lemma SlottedUsable(i: Input, k: nat)
    requires Flooded(i) && k in Slotting(i)
    ensures k < |OursOf(i.runners)| && Usable(OursOf(i.runners)[k])
  {
    SlottedWell(i, k);
    assert OursOf(i.runners)[k] in OursOf(i.runners);
  }

  lemma UsableOpens(i: Input, r: Runner)
    requires Flooded(i) && Usable(r)
    ensures match Judge(i, r, true)
      case Act(kind) => kind == Resume && Open(Carry(Resume, r))
      case _ => Open(r)
  {
  }

  /** And it is open afterwards. */
  lemma SlottedOpens(i: Input, n: nat)
    requires Flooded(i) && n < |i.runners| && Ours(i.runners[n])
    requires IndexAmongOurs(i.runners, n) in Slotting(i)
    ensures Open(AfterTick(i)[n])
  {
    OurPlace(i.runners, n);
    SlottedUsable(i, IndexAmongOurs(i.runners, n));
    UsableOpens(i, i.runners[n]);
    assert VerdictOn(i, n) == Judge(i, i.runners[n], true);
  }

  /** Runner n was open beyond the cap's reach, or has a slot. */
  predicate WillBeOpen(before: seq<Runner>, slotting: Slots.Slotting, n: nat)
    requires n < |before|
  {
    OpenBeyond(before[n]) || (Ours(before[n]) && IndexAmongOurs(before, n) in slotting)
  }

  lemma OneMoreBelow(before: seq<Runner>, slotting: Slots.Slotting, n: nat)
    requires n < |before|
    ensures |Below(slotting, IndexAmongOurs(before, n + 1))| == |Below(slotting, IndexAmongOurs(before, n))|
              + if Ours(before[n]) && IndexAmongOurs(before, n) in slotting then 1 else 0
  {
    OneMoreOurs(before, slotting, n);
  }

  lemma {:induction false} SlottedAreOpen(before: seq<Runner>, after: seq<Runner>, slotting: Slots.Slotting, n: nat)
    requires |before| == |after| && n <= |before|
    requires forall m | 0 <= m < |before| && WillBeOpen(before, slotting, m) :: Open(after[m])
    ensures Count(after[..n], Open) >= Count(before[..n], OpenBeyond) + |Below(slotting, IndexAmongOurs(before, n))|
  {
    if n == 0 {
      assert before[..0] == [];
      assert Below(slotting, 0) == {};
    } else {
      SlottedAreOpen(before, after, slotting, n - 1);
      assert WillBeOpen(before, slotting, n - 1) ==> Open(after[n - 1]);
      CountSnoc(after, n - 1, Open);
      CountSnoc(before, n - 1, OpenBeyond);
      OneMoreBelow(before, slotting, n - 1);
    }
  }

  lemma BusyStays(i: Input, n: nat)
    requires n < |i.runners|
    ensures Busy(AfterTick(i)[n]) == Busy(i.runners[n])
  {
  }

  lemma LooseStays(i: Input, n: nat)
    requires n < |i.runners| && !Ours(i.runners[n])
    ensures AfterTick(i)[n] == i.runners[n]
  {
  }

  lemma FloodOpens(i: Input, n: nat)
    requires Flooded(i) && n < |i.runners|
    ensures Busy(AfterTick(i)[n]) == Busy(i.runners[n])
    ensures WillBeOpen(i.runners, Slotting(i), n) ==> Open(AfterTick(i)[n])
  {
    BusyStays(i, n);
    if !Ours(i.runners[n]) {
      LooseStays(i, n);
    } else if IndexAmongOurs(i.runners, n) in Slotting(i) {
      SlottedOpens(i, n);
    }
  }

  /** All slots gone: the busy runners fill the cap together with the slotted ones, and the loose come on top. */
  lemma FullSlotsLoad(i: Input)
    requires Flooded(i) && |Slotting(i)| == SlotCount(i) && BusyCount(i.runners) <= i.cfg.maxBusy
    requires Count(i.runners, BusyLoose) == 0
    ensures Load(AfterTick(i)) >= i.cfg.maxBusy + Count(i.runners, Loose)
  {
    var before, after := i.runners, AfterTick(i);
    forall n | 0 <= n < |before|
      ensures Busy(after[n]) == Busy(before[n]) && (WillBeOpen(before, Slotting(i), n) ==> Open(after[n]))
    {
      FloodOpens(i, n);
    }
    CountImplies(before, after, Busy, Busy);
    SlottedAreOpen(before, after, Slotting(i), |before|);
    assert before[..|before|] == before && after[..|after|] == after;
    SlotsAreOurs(i);
    assert Below(Slotting(i), |OursOf(before)|) == Slotting(i).Keys;
    LooseAreOpen(before);
  }

  lemma {:induction false} LooseAreOpen(rs: seq<Runner>)
    requires Count(rs, BusyLoose) == 0
    ensures Count(rs, OpenBeyond) == Count(rs, Loose)
  {
    if rs != [] {
      LooseAreOpen(rs[1..]);
    }
  }

  /** Every usable runner slotted: all that are live are open or busy. */
  lemma AllSlottedLoad(i: Input)
    requires Flooded(i) && BusyCount(i.runners) <= i.cfg.maxBusy
    requires forall k | 0 <= k < |OursOf(i.runners)| && Usable(OursOf(i.runners)[k]) :: k in Slotting(i)
    ensures Load(AfterTick(i)) >= Count(i.runners, Live)
  {
    var before, after := i.runners, AfterTick(i);
    forall n | 0 <= n < |before| && Live(before[n]) ensures Loaded(after[n]) {
      if Usable(before[n]) {
        OurPlace(before, n);
        SlottedOpens(i, n);
      }
    }
    CountImplies(before, after, Live, Loaded);
    LoadCounts(after);
  }

  // ---- exactly when -------------------------------------------------------------------

  lemma {:induction false} RunsJoin(
    cfg: Config, h: Host, first: seq<Event>, mid: Host, e: Event)
    requires Run(cfg, h, first, mid) && Possible(mid, e)
    ensures Run(cfg, h, first + [e], Next(cfg, mid, e))
    decreases |first|
  {
    if first == [] {
      assert [e][1..] == [];
    } else {
      RunsJoin(cfg, Next(cfg, h, first[0]), first[1..], mid, e);
      assert (first + [e])[1..] == first[1..] + [e];
    }
  }

  /** The run: loose runners finish, then jobs queue for every runner of ours. */
  lemma PastTheCap(cfg: Config, h: Host) returns (events: seq<Event>, h': Host)
    requires cfg.mode == Enforce && Sound(h) && Load(h.runners) <= cfg.maxBusy
    requires Count(h.runners, Loose) > 0 && Count(h.runners, Live) > cfg.maxBusy
    ensures Run(cfg, h, events, h') && Keyed(events) && Load(h'.runners) > cfg.maxBusy
  {
    var mid;
    events, mid := FinishAllLoose(cfg, h);
    var now := LateEnough(mid.pending, cfg.retryMs);
    var ours := OursOf(mid.runners);
    var e := Tick(now, Calls(ours, |ours| + 1, 1));
    var i := TickInput(cfg, mid, now, Calls(ours, |ours| + 1, 1));
    assert Remembered(i) == map[];
    SlotsGo(i);
    if |Slotting(i)| == SlotCount(i) {
      FullSlotsLoad(i);
    } else {
      AllSlottedLoad(i);
    }
    CallsApart(ours, |ours| + 1, 1);
    RunsJoin(cfg, h, events, mid, e);
    events, h' := events + [e], Next(cfg, mid, e);
  }

  /**
   The plain cap, exactly. From a host within the cap, no run of an enforcing window
   leads past it if and only if no runner is loose, or those that are busy, open or
   parked by the cap are within it all together.
   */
  lemma PlainCapIff(cfg: Config, h: Host)
    requires cfg.mode == Enforce && Sound(h) && Load(h.runners) <= cfg.maxBusy
    ensures StaysWithinCap(cfg, h)
       <==> Count(h.runners, Loose) == 0 || Count(h.runners, Live) <= cfg.maxBusy
    ensures StaysWithinCapKeyed(cfg, h)
       <==> Count(h.runners, Loose) == 0 || Count(h.runners, Live) <= cfg.maxBusy
  {
    if Count(h.runners, Loose) == 0 || Count(h.runners, Live) <= cfg.maxBusy {
      forall events, h' | Run(cfg, h, events, h') ensures Load(h'.runners) <= cfg.maxBusy {
        LoadNeverRises(cfg, h, events, h');
        FewLiveStay(cfg, h, events, h');
      }
    } else {
      var events, h' := PastTheCap(cfg, h);
      assert !StaysWithinCap(cfg, h) && !StaysWithinCapKeyed(cfg, h);
    }
  }
}
