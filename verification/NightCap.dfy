/**
 The night cap controller of dashboard/lib/night-cap.js: one step of
 decideNightCap, and that step closed into a loop with the runners it drains
 and resumes, the jobs that start and finish on them, and the memory it keeps.
 */
module NightCap {
  import opened Wrappers
  import opened Text
  import Slots

  const NIGHT_CAP_OWNER := "night-cap"

  /** Queue causes a runner coming online does not move. */
  const NOT_RUNNER_CAUSES: set<string> :=
    {"concurrency-block", "github-hosted", "label-mismatch", "telemetry-unavailable"}

  datatype Mode = Off | Observe | Enforce

  datatype Config = Config(mode: Mode, maxBusy: nat, retryMs: int)

  datatype DrainState = NotDrained | Draining | Drained

  datatype Runner = Runner(
    name: string,
    dirName: Option<string>,
    repo: string,
    labels: seq<string>,
    ghOnline: bool,
    ghUnknown: bool,
    workingLocally: bool,
    ghBusy: bool,
    drainState: DrainState,
    drainBy: Option<string>,
    ephemeral: bool)

  datatype Job = Job(key: string, runId: int, repo: string, labels: seq<string>, queuedSinceMs: nat,
      cause: Option<string>)

  datatype Kind = Drain | Resume

  datatype Sent = Sent(action: Kind, at: int)

  /** What the previous step sent and has not yet seen take effect, by runner name. */
  type Pending = map<string, Sent>

  datatype Action = Action(name: string, dirName: string, repo: string, kind: Kind)

  datatype Input = Input(
    cfg: Config,
    inWindow: bool,
    now: int,
    prev: Pending,
    hostOff: bool,
    runners: seq<Runner>,
    jobs: seq<Job>)

  datatype Decision = Decision(
    active: bool,
    busy: nat,
    slots: nat,
    slotted: map<string, string>,
    held: set<int>,
    actions: seq<Action>,
    applied: bool,
    deferred: seq<string>,
    parked: nat)

  // ---- reading a runner -----------------------------------------------------

  predicate Marked(r: Runner) {
    r.drainState != NotDrained
  }

  predicate Own(r: Runner) {
    Marked(r) && r.drainBy == Some(NIGHT_CAP_OWNER)
  }

  predicate Others(r: Runner) {
    Marked(r) && r.drainBy != Some(NIGHT_CAP_OWNER)
  }

  predicate Busy(r: Runner) {
    r.workingLocally || r.ghBusy
  }

  predicate Online(r: Runner) {
    r.ghOnline && !r.ghUnknown
  }

  /** A runner the cap may touch: it has a directory here and outlives its job. */
  predicate Ours(r: Runner) {
    !r.ephemeral && r.dirName.GetOr("") != ""
  }

  ghost predicate DistinctNames(rs: seq<Runner>) {
    forall i, j | 0 <= i < j < |rs| :: rs[i].name != rs[j].name
  }

  function Filter<T(!new)>(xs: seq<T>, p: T -> bool): (ys: seq<T>)
    ensures |ys| <= |xs|
    ensures forall y :: y in ys <==> y in xs && p(y)
  {
    if xs == [] then [] else (if p(xs[0]) then [xs[0]] else []) + Filter(xs[1..], p)
  }

  function Count<T>(xs: seq<T>, p: T -> bool): nat {
    if xs == [] then 0 else (if p(xs[0]) then 1 else 0) + Count(xs[1..], p)
  }

  function OursOf(rs: seq<Runner>): (ours: seq<Runner>)
    ensures forall r :: r in ours <==> r in rs && Ours(r)
  {
    Filter(rs, Ours)
  }

  predicate Covers(have: seq<string>, need: seq<string>) {
    forall n | n in need :: exists h | h in have :: Lower(h) == Lower(n)
  }

  predicate Fits(q: Job, r: Runner) {
    r.repo == q.repo && Covers(r.labels, q.labels)
  }

  predicate Parkable(r: Runner) {
    !Others(r) && !Busy(r)
  }

  // ---- who is waiting -------------------------------------------------------

  ghost predicate OldestFirst(js: seq<Job>) {
    forall i, j | 0 <= i < j < |js| :: js[i].queuedSinceMs >= js[j].queuedSinceMs
  }

  function InsertByAge(q: Job, js: seq<Job>): (r: seq<Job>)
    requires OldestFirst(js)
    ensures OldestFirst(r)
    ensures forall x :: x in r <==> x == q || x in js
  {
    if js == [] || q.queuedSinceMs >= js[0].queuedSinceMs then [q] + js
    else
      assert forall x | x in js[1..] :: js[0].queuedSinceMs >= x.queuedSinceMs;
      [js[0]] + InsertByAge(q, js[1..])
  }

  function SortByAge(js: seq<Job>): (r: seq<Job>)
    ensures OldestFirst(r)
    ensures forall x :: x in r <==> x in js
  {
    if js == [] then [] else InsertByAge(js[0], SortByAge(js[1..]))
  }

  predicate Aged(q: Job, age: int) {
    q.queuedSinceMs == age
  }

  function OfAge(age: int): Job -> bool {
    (q: Job) => Aged(q, age)
  }

  lemma FilterStep<T(!new)>(x: T, xs: seq<T>, p: T -> bool)
    ensures Filter([x] + xs, p) == (if p(x) then [x] else []) + Filter(xs, p)
  {
    assert ([x] + xs)[1..] == xs;
  }

  /** Of two elements of which one at most meets p, the order does not tell. */
  lemma FilterPast<T(!new)>(x: T, y: T, xs: seq<T>, p: T -> bool)
    requires !(p(x) && p(y))
    ensures Filter([x] + ([y] + xs), p) == Filter([y] + ([x] + xs), p)
  {
    FilterStep(x, [y] + xs, p);
    FilterStep(y, xs, p);
    FilterStep(y, [x] + xs, p);
    FilterStep(x, xs, p);
  }

  lemma {:induction false} InsertKeepsOrder(q: Job, js: seq<Job>, age: int)
    requires OldestFirst(js)
    ensures Filter(InsertByAge(q, js), OfAge(age)) == Filter([q] + js, OfAge(age))
  {
    if js != [] && q.queuedSinceMs < js[0].queuedSinceMs {
      InsertKeepsOrder(q, js[1..], age);
      FilterStep(js[0], InsertByAge(q, js[1..]), OfAge(age));
      FilterStep(js[0], [q] + js[1..], OfAge(age));
      FilterPast(js[0], q, js[1..], OfAge(age));
      assert js == [js[0]] + js[1..];
    }
  }

  /** Jobs queued equally long stay in the order they were listed. */
  lemma {:induction false} SortKeepsOrder(js: seq<Job>, age: int)
    ensures Filter(SortByAge(js), OfAge(age)) == Filter(js, OfAge(age))
  {
    if js != [] {
      SortKeepsOrder(js[1..], age);
      InsertKeepsOrder(js[0], SortByAge(js[1..]), age);
      FilterStep(js[0], SortByAge(js[1..]), OfAge(age));
    }
  }

  lemma {:induction false} InsertKeepsAll(q: Job, js: seq<Job>)
    requires OldestFirst(js)
    ensures multiset(InsertByAge(q, js)) == multiset(js) + multiset{q}
  {
    if !(js == [] || q.queuedSinceMs >= js[0].queuedSinceMs) {
      InsertKeepsAll(q, js[1..]);
      assert js == [js[0]] + js[1..];
    }
  }

  /** The sort loses and repeats nothing. */
  lemma {:induction false} SortKeepsAll(js: seq<Job>)
    ensures multiset(SortByAge(js)) == multiset(js)
  {
    if js != [] {
      SortKeepsAll(js[1..]);
      InsertKeepsAll(js[0], SortByAge(js[1..]));
      assert js == [js[0]] + js[1..];
    }
  }

  predicate CouldStart(q: Job, ours: seq<Runner>) {
    && (q.cause.Some? ==> q.cause.value !in NOT_RUNNER_CAUSES)
    && exists r | r in ours :: Fits(q, r)
  }

  function StartableOn(ours: seq<Runner>): Job -> bool {
    (q: Job) => CouldStart(q, ours)
  }

  /** The jobs a runner of this host could start, longest queued first. */
  function Waiting(jobs: seq<Job>, ours: seq<Runner>): (w: seq<Job>)
    ensures OldestFirst(w)
    ensures forall q :: q in w <==> q in jobs && CouldStart(q, ours)
  {
    SortByAge(Filter(jobs, StartableOn(ours)))
  }

  // ---- slots ----------------------------------------------------------------

  predicate Remembers(pending: Pending, name: string, kind: Kind) {
    name in pending && pending[name].action == kind
  }

  /** How gladly a runner takes a slot: already online, else coming back, else parked by the cap. */
  function Rank(r: Runner, pending: Pending): nat {
    if !Marked(r) && Online(r) then 0
    else if Remembers(pending, r.name, Resume) then 1
    else if Own(r) then 2
    else Slots.UNUSABLE
  }

  function FitTable(waiting: seq<Job>, ours: seq<Runner>): (nat, nat) -> bool {
    (j: nat, k: nat) => j < |waiting| && k < |ours| && Fits(waiting[j], ours[k]) && Parkable(ours[k])
  }

  function RankTable(ours: seq<Runner>, pending: Pending): nat -> nat {
    (k: nat) => if k < |ours| then Rank(ours[k], pending) else Slots.UNUSABLE
  }

  // ---- one step, as a function of its input ---------------------------------

  predicate Capping(i: Input) {
    i.cfg.mode != Off && i.inWindow
  }

  function BusyCount(rs: seq<Runner>): nat {
    Count(rs, Busy)
  }

  function SlotCount(i: Input): nat {
    var busy := BusyCount(i.runners);
    if Capping(i) && busy < i.cfg.maxBusy then i.cfg.maxBusy - busy else 0
  }

  /** What is still remembered: entries sent less than retryMs ago. */
  function Remembered(i: Input): Pending {
    map n | n in i.prev && i.now - i.prev[n].at < i.cfg.retryMs :: i.prev[n]
  }

  /** Runner index (among ours) to waiting-job index. */
  function Slotting(i: Input): Slots.Slotting {
    var ours := OursOf(i.runners);
    var waiting := Waiting(i.jobs, ours);
    if Capping(i)
    then Slots.Assign(FitTable(waiting, ours), RankTable(ours, Remembered(i)), |ours|, |waiting|, 0, SlotCount(i),
      map[])
    else map[]
  }

  /** What the step does about one runner. */
  datatype Verdict = Act(kind: Kind) | Forget | Leave

  /** An action is asked for: nothing when it shows already, and not again while it is remembered. */
  function Want(r: Runner, kind: Kind, remembered: Pending): Verdict {
    if (match kind case Drain => Own(r) case Resume => !Marked(r)) then Forget
    else if Remembers(remembered, r.name, kind) then Leave
    else Act(kind)
  }

  function Judge(i: Input, r: Runner, slotted: bool): Verdict {
    if !Capping(i) then
      if Own(r) then Want(r, Resume, Remembered(i)) else Leave
    else if Others(r) then Leave
    else if slotted then
      if Own(r) then Want(r, Resume, Remembered(i)) else Leave
    else if Busy(r) then
      if BusyCount(i.runners) > i.cfg.maxBusy && r.workingLocally && !Own(r) then Want(r, Drain, Remembered(i))
        else Leave
    else if Own(r) then Forget
    else if !Online(r) then Leave
    else Want(r, Drain, Remembered(i))
  }

  function VerdictAt(i: Input, k: nat): Verdict
    requires k < |OursOf(i.runners)|
  {
    Judge(i, OursOf(i.runners)[k], k in Slotting(i))
  }

  function ActionFor(r: Runner, kind: Kind): Action {
    Action(r.name, r.dirName.GetOr(""), r.repo, kind)
  }

  /** The actions for the first n of our runners, in the order of the list. */
  function ActionsUpTo(i: Input, n: nat): seq<Action>
    requires n <= |OursOf(i.runners)|
  {
    if n == 0 then []
    else
      ActionsUpTo(i, n - 1)
      + (match VerdictAt(i, n - 1)
         case Act(kind) => [ActionFor(OursOf(i.runners)[n - 1], kind)]
         case _ => [])
  }

  function ForgottenUpTo(i: Input, n: nat): set<string>
    requires n <= |OursOf(i.runners)|
  {
    set k | 0 <= k < n && VerdictAt(i, k).Forget? :: OursOf(i.runners)[k].name
  }

  function SentMap(actions: seq<Action>, now: int): Pending {
    if actions == [] then map[]
    else
      var last := actions[|actions| - 1];
      SentMap(actions[..|actions| - 1], now)[last.name := Sent(last.kind, now)]
  }

  function Issued(i: Input): seq<Action> {
    if i.hostOff then [] else ActionsUpTo(i, |OursOf(i.runners)|)
  }

  predicate Applied(i: Input) {
    i.cfg.mode == Enforce || (i.cfg.mode == Off && Issued(i) != [])
  }

  function PendingAfter(i: Input): Pending {
    (Remembered(i) - ForgottenUpTo(i, |OursOf(i.runners)|))
    + (if Applied(i) then SentMap(Issued(i), i.now) else map[])
  }

  function SlottedKeys(i: Input): set<string> {
    var waiting := Waiting(i.jobs, OursOf(i.runners));
    set k | k in Slotting(i) && Slotting(i)[k] < |waiting| :: waiting[Slotting(i)[k]].key
  }

  /** The runs with a job still waiting, including one whose other job just got a slot. */
  function HeldRuns(i: Input): set<int> {
    set q | q in Waiting(i.jobs, OursOf(i.runners)) && Capping(i) && q.key !in SlottedKeys(i) :: q.runId
  }

  /** slotted, by runner name and job key, says what slotting says by index. */
  ghost predicate SameSlots(names: seq<string>, keys: seq<string>, slotting: Slots.Slotting,
      slotted: map<string, string>)
  {
    && (forall k | k in slotting :: k < |names| && slotting[k] < |keys|)
    && slotted.Keys == (set k | k in slotting :: names[k])
    && forall k | k in slotting :: slotted[names[k]] == keys[slotting[k]]
  }

  function RunnerNames(rs: seq<Runner>): seq<string> {
    seq(|rs|, k requires 0 <= k < |rs| => rs[k].name)
  }

  function JobKeys(js: seq<Job>): seq<string> {
    seq(|js|, k requires 0 <= k < |js| => js[k].key)
  }

  /** What is said to be slotted: the runners of the slots by name, each with its job's key. */
  ghost predicate SlotsNamed(i: Input, slotted: map<string, string>) {
    var ours := OursOf(i.runners);
    var waiting := Waiting(i.jobs, ours);
    && (forall k | k in Slotting(i) :: k < |ours| && Slotting(i)[k] < |waiting|)
    && slotted.Keys == (set k | k in Slotting(i) && k < |ours| :: ours[k].name)
    && forall k | k in Slotting(i) :: slotted[ours[k].name] == waiting[Slotting(i)[k]].key
  }

  ghost predicate SlotsListed(i: Input, slotted: map<string, string>) {
    var ours := OursOf(i.runners);
    SameSlots(RunnerNames(ours), JobKeys(Waiting(i.jobs, ours)), Slotting(i), slotted)
  }

  lemma SlotsAreNamed(i: Input, slotted: map<string, string>)
    requires SlotsListed(i, slotted)
    ensures SlotsNamed(i, slotted)
  {
  }

  function Names(actions: seq<Action>): seq<string> {
    seq(|actions|, k requires 0 <= k < |actions| => actions[k].name)
  }

  lemma {:induction false} FilterDistinct(rs: seq<Runner>, p: Runner -> bool)
    requires DistinctNames(rs)
    ensures DistinctNames(Filter(rs, p))
  {
    if rs != [] {
      FilterDistinct(rs[1..], p);
      assert forall r | r in rs[1..] :: r.name != rs[0].name;
      var rest := Filter(rs[1..], p);
      assert forall k | 0 <= k < |rest| :: rest[k] in rs[1..];
    }
  }

  lemma {:induction false} SentMapKeys(actions: seq<Action>, now: int)
    ensures forall n :: n in SentMap(actions, now) <==> exists a | a in actions :: a.name == n
  {
    if actions != [] {
      SentMapKeys(actions[..|actions| - 1], now);
      assert actions == actions[..|actions| - 1] + [actions[|actions| - 1]];
    }
  }

  // ---- the step as the code takes it ----------------------------------------

  /** One tick of the night cap. */
  method DecideNightCap(i: Input) returns (pending: Pending, d: Decision)
    requires DistinctNames(i.runners)
    ensures pending == PendingAfter(i)
    ensures d.active == Capping(i) && d.busy == BusyCount(i.runners) && d.slots == SlotCount(i)
    ensures d.actions == Issued(i) && d.applied == Applied(i)
    ensures var asked := ActionsUpTo(i, |OursOf(i.runners)|);
      if i.hostOff then |d.deferred| == |asked| && forall n | 0 <= n < |asked| :: d.deferred[n] == asked[n].name
      else d.deferred == []
    ensures SlotsNamed(i, d.slotted)
    ensures d.held == HeldRuns(i)
    ensures d.parked == Count(OursOf(i.runners), Own)
  {
    var ours := OursOf(i.runners);
    FilterDistinct(i.runners, Ours);
    var busyN := BusyCount(i.runners);
    var capping := Capping(i);
    pending := Remembered(i);
    var slots, slotting, slotted, held := ServeQueue(i, ours, busyN, pending);
    SlotsAreNamed(i, slotted);
    var actions;
    actions, pending := JudgeAll(i, ours, slotting, pending);
    var issued, deferred := [], [];
    if i.hostOff {
      deferred := Names(actions);
    } else {
      issued := actions;
    }
    var applied := i.cfg.mode == Enforce || (i.cfg.mode == Off && |issued| > 0);
    if applied {
      pending := Remember(issued, pending, i.now);
    }
    d := Decision(capping, busyN, slots, slotted, held, issued, applied, deferred, Count(ours, Own));
  }

  /** The branch taken inside the window: slots, and who waits for one. */
  method ServeQueue(i: Input, ours: seq<Runner>, busyN: nat, remembered: Pending)
    returns (slots: nat, slotting: Slots.Slotting, slotted: map<string, string>, held: set<int>)
    requires ours == OursOf(i.runners) && DistinctNames(ours)
    requires busyN == BusyCount(i.runners) && remembered == Remembered(i)
    ensures slots == SlotCount(i) && slotting == Slotting(i)
    ensures SlotsListed(i, slotted) && held == HeldRuns(i)
  {
    slots, slotting, slotted, held := 0, map[], map[], {};
    if Capping(i) {
      var waiting := Waiting(i.jobs, ours);
      slots := if i.cfg.maxBusy > busyN then i.cfg.maxBusy - busyN else 0;
      slotting, slotted := AssignSlots(
        FitTable(waiting, ours), RankTable(ours, remembered), RunnerNames(ours), JobKeys(waiting), slots);
      held := HoldRest(waiting, SlottedKeys(i));
    }
  }

  /** The runs whose jobs got no slot. */
  method HoldRest(waiting: seq<Job>, given: set<string>) returns (held: set<int>)
    ensures held == set q | q in waiting && q.key !in given :: q.runId
  {
    held := {};
    for j := 0 to |waiting|
      invariant held == set q | q in waiting[..j] && q.key !in given :: q.runId
    {
      assert waiting[..j + 1] == waiting[..j] + [waiting[j]];
      if waiting[j].key !in given {
        held := held + {waiting[j].runId};
      }
    }
    assert waiting[..|waiting|] == waiting;
  }

  /** The loop over our runners: what to send, and what of the memory is settled. */
  method JudgeAll(i: Input, ours: seq<Runner>, slotting: Slots.Slotting, remembered: Pending)
    returns (actions: seq<Action>, pending: Pending)
    requires ours == OursOf(i.runners) && slotting == Slotting(i)
    ensures actions == ActionsUpTo(i, |ours|)
    ensures pending == remembered - ForgottenUpTo(i, |ours|)
  {
    actions, pending := [], remembered;
    for k := 0 to |ours|
      invariant actions == ActionsUpTo(i, k)
      invariant pending == remembered - ForgottenUpTo(i, k)
    {
      ForgottenStep(i, k);
      match VerdictAt(i, k)
      case Act(kind) =>
        actions := actions + [ActionFor(ours[k], kind)];
      case Forget =>
        pending := pending - {ours[k].name};
      case Leave =>
    }
  }

  lemma ForgottenStep(i: Input, k: nat)
    requires k < |OursOf(i.runners)|
    ensures ForgottenUpTo(i, k + 1)
         == ForgottenUpTo(i, k) + (if VerdictAt(i, k).Forget? then {OursOf(i.runners)[k].name} else {})
  {
  }

  /** The loop that remembers what was sent. */
  method Remember(issued: seq<Action>, kept: Pending, now: int) returns (pending: Pending)
    ensures pending == kept + SentMap(issued, now)
  {
    pending := kept;
    for k := 0 to |issued|
      invariant pending == kept + SentMap(issued[..k], now)
    {
      assert issued[..k + 1][..k] == issued[..k];
      pending := pending[issued[k].name := Sent(issued[k].kind, now)];
    }
    assert issued[..|issued|] == issued;
  }

  lemma SameSlotsStep(
    names: seq<string>, keys: seq<string>, slotting: Slots.Slotting, slotted: map<string, string>, k: nat, j: nat)
    requires k < |names| && j < |keys| && forall a, b | 0 <= a < b < |names| :: names[a] != names[b]
    requires SameSlots(names, keys, slotting, slotted)
    ensures SameSlots(names, keys, slotting[k := j], slotted[names[k] := keys[j]])
  {
  }

  /** The loop that hands out the free slots. */
  method AssignSlots(
    fits: (nat, nat) -> bool, rank: nat -> nat, names: seq<string>, keys: seq<string>, slots: nat)
    returns (slotting: Slots.Slotting, slotted: map<string, string>)
    requires forall a, b | 0 <= a < b < |names| :: names[a] != names[b]
    ensures slotting == Slots.Assign(fits, rank, |names|, |keys|, 0, slots, map[])
    ensures SameSlots(names, keys, slotting, slotted)
  {
    slotting, slotted := map[], map[];
    var left, j := slots, 0;
    while j < |keys| && left > 0
      invariant 0 <= j <= |keys|
      invariant Slots.Assign(fits, rank, |names|, |keys|, j, left, slotting)
             == Slots.Assign(fits, rank, |names|, |keys|, 0, slots, map[])
      invariant SameSlots(names, keys, slotting, slotted)
    {
      var r := Slots.Pick(fits, rank, |names|, j, slotting);
      if r.Some? {
        SameSlotsStep(names, keys, slotting, slotted, r.value, j);
        slotting := slotting[r.value := j];
        slotted := slotted[names[r.value] := keys[j]];
        left := left - 1;
      }
      j := j + 1;
    }
  }
}
