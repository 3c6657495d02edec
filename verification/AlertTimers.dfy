/**
 When a settle timer tells the truth: the runs of the alert engine
 (dashboard/lib/alerts.js) over the runners of one host, and the configurations under
 which a timer that runs, or a runner's alert that opens, means the runner was offline
 at every look since.
 */
module AlertTimers {
  import opened Wrappers
  import opened AlertHistory
  import opened Alerts

  datatype Rules = Rules(debounceMs: int, settleMs: int, threshold: int)

  /** The engine between two evaluations. */
  datatype Snapshot = Snapshot(past: seq<Moment>, pending: map<string, int>, book: Book)

  const EMPTY: Snapshot := Snapshot([], map[], Book(map[], map[], []))

  // ---- the runs of the engine over a fleet ------------------------------------------

  ghost predicate Kept(rules: Rules, s: Snapshot) {
    Recorded(rules.debounceMs, rules.settleMs, s.past, s.pending, s.book)
  }

  predicate Listed(fleet: set<string>, offline: seq<string>) {
    && (forall d | d in offline :: d in fleet)
    && forall i, j | 0 <= i < j < |offline| :: offline[i] != offline[j]
  }

  /** An evaluation as Engine.Evaluate promises it, told which runners of the fleet are offline. */
  ghost predicate Evaluates(
    rules: Rules, fleet: set<string>, s: Snapshot, offline: seq<string>, others: set<string>, m: Moment, s': Snapshot)
  {
    && Listed(fleet, offline) && (forall key | key in others :: !IsOffline(key)) && m.Evaluated?
    && Noticed(rules.settleMs, rules.threshold, s.pending, s.book.open.Keys, offline, others, m.now, m)
    && s'.past == s.past + [m]
    && Kept(rules, s')
  }

  /** A new process, as Engine.Reload promises it. */
  ghost predicate Restarts(rules: Rules, s: Snapshot, s': Snapshot) {
    s'.past == s.past + [Reloaded] && Kept(rules, s')
  }

  ghost predicate Step(rules: Rules, fleet: set<string>, s: Snapshot, s': Snapshot) {
    || Restarts(rules, s, s')
    || exists offline, others, m :: Evaluates(rules, fleet, s, offline, others, m, s')
  }

  /** From an empty table, with a clock that does not go back. */
  ghost predicate Run(rules: Rules, fleet: set<string>, states: seq<Snapshot>) {
    && |states| > 0 && states[0] == EMPTY
    && (forall i: nat | i + 1 < |states| :: Step(rules, fleet, states[i], states[i + 1]))
    && ForwardPast(states[|states| - 1].past)
  }

  /** Offline at the look at i, and at every look since. */
  ghost predicate AlwaysOffline(past: seq<Moment>, i: nat, d: string) {
    i < |past| && forall k: nat | i <= k < |past| :: past[k].Evaluated? && d in past[k].offline
  }

  /** A timer that runs was set at a look since which the runner was offline at all. */
  ghost predicate TimersTrue(s: Snapshot) {
    forall d | TimerOf(s.pending, d).Some? ::
      exists i: nat :: AlwaysOffline(s.past, i, d) && s.past[i].now == TimerOf(s.pending, d).value
  }

  /** A runner's own alert that opens in the step was offline at every look for the settle window. */
  ghost predicate OpensSettled(rules: Rules, s: Snapshot, s': Snapshot) {
    forall d | RunnerKey(d) in s'.book.open && RunnerKey(d) !in s.book.open ::
      && s'.past != [] && s'.past[|s'.past| - 1].Evaluated?
      && exists i: nat ::
           AlwaysOffline(s'.past, i, d) && s'.past[|s'.past| - 1].now - s'.past[i].now >= rules.settleMs
  }

  /** No run leads to a timer, or to an alert, that does not mean that. */
  ghost predicate TimersStayTrue(rules: Rules, fleet: set<string>) {
    forall states | Run(rules, fleet, states) :: TimersTrue(states[|states| - 1])
  }

  ghost predicate AlertsStaySettled(rules: Rules, fleet: set<string>) {
    forall states | Run(rules, fleet, states) && |states| > 1 ::
      OpensSettled(rules, states[|states| - 2], states[|states| - 1])
  }

  /** No timer is ever set: there is no window, or one runner offline counts as the host already. */
  predicate Timerless(rules: Rules) {
    rules.settleMs <= 0 || rules.threshold <= 1
  }

  /** Or the fleet is too small to count as the host. */
  predicate NothingHidesTimers(rules: Rules, fleet: set<string>) {
    Timerless(rules) || rules.threshold > |fleet|
  }

  // ---- where it holds ---------------------------------------------------------------

  lemma {:induction false} ListedFew(fleet: set<string>, offline: seq<string>)
    requires Listed(fleet, offline)
    ensures |offline| <= |fleet|
  {
    if offline != [] {
      var init, last := offline[..|offline| - 1], offline[|offline| - 1];
      forall d | d in init ensures d in fleet - {last} {
        var i :| 0 <= i < |init| && init[i] == d;
        assert offline[i] == d && d in offline;
      }
      ListedFew(fleet - {last}, init);
      assert last in offline;
    }
  }

  /** What a step makes of the timers and of the keys. */
  lemma StepTakes(rules: Rules, s: Snapshot, s': Snapshot, m: Moment)
    requires Kept(rules, s) && Kept(rules, s') && s'.past == s.past + [m]
    ensures forall d ::
              TimerOf(s'.pending, d) == TimerStep(rules.settleMs, TimerOf(s.pending, d), LookOf(m, d))
    ensures forall key ::
              View(s'.book, key) == KeyStep(Window(rules.debounceMs, key), View(s.book, key), EventOf(m, key))
  {
    PastGrows(rules.debounceMs, rules.settleMs, s.past, m);
    forall d ensures TimerOf(s'.pending, d) == TimerStep(rules.settleMs, TimerOf(s.pending, d), LookOf(m, d)) {
      assert TimerOf(s.pending, d) == TimerAfter(rules.settleMs, s.past, d);
      assert TimerOf(s'.pending, d) == TimerAfter(rules.settleMs, s'.past, d);
    }
    forall key
      ensures View(s'.book, key) == KeyStep(Window(rules.debounceMs, key), View(s.book, key), EventOf(m, key))
    {
      assert View(s.book, key) == KeyAfter(rules.debounceMs, s.past, key);
      assert View(s'.book, key) == KeyAfter(rules.debounceMs, s'.past, key);
    }
  }

  lemma EmptyKept(rules: Rules)
    ensures Kept(rules, EMPTY)
  {
  }

  /** What a run under such a configuration keeps: no timer at all, or no alert of the host. */
  ghost predicate Safe(rules: Rules, s: Snapshot) {
    && Kept(rules, s) && TimersTrue(s)
    && (if Timerless(rules) then forall d :: TimerOf(s.pending, d).None? else HOST_KEY !in s.book.open)
  }

  lemma RestartKeepsSafe(rules: Rules, s: Snapshot, s': Snapshot)
    requires Safe(rules, s) && Restarts(rules, s, s')
    ensures Safe(rules, s')
  {
    StepTakes(rules, s, s', Reloaded);
    assert View(s'.book, HOST_KEY).openedAt == View(s.book, HOST_KEY).openedAt;
  }

  /** The look of a moment more, when the runner was offline at all since i. */
  lemma StillOffline(past: seq<Moment>, i: nat, d: string, m: Moment)
    requires AlwaysOffline(past, i, d) && m.Evaluated? && d in m.offline
    ensures AlwaysOffline(past + [m], i, d) && (past + [m])[i] == past[i]
  {
  }

  lemma NowOffline(past: seq<Moment>, d: string, m: Moment)
    requires m.Evaluated? && d in m.offline
    ensures AlwaysOffline(past + [m], |past|, d) && (past + [m])[|past|] == m
  {
  }

  lemma TimersStepTrue(rules: Rules, s: Snapshot, s': Snapshot, m: Moment)
    requires rules.settleMs > 0 && TimersTrue(s) && m.Evaluated? && !m.hostWide && s'.past == s.past + [m]
    requires forall d :: TimerOf(s'.pending, d) == TimerStep(rules.settleMs, TimerOf(s.pending, d), LookOf(m, d))
    ensures TimersTrue(s')
  {
    forall d | TimerOf(s'.pending, d).Some?
      ensures exists i: nat :: AlwaysOffline(s'.past, i, d) && s'.past[i].now == TimerOf(s'.pending, d).value
    {
      assert d in m.offline;
      if TimerOf(s.pending, d).Some? {
        var i: nat :| AlwaysOffline(s.past, i, d) && s.past[i].now == TimerOf(s.pending, d).value;
        StillOffline(s.past, i, d, m);
      } else {
        NowOffline(s.past, d, m);
      }
    }
  }

  lemma EvaluationKeepsSafe(
    rules: Rules, fleet: set<string>, s: Snapshot, offline: seq<string>, others: set<string>, m: Moment, s': Snapshot)
    requires NothingHidesTimers(rules, fleet)
    requires Safe(rules, s) && Evaluates(rules, fleet, s, offline, others, m, s')
    ensures Safe(rules, s')
  {
    StepTakes(rules, s, s', m);
    ListedFew(fleet, offline);
    if Timerless(rules) {
      forall d ensures TimerOf(s'.pending, d).None? {
        if rules.settleMs > 0 && !m.hostWide {
          assert offline == [];
          assert d !in m.offline;
        }
      }
    } else {
      TimersStepTrue(rules, s, s', m);
      assert View(s'.book, HOST_KEY).openedAt.None?;
    }
  }

  lemma {:induction false} RunsStaySafe(rules: Rules, fleet: set<string>, states: seq<Snapshot>, n: nat)
    requires NothingHidesTimers(rules, fleet)
    requires Run(rules, fleet, states) && n < |states|
    ensures Safe(rules, states[n])
  {
    if n == 0 {
      EmptyKept(rules);
    } else {
      RunsStaySafe(rules, fleet, states, n - 1);
      assert Step(rules, fleet, states[n - 1], states[n - 1 + 1]);
      if Restarts(rules, states[n - 1], states[n]) {
        RestartKeepsSafe(rules, states[n - 1], states[n]);
      } else {
        var offline, others, m :| Evaluates(rules, fleet, states[n - 1], offline, others, m, states[n]);
        EvaluationKeepsSafe(rules, fleet, states[n - 1], offline, others, m, states[n]);
      }
    }
  }

  lemma FreshAlertWasSettled(
    rules: Rules, fleet: set<string>, s: Snapshot, offline: seq<string>, others: set<string>, m: Moment, s': Snapshot,
    d: string)
    requires Kept(rules, s) && Evaluates(rules, fleet, s, offline, others, m, s')
    requires RunnerKey(d) in s'.book.open && RunnerKey(d) !in s.book.open
    ensures d in m.offline && Settled(rules.settleMs, TimerOf(s.pending, d), m.now)
  {
    StepTakes(rules, s, s', m);
    var key := RunnerKey(d);
    assert View(s'.book, key).openedAt.Some? && View(s.book, key).openedAt.None?;
    assert key in m.found && key !in others;
    PrefixesApart(OFFLINE_PREFIX, d, d);
    assert SubjectOf(key) == d;
  }

  lemma StepOpensSettled(rules: Rules, fleet: set<string>, s: Snapshot, s': Snapshot)
    requires Kept(rules, s) && TimersTrue(s) && Step(rules, fleet, s, s')
    ensures OpensSettled(rules, s, s')
  {
    if Restarts(rules, s, s') {
      StepTakes(rules, s, s', Reloaded);
      forall d ensures RunnerKey(d) in s'.book.open ==> RunnerKey(d) in s.book.open {
        assert View(s'.book, RunnerKey(d)).openedAt == View(s.book, RunnerKey(d)).openedAt;
      }
    } else {
      var offline, others, m :| Evaluates(rules, fleet, s, offline, others, m, s');
      assert s'.past[|s'.past| - 1] == m;
      forall d | RunnerKey(d) in s'.book.open && RunnerKey(d) !in s.book.open
        ensures exists i: nat :: AlwaysOffline(s'.past, i, d) && m.now - s'.past[i].now >= rules.settleMs
      {
        FreshAlertWasSettled(rules, fleet, s, offline, others, m, s', d);
        if rules.settleMs <= 0 {
          NowOffline(s.past, d, m);
        } else {
          var i: nat :| AlwaysOffline(s.past, i, d) && s.past[i].now == TimerOf(s.pending, d).value;
          StillOffline(s.past, i, d, m);
        }
      }
    }
  }

  lemma HoldsWithout(rules: Rules, fleet: set<string>)
    requires NothingHidesTimers(rules, fleet)
    ensures TimersStayTrue(rules, fleet) && AlertsStaySettled(rules, fleet)
  {
    forall states | Run(rules, fleet, states)
      ensures TimersTrue(states[|states| - 1])
      ensures |states| > 1 ==> OpensSettled(rules, states[|states| - 2], states[|states| - 1])
    {
      RunsStaySafe(rules, fleet, states, |states| - 1);
      if |states| > 1 {
        var n: nat := |states| - 2;
        RunsStaySafe(rules, fleet, states, n);
        assert Step(rules, fleet, states[n], states[n + 1]);
        StepOpensSettled(rules, fleet, states[n], states[n + 1]);
      }
    }
  }

  // ---- every list of offline runners can be evaluated ------------------------------------

  function RuleFor(key: string): string {
    if IsOffline(key) then "offline" else "drift"
  }

  lemma {:induction false} SomeBook(
    debounceMs: int, before: Book, found: set<string>, superseded: set<string>, now: int, todo: set<string>, b: Book)
    returns (b': Book)
    requires Coherent(b) && AllButTodo(debounceMs, before, found, superseded, now, todo, b)
    requires todo <= found + before.open.Keys
    ensures Coherent(b') && AllButTodo(debounceMs, before, found, superseded, now, {}, b')
  {
    if todo == {} {
      b' := b;
    } else {
      var key :| key in todo;
      var after;
      assert View(b, key) == View(before, key);
      if key in found {
        CarriedOne(debounceMs, before, found, superseded, now, todo, b, key, RuleFor(key));
        after := Carried(b, key, RuleFor(key), now);
      } else {
        assert key in b.open;
        ClearedOne(debounceMs, before, found, superseded, now, todo, b, key);
        after := Cleared(b, key, now, key in superseded, debounceMs);
      }
      b' := SomeBook(debounceMs, before, found, superseded, now, todo - {key}, after);
    }
  }

  function TimerKeys(offline: seq<string>): set<string> {
    set d | d in offline :: SETTLE_PREFIX + d
  }

  function NextTimers(pending: map<string, int>, offline: seq<string>, hostWide: bool, now: int): map<string, int> {
    if hostWide then pending
    else map key | key in TimerKeys(offline) :: if key in pending then pending[key] else now
  }

  lemma NextTimersStep(
    settleMs: int, pending: map<string, int>, offline: seq<string>, hostWide: bool, now: int, d: string)
    requires settleMs > 0
    ensures TimerOf(NextTimers(pending, offline, hostWide, now), d)
         == TimerStep(settleMs, TimerOf(pending, d), Look(now, d in offline, hostWide))
  {
    if d in offline {
      assert SETTLE_PREFIX + d in TimerKeys(offline);
    } else {
      forall e | e in offline ensures SETTLE_PREFIX + e != SETTLE_PREFIX + d {
        PrefixesApart(SETTLE_PREFIX, e, d);
      }
    }
  }

  /** The runners whose own alert is found, when the host's does not stand for them. */
  function DueKeys(
    settleMs: int, pending: map<string, int>, open: set<string>, offline: seq<string>, now: int): (keys: set<string>)
    ensures forall key :: key in keys <==> Due(settleMs, pending, open, offline, now, key)
  {
    var keys := set d | d in offline && Due(settleMs, pending, open, offline, now, RunnerKey(d)) :: RunnerKey(d);
    assert forall key | Due(settleMs, pending, open, offline, now, key) :: key == RunnerKey(SubjectOf(key));
    keys
  }

  /** The moment an evaluation makes of a list of offline runners. */
  function MomentOf(rules: Rules, s: Snapshot, offline: seq<string>, now: int): Moment {
    var open := s.book.open.Keys;
    var hostWide := |offline| >= rules.threshold || HOST_KEY in open;
    Evaluated(
      now, (set d | d in offline), hostWide,
      (if |offline| >= rules.threshold then {HOST_KEY} else {})
      + (if hostWide then {} else DueKeys(rules.settleMs, s.pending, open, offline, now)),
      if hostWide then set key | key in open && IsRunnerOffline(key) else {})
  }

  lemma Evaluation(rules: Rules, fleet: set<string>, s: Snapshot, offline: seq<string>, now: int)
    returns (s': Snapshot)
    requires rules.settleMs > 0 && Kept(rules, s) && Listed(fleet, offline)
    ensures Evaluates(rules, fleet, s, offline, {}, MomentOf(rules, s, offline, now), s')
  {
    var m := MomentOf(rules, s, offline, now);
    var pending := NextTimers(s.pending, offline, m.hostWide, now);
    var todo := m.found + (s.book.open.Keys - m.found);
    NothingDone(rules.debounceMs, s.book, m.found, m.superseded, now);
    var b := SomeBook(rules.debounceMs, s.book, m.found, m.superseded, now, todo, s.book);
    forall d ensures TimerOf(pending, d) == TimerStep(rules.settleMs, TimerOf(s.pending, d), LookOf(m, d)) {
      NextTimersStep(rules.settleMs, s.pending, offline, m.hostWide, now, d);
    }
    EvaluationRecorded(rules.debounceMs, rules.settleMs, s.past, s.pending, s.book, m, pending, b);
    s' := Snapshot(s.past + [m], pending, b);
  }

  // ---- and where it does not -----------------------------------------------------------

  lemma {:induction false} ListAll(fleet: set<string>) returns (offline: seq<string>)
    ensures Listed(fleet, offline) && |offline| == |fleet|
  {
    if fleet == {} {
      offline := [];
    } else {
      var d :| d in fleet;
      var rest := ListAll(fleet - {d});
      offline := rest + [d];
      forall i, j | 0 <= i < j < |offline| ensures offline[i] != offline[j] {
        assert rest[i] in rest;
      }
    }
  }

  lemma RunGoesOn(rules: Rules, fleet: set<string>, states: seq<Snapshot>, s': Snapshot)
    requires Run(rules, fleet, states) && Step(rules, fleet, states[|states| - 1], s') && ForwardPast(s'.past)
    ensures Run(rules, fleet, states + [s'])
  {
    var more := states + [s'];
    forall i: nat | i + 1 < |more| ensures Step(rules, fleet, more[i], more[i + 1]) {
      if i + 1 < |states| {
        assert Step(rules, fleet, states[i], states[i + 1]);
      }
    }
  }

  /** A run whose last look was at time t, at which d was not offline though its timer runs since time 0. */
  ghost predicate Hidden(rules: Rules, fleet: set<string>, states: seq<Snapshot>, d: string, t: int) {
    && Run(rules, fleet, states) && Kept(rules, states[|states| - 1])
    && var s := states[|states| - 1];
    && s.past != [] && s.past[|s.past| - 1].Evaluated?
    && s.past[|s.past| - 1].now == t && d !in s.past[|s.past| - 1].offline
    && (forall m | m in s.past :: m.Evaluated? && m.now <= t)
    && TimerOf(s.pending, d) == Some(0) && View(s.book, RunnerKey(d)).openedAt.None?
  }

  lemma ForwardSnoc(past: seq<Moment>, m: Moment)
    requires ForwardPast(past) && m.Evaluated? && forall x | x in past :: x.Evaluated? && x.now <= m.now
    ensures ForwardPast(past + [m])
  {
    forall i, j | 0 <= i < j < |past + [m]| ensures (past + [m])[i].now <= (past + [m])[j].now {
      assert (past + [m])[i] in past;
    }
  }

  /** One look more, later than the others. */
  lemma LookOnce(rules: Rules, fleet: set<string>, states: seq<Snapshot>, offline: seq<string>, now: int)
    returns (s': Snapshot)
    requires rules.settleMs > 0 && Listed(fleet, offline)
    requires Run(rules, fleet, states) && Kept(rules, states[|states| - 1])
    requires forall m | m in states[|states| - 1].past :: m.Evaluated? && m.now <= now
    ensures Run(rules, fleet, states + [s']) && Kept(rules, s')
    ensures var s := states[|states| - 1];
      var m := MomentOf(rules, s, offline, now);
      && s'.past == s.past + [m] && (forall x | x in s'.past :: x.Evaluated? && x.now <= now)
      && (forall d :: TimerOf(s'.pending, d) == TimerStep(rules.settleMs, TimerOf(s.pending, d), LookOf(m, d)))
      && forall key ::
        View(s'.book, key) == KeyStep(Window(rules.debounceMs, key), View(s.book, key), EventOf(m, key))
  {
    var s := states[|states| - 1];
    var m := MomentOf(rules, s, offline, now);
    s' := Evaluation(rules, fleet, s, offline, now);
    assert Step(rules, fleet, s, s');
    StepTakes(rules, s, s', m);
    ForwardSnoc(s.past, m);
    RunGoesOn(rules, fleet, states, s');
  }

  lemma OwnKeyApart(d: string)
    ensures RunnerKey(d) != HOST_KEY
  {
    assert RunnerKey(d)[0] == 'd' && HOST_KEY[0] == 'h';
  }

  lemma FirstRun(rules: Rules, fleet: set<string>)
    ensures Run(rules, fleet, [EMPTY]) && Kept(rules, EMPTY)
  {
    EmptyKept(rules);
  }

  /** A runner alone goes offline: its timer starts. */
  lemma FirstAlone(rules: Rules, fleet: set<string>, d: string) returns (s: Snapshot)
    requires rules.settleMs > 0 && 1 < rules.threshold && d in fleet
    ensures Run(rules, fleet, [EMPTY, s]) && Kept(rules, s)
    ensures |s.past| == 1 && forall m | m in s.past :: m.Evaluated? && m.now <= 0
    ensures TimerOf(s.pending, d) == Some(0) && View(s.book, RunnerKey(d)).openedAt.None?
    ensures View(s.book, HOST_KEY).openedAt.None? && View(s.book, HOST_KEY).clearing.None?
  {
    FirstRun(rules, fleet);
    s := LookOnce(rules, fleet, [EMPTY], [d], 0);
    assert [EMPTY] + [s] == [EMPTY, s];
    var m := MomentOf(rules, EMPTY, [d], 0);
    assert !m.hostWide && d in m.offline;
    assert TimerOf(EMPTY.pending, d).None?;
    PrefixesApart(OFFLINE_PREFIX, d, d);
    assert !Due(rules.settleMs, EMPTY.pending, {}, [d], 0, RunnerKey(d));
    OwnKeyApart(d);
    assert RunnerKey(d) !in m.found && HOST_KEY !in m.found;
  }

  /** Then all do, and all come back: the host's alert keeps the timer through both looks. */
  lemma TimerHidden(rules: Rules, fleet: set<string>, d: string) returns (states: seq<Snapshot>)
    requires rules.settleMs > 0 && 1 < rules.threshold <= |fleet| && d in fleet
    ensures Hidden(rules, fleet, states, d, 2) && |states| == 4
    ensures var host := View(states[3].book, HOST_KEY);
      host.openedAt.None? || (host.clearing == Some(2) && rules.debounceMs > 0)
  {
    var s1 := FirstAlone(rules, fleet, d);
    OwnKeyApart(d);
    var all := ListAll(fleet);
    var s2 := LookOnce(rules, fleet, [EMPTY, s1], all, 1);
    assert View(s2.book, HOST_KEY).openedAt.Some?;
    assert HOST_KEY in s2.book.open.Keys;
    var s3 := LookOnce(rules, fleet, [EMPTY, s1] + [s2], [], 2);
    states := [EMPTY, s1] + [s2] + [s3];
    assert s3.past[|s3.past| - 1] == MomentOf(rules, s2, [], 2);
  }

  /** Once the host's alert has waited out its debounce it closes, and the timer still runs. */
  lemma HostAlertCloses(rules: Rules, fleet: set<string>, d: string) returns (states: seq<Snapshot>, t: nat)
    requires rules.settleMs > 0 && 1 < rules.threshold <= |fleet| && d in fleet
    ensures Hidden(rules, fleet, states, d, t) && HOST_KEY !in states[|states| - 1].book.open
  {
    states := TimerHidden(rules, fleet, d);
    t := 2;
    if View(states[3].book, HOST_KEY).openedAt.Some? {
      t := 2 + rules.debounceMs;
      assert HOST_KEY in states[3].book.open.Keys;
      var s := LookOnce(rules, fleet, states, [], t);
      OwnKeyApart(d);
      assert View(s.book, HOST_KEY).openedAt.None?;
      states := states + [s];
      assert s.past[|s.past| - 1] == MomentOf(rules, states[3], [], t);
    }
  }

  /**
   A runner that was back while the host's alert stood in counts as settled as soon as
   it is seen offline again, and its alert opens at that look.
   */
  lemma TimerOutlivesHostAlert(rules: Rules, fleet: set<string>, d: string) returns (states: seq<Snapshot>)
    requires rules.settleMs > 0 && 1 < rules.threshold <= |fleet| && d in fleet
    ensures Run(rules, fleet, states) && |states| > 1
    ensures var s, s' := states[|states| - 2], states[|states| - 1];
      && |s'.past| > 1 && s'.past[|s'.past| - 2].Evaluated? && d !in s'.past[|s'.past| - 2].offline
      && RunnerKey(d) in s'.book.open && RunnerKey(d) !in s.book.open
  {
    var t;
    states, t := HostAlertCloses(rules, fleet, d);
    var s := states[|states| - 1];
    var now := t + rules.settleMs;
    var s' := LookOnce(rules, fleet, states, [d], now);
    assert s'.past[|s'.past| - 2] == s.past[|s.past| - 1];
    PrefixesApart(OFFLINE_PREFIX, d, d);
    assert Due(rules.settleMs, s.pending, s.book.open.Keys, [d], now, RunnerKey(d));
    assert View(s'.book, RunnerKey(d)).openedAt.Some?;
    states := states + [s'];
  }

  /** A state whose timer runs though the last look did not see the runner offline. */
  lemma HiddenIsUntrue(rules: Rules, fleet: set<string>, states: seq<Snapshot>, d: string, t: int)
    requires Hidden(rules, fleet, states, d, t)
    ensures !TimersTrue(states[|states| - 1])
  {
    var s := states[|states| - 1];
    forall i: nat ensures !AlwaysOffline(s.past, i, d) {
    }
  }

  /** An alert that opens at the first look after one that did not see the runner offline. */
  lemma FreshIsUnsettled(rules: Rules, s: Snapshot, s': Snapshot, d: string)
    requires rules.settleMs > 0 && RunnerKey(d) in s'.book.open && RunnerKey(d) !in s.book.open
    requires |s'.past| > 1 && s'.past[|s'.past| - 2].Evaluated? && d !in s'.past[|s'.past| - 2].offline
    ensures !OpensSettled(rules, s, s')
  {
    var n: nat := |s'.past| - 1;
    forall i: nat | AlwaysOffline(s'.past, i, d) ensures i == n {
    }
  }

  /**
   Settle timers, exactly. Over every run from an empty table, for a fleet of any size:
   a running timer means the runner was offline at every look since it was set, if and
   only if there is no settle window, or one runner offline already counts as the host,
   or the fleet is too small for that; and the same decides whether a runner's alert
   opens only once it was offline for the whole window.
   */
  lemma TimersStayTrueIff(rules: Rules, fleet: set<string>)
    ensures TimersStayTrue(rules, fleet) <==> NothingHidesTimers(rules, fleet)
    ensures AlertsStaySettled(rules, fleet) <==> NothingHidesTimers(rules, fleet)
  {
    if NothingHidesTimers(rules, fleet) {
      HoldsWithout(rules, fleet);
    } else {
      var d :| d in fleet;
      var hidden := TimerHidden(rules, fleet, d);
      HiddenIsUntrue(rules, fleet, hidden, d, 2);
      var states := TimerOutlivesHostAlert(rules, fleet, d);
      FreshIsUnsettled(rules, states[|states| - 2], states[|states| - 1], d);
    }
  }
}
