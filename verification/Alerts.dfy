/**
 The alert engine: sustained, reconcile, the offline rules and dismissals of
 dashboard/lib/alerts.js, over the alerts and dismissals tables of
 dashboard/lib/db.js.
 */
module Alerts {
  import opened Wrappers
  import opened Text
  import opened AlertHistory

  const HOST_KEY: string := "host:offline"
  const OFFLINE_PREFIX: string := "drift:offline:"
  const NEWFAIL_PREFIX: string := "newfail:"
  const DEBOUNCED_RULES: set<string> := {"offline", "offline-host"}

  datatype Row = Row(key: string, rule: string, openedAt: int, closedAt: Option<int>)

  datatype Alert = Alert(rule: string, openedAt: int, clearingSince: Option<int>)

  datatype Finding = Finding(rule: string)

  predicate IsRunnerOffline(key: string) {
    StartsWith(key, OFFLINE_PREFIX)
  }

  /** The keys whose rules wait out the debounce before they close. */
  predicate IsOffline(key: string) {
    key == HOST_KEY || IsRunnerOffline(key)
  }

  function RunnerKey(subject: string): (key: string)
    ensures IsRunnerOffline(key)
  {
    OFFLINE_PREFIX + subject
  }

  // ---- the table -------------------------------------------------------------------

  /** The intervals of one key, in the order they were inserted. */
  function RowsOf(rows: seq<Row>, key: string): seq<Interval> {
    if rows == [] then []
    else
      var init, last := RowsOf(rows[..|rows| - 1], key), rows[|rows| - 1];
      if last.key == key then init + [Interval(last.openedAt, last.closedAt)] else init
  }

  /** The rows of the key that no one closed. */
  function OpenRows(rows: seq<Row>, key: string): seq<Row> {
    if rows == [] then []
    else
      var init, last := OpenRows(rows[..|rows| - 1], key), rows[|rows| - 1];
      if last.key == key && last.closedAt.None? then init + [last] else init
  }

  /** INSERT INTO alerts: the unique index allows one open row a key. */
  function Insert(rows: seq<Row>, row: Row): seq<Row>
    requires row.closedAt.None? && OpenRows(rows, row.key) == []
  {
    rows + [row]
  }

  /** UPDATE alerts SET closed_at WHERE key AND closed_at IS NULL. */
  function Close(rows: seq<Row>, key: string, t: int): (r: seq<Row>)
    ensures |r| == |rows|
  {
    seq(|rows|, i requires 0 <= i < |rows| =>
      if rows[i].key == key && rows[i].closedAt.None? then rows[i].(closedAt := Some(t)) else rows[i])
  }

  lemma RowsOfInsert(rows: seq<Row>, row: Row, key: string)
    ensures RowsOf(rows + [row], key) ==
      if row.key == key then RowsOf(rows, key) + [Interval(row.openedAt, row.closedAt)] else RowsOf(rows, key)
  {
    assert (rows + [row])[..|rows|] == rows;
  }

  lemma {:induction false} RowsOfClose(rows: seq<Row>, closing: string, t: int, key: string)
    ensures RowsOf(Close(rows, closing, t), key) ==
      if key == closing then CloseAt(RowsOf(rows, key), t) else RowsOf(rows, key)
  {
    if rows != [] {
      var init := rows[..|rows| - 1];
      RowsOfClose(init, closing, t, key);
      assert Close(rows, closing, t)[..|rows| - 1] == Close(init, closing, t);
    }
  }

  lemma OpenRowsOfInsert(rows: seq<Row>, row: Row, key: string)
    ensures OpenRows(rows + [row], key) ==
      if row.key == key && row.closedAt.None? then OpenRows(rows, key) + [row] else OpenRows(rows, key)
  {
    assert (rows + [row])[..|rows|] == rows;
  }

  lemma {:induction false} OpenRowsOfClose(rows: seq<Row>, closing: string, t: int, key: string)
    ensures OpenRows(Close(rows, closing, t), key) == if key == closing then [] else OpenRows(rows, key)
  {
    if rows != [] {
      var init := rows[..|rows| - 1];
      OpenRowsOfClose(init, closing, t, key);
      assert Close(rows, closing, t)[..|rows| - 1] == Close(init, closing, t);
    }
  }

  // ---- scopes of dismissals ----------------------------------------------------------

  /** The text up to the n-th colon, or all of it: split(':').slice(0, n).join(':'). */
  function FirstParts(s: string, n: nat): string {
    if n == 0 || s == "" then ""
    else if s[0] == ':' then if n == 1 then "" else ":" + FirstParts(s[1..], n - 1)
    else [s[0]] + FirstParts(s[1..], n)
  }

  /** alertScope: a newly failing key without the run it was noticed on. */
  function Scope(key: string): string {
    if StartsWith(key, NEWFAIL_PREFIX) then FirstParts(key, 3) else key
  }

  predicate NoColon(s: string) {
    ':' !in s
  }

  lemma ColonAfter(x: string, y: string)
    requires x != ""
    ensures (x + ":" + y)[0] == x[0] && (x + ":" + y)[1..] == x[1..] + ":" + y
    ensures [x[0]] + x[1..] == x && [x[0]] + (x[1..] + ":" + y) == x + ":" + y
  {
  }

  lemma {:induction false} FirstPartsAfter(x: string, y: string, n: nat)
    requires NoColon(x) && n > 0
    ensures FirstParts(x + ":" + y, n) == if n == 1 then x else x + ":" + FirstParts(y, n - 1)
  {
    if x == "" {
      assert x + ":" + y == ":" + y && (":" + y)[1..] == y;
    } else {
      ColonAfter(x, y);
      assert x[0] in x && forall c | c in x[1..] :: c in x;
      FirstPartsAfter(x[1..], y, n);
      if n > 1 {
        ColonAfter(x, FirstParts(y, n - 1));
      }
    }
  }

  function NewFailKey(repo: string, workflow: string, run: string): string {
    NEWFAIL_PREFIX + (repo + ":" + (workflow + ":" + run))
  }

  /** The scope does not tell the run. */
  lemma ScopeOfNewFail(repo: string, workflow: string, run: string)
    requires NoColon(repo)
    ensures Scope(NewFailKey(repo, workflow, run)) == "newfail:" + (repo + ":" + FirstParts(workflow + ":", 1))
  {
    var rest := repo + ":" + (workflow + ":" + run);
    assert NewFailKey(repo, workflow, run) == "newfail" + ":" + rest;
    assert NewFailKey(repo, workflow, run)[..8] == NEWFAIL_PREFIX;
    FirstPartsAfter("newfail", rest, 3);
    FirstPartsAfter(repo, workflow + ":" + run, 2);
    FirstPartAlone(workflow, run);
    assert "newfail" + ":" + FirstParts(rest, 2) == "newfail:" + FirstParts(rest, 2);
  }

  lemma {:induction false} FirstPartAlone(x: string, y: string)
    ensures FirstParts(x + ":" + y, 1) == FirstParts(x + ":", 1)
  {
    if x != "" && x[0] != ':' {
      FirstPartAlone(x[1..], y);
      assert (x + ":" + y)[1..] == x[1..] + ":" + y && (x + ":")[1..] == x[1..] + ":";
    } else if x == "" {
      assert (x + ":" + y)[0] == ':' && (x + ":")[0] == ':';
    }
  }

  /** Two texts are the same up to their first colon exactly when what comes before it is. */
  lemma {:induction false} SameBeforeColon(x: string, y: string, p: string, q: string)
    requires NoColon(x) && NoColon(y)
    ensures x + ":" + p == y + ":" + q <==> x == y && p == q
  {
    if x == "" || y == "" {
      assert x == "" ==> (x + ":" + p)[0] == ':' && (x + ":" + p)[1..] == p;
      assert y == "" ==> (y + ":" + q)[0] == ':' && (y + ":" + q)[1..] == q;
      assert x != "" ==> (x + ":" + p)[0] == x[0] && x[0] in x;
      assert y != "" ==> (y + ":" + q)[0] == y[0] && y[0] in y;
    } else {
      ColonAfter(x, p);
      ColonAfter(y, q);
      assert forall c | c in x[1..] :: c in x;
      assert forall c | c in y[1..] :: c in y;
      SameBeforeColon(x[1..], y[1..], p, q);
    }
  }

  /** The name of a workflow up to its first colon. */
  function BeforeColon(workflow: string): string {
    FirstParts(workflow + ":", 1)
  }

  /**
   A dismissed failure stays dismissed for every run of the workflow, and covers exactly
   the repository's workflows named alike up to their first colon.
   */
  lemma DismissalCovers(
    repo: string, workflow: string, run: string, repo': string, workflow': string, run': string)
    requires NoColon(repo) && NoColon(repo')
    ensures Scope(NewFailKey(repo, workflow, run)) == Scope(NewFailKey(repo', workflow', run'))
       <==> repo == repo' && BeforeColon(workflow) == BeforeColon(workflow')
  {
    ScopeOfNewFail(repo, workflow, run);
    ScopeOfNewFail(repo', workflow', run');
    SameBeforeColon(repo, repo', BeforeColon(workflow), BeforeColon(workflow'));
    var a, b := repo + ":" + BeforeColon(workflow), repo' + ":" + BeforeColon(workflow');
    assert ("newfail:" + a)[8..] == a && ("newfail:" + b)[8..] == b;
  }

  /** Two workflows that share a scope: dismissing one hides the other. */
  lemma DismissalHidesAnother(repo: string, run: string, run': string)
    requires NoColon(repo)
    ensures Scope(NewFailKey(repo, "CI: unit", run)) == Scope(NewFailKey(repo, "CI: release", run'))
  {
    FirstPartsAfter("CI", " unit:", 1);
    FirstPartsAfter("CI", " release:", 1);
    assert "CI: unit" + ":" == "CI" + ":" + " unit:" && "CI: release" + ":" == "CI" + ":" + " release:";
    DismissalCovers(repo, "CI: unit", run, repo, "CI: release", run');
  }

  // ---- the state, key by key ----------------------------------------------------------

  /** The maps and the table that reconcile works on. */
  datatype Book = Book(open: map<string, Alert>, clearing: map<string, int>, rows: seq<Row>)

  function View(b: Book, key: string): KeyState {
    KeyState(if key in b.open then Some(b.open[key].openedAt) else None, Lookup(b.clearing, key), RowsOf(b.rows, key))
  }

  /** The open map holds the key's one open row; clearing and its mark on the alert agree; the key tells the rule. */
  predicate KeyCoherent(b: Book, key: string) {
    && OpenRows(b.rows, key) == (if key in b.open then [Row(key, b.open[key].rule, b.open[key].openedAt, None)] else [])
    && (key in b.clearing ==> key in b.open)
    && (key in b.open ==> b.open[key].clearingSince == Lookup(b.clearing, key))
    && (key in b.open ==> (b.open[key].rule in DEBOUNCED_RULES <==> IsOffline(key)))
  }

  ghost predicate Coherent(b: Book) {
    forall key :: KeyCoherent(b, key)
  }

  function Window(debounceMs: int, key: string): Option<int> {
    if IsOffline(key) then Some(debounceMs) else None
  }

  // ---- one key of reconcile ------------------------------------------------------------

  /** The key is found: it opens, or carries on, its interval. */
  function Carried(b: Book, key: string, rule: string, now: int): Book
    requires key !in b.open ==> OpenRows(b.rows, key) == []
  {
    if key !in b.open then
      Book(b.open[key := Alert(rule, now, None)], b.clearing, Insert(b.rows, Row(key, rule, now, None)))
    else if key in b.clearing then
      b.(open := b.open[key := b.open[key].(clearingSince := None)], clearing := b.clearing - {key})
    else b
  }

  /** The key is open and not found: it waits out its debounce, or closes at the moment it was first gone. */
  function Cleared(b: Book, key: string, now: int, superseded: bool, debounceMs: int): Book
    requires key in b.open
  {
    var since := if key in b.clearing then b.clearing[key] else now;
    if b.open[key].rule in DEBOUNCED_RULES && !superseded && now - since < debounceMs then
      b.(open := b.open[key := b.open[key].(clearingSince := Some(since))], clearing := b.clearing[key := since])
    else Book(b.open - {key}, b.clearing - {key}, Close(b.rows, key, since))
  }

  lemma CarriedOther(b: Book, key: string, rule: string, now: int, k: string)
    requires KeyCoherent(b, key) && KeyCoherent(b, k) && k != key
    ensures KeyCoherent(Carried(b, key, rule, now), k) && View(Carried(b, key, rule, now), k) == View(b, k)
  {
    RowsOfInsert(b.rows, Row(key, rule, now, None), k);
    OpenRowsOfInsert(b.rows, Row(key, rule, now, None), k);
  }

  lemma CarriedStep(b: Book, key: string, rule: string, now: int, superseded: bool, debounceMs: int)
    requires KeyCoherent(b, key) && (rule in DEBOUNCED_RULES <==> IsOffline(key))
    ensures KeyCoherent(Carried(b, key, rule, now), key)
    ensures View(Carried(b, key, rule, now), key)
      == KeyStep(Window(debounceMs, key), View(b, key), Tick(now, true, superseded))
  {
    if key !in b.open {
      RowsOfInsert(b.rows, Row(key, rule, now, None), key);
      OpenRowsOfInsert(b.rows, Row(key, rule, now, None), key);
    }
  }

  lemma ClearedStep(b: Book, key: string, now: int, superseded: bool, debounceMs: int, k: string)
    requires KeyCoherent(b, key) && KeyCoherent(b, k) && key in b.open
    ensures var after := Cleared(b, key, now, superseded, debounceMs);
      && KeyCoherent(after, k)
      && View(after, k) == if k == key then KeyStep(Window(debounceMs, k), View(b, k), Tick(now, false, superseded))
        else View(b, k)
  {
    var since := if key in b.clearing then b.clearing[key] else now;
    RowsOfClose(b.rows, key, since, k);
    OpenRowsOfClose(b.rows, key, since, k);
  }

  /** The step an evaluation calls for, of one key. */
  function Called(debounceMs: int, before: Book, found: set<string>, superseded: set<string>, now: int,
      key: string): KeyState
  {
    KeyStep(Window(debounceMs, key), View(before, key), Tick(now, key in found, key in superseded))
  }

  /** Every key but those still to do, which are as before, took its step. */
  ghost predicate AllButTodo(debounceMs: int, before: Book, found: set<string>, superseded: set<string>, now: int,
      todo: set<string>, b: Book)
  {
    forall key ::
      View(b, key) ==
      (if key in todo then View(before, key) else Called(debounceMs, before, found, superseded, now, key))
  }

  lemma CarriedOne(debounceMs: int, before: Book, found: set<string>, superseded: set<string>, now: int,
      todo: set<string>, b: Book, key: string, rule: string)
    requires Coherent(b) && AllButTodo(debounceMs, before, found, superseded, now, todo, b)
    requires key in todo && key in found && (rule in DEBOUNCED_RULES <==> IsOffline(key))
    ensures key !in b.open ==> OpenRows(b.rows, key) == []
    ensures Coherent(Carried(b, key, rule, now))
    ensures AllButTodo(debounceMs, before, found, superseded, now, todo - {key}, Carried(b, key, rule, now))
  {
    assert KeyCoherent(b, key);
    var after := Carried(b, key, rule, now);
    forall k
      ensures KeyCoherent(after, k)
      ensures View(after, k)
        == if k in todo - {key} then View(before, k) else Called(debounceMs, before, found, superseded, now, k)
    {
      if k == key {
        CarriedStep(b, key, rule, now, k in superseded, debounceMs);
      } else {
        CarriedOther(b, key, rule, now, k);
      }
      assert View(b, k) == if k in todo then View(before, k) else Called(debounceMs, before, found, superseded, now, k);
    }
  }

  lemma ClearedOne(debounceMs: int, before: Book, found: set<string>, superseded: set<string>, now: int,
      todo: set<string>, b: Book, key: string)
    requires Coherent(b) && AllButTodo(debounceMs, before, found, superseded, now, todo, b)
    requires key in todo && key !in found && key in b.open
    ensures var after := Cleared(b, key, now, key in superseded, debounceMs);
      Coherent(after) && AllButTodo(debounceMs, before, found, superseded, now, todo - {key}, after)
  {
    assert KeyCoherent(b, key);
    var after := Cleared(b, key, now, key in superseded, debounceMs);
    forall k
      ensures KeyCoherent(after, k)
      ensures View(after, k)
        == if k in todo - {key} then View(before, k) else Called(debounceMs, before, found, superseded, now, k)
    {
      ClearedStep(b, key, now, key in superseded, debounceMs, k);
      assert View(b, k) == if k in todo then View(before, k) else Called(debounceMs, before, found, superseded, now, k);
    }
  }

  /** At first only the keys neither found nor open took their step: there is nothing to do for them. */
  lemma NothingDone(debounceMs: int, b: Book, found: set<string>, superseded: set<string>, now: int)
    ensures AllButTodo(debounceMs, b, found, superseded, now, found + (b.open.Keys - found), b)
  {
  }

  /** One evaluation: what was offline, what was found, what another alert replaced. Or a restart of the process. */
  datatype Moment =
    | Evaluated(now: int, offline: set<string>, hostWide: bool, found: set<string>, superseded: set<string>)
    | Reloaded

  function EventOf(m: Moment, key: string): Event {
    match m
    case Reloaded => Restart
    case Evaluated(now, _, _, found, superseded) => Tick(now, key in found, key in superseded)
  }

  function LookOf(m: Moment, subject: string): Look {
    match m
    case Reloaded => Restarted
    case Evaluated(now, offline, hostWide, _, _) => Look(now, subject in offline, hostWide)
  }

  function EventsOf(past: seq<Moment>, key: string): (h: seq<Event>)
    ensures |h| == |past|
  {
    seq(|past|, i requires 0 <= i < |past| => EventOf(past[i], key))
  }

  function LooksOf(past: seq<Moment>, subject: string): (h: seq<Look>)
    ensures |h| == |past|
  {
    seq(|past|, i requires 0 <= i < |past| => LookOf(past[i], subject))
  }

  /** What the past makes of one key, and of one runner's settle timer. */
  function KeyAfter(debounceMs: int, past: seq<Moment>, key: string): KeyState {
    if past == [] then KeyState(None, None, [])
    else KeyStep(Window(debounceMs, key), KeyAfter(debounceMs, past[..|past| - 1], key), EventOf(past[|past| - 1], key))
  }

  function TimerAfter(settleMs: int, past: seq<Moment>, subject: string): Option<int> {
    if past == [] then None
    else TimerStep(settleMs, TimerAfter(settleMs, past[..|past| - 1], subject), LookOf(past[|past| - 1], subject))
  }

  lemma {:induction false} KeyRunOfPrefix(window: Option<int>, h: seq<Event>, g: seq<Event>, n: nat)
    requires n <= |h| && n <= |g| && h[..n] == g[..n]
    ensures KeyRun(window, h, n) == KeyRun(window, g, n)
  {
    if n > 0 {
      assert h[n - 1] == h[..n][n - 1] == g[..n][n - 1] == g[n - 1];
      assert h[..n - 1] == h[..n][..n - 1] && g[..n - 1] == g[..n][..n - 1];
      KeyRunOfPrefix(window, h, g, n - 1);
    }
  }

  lemma {:induction false} KeyAfterIsRun(debounceMs: int, past: seq<Moment>, key: string)
    ensures KeyAfter(debounceMs, past, key) == KeyRun(Window(debounceMs, key), EventsOf(past, key), |past|)
  {
    if past != [] {
      var n := |past| - 1;
      KeyAfterIsRun(debounceMs, past[..n], key);
      assert EventsOf(past[..n], key)[..n] == EventsOf(past, key)[..n];
      KeyRunOfPrefix(Window(debounceMs, key), EventsOf(past[..n], key), EventsOf(past, key), n);
    }
  }

  lemma {:induction false} TimerRunOfPrefix(settleMs: int, h: seq<Look>, g: seq<Look>, n: nat)
    requires n <= |h| && n <= |g| && h[..n] == g[..n]
    ensures TimerRun(settleMs, h, n) == TimerRun(settleMs, g, n)
  {
    if n > 0 {
      assert h[n - 1] == h[..n][n - 1] == g[..n][n - 1] == g[n - 1];
      assert h[..n - 1] == h[..n][..n - 1] && g[..n - 1] == g[..n][..n - 1];
      TimerRunOfPrefix(settleMs, h, g, n - 1);
    }
  }

  lemma {:induction false} TimerAfterIsRun(settleMs: int, past: seq<Moment>, subject: string)
    ensures TimerAfter(settleMs, past, subject) == TimerRun(settleMs, LooksOf(past, subject), |past|)
  {
    if past != [] {
      var n := |past| - 1;
      TimerAfterIsRun(settleMs, past[..n], subject);
      assert LooksOf(past[..n], subject)[..n] == LooksOf(past, subject)[..n];
      TimerRunOfPrefix(settleMs, LooksOf(past[..n], subject), LooksOf(past, subject), n);
    }
  }

  /** What is left clearing is what is open and was not found, all of it within its window and taken over by nothing. */
  lemma StillClearing(debounceMs: int, before: Book, found: set<string>, superseded: set<string>, now: int, b: Book,
      key: string)
    requires KeyCoherent(before, key) && AllButTodo(debounceMs, before, found, superseded, now, {}, b)
    ensures key in b.clearing <==> key in b.open && key !in found
    ensures key in b.clearing ==> IsOffline(key) && key !in superseded && now - b.clearing[key] < debounceMs
    ensures key in b.open <==> key in found || (key in before.open && key in b.clearing)
  {
    assert View(b, key) == Called(debounceMs, before, found, superseded, now, key);
  }

  // ---- the offline rules ------------------------------------------------------------------

  function SubjectOf(key: string): string
    requires IsRunnerOffline(key)
  {
    key[|OFFLINE_PREFIX|..]
  }

  function TimerOf(pending: map<string, int>, subject: string): Option<int> {
    Lookup(pending, SETTLE_PREFIX + subject)
  }

  /** A runner's own alert is due: it is offline, and has been for the settle window or has its alert open. */
  predicate Due(settleMs: int, pending: map<string, int>, open: set<string>, offline: seq<string>, now: int,
      key: string)
  {
    && IsRunnerOffline(key) && SubjectOf(key) in offline
    && (Settled(settleMs, TimerOf(pending, SubjectOf(key)), now) || key in open)
  }

  lemma PrefixesApart(prefix: string, a: string, b: string)
    ensures prefix + a == prefix + b <==> a == b
    ensures StartsWith(prefix + a, prefix) && (prefix + a)[|prefix|..] == a
  {
    assert (prefix + a)[|prefix|..] == a && (prefix + b)[|prefix|..] == b;
  }

  /** The timers once the first i offline runners were looked at. */
  ghost predicate TimersAt(settleMs: int, was: map<string, int>, pending: map<string, int>, offline: seq<string>,
      now: int)
  {
    forall d :: TimerOf(pending, d) ==
      (if d in offline then TimerStep(settleMs, TimerOf(was, d), Look(now, true, false)) else TimerOf(was, d))
  }

  /** One offline runner's timer is started, or read. */
  lemma SettledOnce(settleMs: int, was: map<string, int>, before: map<string, int>, after: map<string, int>,
                    offline: seq<string>, i: nat, now: int, settled: bool)
    requires i < |offline| && TimersAt(settleMs, was, before, offline[..i], now)
    requires settleMs <= 0 ==> after == before && settled
    requires settleMs > 0 ==>
      var key := SETTLE_PREFIX + offline[i];
      && after == (if key in before then before else before[key := now])
      && (settled <==> key in before && now - before[key] >= settleMs)
    ensures TimersAt(settleMs, was, after, offline[..i + 1], now)
    ensures settled <==> Settled(settleMs, TimerOf(was, offline[i]), now)
  {
    var d := offline[i];
    forall e ensures TimerOf(after, e) ==
      if e in offline[..i + 1] then TimerStep(settleMs, TimerOf(was, e), Look(now, true, false)) else TimerOf(was, e)
    {
      PrefixesApart(SETTLE_PREFIX, e, d);
      assert e in offline[..i + 1] <==> e in offline[..i] || e == d;
      assert TimerOf(before, e) ==
        if e in offline[..i] then TimerStep(settleMs, TimerOf(was, e), Look(now, true, false)) else TimerOf(was, e);
    }
    assert TimerOf(before, d) ==
      if d in offline[..i] then TimerStep(settleMs, TimerOf(was, d), Look(now, true, false)) else TimerOf(was, d);
  }

  lemma DueOnce(settleMs: int, pending: map<string, int>, open: set<string>, offline: seq<string>, i: nat, now: int,
      key: string)
    requires i < |offline|
    ensures Due(settleMs, pending, open, offline[..i + 1], now, key) <==>
      || Due(settleMs, pending, open, offline[..i], now, key)
      || (key == RunnerKey(offline[i]) && (Settled(settleMs, TimerOf(pending, offline[i]), now) || key in open))
  {
    PrefixesApart(OFFLINE_PREFIX, offline[i], offline[i]);
    if IsRunnerOffline(key) {
      assert key == OFFLINE_PREFIX + SubjectOf(key);
      assert SubjectOf(key) in offline[..i + 1] <==> SubjectOf(key) in offline[..i] || SubjectOf(key) == offline[i];
    }
  }

  /** A moment more, key by key and runner by runner. */
  lemma PastGrows(debounceMs: int, settleMs: int, past: seq<Moment>, m: Moment)
    ensures forall key ::
      KeyAfter(debounceMs, past + [m], key)
        == KeyStep(Window(debounceMs, key), KeyAfter(debounceMs, past, key), EventOf(m, key))
    ensures forall d ::
      TimerAfter(settleMs, past + [m], d) == TimerStep(settleMs, TimerAfter(settleMs, past, d), LookOf(m, d))
  {
    assert (past + [m])[..|past|] == past;
  }

  /** The alert of the host and the alert of a runner are never open together once an evaluation is over. */
  ghost predicate HostOrRunners(open: map<string, Alert>) {
    HOST_KEY in open ==> forall key | key in open :: !IsRunnerOffline(key)
  }

  /** What an evaluation finds, and what the host's alert replaces, in terms of what it was told and what was before. */
  ghost predicate Noticed(settleMs: int, threshold: int, pending: map<string, int>, open: set<string>,
                          offline: seq<string>, others: set<string>, now: int, m: Moment)
  {
    && m.Evaluated? && m.now == now
    && m.hostWide == (|offline| >= threshold || HOST_KEY in open)
    && m.offline == (set d | d in offline)
    && m.superseded == (if m.hostWide then set key | key in open && IsRunnerOffline(key) else {})
    && (forall key :: key in m.found <==>
          || key in others
          || (key == HOST_KEY && |offline| >= threshold)
          || (!m.hostWide && Due(settleMs, pending, open, offline, now, key)))
  }

  lemma HostReplacesRunners(debounceMs: int, settleMs: int, threshold: int, pending: map<string, int>, before: Book,
                            offline: seq<string>, others: set<string>, now: int, m: Moment, b: Book)
    requires Noticed(settleMs, threshold, pending, before.open.Keys, offline, others, now, m)
    requires forall key | key in others :: !IsOffline(key)
    requires Coherent(before) && AllButTodo(debounceMs, before, m.found, m.superseded, now, {}, b)
    ensures HostOrRunners(b.open)
  {
    var found, superseded := m.found, m.superseded;
    forall key ensures
      && (key in b.clearing ==> key !in superseded)
      && (key in b.open <==> key in found || (key in before.open && key in b.clearing))
    {
      assert KeyCoherent(before, key);
      StillClearing(debounceMs, before, found, superseded, now, b, key);
    }
  }

  /** The open alerts, as the table tells them. */
  ghost predicate Reread(rows: seq<Row>, open: map<string, Alert>) {
    forall key ::
      if OpenRows(rows, key) == [] then key !in open
      else
        var r := OpenRows(rows, key)[|OpenRows(rows, key)| - 1];
        key in open && open[key] == Alert(r.rule, r.openedAt, None)
  }

  lemma RereadOne(rows: seq<Row>, row: Row, open: map<string, Alert>)
    requires Reread(rows, open)
    ensures Reread(
              rows + [row], if row.closedAt.None? then open[row.key := Alert(row.rule, row.openedAt, None)] else open)
  {
    forall key ensures OpenRows(rows + [row], key) ==
      if row.key == key && row.closedAt.None? then OpenRows(rows, key) + [row] else OpenRows(rows, key)
    {
      OpenRowsOfInsert(rows, row, key);
    }
  }

  lemma RereadIsOpen(b: Book, open: map<string, Alert>)
    requires Coherent(b) && Reread(b.rows, open)
    ensures open.Keys == b.open.Keys && forall key | key in open :: open[key] == b.open[key].(clearingSince := None)
    ensures Coherent(Book(open, map[], b.rows))
    ensures forall key :: View(Book(open, map[], b.rows), key) == KeyStep(None, View(b, key), Restart)
  {
    forall key
      ensures key in open <==> key in b.open
      ensures key in open ==> open[key] == b.open[key].(clearingSince := None)
      ensures KeyCoherent(Book(open, map[], b.rows), key)
    {
      assert KeyCoherent(b, key);
    }
  }

  /** Some open alert is of the scope. */
  ghost predicate Live(open: map<string, Alert>, scope: string) {
    exists key :: key in open && Scope(key) == scope
  }

  /** The maps, the table and the timers are what the past calls for. */
  ghost predicate Recorded(debounceMs: int, settleMs: int, past: seq<Moment>, pending: map<string, int>, b: Book) {
    && Coherent(b)
    && (forall key :: View(b, key) == KeyAfter(debounceMs, past, key))
    && (forall subject :: TimerOf(pending, subject) == TimerAfter(settleMs, past, subject))
  }

  ghost predicate ForwardPast(past: seq<Moment>) {
    forall i, j | 0 <= i < j < |past| && past[i].Evaluated? && past[j].Evaluated? :: past[i].now <= past[j].now
  }

  /**
   After any run of evaluations and restarts: the open map holds exactly the open
   rows, one a key; a key's rows are the intervals its history calls for, disjoint
   and in order when the clock does not go back; and clearing says since when an
   open condition is gone.
   */
  lemma TableOverRuns(debounceMs: int, settleMs: int, past: seq<Moment>, pending: map<string, int>, b: Book,
      key: string)
    requires Recorded(debounceMs, settleMs, past, pending, b)
    ensures var window, h := Window(debounceMs, key), EventsOf(past, key);
      && RowsOf(b.rows, key) == Intervals(window, h, |past|)
      && (key in b.open <==> IsOpen(window, h, |past|))
      && Lookup(b.clearing, key) == GoneSince(window, h, |past|)
    ensures OpenRows(b.rows, key) == if key in b.open then [Row(key, b.open[key].rule, b.open[key].openedAt, None)]
      else []
    ensures ForwardPast(past) ==> Ordered(RowsOf(b.rows, key))
  {
    var window, h := Window(debounceMs, key), EventsOf(past, key);
    assert KeyCoherent(b, key) && View(b, key) == KeyAfter(debounceMs, past, key);
    KeyAfterIsRun(debounceMs, past, key);
    RunRecordsIntervals(window, h, |past|);
    if ForwardPast(past) {
      IntervalsInOrder(window, h, |past|);
    }
  }

  /** A settle timer that runs started when the runner was first seen offline, and nothing saw it back since. */
  lemma TimersOverRuns(debounceMs: int, settleMs: int, past: seq<Moment>, pending: map<string, int>, b: Book,
      subject: string)
    requires Recorded(debounceMs, settleMs, past, pending, b) && settleMs > 0 && TimerOf(pending, subject).Some?
    ensures exists i: nat :: OfflineSince(LooksOf(past, subject), i, |past|)
                             && LooksOf(past, subject)[i].now == TimerOf(pending, subject).value
  {
    assert TimerOf(pending, subject) == TimerAfter(settleMs, past, subject);
    TimerAfterIsRun(settleMs, past, subject);
    TimerMeans(settleMs, LooksOf(past, subject), |past|);
  }

  lemma EvaluationRecorded(debounceMs: int, settleMs: int, past: seq<Moment>, pending: map<string, int>, b: Book,
      m: Moment, pending': map<string, int>, b': Book)
    requires Recorded(debounceMs, settleMs, past, pending, b) && m.Evaluated? && Coherent(b')
    requires AllButTodo(debounceMs, b, m.found, m.superseded, m.now, {}, b')
    requires forall d :: TimerOf(pending', d) == TimerStep(settleMs, TimerOf(pending, d), LookOf(m, d))
    ensures Recorded(debounceMs, settleMs, past + [m], pending', b')
  {
    PastGrows(debounceMs, settleMs, past, m);
    forall key ensures View(b', key) == KeyAfter(debounceMs, past + [m], key) {
      assert View(b, key) == KeyAfter(debounceMs, past, key);
    }
    forall d ensures TimerOf(pending', d) == TimerAfter(settleMs, past + [m], d) {
      assert TimerOf(pending, d) == TimerAfter(settleMs, past, d);
    }
  }

  lemma ReloadRecorded(debounceMs: int, settleMs: int, past: seq<Moment>, pending: map<string, int>, b: Book,
      open: map<string, Alert>)
    requires Recorded(debounceMs, settleMs, past, pending, b) && Reread(b.rows, open)
    ensures Recorded(debounceMs, settleMs, past + [Reloaded], map[], Book(open, map[], b.rows))
    ensures open.Keys == b.open.Keys && forall key | key in open :: open[key] == b.open[key].(clearingSince := None)
  {
    RereadIsOpen(b, open);
    PastGrows(debounceMs, settleMs, past, Reloaded);
    forall key ensures View(Book(open, map[], b.rows), key) == KeyAfter(debounceMs, past + [Reloaded], key) {
      assert View(b, key) == KeyAfter(debounceMs, past, key);
    }
  }

  /** Seen offline from i on, at the first such look, for at least the settle window. */
  ghost predicate OfflineLongEnough(settleMs: int, past: seq<Moment>, d: string, now: int, i: nat) {
    && OfflineSince(LooksOf(past, d), i, |past|) && now - LooksOf(past, d)[i].now >= settleMs
    && forall j: nat | OfflineSince(LooksOf(past, d), j, |past|) :: i <= j
  }

  lemma SettledMeans(debounceMs: int, settleMs: int, past: seq<Moment>, pending: map<string, int>, b: Book, d: string,
      now: int)
    requires Recorded(debounceMs, settleMs, past, pending, b)
    ensures Settled(settleMs, TimerOf(pending, d), now)
       <==> settleMs <= 0 || exists i: nat :: OfflineLongEnough(settleMs, past, d, now, i)
  {
    assert TimerOf(pending, d) == TimerAfter(settleMs, past, d);
    TimerAfterIsRun(settleMs, past, d);
    if settleMs > 0 {
      TimerMeans(settleMs, LooksOf(past, d), |past|);
      if Settled(settleMs, TimerOf(pending, d), now) {
        var i: nat :| OfflineSince(LooksOf(past, d), i, |past|)
          && LooksOf(past, d)[i].now == TimerOf(pending, d).value
          && forall j: nat | OfflineSince(LooksOf(past, d), j, |past|) :: i <= j;
        assert OfflineLongEnough(settleMs, past, d, now, i);
      }
    }
  }

  /** An open condition that is not found any more waits out its debounce. */
  predicate StaysWhileGone(debounceMs: int, b: Book, key: string, now: int) {
    key in b.open && now - Lookup(b.clearing, key).GetOr(now) < debounceMs
  }

  lemma OpenAfter(debounceMs: int, b: Book, found: set<string>, superseded: set<string>, now: int, b': Book,
      key: string)
    requires KeyCoherent(b, key) && AllButTodo(debounceMs, b, found, superseded, now, {}, b') && IsOffline(key)
    ensures key in b'.open
       <==> key in found || (key !in superseded && StaysWhileGone(debounceMs, b, key, now))
  {
    assert View(b', key) == Called(debounceMs, b, found, superseded, now, key);
  }

  lemma RunnerNoticed(settleMs: int, threshold: int, pending: map<string, int>, open: set<string>,
                      offline: seq<string>, others: set<string>, now: int, m: Moment, d: string)
    requires Noticed(settleMs, threshold, pending, open, offline, others, now, m)
    requires forall key | key in others :: !IsOffline(key)
    ensures HOST_KEY in m.found <==> |offline| >= threshold
    ensures HOST_KEY !in m.superseded
    ensures RunnerKey(d) in m.found <==>
      && |offline| < threshold && HOST_KEY !in open && d in offline
      && (RunnerKey(d) in open || Settled(settleMs, TimerOf(pending, d), now))
    ensures RunnerKey(d) in m.superseded <==>
      (|offline| >= threshold || HOST_KEY in open) && RunnerKey(d) in open
  {
    PrefixesApart(OFFLINE_PREFIX, d, d);
    assert IsOffline(RunnerKey(d)) && RunnerKey(d) != HOST_KEY && SubjectOf(RunnerKey(d)) == d;
  }

  /**
   One evaluation, of one runner and of the host, told by what was there before. The
   host's alert is open while enough runners are offline, and for the debounce after
   that. A runner's own alert is open while it is offline and nothing stands for it,
   once it was offline for the settle window, and for the debounce after that; an alert
   that is open does not settle again.
   */
  lemma OfflineAlertsMean(debounceMs: int, settleMs: int, threshold: int, past: seq<Moment>,
                          pending: map<string, int>, b: Book, offline: seq<string>, others: set<string>, now: int,
                          m: Moment, b': Book, d: string)
    requires Recorded(debounceMs, settleMs, past, pending, b)
    requires Noticed(settleMs, threshold, pending, b.open.Keys, offline, others, now, m)
    requires AllButTodo(debounceMs, b, m.found, m.superseded, now, {}, b')
    requires forall key | key in others :: !IsOffline(key)
    ensures HOST_KEY in b'.open <==> |offline| >= threshold || StaysWhileGone(debounceMs, b, HOST_KEY, now)
    ensures RunnerKey(d) in b'.open <==>
      && |offline| < threshold && HOST_KEY !in b.open
      && if d in offline then
           RunnerKey(d) in b.open || settleMs <= 0 || exists i: nat :: OfflineLongEnough(settleMs, past, d, now, i)
         else StaysWhileGone(debounceMs, b, RunnerKey(d), now)
  {
    assert KeyCoherent(b, HOST_KEY) && KeyCoherent(b, RunnerKey(d));
    SettledMeans(debounceMs, settleMs, past, pending, b, d, now);
    RunnerNoticed(settleMs, threshold, pending, b.open.Keys, offline, others, now, m, d);
    OpenAfter(debounceMs, b, m.found, m.superseded, now, b', HOST_KEY);
    OpenAfter(debounceMs, b, m.found, m.superseded, now, b', RunnerKey(d));
  }

  /** Any other alert is open exactly while its condition is found. */
  lemma OtherAlertsMean(debounceMs: int, settleMs: int, threshold: int, past: seq<Moment>, pending: map<string, int>,
                        b: Book, offline: seq<string>, others: set<string>, now: int, m: Moment, b': Book, key: string)
    requires Recorded(debounceMs, settleMs, past, pending, b)
    requires Noticed(settleMs, threshold, pending, b.open.Keys, offline, others, now, m)
    requires AllButTodo(debounceMs, b, m.found, m.superseded, now, {}, b')
    requires key != "host:offline" && !StartsWith(key, "drift:offline:")
    ensures key in b'.open <==> key in others
  {
    assert KeyCoherent(b, key) && !IsOffline(key);
    assert View(b', key) == Called(debounceMs, b, m.found, m.superseded, now, key);
  }

  // ---- the engine -----------------------------------------------------------------------

  const SETTLE_PREFIX: string := "settle:" + OFFLINE_PREFIX

  class Engine {
    const debounceMs: int
    const settleMs: int
    const threshold: int
    var open: map<string, Alert>
    var pending: map<string, int>
    var clearing: map<string, int>
    var rows: seq<Row>
    var dismissals: map<string, int>
    ghost var past: seq<Moment>

    ghost function Now(): Book
      reads this
    {
      Book(open, clearing, rows)
    }

    ghost predicate Valid()
      reads this
    {
      Recorded(debounceMs, settleMs, past, pending, Now())
    }

    constructor (debounceMs: int, settleMs: int, threshold: int)
      ensures Valid() && past == [] && open == map[] && rows == [] && dismissals == map[]
      ensures this.debounceMs == debounceMs && this.settleMs == settleMs && this.threshold == threshold
    {
      this.debounceMs, this.settleMs, this.threshold := debounceMs, settleMs, threshold;
      open, pending, clearing, rows, dismissals, past := map[], map[], map[], [], map[], [];
    }

    /** A condition that must hold for windowMs before it counts. */
    method Sustained(key: string, isTrue: bool, windowMs: int, now: int) returns (held: bool)
      modifies this`pending
      ensures pending == if !isTrue then old(pending) - {key}
                         else if key in old(pending) then old(pending) else old(pending)[key := now]
      ensures Lookup(pending, key) == TimerStep(1, Lookup(old(pending), key), Look(now, isTrue, false))
      ensures held <==> isTrue && key in old(pending) && now - old(pending)[key] >= windowMs
    {
      if !isTrue {
        pending := pending - {key};
        return false;
      }
      if key !in pending {
        pending := pending[key := now];
        return false;
      }
      return now - pending[key] >= windowMs;
    }

    method Carry(key: string, f: Finding, now: int) returns (isNew: bool)
      requires key !in open ==> OpenRows(rows, key) == []
      modifies this`open, this`clearing, this`rows
      ensures isNew <==> key !in old(open)
      ensures Now() == Carried(old(Now()), key, f.rule, now)
    {
      isNew := key !in open;
      if isNew {
        rows := Insert(rows, Row(key, f.rule, now, None));
        open := open[key := Alert(f.rule, now, None)];
      } else if key in clearing {
        clearing := clearing - {key};
        open := open[key := open[key].(clearingSince := None)];
      }
    }

    method Clear(key: string, now: int, superseded: bool) returns (closed: bool)
      requires key in open
      modifies this`open, this`clearing, this`rows
      ensures closed <==> key !in open
      ensures Now() == Cleared(old(Now()), key, now, superseded, debounceMs)
    {
      var alert := open[key];
      var since := if key in clearing then clearing[key] else now;
      if alert.rule in DEBOUNCED_RULES && !superseded && now - since < debounceMs {
        clearing := clearing[key := since];
        open := open[key := alert.(clearingSince := Some(since))];
        return false;
      }
      clearing := clearing - {key};
      rows := Close(rows, key, since);
      open := open - {key};
      return true;
    }

    /** The findings, one by one. */
    method CarryAll(found: map<string, Finding>, now: int, ghost superseded: set<string>) returns (started: set<string>)
      requires Coherent(Now()) && forall key | key in found :: found[key].rule in DEBOUNCED_RULES <==> IsOffline(key)
      modifies this`open, this`clearing, this`rows
      ensures Coherent(Now())
      ensures AllButTodo(debounceMs, old(Now()), found.Keys, superseded, now, old(open).Keys - found.Keys, Now())
      ensures started == found.Keys - old(open).Keys && open.Keys == old(open).Keys + found.Keys
    {
      ghost var before, left := Now(), found.Keys + (open.Keys - found.Keys);
      NothingDone(debounceMs, before, found.Keys, superseded, now);
      started := {};
      var todo := found.Keys;
      while todo != {}
        invariant todo <= found.Keys && Coherent(Now())
        invariant AllButTodo(debounceMs, before, found.Keys, superseded, now, left, Now())
        invariant forall k :: k in left <==> k in todo || (k in before.open && k !in found)
        invariant forall k :: k in started <==> k in found && k !in todo && k !in before.open
        invariant forall k :: k in open <==> k in before.open || (k in found && k !in todo)
      {
        var key :| key in todo;
        CarriedOne(debounceMs, before, found.Keys, superseded, now, left, Now(), key, found[key].rule);
        var isNew := Carry(key, found[key], now);
        todo, left := todo - {key}, left - {key};
        if isNew {
          started := started + {key};
        }
      }
      assert left == before.open.Keys - found.Keys;
    }

    /** The open alerts that were not found, one by one. */
    method ClearAll(found: set<string>, now: int, superseded: set<string>, ghost before: Book)
      returns (ended: set<string>)
      requires Coherent(Now()) && AllButTodo(debounceMs, before, found, superseded, now, open.Keys - found, Now())
      modifies this`open, this`clearing, this`rows
      ensures Coherent(Now()) && AllButTodo(debounceMs, before, found, superseded, now, {}, Now())
      ensures ended == old(open).Keys - open.Keys && open.Keys <= old(open).Keys && ended !! found
    {
      ended := {};
      var todo := open.Keys - found;
      while todo != {}
        invariant todo <= open.Keys - found && Coherent(Now())
        invariant AllButTodo(debounceMs, before, found, superseded, now, todo, Now())
        invariant ended !! found && ended <= old(open).Keys && open.Keys == old(open).Keys - ended
      {
        var key :| key in todo;
        ClearedOne(debounceMs, before, found, superseded, now, todo, Now(), key);
        var gone := Clear(key, now, key in superseded);
        todo := todo - {key};
        if gone {
          ended := ended + {key};
        }
      }
    }

    /**
     reconcile: every key takes the step its history calls for, found or not,
     superseded or not.
     */
    method Reconcile(found: map<string, Finding>, now: int, superseded: set<string>)
      returns (started: set<string>, ended: set<string>)
      requires Coherent(Now()) && forall key | key in found :: found[key].rule in DEBOUNCED_RULES <==> IsOffline(key)
      modifies this`open, this`clearing, this`rows
      ensures Coherent(Now())
      ensures AllButTodo(debounceMs, old(Now()), found.Keys, superseded, now, {}, Now())
      ensures started == found.Keys - old(open).Keys && ended == old(open).Keys - open.Keys
      ensures found.Keys <= open.Keys <= found.Keys + old(open).Keys && clearing.Keys == open.Keys - found.Keys
      ensures forall key | key in clearing :: IsOffline(key) && key !in superseded && now - clearing[key] < debounceMs
    {
      started := CarryAll(found, now, superseded);
      assert open.Keys - found.Keys == old(open).Keys - found.Keys;
      ended := ClearAll(found.Keys, now, superseded, old(Now()));
      forall key
        ensures key in clearing <==> key in open && key !in found
        ensures key in clearing ==> IsOffline(key) && key !in superseded && now - clearing[key] < debounceMs
        ensures key in found ==> key in open
        ensures key in open ==> key in found || key in old(open)
      {
        assert KeyCoherent(old(Now()), key);
        StillClearing(debounceMs, old(Now()), found.Keys, superseded, now, Now(), key);
      }
    }

    /** The timers of the runners that are not offline, dropped. */
    method DropTimers(offline: seq<string>)
      modifies this`pending
      ensures forall d :: TimerOf(pending, d) == if d in offline then TimerOf(old(pending), d) else None
      ensures forall key | !StartsWith(key, SETTLE_PREFIX) :: Lookup(pending, key) == Lookup(old(pending), key)
    {
      var todo := pending.Keys;
      while todo != {}
        invariant todo <= pending.Keys
        invariant forall key :: Lookup(pending, key) == Lookup(
          if key !in todo && StartsWith(key, SETTLE_PREFIX) && key[|SETTLE_PREFIX|..] !in offline
          then map[] else old(pending), key)
      {
        var key :| key in todo;
        todo := todo - {key};
        if StartsWith(key, SETTLE_PREFIX) && key[|SETTLE_PREFIX|..] !in offline {
          pending := pending - {key};
        }
      }
      forall d ensures TimerOf(pending, d) == if d in offline then TimerOf(old(pending), d) else None {
        PrefixesApart(SETTLE_PREFIX, d, d);
      }
    }

    /**
     offlineFindings. With several runners offline, or the host's alert open, the
     host's alert stands for them all and replaces theirs; else each runner has its
     own, once settled.
     */
    method OfflineFindings(offline: seq<string>, now: int)
      returns (found: map<string, Finding>, superseded: set<string>)
      modifies this`pending
      ensures var hostWide := |offline| >= threshold || HOST_KEY in open;
        && (forall d ::
          TimerOf(pending, d) == TimerStep(settleMs, TimerOf(old(pending), d), Look(now, d in offline, hostWide)))
        && (forall key :: key in found <==>
              || (key == HOST_KEY && |offline| >= threshold)
              || (!hostWide && Due(settleMs, old(pending), open.Keys, offline, now, key)))
        && superseded == (if hostWide then set key | key in open && IsRunnerOffline(key) else {})
      ensures forall key | !StartsWith(key, SETTLE_PREFIX) :: Lookup(pending, key) == Lookup(old(pending), key)
      ensures forall key | key in found :: IsOffline(key) && found[key].rule in DEBOUNCED_RULES
    {
      found := map[];
      if |offline| >= threshold {
        found := found[HOST_KEY := Finding("offline-host")];
      }
      if |offline| >= threshold || HOST_KEY in open {
        superseded := set key | key in open && IsRunnerOffline(key);
        return;
      }
      superseded := {};
      for i := 0 to |offline|
        invariant TimersAt(settleMs, old(pending), pending, offline[..i], now)
        invariant forall key :: key in found <==> Due(settleMs, old(pending), open.Keys, offline[..i], now, key)
        invariant forall key | key in found :: found[key].rule in DEBOUNCED_RULES
        invariant forall key | !StartsWith(key, SETTLE_PREFIX) :: Lookup(pending, key) == Lookup(old(pending), key)
      {
        var d := offline[i];
        ghost var before := pending;
        PrefixesApart(SETTLE_PREFIX, d, d);
        var settled := true;
        if settleMs > 0 {
          settled := Sustained(SETTLE_PREFIX + d, true, settleMs, now);
        }
        SettledOnce(settleMs, old(pending), before, pending, offline, i, now, settled);
        forall key
          ensures Due(settleMs, old(pending), open.Keys, offline[..i + 1], now, key) <==>
            Due(settleMs, old(pending), open.Keys, offline[..i], now, key)
              || (key == RunnerKey(d) && (settled || key in open))
        {
          DueOnce(settleMs, old(pending), open.Keys, offline, i, now, key);
        }
        if settled || RunnerKey(d) in open {
          found := found[RunnerKey(d) := Finding("offline")];
        }
      }
      assert offline[..|offline|] == offline;
      DropTimers(offline);
    }

    /** What this evaluation found, by the offline rules and the others. */
    method Findings(offline: seq<string>, others: map<string, Finding>, now: int)
      returns (found: map<string, Finding>, superseded: set<string>, ghost m: Moment)
      requires forall key | key in others :: !IsOffline(key) && others[key].rule !in DEBOUNCED_RULES
      modifies this`pending
      ensures m == Evaluated(
                now, (set d | d in offline), |offline| >= threshold || HOST_KEY in open, found.Keys, superseded)
      ensures Noticed(settleMs, threshold, old(pending), open.Keys, offline, others.Keys, now, m)
      ensures forall d :: TimerOf(pending, d) == TimerStep(settleMs, TimerOf(old(pending), d), LookOf(m, d))
      ensures forall key | key in found :: found[key].rule in DEBOUNCED_RULES <==> IsOffline(key)
    {
      var mine;
      mine, superseded := OfflineFindings(offline, now);
      found := mine + others;
      m := Evaluated(now, (set d | d in offline), |offline| >= threshold || HOST_KEY in open, found.Keys, superseded);
    }

    /**
     evaluate, with the findings of the other rules as given. It leaves the table,
     the maps and the timers as the whole past calls for.
     */
    method Evaluate(offline: seq<string>, others: map<string, Finding>, now: int)
      returns (started: set<string>, ended: set<string>)
      requires Valid() && forall key | key in others :: !IsOffline(key) && others[key].rule !in DEBOUNCED_RULES
      modifies this`open, this`pending, this`clearing, this`rows, this`past
      ensures Valid() && |past| == |old(past)| + 1 && past[..|old(past)|] == old(past)
      ensures var m := past[|old(past)|];
        && Noticed(settleMs, threshold, old(pending), old(open).Keys, offline, others.Keys, now, m)
        && m.found <= open.Keys && started == open.Keys - old(open).Keys && ended == old(open).Keys - open.Keys
        && clearing.Keys == open.Keys - m.found
        && forall key | key in clearing :: IsOffline(key) && key !in m.superseded && now - clearing[key] < debounceMs
      ensures HostOrRunners(open)
    {
      ghost var before := Now();
      var found, superseded;
      ghost var m;
      found, superseded, m := Findings(offline, others, now);
      started, ended := Reconcile(found, now, superseded);
      HostReplacesRunners(debounceMs, settleMs, threshold, old(pending), before, offline, others.Keys, now, m, Now());
      EvaluationRecorded(debounceMs, settleMs, past, old(pending), before, m, pending, Now());
      past := past + [m];
    }

    /** A new process reads the open alerts back from the table; what was settling or clearing starts over. */
    method Reload()
      requires Valid()
      modifies this`open, this`pending, this`clearing, this`past
      ensures Valid() && past == old(past) + [Reloaded]
      ensures open.Keys == old(open).Keys
        && forall key | key in open :: open[key] == old(open)[key].(clearingSince := None)
    {
      ghost var before := Now();
      pending, clearing, open := map[], map[], map[];
      for i := 0 to |rows|
        invariant Reread(rows[..i], open)
        modifies this`open
      {
        assert rows[..i + 1] == rows[..i] + [rows[i]];
        RereadOne(rows[..i], rows[i], open);
        if rows[i].closedAt.None? {
          open := open[rows[i].key := Alert(rows[i].rule, rows[i].openedAt, None)];
        }
      }
      assert rows[..|rows|] == rows;
      ReloadRecorded(debounceMs, settleMs, past, old(pending), before, open);
      past := past + [Reloaded];
    }

    /** Dismissing decides whether a condition may interrupt someone; it closes nothing. */
    method Dismiss(key: string, now: int) returns (scope: Option<string>)
      modifies this`dismissals
      ensures scope == if key in open then Some(Scope(key)) else None
      ensures dismissals == if key in open then old(dismissals)[Scope(key) := now] else old(dismissals)
    {
      if key !in open {
        return None;
      }
      dismissals := dismissals[Scope(key) := now];
      return Some(Scope(key));
    }

    method Restore(key: string) returns (restored: bool)
      modifies this`dismissals
      ensures restored <==> key in open && Scope(key) in old(dismissals)
      ensures dismissals == if restored then old(dismissals) - {Scope(key)} else old(dismissals)
    {
      if key !in open {
        return false;
      }
      restored := Scope(key) in dismissals;
      dismissals := dismissals - {Scope(key)};
    }

    /** A dismissal dies with the condition it was about. */
    method ForgetClearedDismissals()
      modifies this`dismissals
      ensures forall scope ::
        Lookup(dismissals, scope) == Lookup(if Live(open, scope) then old(dismissals) else map[], scope)
    {
      var live := set key | key in open :: Scope(key);
      var todo := dismissals.Keys;
      while todo != {}
        invariant todo <= dismissals.Keys
        invariant forall scope ::
          Lookup(dismissals, scope) == Lookup(if scope in live || scope in todo then old(dismissals) else map[], scope)
      {
        var scope :| scope in todo;
        todo := todo - {scope};
        if scope !in live {
          dismissals := dismissals - {scope};
        }
      }
    }

    /** One tick: the evaluation, then what may be announced, then the dismissals whose condition cleared. */
    method Run(offline: seq<string>, others: map<string, Finding>, now: int)
      returns (speaking: set<string>, resolved: set<string>)
      requires Valid() && forall key | key in others :: !IsOffline(key) && others[key].rule !in DEBOUNCED_RULES
      modifies this
      ensures Valid() && HostOrRunners(open) && |past| == |old(past)| + 1
      ensures forall key :: key in speaking <==> key in open && key !in old(open) && Scope(key) !in old(dismissals)
      ensures forall key :: key in resolved <==> key in old(open) && key !in open && Scope(key) !in old(dismissals)
      ensures forall scope ::
        Lookup(dismissals, scope) == Lookup(if Live(open, scope) then old(dismissals) else map[], scope)
    {
      var started, ended := Evaluate(offline, others, now);
      speaking := set key | key in started && Scope(key) !in dismissals;
      resolved := set key | key in ended && Scope(key) !in dismissals;
      ForgetClearedDismissals();
    }
  }
}
