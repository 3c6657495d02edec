/**
 The batch loop of the agent (dashboard/agent.js) and the steps a batch takes in the
 whole system: with no other batch on the host they come to the same.
 */
module CommandBatches {
  import opened Wrappers
  import opened CommandQueue
  import opened CommandDelivery

  /** The executions of a batch, in order: the commands found in the cache are not among them. */
  function Executed(cache: Cache, keys: seq<CacheKey>, outcomes: seq<Result>): seq<Entry>
    requires |keys| == |outcomes|
  {
    if keys == [] then []
    else
      var n := |keys| - 1;
      var before := Executed(cache, keys[..n], outcomes[..n]);
      if Find(BatchOf(cache, keys[..n], outcomes[..n]).0, keys[n]).Some? then before
      else before + [Entry(keys[n], outcomes[n])]
  }

  lemma {:induction false} OneResultEach(cache: Cache, keys: seq<CacheKey>, outcomes: seq<Result>)
    requires |keys| == |outcomes|
    ensures |BatchOf(cache, keys, outcomes).1| == |keys|
  {
    if keys != [] {
      OneResultEach(cache, keys[..|keys| - 1], outcomes[..|keys| - 1]);
    }
  }

  lemma BatchSnoc(cache: Cache, keys: seq<CacheKey>, outcomes: seq<Result>, key: CacheKey, outcome: Result)
    requires |keys| == |outcomes|
    ensures var (c, rs) := BatchOf(cache, keys, outcomes);
      var at := Find(c, key);
      && BatchOf(cache, keys + [key], outcomes + [outcome])
         == (if at.Some? then (c, rs + [c[at.value].result])
             else (Newest(Put(c, Entry(key, outcome))), rs + [outcome]))
      && Executed(cache, keys + [key], outcomes + [outcome])
         == Executed(cache, keys, outcomes) + if at.Some? then [] else [Entry(key, outcome)]
  {
    assert (keys + [key])[..|keys|] == keys && (outcomes + [outcome])[..|outcomes|] == outcomes;
  }

  // ---- what a batch answers ---------------------------------------------------

  lemma FoundRan(log: seq<Entry>, key: CacheKey)
    requires Find(Newest(log), key).Some?
    ensures Ran(log, key, Newest(log)[Find(Newest(log), key).value].result)
  {
    var cache := Newest(log);
    var at := Find(cache, key).value;
    assert log[at + |log| - |cache|] == cache[at];
  }

  /** The last command of a batch. */
  lemma BatchLast(cache: Cache, keys: seq<CacheKey>, outcomes: seq<Result>)
    requires |keys| == |outcomes| > 0
    ensures var n := |keys| - 1;
      var (c, rs) := BatchOf(cache, keys[..n], outcomes[..n]);
      var done := Executed(cache, keys[..n], outcomes[..n]);
      var at := Find(c, keys[n]);
      if at.Some? then
        BatchOf(cache, keys, outcomes) == (c, rs + [c[at.value].result]) && Executed(cache, keys, outcomes) == done
      else
        var e := Entry(keys[n], outcomes[n]);
        && BatchOf(cache, keys, outcomes) == (Newest(Put(c, e)), rs + [outcomes[n]])
        && Executed(cache, keys, outcomes) == done + [e]
  {
  }

  lemma AnswerOne(log: seq<Entry>, key: CacheKey, outcome: Result)
    requires Separated(log)
    ensures var at := Find(Newest(log), key);
      var log' := log + if at.Some? then [] else [Entry(key, outcome)];
      && Separated(log')
      && (if at.Some? then Newest(log) else Newest(Put(Newest(log), Entry(key, outcome)))) == Newest(log')
      && Ran(log', key, if at.Some? then Newest(log)[at.value].result else outcome)
  {
    if Find(Newest(log), key).Some? {
      FoundRan(log, key);
      assert log + [] == log;
    } else {
      LogGrows(log, Entry(key, outcome));
      assert (log + [Entry(key, outcome)])[|log|] == Entry(key, outcome);
    }
  }

  lemma {:induction false} BatchKeepsCache(log: seq<Entry>, keys: seq<CacheKey>, outcomes: seq<Result>)
    requires |keys| == |outcomes| && Separated(log)
    ensures var log' := log + Executed(Newest(log), keys, outcomes);
      BatchOf(Newest(log), keys, outcomes).0 == Newest(log') && Separated(log')
  {
    if keys == [] {
      assert log + Executed(Newest(log), keys, outcomes) == log;
    } else {
      var n := |keys| - 1;
      var done := Executed(Newest(log), keys[..n], outcomes[..n]);
      BatchKeepsCache(log, keys[..n], outcomes[..n]);
      BatchLast(Newest(log), keys, outcomes);
      AnswerOne(log + done, keys[n], outcomes[n]);
      assert log + (done + [Entry(keys[n], outcomes[n])]) == (log + done) + [Entry(keys[n], outcomes[n])];
    }
  }

  lemma ExecutedGrows(cache: Cache, keys: seq<CacheKey>, outcomes: seq<Result>)
    requires |keys| == |outcomes| > 0
    ensures Executed(cache, keys[..|keys| - 1], outcomes[..|keys| - 1]) <= Executed(cache, keys, outcomes)
  {
  }

  lemma StillRan(log: seq<Entry>, done: seq<Entry>, all: seq<Entry>, key: CacheKey, r: Result)
    requires done <= all && Ran(log + done, key, r)
    ensures Ran(log + all, key, r)
  {
    assert log + all == (log + done) + all[|done|..];
    RanStays(log + done, all[|done|..], key, r);
  }

  lemma RanLast(log: seq<Entry>, done: seq<Entry>, e: Entry)
    ensures Ran(log + (done + [e]), e.key, e.result)
  {
    assert (log + (done + [e]))[|log| + |done|] == e;
  }

  lemma LastAnswer(log: seq<Entry>, keys: seq<CacheKey>, outcomes: seq<Result>)
    requires |keys| == |outcomes| == |BatchOf(Newest(log), keys, outcomes).1| && |keys| > 0 && Separated(log)
    ensures Ran(
              log + Executed(Newest(log), keys, outcomes), keys[|keys| - 1],
              BatchOf(Newest(log), keys, outcomes).1[|keys| - 1])
  {
    var n := |keys| - 1;
    var c := BatchOf(Newest(log), keys[..n], outcomes[..n]).0;
    var done := Executed(Newest(log), keys[..n], outcomes[..n]);
    BatchKeepsCache(log, keys[..n], outcomes[..n]);
    OneResultEach(Newest(log), keys[..n], outcomes[..n]);
    BatchLast(Newest(log), keys, outcomes);
    if Find(c, keys[n]).Some? {
      FoundRan(log + done, keys[n]);
    } else {
      RanLast(log, done, Entry(keys[n], outcomes[n]));
    }
  }

  lemma ResultsGrow(cache: Cache, keys: seq<CacheKey>, outcomes: seq<Result>)
    requires |keys| == |outcomes| > 0
    ensures BatchOf(cache, keys[..|keys| - 1], outcomes[..|keys| - 1]).1 <= BatchOf(cache, keys, outcomes).1
  {
  }

  lemma {:induction false} BatchAnswers(log: seq<Entry>, keys: seq<CacheKey>, outcomes: seq<Result>, k: nat)
    requires k < |keys| == |outcomes| == |BatchOf(Newest(log), keys, outcomes).1| && Separated(log)
    ensures Ran(log + Executed(Newest(log), keys, outcomes), keys[k], BatchOf(Newest(log), keys, outcomes).1[k])
  {
    if k == |keys| - 1 {
      LastAnswer(log, keys, outcomes);
    } else {
      var front, some := keys[..|keys| - 1], outcomes[..|keys| - 1];
      OneResultEach(Newest(log), front, some);
      BatchAnswers(log, front, some, k);
      ResultsGrow(Newest(log), keys, outcomes);
      ExecutedGrows(Newest(log), keys, outcomes);
      StillRan(log, Executed(Newest(log), front, some), Executed(Newest(log), keys, outcomes), keys[k],
               BatchOf(Newest(log), front, some).1[k]);
    }
  }

  /**
   Over a cache that holds the newest executions, a batch keeps it so, runs no command
   whose last execution is among the newest 256, and answers each command with what
   an execution of it said.
   */
  lemma BatchAnswersTruly(log: seq<Entry>, keys: seq<CacheKey>, outcomes: seq<Result>)
    requires |keys| == |outcomes| && Separated(log)
    ensures var (c, rs) := BatchOf(Newest(log), keys, outcomes);
      var log' := log + Executed(Newest(log), keys, outcomes);
      && c == Newest(log') && Separated(log')
      && |rs| == |keys| && forall k | 0 <= k < |keys| :: Ran(log', keys[k], rs[k])
  {
    OneResultEach(Newest(log), keys, outcomes);
    BatchKeepsCache(log, keys, outcomes);
    forall k | 0 <= k < |keys|
      ensures Ran(log + Executed(Newest(log), keys, outcomes), keys[k], BatchOf(Newest(log), keys, outcomes).1[k])
    {
      BatchAnswers(log, keys, outcomes, k);
    }
  }

  // ---- a batch among the steps of the system --------------------------------------

  /** An event that is no step of another batch on the host and does not drop this one. */
  predicate Alone(n: nat, e: Event) {
    match e
    case Begin(m) => m == n
    case End(m, _) => m == n
    case Drop(m) => m != n
    case _ => true
  }

  predicate Known(s: System, ids: seq<nat>) {
    forall id | id in ids :: id < |s.rows|
  }

  function KeysOf(s: System, ids: seq<nat>): (keys: seq<CacheKey>)
    requires Known(s, ids)
    ensures |keys| == |ids|
  {
    seq(|ids|, k requires 0 <= k < |ids| => assert ids[k] in ids; KeyOf(ids[k], s.rows[ids[k]]))
  }

  function Posted(ids: seq<nat>, rs: seq<Result>): set<(nat, Result)>
    requires |ids| == |rs|
  {
    set k | 0 <= k < |ids| :: (ids[k], rs[k])
  }

  lemma PostedSnoc(ids: seq<nat>, rs: seq<Result>, id: nat, r: Result)
    requires |ids| == |rs|
    ensures Posted(ids + [id], rs + [r]) == Posted(ids, rs) + {(id, r)}
  {
    var xs, ys := ids + [id], rs + [r];
    forall p ensures p in Posted(xs, ys) <==> p in Posted(ids, rs) + {(id, r)} {
      if p in Posted(ids, rs) {
        var k :| 0 <= k < |ids| && p == (ids[k], rs[k]);
        assert p == (xs[k], ys[k]);
      }
      if p == (id, r) {
        assert p == (xs[|ids|], ys[|ids|]);
      }
    }
  }

  /** Where the batch stands: its first commands came to what the loop makes of them. */
  ghost predicate Stands(s0: System, s: System, n: nat, ids: seq<nat>, outcomes: seq<Result>)
    requires Known(s0, ids)
  {
    && n in s.flights && s.flights[n].ids == ids && s.flights[n].next == |outcomes| <= |ids|
    && Known(s, ids) && KeysOf(s, ids) == KeysOf(s0, ids)
    && (s.flights[n].running ==> |outcomes| < |ids| && Absent(s.cache, KeysOf(s0, ids)[|outcomes|]))
    && Reckoned(s0, s, KeysOf(s0, ids)[..|outcomes|], ids[..|outcomes|], outcomes)
  }

  /** The cache, the log and the results are those of the loop over these commands. */
  ghost predicate Reckoned(s0: System, s: System, keys: seq<CacheKey>, ids: seq<nat>, outcomes: seq<Result>)
    requires |keys| == |ids| == |outcomes|
  {
    var (c, rs) := BatchOf(s0.cache, keys, outcomes);
    && |rs| == |ids|
    && s.cache == c
    && s.log == s0.log + Executed(s0.cache, keys, outcomes)
    && s.results == s0.results + Posted(ids, rs)
  }

  lemma ReckonedSnoc(
    s0: System, s: System, s': System, keys: seq<CacheKey>, ids: seq<nat>, outcomes: seq<Result>, key: CacheKey,
    id: nat, outcome: Result)
    requires |keys| == |ids| == |outcomes| && Reckoned(s0, s, keys, ids, outcomes)
    requires var at := Find(s.cache, key);
      if at.Some? then
        s'.cache == s.cache && s'.log == s.log && s'.results == s.results + {(id, s.cache[at.value].result)}
      else
        && s'.cache == Newest(Put(s.cache, Entry(key, outcome)))
        && s'.log == s.log + [Entry(key, outcome)] && s'.results == s.results + {(id, outcome)}
    ensures Reckoned(s0, s', keys + [key], ids + [id], outcomes + [outcome])
  {
    var rs := BatchOf(s0.cache, keys, outcomes).1;
    BatchSnoc(s0.cache, keys, outcomes, key, outcome);
    var at := Find(s.cache, key);
    PostedSnoc(ids, rs, id, if at.Some? then s.cache[at.value].result else outcome);
    var before := Executed(s0.cache, keys, outcomes);
    assert s0.log + (before + [Entry(key, outcome)]) == (s0.log + before) + [Entry(key, outcome)];
    assert before + [] == before;
  }

  lemma TakeNext<T>(xs: seq<T>, k: nat)
    requires k < |xs|
    ensures xs[..k + 1] == xs[..k] + [xs[k]]
  {
  }

  /** The command due is the next of the batch's. */
  lemma DueNext(s0: System, s: System, n: nat, ids: seq<nat>, outcomes: seq<Result>)
    requires Known(s0, ids) && Stands(s0, s, n, ids, outcomes) && Due(s, n)
    ensures |outcomes| < |ids| && DueKey(s, s.flights[n]) == KeysOf(s0, ids)[|outcomes|]
  {
    assert DueKey(s, s.flights[n]) == KeysOf(s, ids)[|outcomes|];
  }

  lemma SameRows(s: System, s': System, ids: seq<nat>)
    requires Known(s, ids) && s'.rows == s.rows
    ensures Known(s', ids) && KeysOf(s', ids) == KeysOf(s, ids)
  {
  }

  lemma ReckonedOnEnd(s0: System, s: System, n: nat, ids: seq<nat>, outcomes: seq<Result>, outcome: Result)
    requires Known(s0, ids) && Stands(s0, s, n, ids, outcomes) && Due(s, n) && s.flights[n].running
    ensures |outcomes| < |ids|
    ensures var k := |outcomes| + 1;
      Reckoned(s0, AfterEnd(s, n, outcome), KeysOf(s0, ids)[..k], ids[..k], outcomes + [outcome])
  {
    var keys, k := KeysOf(s0, ids), |outcomes|;
    DueNext(s0, s, n, ids, outcomes);
    TakeNext(keys, k);
    TakeNext(ids, k);
    ReckonedSnoc(s0, s, AfterEnd(s, n, outcome), keys[..k], ids[..k], outcomes, keys[k], ids[k], outcome);
  }

  lemma StandsOnEnd(s0: System, s: System, n: nat, ids: seq<nat>, outcomes: seq<Result>, outcome: Result)
    requires Known(s0, ids) && Stands(s0, s, n, ids, outcomes) && Due(s, n) && s.flights[n].running
    ensures Stands(s0, AfterEnd(s, n, outcome), n, ids, outcomes + [outcome])
  {
    ReckonedOnEnd(s0, s, n, ids, outcomes, outcome);
    SameRows(s, AfterEnd(s, n, outcome), ids);
  }

  lemma StandsOnBegin(s0: System, s: System, n: nat, ids: seq<nat>, outcomes: seq<Result>)
    returns (after: seq<Result>)
    requires Known(s0, ids) && Stands(s0, s, n, ids, outcomes) && Due(s, n) && !s.flights[n].running
    ensures Stands(s0, AfterBegin(s, n), n, ids, after)
  {
    var keys, k, s' := KeysOf(s0, ids), |outcomes|, AfterBegin(s, n);
    DueNext(s0, s, n, ids, outcomes);
    TakeNext(keys, k);
    TakeNext(ids, k);
    assert KeysOf(s', ids) == KeysOf(s, ids);
    if Find(s.cache, keys[k]).Some? {
      after := outcomes + [Result(true, "")];
      ReckonedSnoc(s0, s, s', keys[..k], ids[..k], outcomes, keys[k], ids[k], Result(true, ""));
    } else {
      after := outcomes;
    }
  }

  lemma StandsOnOtherStep(me: string, s0: System, s: System, e: Event, n: nat, ids: seq<nat>, outcomes: seq<Result>)
    requires TableSound(s) && Known(s0, ids) && Stands(s0, s, n, ids, outcomes)
    requires Possible(me, s, e, None) && Alone(n, e) && !e.Begin? && !e.End?
    ensures Stands(s0, Next(me, s, e), n, ids, outcomes)
  {
    var s' := Next(me, s, e);
    StepKeepsTable(me, s, e);
    forall k | 0 <= k < |ids| ensures ids[k] < |s'.rows| && KeyOf(ids[k], s'.rows[ids[k]]) == KeysOf(s, ids)[k] {
      assert ids[k] in ids;
      assert Continues(s.rows[ids[k]], s'.rows[ids[k]]);
    }
    assert KeysOf(s', ids) == KeysOf(s, ids);
  }

  lemma {:induction false} BatchGoesOn(
    me: string, s0: System, s: System, events: seq<Event>, s': System, n: nat, ids: seq<nat>, outcomes: seq<Result>)
    returns (after: seq<Result>)
    requires TableSound(s) && Known(s0, ids) && Stands(s0, s, n, ids, outcomes)
    requires Run(me, s, events, None, s') && forall e | e in events :: Alone(n, e)
    ensures Stands(s0, s', n, ids, after)
    decreases |events|
  {
    after := outcomes;
    if events != [] {
      var e := events[0];
      assert e in events;
      StepKeepsTable(me, s, e);
      if e.Begin? {
        after := StandsOnBegin(s0, s, n, ids, outcomes);
      } else if e.End? {
        StandsOnEnd(s0, s, n, ids, outcomes, e.outcome);
        after := outcomes + [e.outcome];
      } else {
        StandsOnOtherStep(me, s0, s, e, n, ids, outcomes);
      }
      after := BatchGoesOn(me, s0, Next(me, s, e), events[1..], s', n, ids, after);
    }
  }

  /**
   A batch among the steps of the system. Whatever else happens, be it the table that
   changes or more responses that arrive, as long as no other batch takes a step on
   the host: once the batch is through, the cache, the results posted and the
   executions are those of the loop over its commands, for some outcomes.
   */
  lemma BatchIsRun(me: string, s: System, events: seq<Event>, s': System, n: nat)
    returns (outcomes: seq<Result>)
    requires TableSound(s) && n in s.flights && s.flights[n].next == 0 && !s.flights[n].running
    requires Known(s, s.flights[n].ids)
    requires Run(me, s, events, None, s') && (forall e | e in events :: Alone(n, e))
    ensures n in s'.flights
    ensures var ids := s.flights[n].ids;
      s'.flights[n].next == |ids| ==> |outcomes| == |ids| && Reckoned(s, s', KeysOf(s, ids), ids, outcomes)
  {
    var ids := s.flights[n].ids;
    assert s.log + [] == s.log;
    assert s.results + Posted([], []) == s.results;
    outcomes := BatchGoesOn(me, s, s, events, s', n, ids, []);
    if s'.flights[n].next == |ids| {
      assert ids[..|ids|] == ids && KeysOf(s, ids)[..|ids|] == KeysOf(s, ids);
    }
  }
}
