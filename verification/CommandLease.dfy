/**
 How long a batch may last before a command can run twice: exactly the lease after
 which the coordinator offers its commands again (dashboard/lib/ha.js), while the
 agent remembers a command only once it ran (dashboard/agent.js).
 */
module CommandLease {
  import opened Wrappers
  import opened CommandQueue
  import opened CommandDelivery

  /** Some run, with batches that last no longer than the limit, leads from s to s'. */
  ghost predicate Reaches(me: string, limit: Option<nat>, s: System, s': System) {
    exists events :: Run(me, s, events, limit, s')
  }

  lemma ReachesNext(me: string, limit: Option<nat>, s: System, e: Event, mid: System, s': System)
    requires Possible(me, s, e, limit) && Possible(me, s, e, None) && Next(me, s, e) == mid
    requires Reaches(me, limit, mid, s')
    ensures Reaches(me, limit, s, s')
  {
    var rest :| Run(me, mid, rest, limit, s');
    assert ([e] + rest)[1..] == rest;
    assert Run(me, s, [e] + rest, limit, s');
  }

  lemma ReachesSelf(me: string, limit: Option<nat>, s: System)
    ensures Reaches(me, limit, s, s)
  {
    assert Run(me, s, [], limit, s);
  }

  lemma {:induction false} ReachesVia(
    me: string, limit: Option<nat>, s: System, first: seq<Event>, mid: System, s': System)
    requires Run(me, s, first, limit, mid) && Reaches(me, limit, mid, s')
    ensures Reaches(me, limit, s, s')
    decreases |first|
  {
    if first != [] {
      var next := Next(me, s, first[0]);
      ReachesVia(me, limit, next, first[1..], mid, s');
      ReachesNext(me, limit, s, first[0], next, s');
    }
  }

  lemma ReachesBoth(me: string, limit: Option<nat>, s: System, mid: System, s': System)
    requires Reaches(me, limit, s, mid) && Reaches(me, limit, mid, s')
    ensures Reaches(me, limit, s, s')
  {
    var first :| Run(me, s, first, limit, mid);
    ReachesVia(me, limit, s, first, mid, s');
  }

  lemma BeatOne(me: string, r: Row, now: int)
    requires Claimable(r, me)
    ensures Beat([r], me, now, {}) == ([MarkSent(r, now)], [0])
  {
    var ids := ClaimIds([r], me, 0, CLAIM_LIMIT);
    assert ClaimIds([r], me, 1, CLAIM_LIMIT - 1) == [];
    assert ids == [0];
    assert ids[..0] == [];
    var sent := MarkSent(r, now);
    assert MarkAll([r], ids, now) == [sent];
    var kept := ReleaseAll([sent], ids, {});
    assert kept[0] == sent;
    assert kept == [sent];
    var answered := Without(ids, {});
    assert answered == Without(ids[..0], {}) + [0] == [0];
  }

  const RESTART := "runner.restart"

  /** One command, sent `attempts` times, last at `at`; the host has begun it in each of its batches. */
  function Out(
    me: string, status: Status, attempts: nat, begun: nat, at: Option<int>, now: int, flights: map<nat, Flight>): System
  {
    System(
      now, [Row(me, RESTART, None, status, at, attempts, None, None)], [attempts], [begun], flights, [], [], {})
  }

  lemma Queued(me: string, limit: Option<nat>, now: int)
    ensures Reaches(me, limit, Start(now), Out(me, Pending, 0, 0, None, now, map[]))
  {
    var s' := Out(me, Pending, 0, 0, None, now, map[]);
    var empty: Table := [];
    assert Queue(empty, me, RESTART, None).0 == s'.rows;
    ReachesSelf(me, limit, s');
    ReachesNext(me, limit, Start(now), Enqueue(me, RESTART, None), s', s');
  }

  lemma SentOut(me: string, attempts: nat, begun: nat, now: int, at: Option<int>, flights: map<nat, Flight>, n: nat)
    requires attempts < MAX_ATTEMPTS && n !in flights
    ensures AfterHeartbeat(me, Out(me, Pending, attempts, begun, at, now, flights), me, {}, n)
         == Out(me, Sent, attempts + 1, begun, Some(now), now, flights[n := Flight(now, [0], 0, false)])
  {
    var s := Out(me, Pending, attempts, begun, at, now, flights);
    var r := Row(me, RESTART, None, Pending, at, attempts, None, None);
    BeatOne(me, r, now);
    assert s.rows == [r];
    assert Beat(s.rows, me, s.now, {}) == ([MarkSent(r, now)], [0]);
    assert CountDelivered([attempts], [0]) == [attempts + 1];
  }

  lemma OutBegins(me: string, attempts: nat, begun: nat, now: int, flights: map<nat, Flight>, n: nat)
    requires n in flights && flights[n] == Flight(now, [0], 0, false)
    ensures var s := Out(me, Sent, attempts, begun, Some(now), now, flights);
      && Due(s, n) && !s.flights[n].running
      && AfterBegin(s, n)
         == Out(me, Sent, attempts, begun + 1, Some(now), now, flights[n := Flight(now, [0], 0, true)])
  {
    assert CountBegun([begun], 0) == [begun + 1];
  }

  lemma SentAndBegun(
    me: string, limit: Option<nat>, attempts: nat, begun: nat, now: int, at: Option<int>, flights: map<nat, Flight>,
    n: nat)
    requires attempts < MAX_ATTEMPTS && n !in flights
    ensures Reaches(me, limit, Out(me, Pending, attempts, begun, at, now, flights),
                    Out(me, Sent, attempts + 1, begun + 1, Some(now), now, flights[n := Flight(now, [0], 0, true)]))
  {
    var claimed := flights[n := Flight(now, [0], 0, false)];
    SentOut(me, attempts, begun, now, at, flights, n);
    OutBegins(me, attempts + 1, begun, now, claimed, n);
    assert claimed[n := Flight(now, [0], 0, true)] == flights[n := Flight(now, [0], 0, true)];
    ClaimThenBegin(
      me, limit, Out(me, Pending, attempts, begun, at, now, flights), n,
      Out(me, Sent, attempts + 1, begun, Some(now), now, claimed),
      Out(me, Sent, attempts + 1, begun + 1, Some(now), now, flights[n := Flight(now, [0], 0, true)]));
  }

  lemma ClaimThenBegin(me: string, limit: Option<nat>, s: System, n: nat, mid: System, s': System)
    requires n !in s.flights && AfterHeartbeat(me, s, me, {}, n) == mid
    requires Due(mid, n) && !mid.flights[n].running && AfterBegin(mid, n) == s'
    ensures Reaches(me, limit, s, s')
  {
    ReachesSelf(me, limit, s');
    ReachesNext(me, limit, mid, Begin(n), s', s');
    ReachesNext(me, limit, s, Heartbeat(me, {}, n), mid, s');
  }

  /** The batch is still on the host when the coordinator offers its command again. */
  lemma LeaseRunsOut(me: string, limit: Option<nat>, t: int)
    requires limit.Some? ==> limit.value > LEASE
    ensures var late := t + LEASE + 1; var one := map[0 := Flight(t, [0], 0, true)];
      Reaches(me, limit, Out(me, Sent, 1, 1, Some(t), t, one), Out(me, Pending, 1, 1, Some(t), late, one))
  {
    var late, one := t + LEASE + 1, map[0 := Flight(t, [0], 0, true)];
    var s := Out(me, Sent, 1, 1, Some(t), t, one);
    var mid := Out(me, Sent, 1, 1, Some(t), late, one);
    var s' := Out(me, Pending, 1, 1, Some(t), late, one);
    assert AfterExpire(mid).rows[0] == s'.rows[0];
    ReachesSelf(me, limit, s');
    ReachesNext(me, limit, mid, Expire, s', s');
    ReachesNext(me, limit, s, Wait((LEASE + 1) as nat), mid, s');
  }

  lemma BothEnd(me: string, limit: Option<nat>, outcome: Result, t: int) returns (s': System)
    ensures var late := t + LEASE + 1;
      var two := map[0 := Flight(t, [0], 0, true), 1 := Flight(late, [0], 0, true)];
      Reaches(me, limit, Out(me, Sent, 2, 2, Some(late), late, two), s')
    ensures |s'.log| == 2 && s'.log[0].key == s'.log[1].key
  {
    var late := t + LEASE + 1;
    var two := map[0 := Flight(t, [0], 0, true), 1 := Flight(late, [0], 0, true)];
    var s := Out(me, Sent, 2, 2, Some(late), late, two);
    var mid := AfterEnd(s, 0, outcome);
    s' := AfterEnd(mid, 1, outcome);
    ReachesSelf(me, limit, s');
    ReachesNext(me, limit, mid, End(1, outcome), s', s');
    ReachesNext(me, limit, s, End(0, outcome), mid, s');
  }

  /** A batch that may outlive its lease runs a command twice in a row: it still runs when it is sent again. */
  lemma LateBatchRunsTwice(me: string, limit: Option<nat>, outcome: Result, t: int) returns (s': System)
    requires limit.Some? ==> limit.value > LEASE
    ensures Reaches(me, limit, Start(t), s')
    ensures |s'.log| == 2 && s'.log[0].key == s'.log[1].key
  {
    var late := t + LEASE + 1;
    var none: map<nat, Flight> := map[];
    var one := map[0 := Flight(t, [0], 0, true)];
    var two := map[0 := Flight(t, [0], 0, true), 1 := Flight(late, [0], 0, true)];
    assert none[0 := Flight(t, [0], 0, true)] == one && one[1 := Flight(late, [0], 0, true)] == two;
    Queued(me, limit, t);
    SentAndBegun(me, limit, 0, 0, t, None, none, 0);
    LeaseRunsOut(me, limit, t);
    SentAndBegun(me, limit, 1, 1, late, Some(t), one, 1);
    s' := BothEnd(me, limit, outcome, t);
    var out1, out2 := Out(me, Sent, 1, 1, Some(t), t, one), Out(me, Pending, 1, 1, Some(t), late, one);
    ReachesBoth(me, limit, out2, Out(me, Sent, 2, 2, Some(late), late, two), s');
    ReachesBoth(me, limit, out1, out2, s');
    ReachesBoth(me, limit, Out(me, Pending, 0, 0, None, t, none), out1, s');
    ReachesBoth(me, limit, Start(t), Out(me, Pending, 0, 0, None, t, none), s');
  }

  /** Over every run, two executions of one command have at least 256 others between them. */
  ghost predicate KeepsApart(me: string, limit: Option<nat>, t: int) {
    forall events, s' | Run(me, Start(t), events, limit, s') :: Separated(s'.log)
  }

  lemma ReachedApart(me: string, limit: Option<nat>, t: int, s': System)
    requires KeepsApart(me, limit, t) && Reaches(me, limit, Start(t), s')
    ensures Separated(s'.log)
  {
    var events :| Run(me, Start(t), events, limit, s');
  }

  /**
   At most once, exactly: from an empty queue and cache, whatever is lost, delayed or
   repeated, all runs keep the executions of a command apart if and only if batches
   are done within the lease.
   */
  lemma AtMostOnceIff(me: string, limit: Option<nat>, t: int)
    ensures KeepsApart(me, limit, t) <==> limit.Some? && limit.value <= LEASE
  {
    if limit.Some? && limit.value <= LEASE {
      StartIsSound(me, t);
      forall events, s' | Run(me, Start(t), events, limit, s') ensures Separated(s'.log) {
        AtMostOnce(me, Start(t), events, limit, s');
      }
    } else {
      var s' := LateBatchRunsTwice(me, limit, Result(true, ""), t);
      if KeepsApart(me, limit, t) {
        ReachedApart(me, limit, t, s');
      }
    }
  }
}
