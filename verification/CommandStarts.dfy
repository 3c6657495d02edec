/**
 How often a host begins to run a command, whatever is lost, repeated or late, and
 wherever the host stops (dashboard/fleetd.js, dashboard/agent.js): no more often
 than the command went out, which is at most three times.
 */
module CommandStarts {
  import opened Wrappers
  import opened CommandQueue
  import opened CommandDelivery

  /** The batch has still to begin the command: its commands go in the order of their ids. */
  predicate ToBegin(f: Flight, id: nat) {
    var from := f.next + if f.running then 1 else 0;
    id in f.ids && from < |f.ids| && f.ids[from] <= id
  }

  /** The batches in which the command is still to begin. */
  function Waiting(flights: map<nat, Flight>, id: nat): set<nat> {
    set n | n in flights && ToBegin(flights[n], id)
  }

  predicate Shaped(f: Flight, rows: Table) {
    && Ascending(f.ids) && f.next <= |f.ids| && (f.running ==> f.next < |f.ids|)
    && forall id | id in f.ids :: id < |rows|
  }

  /** Every batch still to begin a command, and every time it began, is a time it went out. */
  ghost predicate Counted(s: System) {
    && TableSound(s) && |s.begun| == |s.rows|
    && (forall n | n in s.flights :: Shaped(s.flights[n], s.rows))
    && forall id | 0 <= id < |s.rows| :: s.begun[id] + |Waiting(s.flights, id)| <= s.delivered[id]
  }

  lemma SmallerSet(a: set<nat>, b: set<nat>)
    requires a <= b
    ensures |a| <= |b|
  {
    assert b == a + (b - a);
  }

  /** A step that adds no batch and nothing to begin. */
  lemma FewerWaiting(flights: map<nat, Flight>, flights': map<nat, Flight>, id: nat)
    requires forall n | n in flights' && ToBegin(flights'[n], id) :: n in flights && ToBegin(flights[n], id)
    ensures |Waiting(flights', id)| <= |Waiting(flights, id)|
  {
    SmallerSet(Waiting(flights', id), Waiting(flights, id));
  }

  lemma EnqueueCounts(s: System, host: string, action: string, key: Option<string>)
    requires Counted(s)
    ensures Counted(AfterEnqueue(s, host, action, key))
  {
    var s' := AfterEnqueue(s, host, action, key);
    EnqueueKeepsTable(s, host, action, key);
    var id := |s.rows|;
    forall n | n in s.flights ensures !ToBegin(s.flights[n], id) && Shaped(s.flights[n], s'.rows) {
      assert Shaped(s.flights[n], s.rows);
    }
    assert Waiting(s.flights, id) == {};
  }

  lemma HeartbeatCounts(me: string, s: System, host: string, refused: set<nat>, n: nat)
    requires Counted(s) && n !in s.flights
    ensures Counted(AfterHeartbeat(me, s, host, refused, n))
  {
    var s' := AfterHeartbeat(me, s, host, refused, n);
    var ids := Beat(s.rows, host, s.now, refused).1;
    HeartbeatKeepsTable(me, s, host, refused, n);
    BeatRows(s.rows, host, s.now, refused);
    forall m | m in s'.flights ensures Shaped(s'.flights[m], s'.rows) {
      if m in s.flights {
        assert Shaped(s.flights[m], s.rows);
      }
    }
    forall id | 0 <= id < |s'.rows| ensures s'.begun[id] + |Waiting(s'.flights, id)| <= s'.delivered[id] {
      if host == me {
        AllToBegin(Flight(s.now, ids, 0, false), id);
        OneMoreBatch(s.flights, n, Flight(s.now, ids, 0, false), id);
      }
    }
  }

  lemma OneMore(before: set<nat>, after: set<nat>, n: nat, more: bool)
    requires n !in before && forall m :: m in after <==> m in before || (m == n && more)
    ensures |after| == |before| + if more then 1 else 0
  {
    assert after == before + if more then {n} else {};
  }

  lemma OneMoreBatch(flights: map<nat, Flight>, n: nat, f: Flight, id: nat)
    requires n !in flights && (ToBegin(f, id) <==> id in f.ids)
    ensures |Waiting(flights[n := f], id)| == |Waiting(flights, id)| + if id in f.ids then 1 else 0
  {
    OneMore(Waiting(flights, id), Waiting(flights[n := f], id), n, id in f.ids);
  }

  /** A new batch has all its commands to begin. */
  lemma AllToBegin(f: Flight, id: nat)
    requires Ascending(f.ids) && f.next == 0 && !f.running
    ensures ToBegin(f, id) <==> id in f.ids
  {
    if id in f.ids {
      var k :| 0 <= k < |f.ids| && f.ids[k] == id;
      assert f.ids[0] <= f.ids[k];
    }
  }

  /** One that begins a command has the others left. */
  lemma OthersToBegin(f: Flight, f': Flight, id: nat)
    requires Ascending(f.ids) && !f.running && f.next < |f.ids|
    requires f' == f.(running := true) || f' == f.(next := f.next + 1)
    ensures ToBegin(f, id) <==> ToBegin(f', id) || id == f.ids[f.next]
    ensures !ToBegin(f', f.ids[f.next])
  {
    if id in f.ids && f.ids[f.next] < id {
      var k :| 0 <= k < |f.ids| && f.ids[k] == id;
      assert k > f.next;
      assert f.ids[f.next + 1] <= f.ids[k];
    }
  }

  lemma OneBegun(flights: map<nat, Flight>, n: nat, f': Flight, due: nat, id: nat)
    requires n in flights && !ToBegin(f', due) && (ToBegin(flights[n], id) <==> ToBegin(f', id) || id == due)
    ensures |Waiting(flights, id)| == |Waiting(flights[n := f'], id)| + if id == due then 1 else 0
  {
    if id == due {
      OneMore(Waiting(flights[n := f'], id), Waiting(flights, id), n, true);
    } else {
      assert Waiting(flights[n := f'], id) == Waiting(flights, id);
    }
  }

  lemma BeginCounts(s: System, n: nat)
    requires Counted(s) && Due(s, n) && !s.flights[n].running
    ensures Counted(AfterBegin(s, n))
  {
    var s', f := AfterBegin(s, n), s.flights[n];
    var f' := s'.flights[n];
    assert Shaped(f, s.rows);
    assert s'.flights == s.flights[n := f'];
    forall m | m in s'.flights ensures Shaped(s'.flights[m], s'.rows) {
      assert m != n ==> Shaped(s.flights[m], s.rows);
    }
    forall id | 0 <= id < |s'.rows| ensures s'.begun[id] + |Waiting(s'.flights, id)| <= s'.delivered[id] {
      OthersToBegin(f, f', id);
      OneBegun(s.flights, n, f', f.ids[f.next], id);
    }
  }

  /** The other steps on the host add nothing to begin. */
  lemma HostCounts(s: System, s': System)
    requires Counted(s) && s'.rows == s.rows && s'.delivered == s.delivered && s'.begun == s.begun
    requires forall n | n in s'.flights ::
               && n in s.flights && Shaped(s'.flights[n], s.rows)
               && forall id :: ToBegin(s'.flights[n], id) ==> ToBegin(s.flights[n], id)
    ensures Counted(s')
  {
    forall id | 0 <= id < |s'.rows| ensures s'.begun[id] + |Waiting(s'.flights, id)| <= s'.delivered[id] {
      FewerWaiting(s.flights, s'.flights, id);
    }
  }

  lemma StepCounts(me: string, s: System, e: Event)
    requires Counted(s) && Possible(me, s, e, None)
    ensures Counted(Next(me, s, e))
  {
    StepKeepsTable(me, s, e);
    forall n | n in s.flights ensures Shaped(s.flights[n], s.rows) {
    }
    match e
    case Enqueue(host, action, key) => EnqueueCounts(s, host, action, key);
    case Heartbeat(host, refused, n) => HeartbeatCounts(me, s, host, refused, n);
    case Begin(n) => BeginCounts(s, n);
    case End(n, outcome) => HostCounts(s, AfterEnd(s, n, outcome));
    case Drop(n) => HostCounts(s, s.(flights := s.flights - {n}));
    case _ =>
  }

  lemma {:induction false} RunCounts(me: string, s: System, events: seq<Event>, s': System)
    requires Counted(s) && Run(me, s, events, None, s')
    ensures Counted(s')
    decreases |events|
  {
    if events != [] {
      StepCounts(me, s, events[0]);
      RunCounts(me, Next(me, s, events[0]), events[1..], s');
    }
  }

  lemma StartIsCounted(now: int)
    ensures Counted(Start(now))
  {
  }

  /**
   Whatever is lost, late or repeated, and wherever the host stops: from an empty queue
   a command begins to run on its host no more often than it was put in a response, so
   at most three times, be it remembered or not.
   */
  lemma StartsAtMostThrice(me: string, now: int, events: seq<Event>, s': System)
    requires Run(me, Start(now), events, None, s')
    ensures |s'.begun| == |s'.delivered| == |s'.rows|
    ensures forall id | 0 <= id < |s'.rows| :: s'.begun[id] <= s'.delivered[id] <= MAX_ATTEMPTS
  {
    StartIsCounted(now);
    RunCounts(me, Start(now), events, s');
    forall id | 0 <= id < |s'.rows| ensures s'.begun[id] <= s'.delivered[id] <= MAX_ATTEMPTS {
      assert RowSound(s'.rows[id], s'.delivered[id]);
    }
  }
}
