/**
 What becomes of a command: which a heartbeat takes, what a lapsed lease does to it,
 and that it ends (claimLocalCommands, resetExpiredCommands and the results handler of
 dashboard/fleetd.js; the statements of dashboard/lib/ha.js).
 */
module CommandFates {
  import opened Wrappers
  import opened CommandQueue
  import opened CommandDelivery

  // ---- what a heartbeat takes -------------------------------------------------------

  /** The commands of a host that wait and may go out, among those queued from `from` on and before `to`. */
  ghost function WaitingBefore(rows: Table, host: string, from: nat, to: nat): set<nat>
    requires to <= |rows|
  {
    set k: nat | from <= k < to && rows[k].host == host && rows[k].status == Pending && rows[k].attempts < 3
  }

  /** The heartbeat takes a command: it waits, and fewer than eight of the host's that wait were queued before it. */
  ghost predicate Taken(rows: Table, host: string, id: nat) {
    && id < |rows| && rows[id].host == host && rows[id].status == Pending && rows[id].attempts < 3
    && |WaitingBefore(rows, host, 0, id)| < 8
  }

  lemma WaitingStep(rows: Table, host: string, from: nat, id: nat)
    requires from < id < |rows|
    ensures |WaitingBefore(rows, host, from, id)|
         == |WaitingBefore(rows, host, from + 1, id)| + if Claimable(rows[from], host) then 1 else 0
  {
    var before, after := WaitingBefore(rows, host, from, id), WaitingBefore(rows, host, from + 1, id);
    if Claimable(rows[from], host) {
      assert before == after + {from};
    } else {
      assert before == after;
    }
  }

  lemma {:induction false} ClaimsAreOldest(rows: Table, host: string, from: nat, limit: nat, id: nat)
    requires from <= id < |rows|
    ensures id in ClaimIds(rows, host, from, limit)
       <==> Claimable(rows[id], host) && |WaitingBefore(rows, host, from, id)| < limit
    decreases |rows| - from
  {
    if id == from {
      assert WaitingBefore(rows, host, from, id) == {};
    } else if limit > 0 {
      WaitingStep(rows, host, from, id);
      ClaimsAreOldest(rows, host, from + 1, if Claimable(rows[from], host) then limit - 1 else limit, id);
    }
  }

  /**
   A heartbeat. Of the commands taken, those whose token could be minted go out, sent
   now and counted; the others wait on as they did, but for the time of an earlier
   sending. No other command changes.
   */
  lemma HeartbeatTakes(rows: Table, host: string, now: int, refused: set<nat>, id: nat)
    requires id < |rows|
    ensures var (rows', ids) := Beat(rows, host, now, refused);
      && |rows'| == |rows|
      && (id in ids <==> Taken(rows, host, id) && id !in refused)
      && rows'[id] ==
           if !Taken(rows, host, id) then rows[id]
           else if id in refused then rows[id].(startedAt := None)
           else rows[id].(status := Sent, startedAt := Some(now), attempts := rows[id].attempts + 1)
  {
    ClaimsAreOldest(rows, host, 0, CLAIM_LIMIT, id);
    var (claimed, ids) := Claim(rows, host, now);
    assert id in ids <==> Taken(rows, host, id);
  }

  // ---- results and lapsed leases, over every run ----------------------------------------

  /** What is noted of a command is of its past: sent, ended and told no later than now. */
  predicate Noted(r: Row, now: int) {
    && (r.status == Sent ==> r.startedAt.Some?)
    && (r.startedAt.Some? ==> r.startedAt.value <= now)
    && (Final(r) <==> r.completedAt.Some?) && (Final(r) <==> r.result.Some?)
    && (r.completedAt.Some? ==> r.completedAt.value <= now)
    && (r.result.Some? ==> |r.result.value| <= 4000)
  }

  ghost predicate AllNoted(s: System) {
    forall id | 0 <= id < |s.rows| :: Noted(s.rows[id], s.now)
  }

  lemma StepKeepsNoted(me: string, s: System, e: Event)
    requires TableSound(s) && AllNoted(s) && Possible(me, s, e, None)
    ensures AllNoted(Next(me, s, e))
  {
    if e.Heartbeat? {
      var rows := Beat(s.rows, e.host, s.now, e.refused).0;
      assert |rows| == |s.rows|;
      forall id | 0 <= id < |rows| ensures Noted(rows[id], s.now) {
        HeartbeatTakes(s.rows, e.host, s.now, e.refused, id);
        assert Noted(s.rows[id], s.now);
      }
    }
  }

  /** In every run, what is noted of the commands is sound. */
  lemma {:induction false} RunKeepsNoted(me: string, s: System, events: seq<Event>, s': System)
    requires TableSound(s) && AllNoted(s) && Run(me, s, events, None, s')
    ensures TableSound(s') && AllNoted(s')
    decreases |events|
  {
    if events != [] {
      StepKeepsNoted(me, s, events[0]);
      StepKeepsTable(me, s, events[0]);
      RunKeepsNoted(me, Next(me, s, events[0]), events[1..], s');
    }
  }

  /** The lease of a command that is out has lapsed. */
  predicate Lapsed(r: Row, now: int) {
    r.status == Sent && r.startedAt.Some? && now - r.startedAt.value > 5 * 60 * 1000
  }

  /**
   In every run: once leases are looked at, a command that went out longer ago than its
   lease is out no more. If it went out three times it failed then, as not
   acknowledged; else it waits to go out again. No other command changes.
   */
  lemma LapsedIsSettled(me: string, now: int, events: seq<Event>, s: System, id: nat)
    requires Run(me, Start(now), events, None, s) && id < |s.rows|
    ensures var r, s' := s.rows[id], Next(me, s, Expire);
      && |s'.rows| == |s.rows| == |s.delivered| && !Lapsed(s'.rows[id], s'.now)
      && s'.rows[id] ==
           if !Lapsed(r, s.now) then r
           else if s.delivered[id] == 3 then
             r.(status := Failed, completedAt := Some(s.now), result := Some("delivery acknowledgement timed out"))
           else r.(status := Pending)
  {
    RunKeepsNoted(me, Start(now), events, s);
    assert RowSound(s.rows[id], s.delivered[id]);
  }

  /**
   In every run: a result counts exactly for a command of the host that sent it, while
   that is out. It is done or failed from then on, as the result says, with the first
   4000 characters of its text.
   */
  lemma ResultEndsIt(s: System, host: string, other: int, ok: bool, text: string, id: nat)
    requires id < |s.rows|
    ensures var r, s' := s.rows[id], AfterResult(s, host, other, ok, text);
      && |s'.rows| == |s.rows|
      && s'.rows[id] ==
           if id == other && r.host == host && r.status == Sent then
             r.(status := if ok then Done else Failed, completedAt := Some(s.now),
                result := Some(text[..if |text| < 4000 then |text| else 4000]))
           else r
  {
    assert Clip(text) == text[..if |text| < 4000 then |text| else 4000];
  }

  // ---- every command ends -------------------------------------------------------------------

  /** How far the first n commands of a host are from their ends, all together. */
  function Left(rows: Table, host: string, n: nat): int
    requires n <= |rows|
  {
    if n == 0 then 0 else Left(rows, host, n - 1) + if rows[n - 1].host == host then Rank(rows[n - 1]) else 0
  }

  predicate AllFinal(rows: Table, host: string, n: nat)
    requires n <= |rows|
  {
    forall id | 0 <= id < n && rows[id].host == host :: Final(rows[id])
  }

  /** Of the first n commands of the host, one changes. */
  predicate Changed(rows: Table, rows': Table, host: string, n: nat)
    requires n <= |rows| && n <= |rows'|
  {
    exists id | 0 <= id < n && rows[id].host == host :: rows'[id] != rows[id]
  }

  lemma {:induction false} FallingRows(rows: Table, rows': Table, host: string, n: nat)
    requires n <= |rows| && n <= |rows'|
    requires forall id | 0 <= id < n ::
      rows'[id].host == rows[id].host && (rows'[id] == rows[id] || Rank(rows'[id]) < Rank(rows[id]))
    ensures Left(rows', host, n) <= Left(rows, host, n) - if Changed(rows, rows', host, n) then 1 else 0
  {
    if n > 0 {
      FallingRows(rows, rows', host, n - 1);
    }
  }

  lemma LeftFalls(me: string, s: System, e: Event, host: string, n: nat)
    requires TableSound(s) && Possible(me, s, e, None) && NoReleases(e) && n <= |s.rows|
    ensures n <= |Next(me, s, e).rows|
    ensures var rows' := Next(me, s, e).rows;
      Left(rows', host, n) <= Left(s.rows, host, n) - if Changed(s.rows, rows', host, n) then 1 else 0
  {
    HostsStay(me, s, e, n);
    var rows' := Next(me, s, e).rows;
    forall id | 0 <= id < n ensures rows'[id] == s.rows[id] || Rank(rows'[id]) < Rank(s.rows[id]) {
      ChangeLowersRank(me, s, e, id);
    }
    FallingRows(s.rows, rows', host, n);
  }

  lemma {:induction false} LeftIsBounded(s: System, host: string, n: nat)
    requires TableSound(s) && n <= |s.rows|
    ensures 0 <= Left(s.rows, host, n) <= 7 * n
  {
    if n > 0 {
      LeftIsBounded(s, host, n - 1);
      assert RowSound(s.rows[n - 1], s.delivered[n - 1]);
    }
  }

  /**
   The rounds of a run: a heartbeat of the host, and leases looked at when its claims
   have lapsed, whatever else happens in between. since is when the heartbeat of the
   round under way came.
   */
  function Rounds(me: string, s: System, events: seq<Event>, host: string, since: Option<int>): nat
    requires Plays(me, s, events)
    decreases |events|
  {
    if events == [] then 0
    else
      var s', e := Next(me, s, events[0]), events[0];
      if since.None? then
        Rounds(me, s', events[1..], host, if e.Heartbeat? && e.host == host then Some(s.now) else None)
      else if e.Expire? && s.now - since.value > LEASE then 1 + Rounds(me, s', events[1..], host, None)
      else Rounds(me, s', events[1..], host, since)
  }

  /** None of the host's first n commands waits, and those out went out by then. */
  predicate Idle(rows: Table, host: string, n: nat, since: Option<int>)
    requires n <= |rows|
  {
    since.Some? ==> forall id | 0 <= id < n && rows[id].host == host ::
      rows[id].status != Pending && (rows[id].status == Sent && rows[id].startedAt.Some? ==>
        rows[id].startedAt.value <= since.value)
  }

  lemma HeartbeatClaims(s: System, host: string, n: nat, flight: nat, me: string)
    requires TableSound(s) && AllNoted(s) && n <= |s.rows|
    ensures var rows' := AfterHeartbeat(me, s, host, {}, flight).rows;
      n <= |rows'| && (Changed(s.rows, rows', host, n) || Idle(rows', host, n, Some(s.now)))
  {
    var rows' := AfterHeartbeat(me, s, host, {}, flight).rows;
    assert |rows'| == |s.rows|;
    if id: nat :| id < n && s.rows[id].host == host && s.rows[id].status == Pending {
      var first := FirstWaiting(s, host, id);
      HeartbeatTakes(s.rows, host, s.now, {}, first);
      assert Changed(s.rows, rows', host, n);
    } else {
      forall id | 0 <= id < n && rows'[id].host == host
        ensures rows'[id].status != Pending && (rows'[id].status == Sent && rows'[id].startedAt.Some? ==>
          rows'[id].startedAt.value <= s.now)
      {
        HeartbeatTakes(s.rows, host, s.now, {}, id);
        assert Noted(s.rows[id], s.now);
      }
    }
  }

  /** The oldest waiting command is taken. */
  lemma {:induction false} FirstWaiting(s: System, host: string, id: nat) returns (first: nat)
    requires TableSound(s) && id < |s.rows| && s.rows[id].host == host && s.rows[id].status == Pending
    ensures first <= id && Taken(s.rows, host, first)
  {
    assert RowSound(s.rows[id], s.delivered[id]);
    if k: nat :| k < id && s.rows[k].host == host && s.rows[k].status == Pending {
      first := FirstWaiting(s, host, k);
    } else {
      assert WaitingBefore(s.rows, host, 0, id) == {};
      first := id;
    }
  }

  lemma ExpireChanges(s: System, host: string, n: nat, since: int)
    requires TableSound(s) && n <= |s.rows| && Idle(s.rows, host, n, Some(since)) && s.now - since > LEASE
    ensures Changed(s.rows, AfterExpire(s).rows, host, n) || AllFinal(s.rows, host, n)
  {
    if !AllFinal(s.rows, host, n) {
      var id :| 0 <= id < n && s.rows[id].host == host && !Final(s.rows[id]);
      assert RowSound(s.rows[id], s.delivered[id]);
      assert AfterExpire(s).rows[id] != s.rows[id];
    }
  }

  lemma {:induction false} FinalStays(me: string, s: System, events: seq<Event>, s': System, host: string, n: nat)
    requires TableSound(s) && n <= |s.rows| && Run(me, s, events, None, s') && AllFinal(s.rows, host, n)
    ensures n <= |s'.rows| && AllFinal(s'.rows, host, n)
    decreases |events|
  {
    if events != [] {
      StepKeepsTable(me, s, events[0]);
      var s1 := Next(me, s, events[0]);
      forall id | 0 <= id < n && s1.rows[id].host == host ensures Final(s1.rows[id]) {
        assert Continues(s.rows[id], s1.rows[id]);
      }
      FinalStays(me, s1, events[1..], s', host, n);
    }
  }

  lemma IdleStays(rows: Table, rows': Table, host: string, n: nat, since: Option<int>)
    requires n <= |rows| && n <= |rows'| && !Changed(rows, rows', host, n)
    requires forall id | 0 <= id < n :: rows'[id].host == rows[id].host
    ensures Idle(rows, host, n, since) ==> Idle(rows', host, n, since)
  {
  }

  lemma HostsStay(me: string, s: System, e: Event, n: nat)
    requires TableSound(s) && Possible(me, s, e, None) && n <= |s.rows|
    ensures n <= |Next(me, s, e).rows| && forall id | 0 <= id < n :: Next(me, s, e).rows[id].host == s.rows[id].host
  {
    StepKeepsTable(me, s, e);
  }

  /** One more round is allowed for than rows fall, while a heartbeat of this round may already have done its part. */
  function Credit(rows: Table, host: string, n: nat, since: Option<int>): int
    requires n <= |rows|
  {
    if since.None? || Idle(rows, host, n, since) then 0 else 1
  }

  /** Each round takes something off what is left, or finds all done. */
  lemma {:induction false} RoundsCost(me: string, s: System, events: seq<Event>, s': System, host: string, n: nat,
      since: Option<int>)
    requires TableSound(s) && AllNoted(s) && n <= |s.rows|
    requires Plays(me, s, events) && Run(me, s, events, None, s') && forall e | e in events :: NoReleases(e)
    ensures n <= |s'.rows|
    ensures AllFinal(s'.rows, host, n)
      || Rounds(me, s, events, host, since) + Left(s'.rows, host, n)
           <= Left(s.rows, host, n) + Credit(s.rows, host, n, since)
    decreases |events|
  {
    if events != [] {
      var e, s1 := events[0], Next(me, s, events[0]);
      StepKeepsTable(me, s, e);
      StepKeepsNoted(me, s, e);
      LeftFalls(me, s, e, host, n);
      HostsStay(me, s, e, n);
      if since.None? && e.Heartbeat? && e.host == host {
        HeartbeatClaims(s, host, n, e.flight, me);
        RoundsCost(me, s1, events[1..], s', host, n, Some(s.now));
      } else if since.Some? && e.Expire? && s.now - since.value > LEASE {
        if Idle(s.rows, host, n, since) {
          ExpireChanges(s, host, n, since.value);
        }
        if AllFinal(s.rows, host, n) {
          FinalStays(me, s, events, s', host, n);
        }
        RoundsCost(me, s1, events[1..], s', host, n, None);
      } else {
        if !Changed(s.rows, s1.rows, host, n) {
          IdleStays(s.rows, s1.rows, host, n, since);
        }
        RoundsCost(me, s1, events[1..], s', host, n, since);
      }
    }
  }

  /**
   Every command ends, whatever its host does or fails to do: after more than seven
   rounds for each command in the table, all of them queued for the host by then are
   done or failed.
   */
  lemma EveryCommandEnds(me: string, s: System, events: seq<Event>, s': System, host: string)
    requires TableSound(s) && AllNoted(s)
    requires Plays(me, s, events) && Run(me, s, events, None, s') && forall e | e in events :: NoReleases(e)
    requires Rounds(me, s, events, host, None) > 7 * |s.rows|
    ensures |s.rows| <= |s'.rows| && AllFinal(s'.rows, host, |s.rows|)
  {
    RoundsCost(me, s, events, s', host, |s.rows|, None);
    RunKeepsNoted(me, s, events, s');
    LeftIsBounded(s, host, |s.rows|);
    LeftIsBounded(s', host, |s.rows|);
  }
}
