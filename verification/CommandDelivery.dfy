/**
 Commands end to end: the coordinator's table (CommandQueue), one agent host
 with its result cache (dashboard/agent.js), and the messages between them, any
 of which may be lost, delayed or repeated. Heartbeats are not serialised, so
 several batches may be on the host at once.
 */
module CommandDelivery {
  import opened Wrappers
  import opened CommandQueue

  const LEASE: int := 5 * 60 * 1000
  const CACHE_SIZE: nat := 256

  datatype Result = Result(ok: bool, text: string)

  datatype CacheKey = ByKey(key: string) | ById(id: nat, action: string)

  datatype Entry = Entry(key: CacheKey, result: Result)

  /** Oldest first, as a Map keeps its insertion order. */
  type Cache = seq<Entry>

  // ---- the agent's cache ----------------------------------------------------

  /** commandCacheKey: an absent or empty key falls back to the id. */
  function KeyOf(id: nat, r: Row): CacheKey {
    if r.key.GetOr("") != "" then ByKey(r.key.value) else ById(id, r.action)
  }

  function Find(cache: Cache, key: CacheKey): (at: Option<nat>)
    ensures at.Some? ==> at.value < |cache| && cache[at.value].key == key
    ensures at.None? ==> forall i | 0 <= i < |cache| :: cache[i].key != key
  {
    if cache == [] then None
    else if cache[|cache| - 1].key == key then Some(|cache| - 1)
    else Find(cache[..|cache| - 1], key)
  }

  function Put(cache: Cache, e: Entry): Cache {
    var at := Find(cache, e.key);
    if at.Some? then cache[at.value := e] else cache + [e]
  }

  function Newest(cache: Cache): Cache {
    if |cache| <= CACHE_SIZE then cache else cache[|cache| - CACHE_SIZE..]
  }

  class Agent {
    var commandResults: Cache

    constructor (saved: Cache)
      ensures commandResults == saved
    {
      commandResults := saved;
    }

    /** rememberCommandResult: set, then drop the oldest entries over 256. */
    method RememberCommandResult(key: CacheKey, result: Result)
      modifies this
      ensures commandResults == Newest(Put(old(commandResults), Entry(key, result)))
    {
      var at := Find(commandResults, key);
      if at.Some? {
        commandResults := commandResults[at.value := Entry(key, result)];
      } else {
        commandResults := commandResults + [Entry(key, result)];
      }
      ghost var put := commandResults;
      while |commandResults| > CACHE_SIZE
        invariant |commandResults| <= |put| && commandResults == put[|put| - |commandResults|..]
        invariant |put| > CACHE_SIZE ==> |commandResults| >= CACHE_SIZE
        invariant |put| <= CACHE_SIZE ==> commandResults == put
      {
        commandResults := commandResults[1..];
      }
    }

    /**
     A batch in order, on a host no other batch is using: a cached command is
     answered from the cache, any other runs (to the outcome given) and is remembered.
     */
    method RunBatch(keys: seq<CacheKey>, outcomes: seq<Result>) returns (results: seq<Result>)
      requires |keys| == |outcomes|
      modifies this
      ensures (commandResults, results) == BatchOf(old(commandResults), keys, outcomes)
    {
      results := [];
      for k := 0 to |keys|
        invariant (commandResults, results) == BatchOf(old(commandResults), keys[..k], outcomes[..k])
      {
        assert keys[..k + 1][..k] == keys[..k] && outcomes[..k + 1][..k] == outcomes[..k];
        var at := Find(commandResults, keys[k]);
        if at.Some? {
          results := results + [commandResults[at.value].result];
        } else {
          RememberCommandResult(keys[k], outcomes[k]);
          results := results + [outcomes[k]];
        }
      }
      assert keys[..|keys|] == keys && outcomes[..|outcomes|] == outcomes;
    }
  }

  function BatchOf(cache: Cache, keys: seq<CacheKey>, outcomes: seq<Result>): (Cache, seq<Result>)
    requires |keys| == |outcomes|
  {
    if keys == [] then (cache, [])
    else
      var n := |keys| - 1;
      var (c, results) := BatchOf(cache, keys[..n], outcomes[..n]);
      var at := Find(c, keys[n]);
      if at.Some? then (c, results + [c[at.value].result])
      else (Newest(Put(c, Entry(keys[n], outcomes[n]))), results + [outcomes[n]])
  }

  // ---- the whole system -----------------------------------------------------

  /** A response on its way to the host, or the batch it became: `next` is the command now due. */
  datatype Flight = Flight(claimedAt: int, ids: seq<nat>, next: nat, running: bool)

  datatype System = System(
    now: int,
    rows: Table,
    delivered: seq<nat>,            // how often each command was put in a response
    begun: seq<nat>,                // how often the host began to run each command
    flights: map<nat, Flight>,
    cache: Cache,
    log: seq<Entry>,                // every execution the host remembered, in the order they ended
    results: set<(nat, Result)>)    // every result the host has posted or will post

  datatype Event =
    | Enqueue(host: string, action: string, key: Option<string>)
    | Heartbeat(host: string, refused: set<nat>, flight: nat)
    | Begin(flight: nat)
    | End(flight: nat, outcome: Result)
    | Drop(flight: nat)
    | Deliver(id: nat, result: Result)
    | OtherResult(host: string, other: int, ok: bool, text: string)
    | Expire
    | Wait(ms: nat)

  function DueKey(s: System, f: Flight): CacheKey
    requires f.next < |f.ids| && f.ids[f.next] < |s.rows|
  {
    KeyOf(f.ids[f.next], s.rows[f.ids[f.next]])
  }

  predicate Due(s: System, n: nat) {
    && n in s.flights
    && var f := s.flights[n];
    f.next < |f.ids| && f.ids[f.next] < |s.rows|
  }

  /**
   What may happen next on agent host `me`. With a limit, time passes only as far
   as every batch still on the host (or on its way there) was claimed no longer ago
   than that: a batch is done with, or lost, within the limit. A batch is dropped
   when it is done, when its response is lost, or when the host stops, be it while
   a command runs.
   */
  predicate Possible(me: string, s: System, e: Event, limit: Option<nat>) {
    match e
    case Enqueue(_, _, _) => true
    case Heartbeat(_, _, n) => n !in s.flights
    case Begin(n) => Due(s, n) && !s.flights[n].running
    case End(n, _) => Due(s, n) && s.flights[n].running
    case Drop(n) => n in s.flights
    case Deliver(id, r) => (id, r) in s.results
    case OtherResult(host, _, _, _) => host != me
    case Expire => true
    case Wait(ms) =>
      limit.Some? ==> forall n | n in s.flights :: s.now + ms <= s.flights[n].claimedAt + limit.value
  }

  function CountDelivered(delivered: seq<nat>, ids: seq<nat>): (d: seq<nat>)
    ensures |d| == |delivered|
    ensures forall i | 0 <= i < |d| :: d[i] == delivered[i] + if i in ids then 1 else 0
  {
    seq(|delivered|, i requires 0 <= i < |delivered| => delivered[i] + if i in ids then 1 else 0)
  }

  function AfterEnqueue(s: System, host: string, action: string, key: Option<string>): System {
    var rows := Queue(s.rows, host, action, key).0;
    if |rows| > |s.rows| then s.(rows := rows, delivered := s.delivered + [0], begun := s.begun + [0])
    else s.(rows := rows)
  }

  function AfterHeartbeat(me: string, s: System, host: string, refused: set<nat>, n: nat): System {
    var (rows, ids) := Beat(s.rows, host, s.now, refused);
    s.(rows := rows,
       delivered := CountDelivered(s.delivered, ids),
       flights := if host == me then s.flights[n := Flight(s.now, ids, 0, false)] else s.flights)
  }

  function CountBegun(begun: seq<nat>, id: nat): (b: seq<nat>)
    ensures |b| == |begun|
    ensures forall i | 0 <= i < |b| :: b[i] == begun[i] + if i == id then 1 else 0
  {
    seq(|begun|, i requires 0 <= i < |begun| => begun[i] + if i == id then 1 else 0)
  }

  function AfterBegin(s: System, n: nat): System
    requires Due(s, n)
  {
    var f := s.flights[n];
    var at := Find(s.cache, DueKey(s, f));
    if at.Some? then
      s.(flights := s.flights[n := f.(next := f.next + 1)],
         results := s.results + {(f.ids[f.next], s.cache[at.value].result)})
    else s.(flights := s.flights[n := f.(running := true)], begun := CountBegun(s.begun, f.ids[f.next]))
  }

  function AfterEnd(s: System, n: nat, outcome: Result): System
    requires Due(s, n)
  {
    var f := s.flights[n];
    var entry := Entry(DueKey(s, f), outcome);
    s.(flights := s.flights[n := f.(next := f.next + 1, running := false)],
       cache := Newest(Put(s.cache, entry)),
       log := s.log + [entry],
       results := s.results + {(f.ids[f.next], outcome)})
  }

  function AfterResult(s: System, host: string, id: int, ok: bool, text: string): System {
    s.(rows := RecordResult(s.rows, host, id, ok, Clip(text), s.now))
  }

  function AfterExpire(s: System): System {
    s.(rows := ExpireAll(s.rows, s.now - LEASE, s.now))
  }

  function Next(me: string, s: System, e: Event): System
    requires Possible(me, s, e, None)
  {
    match e
    case Enqueue(host, action, key) => AfterEnqueue(s, host, action, key)
    case Heartbeat(host, refused, n) => AfterHeartbeat(me, s, host, refused, n)
    case Begin(n) => AfterBegin(s, n)
    case End(n, outcome) => AfterEnd(s, n, outcome)
    case Drop(n) => s.(flights := s.flights - {n})
    case Deliver(id, r) => AfterResult(s, me, id, r.ok, r.text)
    case OtherResult(host, id, ok, text) => AfterResult(s, host, id, ok, text)
    case Expire => AfterExpire(s)
    case Wait(ms) => s.(now := s.now + ms)
  }

  function Start(now: int): System {
    System(now, [], [], [], map[], [], [], {})
  }

  ghost predicate Run(me: string, s: System, events: seq<Event>, limit: Option<nat>, s': System)
    decreases |events|
  {
    if events == [] then s == s'
    else Possible(me, s, events[0], limit) && Run(me, Next(me, s, events[0]), events[1..], limit, s')
  }

  // ---- the table, whatever the agent does -----------------------------------

  /** What every step keeps of one row, and of how often it went out. */
  predicate RowSound(r: Row, delivered: nat) {
    && r.attempts == delivered && r.attempts <= MAX_ATTEMPTS
    && (r.status == Pending ==> r.attempts < MAX_ATTEMPTS)
    && (r.status == Sent ==> r.attempts > 0 && r.startedAt.Some?)
  }

  ghost predicate UniqueKeys(rows: Table) {
    forall i, j | 0 <= i < j < |rows| && rows[i].key.Some? :: rows[i].key != rows[j].key
  }

  ghost predicate TableSound(s: System) {
    && |s.delivered| == |s.rows|
    && (forall i | 0 <= i < |s.rows| :: RowSound(s.rows[i], s.delivered[i]))
    && UniqueKeys(s.rows)
  }

  /** What never changes about a command, and that a final outcome is final. */
  predicate Continues(r: Row, r': Row) {
    && r'.host == r.host && r'.action == r.action && r'.key == r.key
    && (Final(r) ==> r' == r)
  }

  ghost predicate TableContinues(rows: Table, rows': Table) {
    |rows| <= |rows'| && forall i | 0 <= i < |rows| :: Continues(rows[i], rows'[i])
  }

  lemma BeatRows(rows: Table, host: string, now: int, refused: set<nat>)
    ensures var (rows', ids) := Beat(rows, host, now, refused);
      && |rows'| == |rows|
      && (forall id | id in ids :: id < |rows| && Claimable(rows[id], host) && rows'[id] == MarkSent(rows[id], now))
      && (forall i | 0 <= i < |rows| && i !in ids ::
            rows'[i] == rows[i] || (rows[i].status == Pending && rows'[i] == rows[i].(startedAt := None)))
      && Ascending(ids)
  {
    var (claimed, all) := Claim(rows, host, now);
    var (rows', ids) := Beat(rows, host, now, refused);
    WithoutAscends(all, refused);
    forall i | 0 <= i < |rows| && i !in ids
      ensures rows'[i] == rows[i] || (rows[i].status == Pending && rows'[i] == rows[i].(startedAt := None))
    {
      if i in all {
        assert claimed[i] == MarkSent(rows[i], now);
        assert rows'[i] == ReleaseRow(claimed[i]);
      }
    }
  }

  ghost predicate KeepsTable(s: System, s': System) {
    TableSound(s') && TableContinues(s.rows, s'.rows)
  }

  lemma RowByRow(s: System, s': System)
    requires TableSound(s) && |s'.rows| == |s.rows| == |s'.delivered|
    requires forall i | 0 <= i < |s.rows| :: Continues(s.rows[i], s'.rows[i]) && RowSound(s'.rows[i], s'.delivered[i])
    ensures KeepsTable(s, s')
  {
  }

  lemma EnqueueKeepsTable(s: System, host: string, action: string, key: Option<string>)
    requires TableSound(s)
    ensures KeepsTable(s, AfterEnqueue(s, host, action, key))
  {
  }

  lemma HeartbeatKeepsTable(me: string, s: System, host: string, refused: set<nat>, n: nat)
    requires TableSound(s)
    ensures KeepsTable(s, AfterHeartbeat(me, s, host, refused, n))
  {
    BeatRows(s.rows, host, s.now, refused);
    RowByRow(s, AfterHeartbeat(me, s, host, refused, n));
  }

  lemma ResultKeepsTable(s: System, host: string, id: int, ok: bool, text: string)
    requires TableSound(s)
    ensures KeepsTable(s, AfterResult(s, host, id, ok, text))
  {
    RowByRow(s, AfterResult(s, host, id, ok, text));
  }

  lemma ExpireKeepsTable(s: System)
    requires TableSound(s)
    ensures KeepsTable(s, AfterExpire(s))
  {
    RowByRow(s, AfterExpire(s));
  }

  lemma StepKeepsTable(me: string, s: System, e: Event)
    requires TableSound(s) && Possible(me, s, e, None)
    ensures KeepsTable(s, Next(me, s, e))
  {
    match e
    case Enqueue(host, action, key) => EnqueueKeepsTable(s, host, action, key);
    case Heartbeat(host, refused, n) => HeartbeatKeepsTable(me, s, host, refused, n);
    case Deliver(id, r) => ResultKeepsTable(s, me, id, r.ok, r.text);
    case OtherResult(host, id, ok, text) => ResultKeepsTable(s, host, id, ok, text);
    case Expire => ExpireKeepsTable(s);
    case _ =>
  }

  /**
   The queue over any run from an empty table. A command's attempts are the
   times it was put in a response, at most 3; a pending one can always be
   claimed; done and failed are final; and one idempotency key names one row.
   */
  lemma {:induction false} TableOverRuns(me: string, s: System, events: seq<Event>, s': System)
    requires TableSound(s) && Run(me, s, events, None, s')
    ensures KeepsTable(s, s')
    decreases |events|
  {
    if events != [] {
      StepKeepsTable(me, s, events[0]);
      TableOverRuns(me, Next(me, s, events[0]), events[1..], s');
    }
  }

  /** Asking again with a key that is already queued names the command that has it. */
  lemma SameKeySameCommand(rows: Table, host: string, action: string, key: string, host': string, action': string)
    requires UniqueKeys(rows)
    ensures
      var (rows1, id1) := Queue(rows, host, action, Some(key));
      var (rows2, id2) := Queue(rows1, host', action', Some(key));
      rows2 == rows1 && id2 == id1 && id1 < |rows1| && rows1[id1].key == Some(key)
  {
    var (rows1, id1) := Queue(rows, host, action, Some(key));
    var at := IndexOfKey(rows1, Some(key));
    assert rows1[id1].key == Some(key);
    assert at.Some?;
  }

  // ---- how long a command lives ---------------------------------------------

  /** Falls with every change a step without releases makes to a row. */
  function Rank(r: Row): int {
    match r.status
    case Pending => 7 - 2 * r.attempts
    case Sent => 8 - 2 * r.attempts
    case _ => 0
  }

  predicate NoReleases(e: Event) {
    e.Heartbeat? ==> e.refused == {}
  }

  lemma ChangeLowersRank(me: string, s: System, e: Event, id: nat)
    requires TableSound(s) && Possible(me, s, e, None) && NoReleases(e) && id < |s.rows|
    ensures id < |Next(me, s, e).rows|
    ensures var r, r' := s.rows[id], Next(me, s, e).rows[id]; r' == r || 0 <= Rank(r') < Rank(r)
  {
    StepKeepsTable(me, s, e);
    assert RowSound(s.rows[id], s.delivered[id]);
    if e.Heartbeat? {
      NothingReleased(s.rows, e.host, s.now, id);
    }
  }

  lemma NothingReleased(rows: Table, host: string, now: int, id: nat)
    requires id < |rows|
    ensures var rows' := Beat(rows, host, now, {}).0;
      |rows'| == |rows|
        && (rows'[id] == rows[id] || (Claimable(rows[id], host) && rows'[id] == MarkSent(rows[id], now)))
  {
    BeatRows(rows, host, now, {});
    var ids := ClaimIds(rows, host, 0, CLAIM_LIMIT);
    if id !in Without(ids, {}) {
      assert id !in ids;
    }
  }

  /** The steps of a run that change row id. */
  function Changes(me: string, s: System, events: seq<Event>, id: nat): nat
    requires Plays(me, s, events)
    decreases |events|
  {
    if events == [] || id >= |s.rows| then 0
    else
      var s' := Next(me, s, events[0]);
      (if id < |s'.rows| && s'.rows[id] != s.rows[id] then 1 else 0) + Changes(me, s', events[1..], id)
  }

  predicate Plays(me: string, s: System, events: seq<Event>)
    decreases |events|
  {
    events == [] || (Possible(me, s, events[0], None) && Plays(me, Next(me, s, events[0]), events[1..]))
  }

  /** Without releases a command's row changes at most seven times in its life, whatever happens. */
  lemma {:induction false} CommandsSettle(me: string, s: System, events: seq<Event>, id: nat)
    requires TableSound(s) && Plays(me, s, events) && id < |s.rows|
    requires forall e | e in events :: NoReleases(e)
    ensures Changes(me, s, events, id) <= Rank(s.rows[id]) <= 7
    decreases |events|
  {
    assert RowSound(s.rows[id], s.delivered[id]);
    if events != [] {
      ChangeLowersRank(me, s, events[0], id);
      StepKeepsTable(me, s, events[0]);
      CommandsSettle(me, Next(me, s, events[0]), events[1..], id);
    }
  }

  // ---- at most once ---------------------------------------------------------

  /** Two executions of one command are at least 256 other executions apart. */
  ghost predicate Separated(log: seq<Entry>) {
    forall i, j | 0 <= i < j < |log| && log[i].key == log[j].key :: j - i > CACHE_SIZE
  }

  predicate Absent(cache: Cache, key: CacheKey) {
    forall i | 0 <= i < |cache| :: cache[i].key != key
  }

  ghost predicate Ran(log: seq<Entry>, key: CacheKey, result: Result) {
    exists k | 0 <= k < |log| :: log[k] == Entry(key, result)
  }

  /** A batch holds commands of this host, each still out under this claim or already final. */
  ghost predicate Held(me: string, s: System, f: Flight) {
    && f.next <= |f.ids| && (f.running ==> f.next < |f.ids|)
    && Ascending(f.ids)
    && s.now <= f.claimedAt + LEASE
    && forall id | id in f.ids :: HeldRow(me, s.rows, id, f.claimedAt)
  }

  predicate HeldRow(me: string, rows: Table, id: nat, claimedAt: int) {
    && id < |rows| && rows[id].host == me && rows[id].status != Pending
    && (rows[id].status == Sent ==> rows[id].startedAt == Some(claimedAt))
  }

  ghost predicate FlightsSound(me: string, s: System) {
    && (forall n | n in s.flights :: Held(me, s, s.flights[n]))
    && (forall m, n, id | m in s.flights && n in s.flights && id in s.flights[m].ids
      && id in s.flights[n].ids :: m == n)
  }

  /** A running command is not in the cache. */
  ghost predicate RunningUncached(s: System) {
    forall n | n in s.flights && s.flights[n].running :: Due(s, n) && Absent(s.cache, DueKey(s, s.flights[n]))
  }

  ghost predicate LogSound(s: System) {
    s.cache == Newest(s.log) && Separated(s.log)
  }

  ghost predicate ResultsTrue(s: System) {
    forall m | m in s.results :: m.0 < |s.rows| && Ran(s.log, KeyOf(m.0, s.rows[m.0]), m.1)
  }

  /** A final row of this host tells what an execution of it said, or that none was heard of in time. */
  ghost predicate OutcomeTrue(log: seq<Entry>, id: nat, r: Row) {
    match r.status
    case Done => exists e | Ran(log, KeyOf(id, r), e) :: e.ok && r.result == Some(Clip(e.text))
    case Failed => r.result == Some(TIMED_OUT)
      || exists e | Ran(log, KeyOf(id, r), e) :: !e.ok && r.result == Some(Clip(e.text))
    case _ => true
  }

  ghost predicate OutcomesTrue(me: string, s: System) {
    forall id | 0 <= id < |s.rows| && s.rows[id].host == me :: OutcomeTrue(s.log, id, s.rows[id])
  }

  ghost predicate Sound(me: string, s: System) {
    && TableSound(s)
    && FlightsSound(me, s)
    && RunningUncached(s)
    && LogSound(s)
    && ResultsTrue(s)
    && OutcomesTrue(me, s)
  }

  lemma KeysTellCommandsApart(rows: Table, i: nat, j: nat)
    requires UniqueKeys(rows) && i < |rows| && j < |rows| && KeyOf(i, rows[i]) == KeyOf(j, rows[j])
    ensures i == j
  {
  }

  lemma RanStays(log: seq<Entry>, more: seq<Entry>, key: CacheKey, result: Result)
    requires Ran(log, key, result)
    ensures Ran(log + more, key, result)
  {
    var k :| 0 <= k < |log| && log[k] == Entry(key, result);
    assert (log + more)[k] == Entry(key, result);
  }

  lemma OutcomeStays(log: seq<Entry>, more: seq<Entry>, id: nat, r: Row)
    requires OutcomeTrue(log, id, r)
    ensures OutcomeTrue(log + more, id, r)
  {
    if r.status == Done {
      var e :| Ran(log, KeyOf(id, r), e) && e.ok && r.result == Some(Clip(e.text));
      RanStays(log, more, KeyOf(id, r), e);
    } else if r.status == Failed && r.result != Some(TIMED_OUT) {
      var e :| Ran(log, KeyOf(id, r), e) && !e.ok && r.result == Some(Clip(e.text));
      RanStays(log, more, KeyOf(id, r), e);
    }
  }

  /** Appending an execution whose command has left the cache keeps executions apart, and the cache the newest 256. */
  lemma LogGrows(log: seq<Entry>, e: Entry)
    requires Separated(log) && Absent(Newest(log), e.key)
    ensures Separated(log + [e])
    ensures Newest(Put(Newest(log), e)) == Newest(log + [e])
  {
    var cache := Newest(log);
    assert Put(cache, e) == cache + [e];
    forall i | 0 <= i < |log| && |log| - i <= CACHE_SIZE ensures log[i].key != e.key {
      assert cache[|cache| - (|log| - i)] == log[i];
    }
  }

  // ---- every step keeps it ---------------------------------------------------

  /** A step that leaves the agent alone and keeps each row under the claim it is out with. */
  lemma TableStepKeeps(me: string, s: System, s': System)
    requires Sound(me, s) && KeepsTable(s, s')
    requires s' == s.(rows := s'.rows, delivered := s'.delivered, begun := s'.begun)
    requires forall n, id | n in s.flights && id in s.flights[n].ids ::
               HeldRow(me, s'.rows, id, s.flights[n].claimedAt)
    requires OutcomesTrue(me, s')
    ensures Sound(me, s')
  {
    forall n | n in s'.flights ensures Held(me, s', s'.flights[n]) {
      assert Held(me, s, s.flights[n]);
    }
    forall m | m in s'.results ensures m.0 < |s'.rows| && Ran(s'.log, KeyOf(m.0, s'.rows[m.0]), m.1) {
      assert Continues(s.rows[m.0], s'.rows[m.0]);
    }
    forall n | n in s'.flights && s'.flights[n].running
      ensures Due(s', n) && Absent(s'.cache, DueKey(s', s'.flights[n]))
    {
      var id := s.flights[n].ids[s.flights[n].next];
      assert Continues(s.rows[id], s'.rows[id]);
    }
  }

  lemma EnqueueKeeps(me: string, s: System, host: string, action: string, key: Option<string>)
    requires Sound(me, s)
    ensures Sound(me, AfterEnqueue(s, host, action, key))
  {
    var s' := AfterEnqueue(s, host, action, key);
    EnqueueKeepsTable(s, host, action, key);
    forall n, id | n in s.flights && id in s.flights[n].ids
      ensures HeldRow(me, s'.rows, id, s.flights[n].claimedAt)
    {
      assert Held(me, s, s.flights[n]);
    }
    TableStepKeeps(me, s, s');
  }

  lemma ExpireKeeps(me: string, s: System)
    requires Sound(me, s)
    ensures Sound(me, AfterExpire(s))
  {
    var s' := AfterExpire(s);
    ExpireKeepsTable(s);
    forall n, id | n in s.flights && id in s.flights[n].ids
      ensures HeldRow(me, s'.rows, id, s.flights[n].claimedAt)
    {
      assert Held(me, s, s.flights[n]);
      assert HeldRow(me, s.rows, id, s.flights[n].claimedAt);
    }
    TableStepKeeps(me, s, s');
  }

  /** A result is either of another host's command, or tells what the execution said. */
  lemma ResultKeeps(me: string, s: System, host: string, id: int, ok: bool, text: string)
    requires Sound(me, s)
    requires host == me ==> id >= 0 && (id, Result(ok, text)) in s.results
    ensures Sound(me, AfterResult(s, host, id, ok, text))
  {
    var s' := AfterResult(s, host, id, ok, text);
    ResultKeepsTable(s, host, id, ok, text);
    forall n, i | n in s.flights && i in s.flights[n].ids
      ensures HeldRow(me, s'.rows, i, s.flights[n].claimedAt)
    {
      assert Held(me, s, s.flights[n]);
      assert HeldRow(me, s.rows, i, s.flights[n].claimedAt);
    }
    forall i | 0 <= i < |s'.rows| && s'.rows[i].host == me
      ensures OutcomeTrue(s'.log, i, s'.rows[i])
    {
      assert OutcomeTrue(s.log, i, s.rows[i]);
      if s'.rows[i] != s.rows[i] {
        assert i == id && host == me;
        assert Ran(s.log, KeyOf(i, s.rows[i]), Result(ok, text));
        assert KeyOf(i, s'.rows[i]) == KeyOf(i, s.rows[i]);
        assert Ran(s'.log, KeyOf(i, s'.rows[i]), Result(ok, text));
      }
    }
    TableStepKeeps(me, s, s');
  }

  lemma HeartbeatKeeps(me: string, s: System, host: string, refused: set<nat>, n: nat)
    requires Sound(me, s) && n !in s.flights
    ensures Sound(me, AfterHeartbeat(me, s, host, refused, n))
  {
    var s' := AfterHeartbeat(me, s, host, refused, n);
    var mid := s.(rows := s'.rows, delivered := s'.delivered);
    HeartbeatKeepsTable(me, s, host, refused, n);
    BeatRows(s.rows, host, s.now, refused);
    var ids := Beat(s.rows, host, s.now, refused).1;
    forall m, id | m in s.flights && id in s.flights[m].ids
      ensures HeldRow(me, mid.rows, id, s.flights[m].claimedAt) && id !in ids
    {
      assert Held(me, s, s.flights[m]);
      assert HeldRow(me, s.rows, id, s.flights[m].claimedAt);
    }
    forall id | 0 <= id < |mid.rows| && mid.rows[id].host == me ensures OutcomeTrue(mid.log, id, mid.rows[id]) {
      assert OutcomeTrue(s.log, id, s.rows[id]);
    }
    TableStepKeeps(me, s, mid);
    if host == me {
      assert Held(me, s', s'.flights[n]);
      AddFlight(me, mid, n, Flight(s.now, ids, 0, false));
    }
  }

  lemma AddFlight(me: string, s: System, n: nat, f: Flight)
    requires Sound(me, s) && n !in s.flights && Held(me, s, f) && !f.running
    requires forall m, id | m in s.flights && id in s.flights[m].ids :: id !in f.ids
    ensures Sound(me, s.(flights := s.flights[n := f]))
  {
    var s' := s.(flights := s.flights[n := f]);
    forall m | m in s'.flights ensures Held(me, s', s'.flights[m]) {
      if m != n {
        assert Held(me, s, s.flights[m]);
      }
    }
  }

  lemma BeginKeeps(me: string, s: System, n: nat)
    requires Sound(me, s) && Due(s, n) && !s.flights[n].running
    ensures Sound(me, AfterBegin(s, n))
  {
    var s' := AfterBegin(s, n);
    var f := s.flights[n];
    var id := f.ids[f.next];
    assert Held(me, s, f);
    forall m | m in s'.flights ensures Held(me, s', s'.flights[m]) {
      assert Held(me, s, s.flights[m]);
    }
    var at := Find(s.cache, DueKey(s, f));
    if at.Some? {
      var e := s.cache[at.value];
      var k := at.value + |s.log| - |s.cache|;
      assert s.log[k] == e;
      assert Ran(s.log, DueKey(s, f), e.result);
    }
  }

  lemma EndKeeps(me: string, s: System, n: nat, outcome: Result)
    requires Sound(me, s) && Due(s, n) && s.flights[n].running
    ensures Sound(me, AfterEnd(s, n, outcome))
  {
    var s' := AfterEnd(s, n, outcome);
    var f := s.flights[n];
    var id := f.ids[f.next];
    var e := Entry(DueKey(s, f), outcome);
    assert Held(me, s, f);
    LogGrows(s.log, e);
    assert s'.log[|s.log|] == e;
    assert Ran(s'.log, e.key, outcome);
    forall m | m in s'.flights ensures Held(me, s', s'.flights[m]) {
      assert Held(me, s, s.flights[m]);
    }
    forall m | m in s'.results ensures m.0 < |s'.rows| && Ran(s'.log, KeyOf(m.0, s'.rows[m.0]), m.1) {
      if m in s.results {
        RanStays(s.log, [e], KeyOf(m.0, s.rows[m.0]), m.1);
      }
    }
    forall i | 0 <= i < |s'.rows| && s'.rows[i].host == me ensures OutcomeTrue(s'.log, i, s'.rows[i]) {
      OutcomeStays(s.log, [e], i, s.rows[i]);
    }
    forall m | m in s'.flights && s'.flights[m].running
      ensures Due(s', m) && Absent(s'.cache, DueKey(s', s'.flights[m]))
    {
      assert m != n;
      var other := s.flights[m].ids[s.flights[m].next];
      assert other in s.flights[m].ids && id in f.ids;
      if DueKey(s, s.flights[m]) == e.key {
        KeysTellCommandsApart(s.rows, other, id);
        assert false;
      }
      OthersStayAbsent(s.cache, e, DueKey(s, s.flights[m]));
    }
  }

  lemma OthersStayAbsent(cache: Cache, e: Entry, key: CacheKey)
    requires Absent(cache, key) && e.key != key
    ensures Absent(Newest(Put(cache, e)), key)
  {
  }

  lemma StepKeeps(me: string, s: System, e: Event, limit: Option<nat>)
    requires Sound(me, s) && limit.Some? && limit.value <= LEASE && Possible(me, s, e, limit)
    ensures Possible(me, s, e, None) && Sound(me, Next(me, s, e))
  {
    match e
    case Enqueue(host, action, key) => EnqueueKeeps(me, s, host, action, key);
    case Heartbeat(host, refused, n) => HeartbeatKeeps(me, s, host, refused, n);
    case Begin(n) => BeginKeeps(me, s, n);
    case End(n, outcome) => EndKeeps(me, s, n, outcome);
    case Drop(n) => DropKeeps(me, s, n);
    case Deliver(id, r) => ResultKeeps(me, s, me, id, r.ok, r.text);
    case OtherResult(host, id, ok, text) => ResultKeeps(me, s, host, id, ok, text);
    case Expire => ExpireKeeps(me, s);
    case Wait(ms) => WaitKeeps(me, s, ms);
  }

  lemma DropKeeps(me: string, s: System, n: nat)
    requires Sound(me, s) && n in s.flights
    ensures Sound(me, s.(flights := s.flights - {n}))
  {
    forall m | m in s.flights - {n} ensures Held(me, s.(flights := s.flights - {n}), s.flights[m]) {
      assert Held(me, s, s.flights[m]);
    }
  }

  lemma WaitKeeps(me: string, s: System, ms: nat)
    requires Sound(me, s) && forall n | n in s.flights :: s.now + ms <= s.flights[n].claimedAt + LEASE
    ensures Sound(me, s.(now := s.now + ms))
  {
    forall n | n in s.flights ensures Held(me, s.(now := s.now + ms), s.flights[n]) {
      assert Held(me, s, s.flights[n]);
    }
  }

  /**
   At most once. Whatever requests, responses and results are lost, delayed or
   repeated, if every batch is done within its lease then two executions of one
   command have at least 256 other executions between them; and a command marked
   done or failed tells what an execution of it said, or that the delivery was
   never acknowledged.
   */
  lemma {:induction false} AtMostOnce(me: string, s: System, events: seq<Event>, limit: Option<nat>, s': System)
    requires Sound(me, s) && Run(me, s, events, limit, s') && limit.Some? && limit.value <= LEASE
    ensures Sound(me, s') && OutcomesTrue(me, s')
    ensures forall i, j | 0 <= i < j < |s'.log| && s'.log[i].key == s'.log[j].key :: j - i - 1 >= CACHE_SIZE
    decreases |events|
  {
    if events != [] {
      StepKeeps(me, s, events[0], limit);
      AtMostOnce(me, Next(me, s, events[0]), events[1..], limit, s');
    }
  }

  /** A coordinator and host with nothing queued are sound, so every run from there is. */
  lemma StartIsSound(me: string, now: int)
    ensures Sound(me, Start(now))
  {
  }
}
