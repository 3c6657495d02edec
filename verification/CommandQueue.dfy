/**
 The coordinator's queue of host commands: the statements of dashboard/fleetd.js
 (SQLite) and dashboard/lib/ha.js (PostgreSQL) over one table, each an atomic
 step. A command's id is its place in the table; rows are never deleted.
 */
module CommandQueue {
  import opened Wrappers

  const MAX_ATTEMPTS: nat := 3
  const CLAIM_LIMIT: nat := 8
  const RESULT_CHARS: nat := 4000
  const TIMED_OUT := "delivery acknowledgement timed out"

  datatype Status = Pending | Sent | Done | Failed

  datatype Row = Row(
    host: string,
    action: string,
    key: Option<string>,
    status: Status,
    startedAt: Option<int>,
    attempts: nat,
    completedAt: Option<int>,
    result: Option<string>)

  type Table = seq<Row>

  predicate Final(r: Row) {
    r.status == Done || r.status == Failed
  }

  // ---- the statements as functions of the table -----------------------------

  function IndexOfKey(rows: Table, key: Option<string>): (at: Option<nat>)
    ensures at.Some? ==> at.value < |rows| && key.Some? && rows[at.value].key == key
    ensures at.None? ==> key.None? || forall i | 0 <= i < |rows| :: rows[i].key != key
  {
    if key.None? || rows == [] then None
    else if rows[|rows| - 1].key == key then Some(|rows| - 1)
    else IndexOfKey(rows[..|rows| - 1], key)
  }

  /** INSERT ... ON CONFLICT(idempotency_key): an absent key (NULL) conflicts with nothing. */
  function Queue(rows: Table, host: string, action: string, key: Option<string>): (Table, nat) {
    var at := IndexOfKey(rows, key);
    if at.Some? then (rows, at.value)
    else (rows + [Row(host, action, key, Pending, None, 0, None, None)], |rows|)
  }

  predicate Claimable(r: Row, host: string) {
    r.host == host && r.status == Pending && r.attempts < MAX_ATTEMPTS
  }

  predicate Ascending(ids: seq<nat>) {
    forall i, j | 0 <= i < j < |ids| :: ids[i] < ids[j]
  }

  /** The oldest `limit` claimable ids from `from` on. */
  function ClaimIds(rows: Table, host: string, from: nat, limit: nat): (ids: seq<nat>)
    requires from <= |rows|
    ensures |ids| <= limit
    ensures forall id | id in ids :: from <= id < |rows| && Claimable(rows[id], host)
    ensures Ascending(ids)
    ensures |ids| < limit ==> forall id: nat | from <= id < |rows| && Claimable(rows[id], host) :: id in ids
    decreases |rows| - from
  {
    if from == |rows| || limit == 0 then []
    else if Claimable(rows[from], host) then
      var rest := ClaimIds(rows, host, from + 1, limit - 1);
      assert forall i | 0 <= i < |rest| :: rest[i] in rest;
      [from] + rest
    else ClaimIds(rows, host, from + 1, limit)
  }

  function MarkSent(r: Row, now: int): Row {
    r.(status := Sent, startedAt := Some(now), attempts := r.attempts + 1)
  }

  function MarkAll(rows: Table, ids: seq<nat>, now: int): (t: Table)
    ensures |t| == |rows|
    ensures forall i | 0 <= i < |rows| :: t[i] == if i in ids then MarkSent(rows[i], now) else rows[i]
  {
    seq(|rows|, i requires 0 <= i < |rows| => if i in ids then MarkSent(rows[i], now) else rows[i])
  }

  function Claim(rows: Table, host: string, now: int): (Table, seq<nat>) {
    var ids := ClaimIds(rows, host, 0, CLAIM_LIMIT);
    (MarkAll(rows, ids, now), ids)
  }

  function ReleaseRow(r: Row): Row {
    if r.status == Sent
    then r.(status := Pending, startedAt := None, attempts := if r.attempts > 0 then r.attempts - 1 else 0)
    else r
  }

  function CompleteRow(r: Row, ok: bool, result: string, now: int): Row {
    if r.status == Sent
    then r.(completedAt := Some(now), status := if ok then Done else Failed, result := Some(result))
    else r
  }

  function ExpireRow(r: Row, before: int, now: int): Row {
    if r.status == Sent && r.startedAt.Some? && r.startedAt.value < before then
      if r.attempts >= MAX_ATTEMPTS then r.(status := Failed, completedAt := Some(now), result := Some(TIMED_OUT))
      else r.(status := Pending)
    else r
  }

  function ExpireAll(rows: Table, before: int, now: int): (t: Table)
    ensures |t| == |rows|
    ensures forall i | 0 <= i < |rows| :: t[i] == ExpireRow(rows[i], before, now)
  {
    seq(|rows|, i requires 0 <= i < |rows| => ExpireRow(rows[i], before, now))
  }

  /** One result posted by a host: only for its own command, and only while that is sent. */
  function RecordResult(rows: Table, host: string, id: int, ok: bool, text: string, now: int): Table {
    if 0 <= id < |rows| && rows[id].host == host && rows[id].status == Sent
    then rows[id := CompleteRow(rows[id], ok, text, now)]
    else rows
  }

  function Clip(text: string): (r: string)
    ensures r <= text && |r| == if |text| < 4000 then |text| else 4000
  {
    if |text| <= RESULT_CHARS then text else text[..RESULT_CHARS]
  }

  /** Claims whose token could not be minted, put back before the response leaves. */
  function ReleaseAll(rows: Table, ids: seq<nat>, refused: set<nat>): (t: Table)
    ensures |t| == |rows|
    ensures forall i | 0 <= i < |rows| :: t[i] == if i in ids && i in refused then ReleaseRow(rows[i]) else rows[i]
  {
    seq(|rows|, i requires 0 <= i < |rows| => if i in ids && i in refused then ReleaseRow(rows[i]) else rows[i])
  }

  function Without(ids: seq<nat>, refused: set<nat>): (r: seq<nat>)
    ensures forall x :: x in r <==> x in ids && x !in refused
  {
    if ids == [] then []
    else
      var init, last := ids[..|ids| - 1], ids[|ids| - 1];
      assert ids == init + [last];
      if last in refused then Without(init, refused) else Without(init, refused) + [last]
  }

  lemma {:induction false} WithoutAscends(ids: seq<nat>, refused: set<nat>)
    requires Ascending(ids)
    ensures Ascending(Without(ids, refused))
  {
    if ids != [] {
      var init := ids[..|ids| - 1];
      WithoutAscends(init, refused);
      assert forall i | 0 <= i < |Without(init, refused)| :: Without(init, refused)[i] in init;
    }
  }

  lemma ReleaseNext(rows: Table, ids: seq<nat>, refused: set<nat>, k: nat)
    requires Ascending(ids) && k < |ids| && ids[k] < |rows|
    ensures var before := ReleaseAll(rows, ids[..k], refused);
      ReleaseAll(rows, ids[..k + 1], refused)
      == if ids[k] in refused then before[ids[k] := ReleaseRow(before[ids[k]])] else before
  {
    assert ids[k] !in ids[..k];
    assert ids[..k + 1] == ids[..k] + [ids[k]];
  }

  /** A heartbeat's claim, releases and answer: the table after it, and the ids answered. */
  function Beat(rows: Table, host: string, now: int, refused: set<nat>): (Table, seq<nat>) {
    var (claimed, ids) := Claim(rows, host, now);
    (ReleaseAll(claimed, ids, refused), Without(ids, refused))
  }

  // ---- the coordinator ------------------------------------------------------

  class Coordinator {
    var rows: Table

    constructor ()
      ensures rows == []
    {
      rows := [];
    }

    method QueueCommand(host: string, action: string, key: Option<string>) returns (id: nat)
      modifies this
      ensures (rows, id) == Queue(old(rows), host, action, key)
    {
      var at := IndexOfKey(rows, key);
      if at.Some? {
        return at.value;
      }
      id := |rows|;
      rows := rows + [Row(host, action, key, Pending, None, 0, None, None)];
    }

    /** claimLocalCommands: the pending list is read once, then marked row by row. */
    method ClaimLocalCommands(host: string, now: int) returns (claimed: seq<nat>)
      modifies this
      ensures (rows, claimed) == Claim(old(rows), host, now)
    {
      var pending := ClaimIds(rows, host, 0, CLAIM_LIMIT);
      claimed := [];
      for k := 0 to |pending|
        invariant claimed == pending[..k]
        invariant rows == MarkAll(old(rows), pending[..k], now)
      {
        var id := pending[k];
        assert id in pending && id !in pending[..k];
        assert pending[..k + 1] == pending[..k] + [id];
        if rows[id].status == Pending && rows[id].attempts < MAX_ATTEMPTS {
          rows := rows[id := MarkSent(rows[id], now)];
          claimed := claimed + [id];
        }
      }
      assert pending[..|pending|] == pending;
    }

    method ReleaseCommandClaim(id: nat) returns (released: bool)
      requires id < |rows|
      modifies this
      ensures rows == old(rows)[id := ReleaseRow(old(rows)[id])]
      ensures released == (old(rows)[id].status == Sent)
    {
      released := rows[id].status == Sent;
      if released {
        var r := rows[id];
        var attempts := if r.attempts > 0 then r.attempts - 1 else 0;
        rows := rows[id := r.(status := Pending, startedAt := None, attempts := attempts)];
      }
    }

    method ResetExpiredCommands(before: int, now: int)
      modifies this
      ensures rows == ExpireAll(old(rows), before, now)
    {
      for i := 0 to |rows|
        invariant |rows| == |old(rows)|
        invariant forall k | 0 <= k < |rows| :: rows[k] == if k < i then ExpireRow(old(rows)[k], before, now)
          else old(rows)[k]
      {
        var r := rows[i];
        if r.status == Sent && r.startedAt.Some? && r.startedAt.value < before {
          rows := rows[i := if r.attempts >= MAX_ATTEMPTS
                            then r.(status := Failed, completedAt := Some(now), result := Some(TIMED_OUT))
                            else r.(status := Pending)];
        }
      }
    }

    /** The heartbeat handler: claims, mints what needs a token, releases where that failed. */
    method Heartbeat(host: string, now: int, refused: set<nat>) returns (commands: seq<nat>)
      modifies this
      ensures (rows, commands) == Beat(old(rows), host, now, refused)
    {
      var claimed := ClaimLocalCommands(host, now);
      commands := ReleaseRefused(claimed, refused);
    }

    /** The loop over the claims: an answered command, or a claim put back. */
    method ReleaseRefused(claimed: seq<nat>, refused: set<nat>) returns (commands: seq<nat>)
      requires Ascending(claimed) && forall id | id in claimed :: id < |rows|
      modifies this
      ensures rows == ReleaseAll(old(rows), claimed, refused)
      ensures commands == Without(claimed, refused)
    {
      commands := [];
      for k := 0 to |claimed|
        invariant commands == Without(claimed[..k], refused)
        invariant rows == ReleaseAll(old(rows), claimed[..k], refused)
      {
        assert claimed[k] in claimed;
        ReleaseNext(old(rows), claimed, refused, k);
        assert claimed[..k + 1][..k] == claimed[..k];
        if claimed[k] in refused {
          var released := ReleaseCommandClaim(claimed[k]);
        } else {
          commands := commands + [claimed[k]];
        }
      }
      assert claimed[..|claimed|] == claimed;
    }

    /** The results handler, for one entry of the batch. */
    method Result(host: string, id: int, ok: bool, text: string, now: int) returns (recorded: bool)
      modifies this
      ensures rows == RecordResult(old(rows), host, id, ok, Clip(text), now)
      ensures recorded <==> rows != old(rows)
    {
      recorded := false;
      if id < 0 || id >= |rows| || rows[id].host != host {
        return;
      }
      if rows[id].status != Sent {
        return;
      }
      var r := rows[id];
      var status := if ok then Done else Failed;
      rows := rows[id := r.(completedAt := Some(now), status := status, result := Some(Clip(text)))];
      assert rows[id] != old(rows)[id];
      recorded := true;
    }
  }
}
