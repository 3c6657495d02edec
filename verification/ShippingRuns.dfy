/**
 The shipping of a log over whole runs: heartbeats that overlap, responses that
 are lost, and coordinators that are old or fail half-way (dashboard/agent.js,
 dashboard/fleetd.js). The log only grows, and the first cursor stands between
 two lines.
 */
module ShippingRuns {
  import opened Wrappers
  import opened LogLines
  import opened Shipping

  /** A line the coordinator took, with its place in the log. */
  datatype Taken = Taken(index: nat, line: Line)

  /** A heartbeat under way: what was read, the place of its first line, and the count the coordinator answered. */
  datatype Flight = Flight(pending: Pending, from: nat, accepted: Option<nat>)

  /** cursor is the offset saved; first is the place of the first line after the cursor's start. */
  datatype System = System(log: seq<Byte>, cursor: nat, first: nat, flights: map<nat, Flight>, taken: seq<Taken>)

  datatype Event =
    | Append(bytes: seq<Byte>)
    | Read(id: nat, missing: nat)
    | Deliver(id: nat)                 // the coordinator takes the lines and answers how many
    | Fail(id: nat, taken: nat)        // it takes some of them, perhaps none, and answers no count
    | Save(id: nat)                    // the answer arrives
    | Lose(id: nat)                    // it never does, or tells no count: a heartbeat without lines gets none

  function Batch(lines: seq<Line>, from: nat, n: nat): (ts: seq<Taken>)
    requires n <= |lines|
    ensures |ts| == n
  {
    seq(n, k requires 0 <= k < n => Taken(from + k, lines[k]))
  }

  predicate Possible(s: System, e: Event) {
    match e
    case Append(_) => true
    case Read(id, _) => id !in s.flights
    case Deliver(id) => id in s.flights && s.flights[id].pending.lines != []
    case Fail(id, n) => id in s.flights && n <= |s.flights[id].pending.lines|
    case Save(id) => id in s.flights && s.flights[id].accepted.Some?
    case Lose(id) => id in s.flights
  }

  function After(s: System, e: Event): System
    requires Possible(s, e)
  {
    match e
    case Append(bytes) => s.(log := s.log + bytes)
    case Read(id, missing) =>
      var p := PendingOf(Some(s.log), s.cursor, SHIP_MAX_LINES, SHIP_MAX_BYTES, missing);
      s.(flights := s.flights[id := Flight(p, |Lines(s.log[..Least(s.cursor, |s.log|)])|, None)])
    case Deliver(id) =>
      var f := s.flights[id];
      var n := Least(|f.pending.lines|, TAKE_MAX);
      s.(flights := s.flights[id := f.(accepted := Some(n))], taken := s.taken + Batch(f.pending.lines, f.from, n))
    case Fail(id, n) =>
      var f := s.flights[id];
      s.(taken := s.taken + Batch(f.pending.lines, f.from, n))
    case Save(id) =>
      var f := s.flights[id];
      s.(cursor := Advance(f.pending, f.accepted.value), flights := s.flights - {id})
    case Lose(id) => s.(flights := s.flights - {id})
  }

  function Start(log: seq<Byte>): System {
    System(log, |log|, |Lines(log)|, map[], [])
  }

  predicate IsRun(s: System, es: seq<Event>)
    decreases |es|
  {
    es == [] || (Possible(s, es[0]) && IsRun(After(s, es[0]), es[1..]))
  }

  function RunOf(s: System, es: seq<Event>): System
    requires IsRun(s, es)
    decreases |es|
  {
    if es == [] then s else RunOf(After(s, es[0]), es[1..])
  }

  // ---- what every run keeps ------------------------------------------------------

  predicate Has(taken: seq<Taken>, i: nat) {
    taken != [] && (taken[|taken| - 1].index == i || Has(taken[..|taken| - 1], i))
  }

  /** Every line from first to n was taken. */
  ghost predicate Covered(taken: seq<Taken>, first: nat, n: nat) {
    forall i: nat | first <= i < n :: Has(taken, i)
  }

  /**
   A line is taken, for the first time or again, only once all lines before it were:
   first occurrences come in the log's order.
   */
  ghost predicate InOrder(taken: seq<Taken>, first: nat) {
    taken != [] ==>
      var init := taken[..|taken| - 1];
      InOrder(init, first) && Covered(init, first, taken[|taken| - 1].index)
  }

  /** Each taken line is a whole line of the log, at its place. */
  predicate Genuine(log: seq<Byte>, first: nat, taken: seq<Taken>) {
    forall k | 0 <= k < |taken| ::
      first <= taken[k].index < |Lines(log)| && taken[k].line == Lines(log)[taken[k].index]
  }

  ghost predicate CursorSafe(s: System) {
    && s.cursor <= |s.log| && Boundary(s.log[..s.cursor])
    && var n := |Lines(s.log[..s.cursor])|; s.first <= n && Covered(s.taken, s.first, n)
  }

  ghost predicate FlightSafe(s: System, f: Flight) {
    && |f.pending.sizes| == |f.pending.lines| && Follows(s.log, f.from, f.pending.lines)
    && (forall k: nat | k <= |f.pending.lines| :: IsCut(s.log, Advance(f.pending, k), f.from + k))
    && s.first <= f.from && Covered(s.taken, s.first, f.from)
    && (f.accepted.Some? ==>
      f.accepted.value <= |f.pending.lines| && Covered(s.taken, s.first, f.from + f.accepted.value))
  }

  ghost predicate Safe(s: System) {
    && CursorSafe(s)
    && (forall id | id in s.flights :: FlightSafe(s, s.flights[id]))
    && Genuine(s.log, s.first, s.taken) && InOrder(s.taken, s.first)
  }

  lemma {:induction false} HasMore(taken: seq<Taken>, more: seq<Taken>, i: nat)
    ensures Has(taken + more, i) <==> Has(taken, i) || Has(more, i)
  {
    if more == [] {
      assert taken + more == taken;
    } else {
      var init, last := more[..|more| - 1], more[|more| - 1];
      assert (taken + more)[..|taken + more| - 1] == taken + init;
      HasMore(taken, init, i);
    }
  }

  lemma CoveredMore(taken: seq<Taken>, more: seq<Taken>, first: nat, n: nat)
    requires Covered(taken, first, n)
    ensures Covered(taken + more, first, n)
  {
    forall i: nat | first <= i < n ensures Has(taken + more, i) {
      HasMore(taken, more, i);
    }
  }

  /** A batch taken after all lines before it keeps the order, and covers the lines it holds. */
  lemma {:induction false} BatchTaken(taken: seq<Taken>, first: nat, from: nat, lines: seq<Line>, n: nat)
    requires InOrder(taken, first) && Covered(taken, first, from) && first <= from && n <= |lines|
    ensures InOrder(taken + Batch(lines, from, n), first) && Covered(taken + Batch(lines, from, n), first, from + n)
  {
    if n == 0 {
      assert taken + Batch(lines, from, 0) == taken;
    } else {
      BatchTaken(taken, first, from, lines, n - 1);
      var before, after := taken + Batch(lines, from, n - 1), taken + Batch(lines, from, n);
      assert after == before + [Taken(from + n - 1, lines[n - 1])];
      assert after[..|after| - 1] == before;
      CoveredMore(before, [Taken(from + n - 1, lines[n - 1])], first, from + n - 1);
    }
  }

  lemma GrowCut(log: seq<Byte>, bytes: seq<Byte>, c: nat, n: nat)
    requires IsCut(log, c, n)
    ensures IsCut(log + bytes, c, n)
  {
    assert (log + bytes)[..c] == log[..c];
  }

  lemma GrowFollows(log: seq<Byte>, bytes: seq<Byte>, n: nat, lines: seq<Line>)
    requires Follows(log, n, lines)
    ensures Follows(log + bytes, n, lines)
  {
    LinesGrow(log, bytes);
    assert Lines(log + bytes)[n..n + |lines|] == Lines(log)[n..n + |lines|];
  }

  lemma AppendKeeps(s: System, bytes: seq<Byte>)
    requires Safe(s)
    ensures Safe(s.(log := s.log + bytes))
  {
    var s' := s.(log := s.log + bytes);
    assert s'.log[..s.cursor] == s.log[..s.cursor];
    LinesGrow(s.log, bytes);
    forall id | id in s.flights ensures FlightSafe(s', s.flights[id]) {
      var f := s.flights[id];
      assert FlightSafe(s, f);
      GrowFollows(s.log, bytes, f.from, f.pending.lines);
      forall k: nat | k <= |f.pending.lines| ensures IsCut(s'.log, Advance(f.pending, k), f.from + k) {
        GrowCut(s.log, bytes, Advance(f.pending, k), f.from + k);
      }
    }
  }

  lemma ReadKeeps(s: System, id: nat, missing: nat)
    requires Safe(s) && id !in s.flights
    ensures Safe(After(s, Read(id, missing)))
  {
    var s' := After(s, Read(id, missing));
    var n := |Lines(s.log[..s.cursor])|;
    ReadFollows(s.log, s.cursor, n, SHIP_MAX_LINES, SHIP_MAX_BYTES, missing);
    assert FlightSafe(s', s'.flights[id]);
    forall other | other in s'.flights ensures FlightSafe(s', s'.flights[other]) {
      if other != id {
        assert FlightSafe(s, s.flights[other]);
      }
    }
  }

  lemma FlightStays(s: System, more: seq<Taken>, flights: map<nat, Flight>, f: Flight)
    requires FlightSafe(s, f)
    ensures FlightSafe(s.(taken := s.taken + more, flights := flights), f)
  {
    CoveredMore(s.taken, more, s.first, f.from);
    if f.accepted.Some? {
      CoveredMore(s.taken, more, s.first, f.from + f.accepted.value);
    }
  }

  lemma GenuineBatch(log: seq<Byte>, first: nat, taken: seq<Taken>, from: nat, lines: seq<Line>, n: nat)
    requires Genuine(log, first, taken) && Follows(log, from, lines) && first <= from && n <= |lines|
    ensures Genuine(log, first, taken + Batch(lines, from, n))
  {
    forall j | 0 <= j < n ensures Lines(log)[from + j] == lines[j] {
      assert Lines(log)[from..from + |lines|][j] == lines[j];
    }
  }

  /** Some of a batch is taken, and the count may be answered. */
  lemma TakingKeeps(s: System, id: nat, n: nat, accepted: Option<nat>)
    requires Safe(s) && id in s.flights && n <= |s.flights[id].pending.lines|
    requires accepted == s.flights[id].accepted || accepted == Some(n)
    ensures var f := s.flights[id];
      Safe(s.(flights := s.flights[id := f.(accepted := accepted)],
        taken := s.taken + Batch(f.pending.lines, f.from, n)))
  {
    var f := s.flights[id];
    var more := Batch(f.pending.lines, f.from, n);
    var s' := s.(flights := s.flights[id := f.(accepted := accepted)], taken := s.taken + more);
    assert FlightSafe(s, f);
    BatchTaken(s.taken, s.first, f.from, f.pending.lines, n);
    CoveredMore(s.taken, more, s.first, |Lines(s.log[..s.cursor])|);
    GenuineBatch(s.log, s.first, s.taken, f.from, f.pending.lines, n);
    forall other | other in s'.flights ensures FlightSafe(s', s'.flights[other]) {
      FlightStays(s, more, s'.flights, s.flights[other]);
    }
  }

  lemma SaveKeeps(s: System, id: nat)
    requires Safe(s) && id in s.flights && s.flights[id].accepted.Some?
    ensures Safe(After(s, Save(id)))
  {
    var f, s' := s.flights[id], After(s, Save(id));
    assert FlightSafe(s, f);
    assert IsCut(s.log, Advance(f.pending, f.accepted.value), f.from + f.accepted.value);
    forall other | other in s'.flights ensures FlightSafe(s', s'.flights[other]) {
      assert FlightSafe(s, s.flights[other]);
    }
  }

  lemma StepKeeps(s: System, e: Event)
    requires Safe(s) && Possible(s, e)
    ensures Safe(After(s, e)) && After(s, e).first == s.first && s.log <= After(s, e).log
      && s.taken <= After(s, e).taken
  {
    match e
    case Append(bytes) => AppendKeeps(s, bytes);
    case Read(id, missing) => ReadKeeps(s, id, missing);
    case Deliver(id) =>
      var n := Least(|s.flights[id].pending.lines|, TAKE_MAX);
      TakingKeeps(s, id, n, Some(n));
    case Fail(id, n) =>
      TakingKeeps(s, id, n, s.flights[id].accepted);
      assert s.flights[id := s.flights[id]] == s.flights;
    case Save(id) => SaveKeeps(s, id);
    case Lose(id) =>
      forall other | other in s.flights - {id} ensures FlightSafe(After(s, e), s.flights[other]) {
        assert FlightSafe(s, s.flights[other]);
      }
  }

  lemma StartIsSafe(log: seq<Byte>)
    requires Boundary(log)
    ensures Safe(Start(log))
  {
    assert log[..|log|] == log;
  }

  lemma {:induction false} RunKeeps(s: System, es: seq<Event>)
    requires Safe(s) && IsRun(s, es)
    ensures var s' := RunOf(s, es); Safe(s') && s'.first == s.first && s.log <= s'.log
    decreases |es|
  {
    if es != [] {
      StepKeeps(s, es[0]);
      RunKeeps(After(s, es[0]), es[1..]);
    }
  }

  /**
   Whatever overlaps, fails or is lost: the offset saved stands between two lines,
   every line between the start and it was taken, what was taken is whole lines of
   the log at their places, and lines come for the first time in the log's order.
   */
  lemma NothingIsSkipped(log: seq<Byte>, es: seq<Event>)
    requires Boundary(log) && IsRun(Start(log), es)
    ensures var s := RunOf(Start(log), es);
      && s.cursor <= |s.log| && Boundary(s.log[..s.cursor])
      && Covered(s.taken, |Lines(log)|, |Lines(s.log[..s.cursor])|)
      && Genuine(s.log, |Lines(log)|, s.taken) && InOrder(s.taken, |Lines(log)|)
  {
    StartIsSafe(log);
    RunKeeps(Start(log), es);
  }

  // ---- one heartbeat at a time ------------------------------------------------------

  /** The log grows, or a heartbeat makes its whole trip: read, taken, answered, saved. */
  datatype Calm = Grow(bytes: seq<Byte>) | Trip(missing: nat)

  function TripAfter(s: System, missing: nat): System {
    var p := PendingOf(Some(s.log), s.cursor, SHIP_MAX_LINES, SHIP_MAX_BYTES, missing);
    if p.lines == [] then s
    else s.(cursor := Advance(p, |p.lines|), taken := s.taken + Batch(p.lines, Shipped(s), |p.lines|))
  }

  function CalmAfter(s: System, cs: seq<Calm>): System
    requires s.flights == map[]
    decreases |cs|
  {
    if cs == [] then s
    else
      match cs[0]
      case Grow(bytes) => CalmAfter(After(s, Append(bytes)), cs[1..])
      case Trip(missing) => CalmAfter(TripAfter(s, missing), cs[1..])
  }

  function Shipped(s: System): nat {
    |Lines(s.log[..Least(s.cursor, |s.log|)])|
  }

  /** Each line between the start and the cursor was taken once, in order, and nothing else was. */
  ghost predicate Once(s: System) {
    && Safe(s) && s.flights == map[] && |s.taken| == Shipped(s) - s.first
    && forall k | 0 <= k < |s.taken| :: s.taken[k].index == s.first + k
  }

  /** A trip is its three steps, or two when there is nothing to send. */
  lemma TripIs(s: System, missing: nat)
    requires s.flights == map[]
    ensures var read := After(s, Read(0, missing));
      if Possible(read, Deliver(0)) then
        && TripAfter(s, missing) == After(After(read, Deliver(0)), Save(0))
        && |read.flights[0].pending.lines| <= SHIP_MAX_LINES
      else TripAfter(s, missing) == After(read, Lose(0))
  {
    var p := PendingOf(Some(s.log), s.cursor, SHIP_MAX_LINES, SHIP_MAX_BYTES, missing);
    var f := Flight(p, Shipped(s), None);
    assert After(s, Read(0, missing)).flights == map[0 := f];
    assert map[0 := f.(accepted := Some(|p.lines|))] - {0} == map[];
    assert map[0 := f] - {0} == map[];
  }

  lemma TripIsSafe(s: System, missing: nat)
    requires Safe(s) && s.flights == map[]
    ensures Safe(TripAfter(s, missing))
  {
    var read := After(s, Read(0, missing));
    StepKeeps(s, Read(0, missing));
    if Possible(read, Deliver(0)) {
      StepKeeps(read, Deliver(0));
      StepKeeps(After(read, Deliver(0)), Save(0));
    } else {
      StepKeeps(read, Lose(0));
    }
    TripIs(s, missing);
  }

  lemma TripKeepsOnce(s: System, missing: nat)
    requires Once(s)
    ensures var s' := TripAfter(s, missing);
      var p := PendingOf(Some(s.log), s.cursor, SHIP_MAX_LINES, SHIP_MAX_BYTES, missing);
      && Once(s') && s'.log == s.log && s'.first == s.first && Shipped(s') == Shipped(s) + |p.lines|
  {
    TripIsSafe(s, missing);
    ReadFollows(s.log, s.cursor, Shipped(s), SHIP_MAX_LINES, SHIP_MAX_BYTES, missing);
    var p := PendingOf(Some(s.log), s.cursor, SHIP_MAX_LINES, SHIP_MAX_BYTES, missing);
    assert IsCut(s.log, Advance(p, |p.lines|), Shipped(s) + |p.lines|);
  }

  /**
   However growth and heartbeats alternate, the lines taken are those of splitting the
   file once, up to the cursor.
   */
  lemma {:induction false} CalmTakesOnce(s: System, cs: seq<Calm>)
    requires Once(s)
    ensures Once(CalmAfter(s, cs)) && CalmAfter(s, cs).first == s.first
    decreases |cs|
  {
    if cs != [] {
      match cs[0]
      case Grow(bytes) =>
        StepKeeps(s, Append(bytes));
        assert (s.log + bytes)[..s.cursor] == s.log[..s.cursor];
        CalmTakesOnce(After(s, Append(bytes)), cs[1..]);
      case Trip(missing) =>
        TripKeepsOnce(s, missing);
        CalmTakesOnce(TripAfter(s, missing), cs[1..]);
    }
  }

  function LinesTaken(taken: seq<Taken>): seq<Line> {
    seq(|taken|, k requires 0 <= k < |taken| => taken[k].line)
  }

  lemma OnceIsSplit(s: System)
    requires Once(s)
    ensures LinesTaken(s.taken) == Lines(s.log[..s.cursor])[s.first..]
  {
    assert s.log == s.log[..s.cursor] + s.log[s.cursor..];
    LinesGrow(s.log[..s.cursor], s.log[s.cursor..]);
  }

  /** No line after the cursor is longer than one read takes. */
  predicate Fits(s: System) {
    forall i | Shipped(s) <= i < |Lines(s.log)| :: |Lines(s.log)[i]| + 1 <= SHIP_MAX_BYTES
  }

  function Repeat<S>(step: S -> S, s: S, n: nat): S {
    if n == 0 then s else Repeat(step, step(s), n - 1)
  }

  function OneTrip(): System -> System {
    (s: System) => TripAfter(s, 0)
  }

  function Trips(s: System, n: nat): System {
    Repeat(OneTrip(), s, n)
  }

  lemma {:induction false} Descends<S(!new)>(step: S -> S, good: S -> bool, left: S -> nat, s: S, n: nat)
    requires forall x :: good(x) ==> good(step(x)) && (left(step(x)) < left(x) || left(step(x)) == 0)
    requires good(s) && left(s) <= n
    ensures good(Repeat(step, s, n)) && left(Repeat(step, s, n)) == 0
    decreases n
  {
    if n > 0 {
      Descends(step, good, left, step(s), n - 1);
    }
  }

  lemma TripMoves(s: System)
    requires Once(s) && Fits(s) && Shipped(s) < |Lines(s.log)|
    ensures Shipped(TripAfter(s, 0)) > Shipped(s)
  {
    assert s.log == s.log[..s.cursor] + s.log[s.cursor..];
    LinesAppend(s.log[..s.cursor], s.log[s.cursor..]);
    assert Lines(s.log)[Shipped(s)] == Lines(s.log[s.cursor..])[0];
    ProgressIff(s.log, s.cursor, SHIP_MAX_LINES, SHIP_MAX_BYTES);
    TripKeepsOnce(s, 0);
  }

  lemma ShippedAtMost(s: System)
    requires Safe(s)
    ensures s.first <= Shipped(s) <= |Lines(s.log)|
  {
    assert s.log == s.log[..s.cursor] + s.log[s.cursor..];
    LinesGrow(s.log[..s.cursor], s.log[s.cursor..]);
  }

  lemma FirstTrip(s: System)
    requires Once(s) && Fits(s)
    ensures var s1 := TripAfter(s, 0);
      && Once(s1) && Fits(s1) && s1.log == s.log && s1.first == s.first
      && Shipped(s1) >= Shipped(s) && (Shipped(s1) > Shipped(s) || Shipped(s1) == |Lines(s.log)|)
  {
    TripKeepsOnce(s, 0);
    ShippedAtMost(s);
    ShippedAtMost(TripAfter(s, 0));
    if Shipped(s) < |Lines(s.log)| {
      TripMoves(s);
    }
  }

  function Backlog(s: System): nat {
    if Shipped(s) < |Lines(s.log)| then |Lines(s.log)| - Shipped(s) else 0
  }

  lemma WholeShipped(s: System)
    requires Safe(s) && Shipped(s) >= |Lines(s.log)|
    ensures Lines(s.log[..s.cursor]) == Lines(s.log)
  {
    assert s.log == s.log[..s.cursor] + s.log[s.cursor..];
    LinesGrow(s.log[..s.cursor], s.log[s.cursor..]);
  }

  ghost predicate Resting(log: seq<Byte>, first: nat, s: System) {
    Once(s) && Fits(s) && s.log == log && s.first == first
  }

  ghost function RestsAt(log: seq<Byte>, first: nat): System -> bool {
    (s: System) => Resting(log, first, s)
  }

  lemma TripsShrinkTheBacklog(log: seq<Byte>, first: nat)
    ensures var good, step := RestsAt(log, first), OneTrip();
      forall s :: good(s) ==> good(step(s)) && (Backlog(step(s)) < Backlog(s) || Backlog(step(s)) == 0)
  {
    forall s | Resting(log, first, s)
      ensures var s1 := TripAfter(s, 0); Resting(log, first, s1) && (Backlog(s1) < Backlog(s) || Backlog(s1) == 0)
    {
      FirstTrip(s);
    }
  }

  lemma TripsRest(s: System, n: nat)
    requires Resting(s.log, s.first, s) && Backlog(s) <= n
    ensures Resting(s.log, s.first, Trips(s, n)) && Backlog(Trips(s, n)) == 0
  {
    var good := RestsAt(s.log, s.first);
    assert good(s);
    TripsShrinkTheBacklog(s.log, s.first);
    Descends(OneTrip(), good, Backlog, s, n);
    assert good(Trips(s, n));
  }

  lemma RestedTookAll(log: seq<Byte>, first: nat, s: System)
    requires Resting(log, first, s) && Backlog(s) == 0
    ensures first <= |Lines(log)| && LinesTaken(s.taken) == Lines(log)[first..]
  {
    ShippedAtMost(s);
    OnceIsSplit(s);
    WholeShipped(s);
  }

  /** Once the log rests, enough heartbeats take every line of it, when none is longer than one read. */
  lemma EverythingShips(s: System, n: nat)
    requires Once(s) && Fits(s) && Backlog(s) <= n
    ensures s.first <= |Lines(s.log)| && LinesTaken(Trips(s, n).taken) == Lines(s.log)[s.first..]
  {
    TripsRest(s, n);
    RestedTookAll(s.log, s.first, Trips(s, n));
  }
}
