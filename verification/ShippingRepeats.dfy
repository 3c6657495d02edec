/**
 When a line of the admission log is taken more than once: a batch begins at the
 offset saved when it was read, and an answer that arrives late may set that
 offset back (dashboard/agent.js, dashboard/lib/admission-ship.js).
 */
module ShippingRepeats {
  import opened Wrappers
  import opened LogLines
  import opened Shipping
  import opened ShippingRuns

  /** The system before event k of a run. */
  function StateAt(s: System, es: seq<Event>, k: nat): System
    requires k <= |es|
  {
    if k == 0 then s
    else
      var before := StateAt(s, es, k - 1);
      if Possible(before, es[k - 1]) then After(before, es[k - 1]) else before
  }

  lemma {:induction false} StateAfterFirst(s: System, es: seq<Event>, k: nat)
    requires es != [] && Possible(s, es[0]) && k < |es|
    ensures StateAt(s, es, k + 1) == StateAt(After(s, es[0]), es[1..], k)
  {
    if k > 0 {
      StateAfterFirst(s, es, k - 1);
    } else {
      assert StateAt(s, es, 0) == s;
    }
  }

  lemma {:induction false} EachPossible(s: System, es: seq<Event>, k: nat)
    requires IsRun(s, es) && k < |es|
    ensures Possible(StateAt(s, es, k), es[k])
    decreases |es|
  {
    if k > 0 {
      StateAfterFirst(s, es, k - 1);
      EachPossible(After(s, es[0]), es[1..], k - 1);
    }
  }

  lemma {:induction false} EachSafe(s: System, es: seq<Event>, k: nat)
    requires IsRun(s, es) && Safe(s) && k <= |es|
    ensures Safe(StateAt(s, es, k))
  {
    if k > 0 {
      EachSafe(s, es, k - 1);
      EachPossible(s, es, k - 1);
      StepKeeps(StateAt(s, es, k - 1), es[k - 1]);
    }
  }

  // ---- which lines an event takes ---------------------------------------------------

  predicate Hands(e: Event) {
    e.Deliver? || e.Fail?
  }

  /** How many lines of its batch the event hands over. */
  function HandedOver(s: System, e: Event): nat
    requires Possible(s, e) && Hands(e)
  {
    if e.Fail? then e.taken else Least(|s.flights[e.id].pending.lines|, TAKE_MAX)
  }

  /** The coordinator takes line i at this event, for the first time or again. */
  ghost predicate TakesLine(s: System, e: Event, i: nat)
    requires Possible(s, e)
  {
    exists k | |s.taken| <= k < |After(s, e).taken| :: After(s, e).taken[k].index == i
  }

  lemma TakesItsBatch(s: System, e: Event, i: nat)
    requires Possible(s, e)
    ensures TakesLine(s, e, i) <==>
      Hands(e) && s.flights[e.id].from <= i < s.flights[e.id].from + HandedOver(s, e)
  {
    if Hands(e) {
      var f, n := s.flights[e.id], HandedOver(s, e);
      var after := After(s, e).taken;
      assert after == s.taken + Batch(f.pending.lines, f.from, n);
      if f.from <= i < f.from + n {
        assert after[|s.taken| + (i - f.from)].index == i;
      }
    }
  }

  /** The read that a heartbeat still under way before event k made. */
  function ReadOf(es: seq<Event>, id: nat, k: nat): (r: Option<nat>)
    requires k <= |es|
    ensures r.Some? ==> r.value < k && es[r.value].Read? && es[r.value].id == id
    ensures r.Some? ==> forall m | r.value < m < k :: !(es[m].Read? && es[m].id == id)
  {
    if k == 0 then None
    else if es[k - 1].Read? && es[k - 1].id == id then Some(k - 1)
    else ReadOf(es, id, k - 1)
  }

  /** A heartbeat under way offers the lines from the offset that was saved when it read. */
  lemma {:induction false} OffersFromItsRead(s: System, es: seq<Event>, id: nat, k: nat)
    requires IsRun(s, es) && s.flights == map[] && k <= |es| && id in StateAt(s, es, k).flights
    ensures ReadOf(es, id, k).Some?
    ensures StateAt(s, es, k).flights[id].from == Shipped(StateAt(s, es, ReadOf(es, id, k).value))
  {
    if k > 0 {
      EachPossible(s, es, k - 1);
      if !(es[k - 1].Read? && es[k - 1].id == id) {
        OffersFromItsRead(s, es, id, k - 1);
      }
    }
  }

  /**
   In every run an event takes line i, for the first time or again, exactly when it
   hands over a batch that was read while the saved offset was at or before the
   line, and the line is among those handed over.
   */
  lemma TakenExactlyWhen(s: System, es: seq<Event>, k: nat, i: nat)
    requires IsRun(s, es) && s.flights == map[] && k < |es|
    ensures Possible(StateAt(s, es, k), es[k])
    ensures Hands(es[k]) ==> ReadOf(es, es[k].id, k).Some?
    ensures TakesLine(StateAt(s, es, k), es[k], i) <==>
      && Hands(es[k])
      && var saved := Shipped(StateAt(s, es, ReadOf(es, es[k].id, k).value));
      saved <= i < saved + HandedOver(StateAt(s, es, k), es[k])
  {
    EachPossible(s, es, k);
    TakesItsBatch(StateAt(s, es, k), es[k], i);
    if Hands(es[k]) {
      OffersFromItsRead(s, es, es[k].id, k);
    }
  }

  // ---- lines below an offset that was saved ---------------------------------------------

  /** Event m saves an offset before the one on file. */
  predicate SetsBack(s: System, es: seq<Event>, m: nat) {
    m < |es| && es[m].Save? && StateAt(s, es, m + 1).cursor < StateAt(s, es, m).cursor
  }

  lemma LogAndShipped(s: System, s': System)
    requires Safe(s) && Safe(s') && s.log <= s'.log && s.cursor <= s'.cursor
    ensures Shipped(s) <= Shipped(s')
  {
    assert s'.log[..s.cursor] == s.log[..s.cursor];
    assert s'.log[..s'.cursor] == s'.log[..s.cursor] + s'.log[s.cursor..s'.cursor];
    LinesGrow(s'.log[..s.cursor], s'.log[s.cursor..s'.cursor]);
  }

  lemma {:induction false} OffsetHolds(s: System, es: seq<Event>, j: nat, r: nat)
    requires IsRun(s, es) && Safe(s) && j <= r <= |es|
    requires forall m: nat | j <= m < r :: !SetsBack(s, es, m)
    ensures StateAt(s, es, j).log <= StateAt(s, es, r).log
    ensures StateAt(s, es, j).cursor <= StateAt(s, es, r).cursor
  {
    if j < r {
      OffsetHolds(s, es, j, r - 1);
      EachPossible(s, es, r - 1);
      assert !SetsBack(s, es, r - 1);
    }
  }

  /**
   A line below an offset that was once saved goes out in a batch read later only
   if, between that save and the read, an answer set the offset back.
   */
  lemma RepeatsMeanSetBack(s: System, es: seq<Event>, j: nat, k: nat, i: nat)
    requires IsRun(s, es) && Safe(s) && s.flights == map[] && k < |es| && j <= |es| && i < Shipped(StateAt(s, es, j))
    requires Possible(StateAt(s, es, k), es[k]) && TakesLine(StateAt(s, es, k), es[k], i)
    requires Hands(es[k]) && ReadOf(es, es[k].id, k).Some? && j <= ReadOf(es, es[k].id, k).value
    ensures exists m: nat | j <= m < ReadOf(es, es[k].id, k).value :: SetsBack(s, es, m)
  {
    var r := ReadOf(es, es[k].id, k).value;
    if forall m: nat | j <= m < r :: !SetsBack(s, es, m) {
      OffsetHolds(s, es, j, r);
      EachSafe(s, es, j);
      EachSafe(s, es, r);
      LogAndShipped(StateAt(s, es, j), StateAt(s, es, r));
      TakenExactlyWhen(s, es, k, i);
      assert false;
    }
  }

  // ---- an answer that sets the offset back ------------------------------------------------

  const ONE: seq<Byte> := [97, NL]

  lemma LinesOfOnes()
    ensures Lines(ONE) == [[97]] && Lines(ONE + ONE) == [[97], [97]] && Boundary(ONE) && Boundary(ONE + ONE)
  {
    SplitSnoc([], 97);
    SplitSnoc([97], NL);
    assert [] + [97] == [97] && [97] + [NL] == ONE;
    LinesAppend(ONE, ONE);
  }

  lemma BatchesOfOnes()
    ensures PendingOf(Some(ONE), 0, SHIP_MAX_LINES, SHIP_MAX_BYTES, 0) == Pending(0, [[97]], [2])
    ensures PendingOf(Some(ONE + ONE), 0, SHIP_MAX_LINES, SHIP_MAX_BYTES, 0) == Pending(0, [[97], [97]], [2, 2])
    ensures PendingOf(Some(ONE + ONE), 2, SHIP_MAX_LINES, SHIP_MAX_BYTES, 0) == Pending(2, [[97]], [2])
  {
    LinesOfOnes();
    assert ReadBytes(Some(ONE), 0, SHIP_MAX_BYTES, 0) == ONE;
    assert ReadBytes(Some(ONE + ONE), 0, SHIP_MAX_BYTES, 0) == ONE + ONE;
    assert ReadBytes(Some(ONE + ONE), 2, SHIP_MAX_BYTES, 0) == ONE;
    assert SizesOf([[97]]) == [2] && SizesOf([[97], [97]]) == [2, 2];
  }

  lemma AdvanceOfOnes()
    ensures Advance(Pending(0, [[97]], [2]), 1) == 2 && Advance(Pending(0, [[97], [97]], [2, 2]), 2) == 4
  {
    assert [2][..1] == [2] && [2][..0] == [];
    assert [2, 2][..2] == [2, 2] && [2, 2][..1] == [2];
    assert Sum([2]) == 2 && Sum([2, 2]) == 4;
  }

  const OLDER: Flight := Flight(Pending(0, [[97]], [2]), 0, None)
  const NEWER: Flight := Flight(Pending(0, [[97], [97]], [2, 2]), 0, None)
  const ZERO: Taken := Taken(0, [97])
  const FIRST: Taken := Taken(1, [97])

  /** Two heartbeats overlap, and the answer of the older one arrives last. */
  const OVERLAP: seq<Event> :=
    [Append(ONE), Read(0, 0), Append(ONE), Read(1, 0), Deliver(0), Deliver(1), Save(1), Save(0), Read(2, 0), Deliver(2)]

  lemma BothRead()
    ensures var s := System(ONE + ONE, 0, 0, map[0 := OLDER, 1 := NEWER], []);
      && After(After(System([], 0, 0, map[], []), Append(ONE)), Read(0, 0)) == System(ONE, 0, 0, map[0 := OLDER], [])
      && After(After(System(ONE, 0, 0, map[0 := OLDER], []), Append(ONE)), Read(1, 0)) == s
  {
    BatchesOfOnes();
    assert [] + ONE == ONE && Lines((ONE + ONE)[..0]) == [] && Lines(ONE[..0]) == [];
    assert map[0 := OLDER][1 := NEWER] == map[0 := OLDER, 1 := NEWER];
  }

  lemma BothDelivered()
    ensures var s := System(ONE + ONE, 0, 0, map[0 := OLDER, 1 := NEWER], []);
      var took := System(ONE + ONE, 0, 0, map[0 := OLDER.(accepted := Some(1)), 1 := NEWER], [ZERO]);
      && After(s, Deliver(0)) == took
      && After(took, Deliver(1))
        == System(ONE + ONE, 0, 0, map[0 := OLDER.(accepted := Some(1)), 1 := NEWER.(accepted := Some(2))],
          [ZERO, ZERO, FIRST])
  {
    assert Batch([[97]], 0, 1) == [ZERO] && Batch([[97], [97]], 0, 2) == [ZERO, FIRST];
    assert [] + [ZERO] == [ZERO] && [ZERO] + [ZERO, FIRST] == [ZERO, ZERO, FIRST];
  }

  lemma BothSaved()
    ensures var taken := [ZERO, ZERO, FIRST];
      var older, newer := OLDER.(accepted := Some(1)), NEWER.(accepted := Some(2));
      && After(System(ONE + ONE, 0, 0, map[0 := older, 1 := newer], taken), Save(1))
        == System(ONE + ONE, 4, 0, map[0 := older], taken)
      && After(System(ONE + ONE, 4, 0, map[0 := older], taken), Save(0)) == System(ONE + ONE, 2, 0, map[], taken)
  {
    AdvanceOfOnes();
    var older, newer := OLDER.(accepted := Some(1)), NEWER.(accepted := Some(2));
    assert map[0 := older, 1 := newer] - {1} == map[0 := older];
    assert map[0 := older] - {0} == map[];
  }

  lemma TakenOnceMore()
    ensures var s := System(ONE + ONE, 2, 0, map[], [ZERO, ZERO, FIRST]);
      && After(s, Read(2, 0)).flights == map[2 := Flight(Pending(2, [[97]], [2]), 1, None)]
      && Possible(After(s, Read(2, 0)), Deliver(2)) && TakesLine(After(s, Read(2, 0)), Deliver(2), 1)
  {
    BatchesOfOnes();
    LinesOfOnes();
    var s := System(ONE + ONE, 2, 0, map[], [ZERO, ZERO, FIRST]);
    assert (ONE + ONE)[..2] == ONE;
    TakesItsBatch(After(s, Read(2, 0)), Deliver(2), 1);
  }

  predicate Reached(k: nat, s: System)
    requires k <= |OVERLAP|
  {
    StateAt(Start([]), OVERLAP, k) == s
  }

  predicate Plays(k: nat)
    requires k < |OVERLAP|
  {
    Possible(StateAt(Start([]), OVERLAP, k), OVERLAP[k])
  }

  lemma Onward(k: nat, s: System, s': System)
    requires k < |OVERLAP| && Reached(k, s) && Possible(s, OVERLAP[k]) && After(s, OVERLAP[k]) == s'
    ensures Reached(k + 1, s') && Plays(k)
  {
  }

  lemma OverlapRead()
    ensures Reached(0, System([], 0, 0, map[], [])) && Reached(1, System(ONE, 0, 0, map[], []))
    ensures Reached(2, System(ONE, 0, 0, map[0 := OLDER], []))
    ensures Reached(3, System(ONE + ONE, 0, 0, map[0 := OLDER], []))
    ensures Reached(4, System(ONE + ONE, 0, 0, map[0 := OLDER, 1 := NEWER], []))
    ensures Plays(0) && Plays(1) && Plays(2) && Plays(3)
  {
    BothRead();
    assert [] + ONE == ONE;
    Onward(0, System([], 0, 0, map[], []), System(ONE, 0, 0, map[], []));
    Onward(1, System(ONE, 0, 0, map[], []), System(ONE, 0, 0, map[0 := OLDER], []));
    Onward(2, System(ONE, 0, 0, map[0 := OLDER], []), System(ONE + ONE, 0, 0, map[0 := OLDER], []));
    Onward(3, System(ONE + ONE, 0, 0, map[0 := OLDER], []), System(ONE + ONE, 0, 0, map[0 := OLDER, 1 := NEWER], []));
  }

  lemma OverlapSaved()
    requires Reached(4, System(ONE + ONE, 0, 0, map[0 := OLDER, 1 := NEWER], []))
    ensures var taken := [ZERO, ZERO, FIRST];
      var older, newer := OLDER.(accepted := Some(1)), NEWER.(accepted := Some(2));
      && Reached(5, System(ONE + ONE, 0, 0, map[0 := older, 1 := NEWER], [ZERO]))
      && Reached(6, System(ONE + ONE, 0, 0, map[0 := older, 1 := newer], taken))
      && Reached(7, System(ONE + ONE, 4, 0, map[0 := older], taken))
      && Reached(8, System(ONE + ONE, 2, 0, map[], taken))
    ensures Plays(4) && Plays(5) && Plays(6) && Plays(7)
  {
    var taken := [ZERO, ZERO, FIRST];
    var older, newer := OLDER.(accepted := Some(1)), NEWER.(accepted := Some(2));
    var s4 := System(ONE + ONE, 0, 0, map[0 := OLDER, 1 := NEWER], []);
    var s5 := System(ONE + ONE, 0, 0, map[0 := older, 1 := NEWER], [ZERO]);
    var s6 := System(ONE + ONE, 0, 0, map[0 := older, 1 := newer], taken);
    var s7 := System(ONE + ONE, 4, 0, map[0 := older], taken);
    BothDelivered();
    BothSaved();
    Onward(4, s4, s5);
    Onward(5, s5, s6);
    Onward(6, s6, s7);
    Onward(7, s7, System(ONE + ONE, 2, 0, map[], taken));
  }

  /** The run, step by step. */
  lemma OverlapStates()
    ensures IsRun(Start([]), OVERLAP)
    ensures Reached(7, System(ONE + ONE, 4, 0, map[0 := OLDER.(accepted := Some(1))], [ZERO, ZERO, FIRST]))
    ensures Reached(8, System(ONE + ONE, 2, 0, map[], [ZERO, ZERO, FIRST]))
    ensures Reached(9, After(System(ONE + ONE, 2, 0, map[], [ZERO, ZERO, FIRST]), Read(2, 0)))
  {
    OverlapRead();
    OverlapSaved();
    TakenOnceMore();
    var s8 := System(ONE + ONE, 2, 0, map[], [ZERO, ZERO, FIRST]);
    var s9 := After(s8, Read(2, 0));
    Onward(8, s8, s9);
    Onward(9, s9, After(s9, Deliver(2)));
    forall k: nat | k < 10 ensures Possible(StateAt(Start([]), OVERLAP, k), OVERLAP[k]) {
      assert Plays(k);
    }
    PossibleIsRun(Start([]), OVERLAP);
  }

  lemma {:induction false} PossibleIsRun(s: System, es: seq<Event>)
    requires forall k: nat | k < |es| :: Possible(StateAt(s, es, k), es[k])
    ensures IsRun(s, es)
    decreases |es|
  {
    if es != [] {
      assert Possible(StateAt(s, es, 0), es[0]);
      forall k: nat | k < |es| - 1 ensures Possible(StateAt(After(s, es[0]), es[1..], k), es[1..][k]) {
        StateAfterFirst(s, es, k);
        assert Possible(StateAt(s, es, k + 1), es[k + 1]);
      }
      PossibleIsRun(After(s, es[0]), es[1..]);
    }
  }

  /**
   An older answer that arrives late sets the offset back, and a line whose answer
   had been saved is taken again by a batch read after that.
   */
  lemma LateAnswerRepeats()
    ensures IsRun(Start([]), OVERLAP) && SetsBack(Start([]), OVERLAP, 7)
    ensures Shipped(StateAt(Start([]), OVERLAP, 7)) == 2 && ReadOf(OVERLAP, 2, 9) == Some(8)
    ensures Has(StateAt(Start([]), OVERLAP, 7).taken, 1)
    ensures Possible(StateAt(Start([]), OVERLAP, 9), OVERLAP[9])
      && TakesLine(StateAt(Start([]), OVERLAP, 9), OVERLAP[9], 1)
  {
    OverlapStates();
    TakenOnceMore();
    LinesOfOnes();
    assert (ONE + ONE)[..4] == ONE + ONE;
  }
}
