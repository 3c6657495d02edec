/**
 The night cap's wall-clock arithmetic: localInstant of dashboard/lib/night-cap.js.
 A zone is the function giving its offset (wall clock minus UTC, ms) at each instant;
 a wall-clock reading is written as the instant at which UTC reads the same.
 */
module LocalTime {
  const MINUTE: int := 60_000
  const HOUR: int := 3_600_000
  const DAY: int := 86_400_000
  const REACH: int := 36 * HOUR

  type Zone = int -> int

  /** What the clock of the zone reads at t. */
  function Reads(off: Zone, t: int): int {
    t + off(t)
  }

  /** One change of offset near a reading: before it one offset, from it on the other. */
  datatype Transition = Transition(at: int, before: int, after: int)

  ghost predicate OneTransition(off: Zone, wall: int, z: Transition) {
    && -REACH < z.before < REACH && -REACH < z.after < REACH
    && forall t | wall - REACH <= t <= wall + REACH :: off(t) == if t < z.at then z.before else z.after
  }

  /** The five instants at which localInstant asks for the offset. */
  function Samples(wall: int): seq<int> {
    [wall - 36 * HOUR, wall - 12 * HOUR, wall, wall + 12 * HOUR, wall + 36 * HOUR]
  }

  /** The instants that would read `wall` under one of the sampled offsets. */
  function Candidates(off: Zone, wall: int): seq<int> {
    [wall - off(Samples(wall)[0]), wall - off(Samples(wall)[1]), wall - off(Samples(wall)[2]),
     wall - off(Samples(wall)[3]), wall - off(Samples(wall)[4])]
  }

  function Exact(off: Zone, wall: int, cands: seq<int>): (e: seq<int>)
    ensures forall c :: c in e <==> c in cands && Reads(off, c) == wall
    ensures e == [] <==> forall c | c in cands :: Reads(off, c) != wall
  {
    if cands == [] then []
    else (if Reads(off, cands[0]) == wall then [cands[0]] else []) + Exact(off, wall, cands[1..])
  }

  function MinOf(xs: seq<int>): (m: int)
    requires xs != []
    ensures m in xs && forall x | x in xs :: m <= x
  {
    if |xs| == 1 then xs[0]
    else
      var rest := MinOf(xs[1..]);
      assert xs == [xs[0]] + xs[1..];
      if xs[0] <= rest then xs[0] else rest
  }

  function MaxOf(xs: seq<int>): (m: int)
    requires xs != []
    ensures m in xs && forall x | x in xs :: x <= m
  {
    if |xs| == 1 then xs[0]
    else
      var rest := MaxOf(xs[1..]);
      assert xs == [xs[0]] + xs[1..];
      if rest <= xs[0] then xs[0] else rest
  }

  /** r is the first instant nearby at which the clock reads `wall` or later. */
  ghost predicate LeastReading(off: Zone, wall: int, r: int) {
    && wall - REACH <= r <= wall + REACH
    && Reads(off, r) >= wall
    && forall t | wall - REACH <= t < r :: Reads(off, t) < wall
  }

  /** The clock jumps over `wall`: the hour lost when DST starts. */
  ghost predicate Skipped(wall: int, z: Transition) {
    wall - z.after < z.at <= wall - z.before
  }

  lemma CandidatesUnderOneTransition(off: Zone, wall: int, z: Transition)
    requires OneTransition(off, wall, z)
    ensures forall c | c in Candidates(off, wall) :: c == wall - z.before || c == wall - z.after
    ensures forall c | c in Candidates(off, wall) :: wall - REACH < c < wall + REACH
    ensures z.at > wall - REACH ==> wall - z.before in Candidates(off, wall)
    ensures z.at <= wall + REACH ==> wall - z.after in Candidates(off, wall)
  {
    var s := Samples(wall);
    assert off(s[0]) == if s[0] < z.at then z.before else z.after;
    assert off(s[4]) == if s[4] < z.at then z.before else z.after;
    assert Candidates(off, wall)[0] == wall - off(s[0]);
    assert Candidates(off, wall)[4] == wall - off(s[4]);
  }

  /** The earlier of the instants that read `wall` exactly is the first at or past it. */
  lemma FirstExact(off: Zone, wall: int, z: Transition, m: int)
    requires OneTransition(off, wall, z) && wall - REACH <= m <= wall + REACH && Reads(off, m) == wall
    requires wall - z.before < z.at ==> m <= wall - z.before
    ensures LeastReading(off, wall, m)
  {
    forall t | wall - REACH <= t < m ensures Reads(off, t) < wall {
    }
  }

  /** Either some candidate reads exactly `wall`, or the clock skips it. */
  lemma ExactUnlessSkipped(off: Zone, wall: int, z: Transition)
    requires OneTransition(off, wall, z)
    ensures
      var exact := Exact(off, wall, Candidates(off, wall));
      if Skipped(wall, z) then exact == [] else exact != [] && LeastReading(off, wall, MinOf(exact))
  {
    var exact := Exact(off, wall, Candidates(off, wall));
    CandidatesUnderOneTransition(off, wall, z);
    if Skipped(wall, z) {
      assert forall c | c in Candidates(off, wall) :: Reads(off, c) != wall;
    } else {
      if wall - z.before < z.at {
        assert wall - z.before in exact;
      } else {
        assert wall - z.after in exact;
      }
      assert MinOf(exact) in exact;
      FirstExact(off, wall, z, MinOf(exact));
    }
  }

  // ---- a skipped time: the bisection --------------------------------------------

  /** One turn of the bisection. */
  function Turn(wall: int, off: Zone, lo: int, hi: int): (int, int) {
    var mid := lo + (hi - lo) / (2 * MINUTE) * MINUTE;
    if Reads(off, mid) >= wall then (lo, mid) else (mid, hi)
  }

  /** Where k turns lead, as long as there is one to take. */
  function Turns(wall: int, off: Zone, lo: int, hi: int, k: nat): (int, int)
    decreases k
  {
    if k == 0 || hi - lo <= MINUTE then (lo, hi)
    else
      var (l, h) := Turn(wall, off, lo, hi);
      Turns(wall, off, l, h, k - 1)
  }

  /** The bisection is over after k turns. */
  predicate EndsAfter(wall: int, off: Zone, lo: int, hi: int, k: nat) {
    Turns(wall, off, lo, hi, k).1 - Turns(wall, off, lo, hi, k).0 <= MINUTE
  }

  ghost predicate Ends(wall: int, off: Zone, lo: int, hi: int) {
    exists k: nat :: EndsAfter(wall, off, lo, hi, k)
  }

  /** What decides it beforehand: a short or whole span, or a clock past `wall` a minute or two before its end. */
  predicate BisectionEnds(wall: int, off: Zone, lo: int, hi: int) {
    || hi - lo < MINUTE
    || (hi - lo) % MINUTE == 0
    || Reads(off, lo + ((hi - lo) / MINUTE - 1) * MINUTE) >= wall
  }

  lemma Halfway(span: int)
    requires span > MINUTE
    ensures span / (2 * MINUTE) == span / MINUTE / 2
    ensures span % MINUTE == 0 ==> span / MINUTE >= 2
  {
  }

  lemma Shorter(span: int, k: nat)
    requires k * MINUTE <= span
    ensures (span - k * MINUTE) / MINUTE == span / MINUTE - k && (span - k * MINUTE) % MINUTE == span % MINUTE
  {
  }

  lemma WholeSpan(k: nat)
    ensures (k * MINUTE) % MINUTE == 0
  {
  }

  /** A turn keeps the condition, in any zone, and takes from the span. */
  lemma TurnKeepsEnding(wall: int, off: Zone, lo: int, hi: int)
    requires hi - lo > MINUTE && BisectionEnds(wall, off, lo, hi)
    ensures var (l, h) := Turn(wall, off, lo, hi);
      BisectionEnds(wall, off, l, h) && lo <= l <= h <= hi && h - l < hi - lo && (l - lo) % MINUTE == 0
  {
    var n := (hi - lo) / MINUTE;
    Halfway(hi - lo);
    Shorter(hi - lo, n / 2);
    WholeSpan(n / 2);
    assert lo + n / 2 * MINUTE + (n - n / 2 - 1) * MINUTE == lo + (n - 1) * MINUTE;
  }

  lemma {:induction false} EndsWhen(wall: int, off: Zone, lo: int, hi: int) returns (k: nat)
    requires lo <= hi && BisectionEnds(wall, off, lo, hi)
    ensures EndsAfter(wall, off, lo, hi, k)
    decreases hi - lo
  {
    if hi - lo <= MINUTE {
      k := 0;
    } else {
      TurnKeepsEnding(wall, off, lo, hi);
      var (l, h) := Turn(wall, off, lo, hi);
      k := EndsWhen(wall, off, l, h);
      k := k + 1;
    }
  }

  /** Past j the clock reads `wall` or later, before it it does not. */
  ghost predicate Crosses(wall: int, off: Zone, lo: int, hi: int, j: int) {
    forall t | lo <= t <= hi :: Reads(off, t) >= wall <==> t >= j
  }

  /** Where the condition fails, a turn only moves the lower end, if any, and the condition still fails. */
  lemma TurnKeepsStanding(wall: int, off: Zone, lo: int, hi: int, j: int)
    requires lo < hi && Crosses(wall, off, lo, hi, j) && !BisectionEnds(wall, off, lo, hi)
    ensures hi - lo > MINUTE
    ensures var (l, h) := Turn(wall, off, lo, hi);
      lo <= l < h == hi && Crosses(wall, off, l, h, j) && !BisectionEnds(wall, off, l, h)
  {
    var span := hi - lo;
    var n := span / MINUTE;
    Halfway(span);
    Shorter(span, n / 2);
    assert lo + n / 2 * MINUTE <= lo + (n - 1) * MINUTE <= hi;
    assert lo + n / 2 * MINUTE + (n - n / 2 - 1) * MINUTE == lo + (n - 1) * MINUTE;
  }

  lemma {:induction false} StandsForever(wall: int, off: Zone, lo: int, hi: int, j: int, k: nat)
    requires lo < hi && Crosses(wall, off, lo, hi, j) && !BisectionEnds(wall, off, lo, hi)
    ensures !EndsAfter(wall, off, lo, hi, k)
    decreases k
  {
    TurnKeepsStanding(wall, off, lo, hi, j);
    if k > 0 {
      var (l, h) := Turn(wall, off, lo, hi);
      StandsForever(wall, off, l, h, j, k - 1);
    }
  }

  /** The bisection around a jump ends exactly under that condition. */
  lemma BisectionEndsIff(wall: int, off: Zone, lo: int, hi: int, j: int)
    requires lo < hi && Crosses(wall, off, lo, hi, j)
    ensures Ends(wall, off, lo, hi) <==> BisectionEnds(wall, off, lo, hi)
  {
    if BisectionEnds(wall, off, lo, hi) {
      var k := EndsWhen(wall, off, lo, hi);
    } else {
      forall k: nat ensures !EndsAfter(wall, off, lo, hi, k) {
        StandsForever(wall, off, lo, hi, j, k);
      }
    }
  }

  /** The ends of the bisection of a skipped time; the clock jumps in between. */
  lemma SkippedBounds(off: Zone, wall: int, z: Transition)
    requires OneTransition(off, wall, z) && Skipped(wall, z)
    ensures MinOf(Candidates(off, wall)) == wall - z.after < wall - z.before == MaxOf(Candidates(off, wall))
  {
    CandidatesUnderOneTransition(off, wall, z);
  }

  lemma SkippedCrosses(off: Zone, wall: int, z: Transition)
    requires OneTransition(off, wall, z) && Skipped(wall, z)
    ensures Crosses(wall, off, wall - z.after, wall - z.before, z.at)
  {
  }

  /** The clock jumps by under a minute, or by whole minutes, or early in the span that leaves to search. */
  predicate ShortWholeOrEarly(wall: int, z: Transition) {
    var jump := z.after - z.before;
    jump < MINUTE || jump % MINUTE == 0 || z.at - (wall - z.after) <= (jump / MINUTE - 1) * MINUTE
  }

  lemma JumpEnds(off: Zone, wall: int, z: Transition)
    requires Skipped(wall, z) && Crosses(wall, off, wall - z.after, wall - z.before, z.at)
    ensures BisectionEnds(wall, off, wall - z.after, wall - z.before) <==> ShortWholeOrEarly(wall, z)
  {
    var jump := z.after - z.before;
    if jump >= MINUTE {
      assert wall - z.after <= wall - z.after + (jump / MINUTE - 1) * MINUTE <= wall - z.before;
    }
  }

  lemma JumpSearched(off: Zone, wall: int, z: Transition)
    requires OneTransition(off, wall, z) && Skipped(wall, z)
    ensures Ends(wall, off, wall - z.after, wall - z.before) <==> ShortWholeOrEarly(wall, z)
  {
    SkippedCrosses(off, wall, z);
    BisectionEndsIff(wall, off, wall - z.after, wall - z.before, z.at);
    JumpEnds(off, wall, z);
  }

  /** localInstant answers for a time the clock skips exactly then. */
  lemma SkippedEndsIff(off: Zone, wall: int, z: Transition)
    requires OneTransition(off, wall, z) && Skipped(wall, z)
    ensures var cands := Candidates(off, wall);
      Ends(wall, off, MinOf(cands), MaxOf(cands)) <==> ShortWholeOrEarly(wall, z)
  {
    JumpSearched(off, wall, z);
    SkippedBounds(off, wall, z);
    assert Ends(wall, off, MinOf(Candidates(off, wall)), MaxOf(Candidates(off, wall)))
      == Ends(wall, off, wall - z.after, wall - z.before);
  }

  /** A zone whose clock jumped by 44.5 minutes, as Liberia's did in 1972; here at the same instant of day 0. */
  const LATE: int := 44 * MINUTE + 30_000

  function Liberia(): Zone {
    (t: int) => if t < LATE then -LATE else 0
  }

  lemma LiberiaJumps()
    ensures OneTransition(Liberia(), MINUTE, Transition(LATE, -LATE, 0))
    ensures Skipped(MINUTE, Transition(LATE, -LATE, 0))
    ensures !ShortWholeOrEarly(MINUTE, Transition(LATE, -LATE, 0))
  {
  }

  /** Asked for one minute past midnight that day, a time it skipped, localInstant never answers. */
  lemma LiberiaStandsStill()
    ensures var cands := Candidates(Liberia(), MINUTE);
      && Exact(Liberia(), MINUTE, cands) == []
      && !Ends(MINUTE, Liberia(), MinOf(cands), MaxOf(cands))
  {
    var z := Transition(LATE, -LATE, 0);
    LiberiaJumps();
    ExactUnlessSkipped(Liberia(), MINUTE, z);
    SkippedEndsIff(Liberia(), MINUTE, z);
  }

  /** A minute or less of the span, whole minutes from its beginning, its ends a time too early and one not. */
  predicate Found(off: Zone, wall: int, from: int, to: int, lo: int, hi: int) {
    && from <= lo <= hi <= to && hi - lo <= MINUTE && (lo - from) % MINUTE == 0
    && (from < to && Reads(off, from) < wall <= Reads(off, to) ==> lo < hi && Reads(off, lo) < wall <= Reads(off, hi))
  }

  /** The bisection: from a minute that reads too early and one that does not, to the first that does not. */
  method Bisect(wall: int, off: Zone, from: int, to: int) returns (lo: int, hi: int)
    requires from <= to && BisectionEnds(wall, off, from, to)
    ensures Found(off, wall, from, to, lo, hi)
  {
    lo, hi := from, to;
    while hi - lo > MINUTE
      invariant from <= lo <= hi <= to && BisectionEnds(wall, off, lo, hi) && (lo - from) % MINUTE == 0
      invariant Reads(off, from) < wall <= Reads(off, to) ==> Reads(off, lo) < wall <= Reads(off, hi)
      decreases hi - lo
    {
      TurnKeepsEnding(wall, off, lo, hi);
      var mid := lo + (hi - lo) / (2 * MINUTE) * MINUTE;
      WholeApart(lo, from, mid);
      if Reads(off, mid) >= wall {
        hi := mid;
      } else {
        lo := mid;
      }
    }
  }

  lemma WholeApart(a: int, b: int, c: int)
    requires (a - b) % MINUTE == 0
    ensures (c - a) % MINUTE == 0 ==> (c - b) % MINUTE == 0
  {
    assert c - b == (c - a) + (a - b);
  }

  // ---- localInstant -------------------------------------------------------------------

  /** For a skipped time: past the jump by less than a minute, and at it when it is whole minutes into the search. */
  ghost predicate AtJump(off: Zone, wall: int, z: Transition, r: int) {
    && z.at <= r < z.at + MINUTE && Reads(off, r) >= wall
    && ((z.at - (wall - z.after)) % MINUTE == 0 ==> r == z.at && LeastReading(off, wall, r))
  }

  /** The first instant the clock reads `wall`; for a time it skips, when it jumps past it. */
  ghost predicate FirstReading(off: Zone, wall: int, r: int) {
    forall z | OneTransition(off, wall, z) ::
      if Skipped(wall, z) then AtJump(off, wall, z, r) else LeastReading(off, wall, r) && Reads(off, r) == wall
  }

  /** The minute found inside a skipped hour is the one in which the clock jumps. */
  lemma JumpFound(off: Zone, wall: int, z: Transition, lo: int, hi: int)
    requires OneTransition(off, wall, z) && Skipped(wall, z)
    requires wall - z.after <= lo < hi <= wall - z.before && hi - lo <= MINUTE
    requires (lo - (wall - z.after)) % MINUTE == 0 && Reads(off, lo) < wall <= Reads(off, hi)
    ensures AtJump(off, wall, z, hi) && lo < z.at <= hi
  {
    if (z.at - (wall - z.after)) % MINUTE == 0 {
      assert (z.at - lo) % MINUTE == 0;
      assert hi == z.at;
    }
  }

  lemma ExactIsFirst(off: Zone, wall: int)
    requires Exact(off, wall, Candidates(off, wall)) != []
    ensures FirstReading(off, wall, MinOf(Exact(off, wall, Candidates(off, wall))))
  {
    var r := MinOf(Exact(off, wall, Candidates(off, wall)));
    forall z | OneTransition(off, wall, z)
      ensures !Skipped(wall, z) && LeastReading(off, wall, r) && Reads(off, r) == wall
    {
      ExactUnlessSkipped(off, wall, z);
    }
  }

  lemma FoundAtJump(off: Zone, wall: int, z: Transition, lo: int, hi: int)
    requires OneTransition(off, wall, z) && Skipped(wall, z)
    requires Found(off, wall, wall - z.after, wall - z.before, lo, hi)
    ensures AtJump(off, wall, z, hi)
  {
    SkippedCrosses(off, wall, z);
    JumpFound(off, wall, z, lo, hi);
  }

  lemma SpanFound(off: Zone, wall: int, z: Transition, lo: int, hi: int)
    requires OneTransition(off, wall, z) && Skipped(wall, z)
    requires Found(off, wall, MinOf(Candidates(off, wall)), MaxOf(Candidates(off, wall)), lo, hi)
    ensures Found(off, wall, wall - z.after, wall - z.before, lo, hi)
  {
    SkippedBounds(off, wall, z);
  }

  lemma BisectedIsFirst(off: Zone, wall: int, lo: int, hi: int)
    requires Exact(off, wall, Candidates(off, wall)) == []
    requires Found(off, wall, MinOf(Candidates(off, wall)), MaxOf(Candidates(off, wall)), lo, hi)
    ensures FirstReading(off, wall, hi)
  {
    forall z | OneTransition(off, wall, z) ensures Skipped(wall, z) && AtJump(off, wall, z, hi) {
      ExactUnlessSkipped(off, wall, z);
      SpanFound(off, wall, z, lo, hi);
      FoundAtJump(off, wall, z, lo, hi);
    }
  }

  function Lesser(a: int, b: int): int {
    if a <= b then a else b
  }

  /** The least and the greatest of the sampled offsets. */
  function LeastOffset(off: Zone, wall: int): int {
    var s := Samples(wall);
    Lesser(off(s[0]), Lesser(off(s[1]), Lesser(off(s[2]), Lesser(off(s[3]), off(s[4])))))
  }

  function GreatestOffset(off: Zone, wall: int): int {
    var s := Samples(wall);
    -Lesser(-off(s[0]), Lesser(-off(s[1]), Lesser(-off(s[2]), Lesser(-off(s[3]), -off(s[4])))))
  }

  predicate NoneExact(off: Zone, wall: int) {
    var c := Candidates(off, wall);
    && Reads(off, c[0]) != wall && Reads(off, c[1]) != wall && Reads(off, c[2]) != wall
    && Reads(off, c[3]) != wall && Reads(off, c[4]) != wall
  }

  /** The clock shows the time exactly, or the bisection ends. */
  predicate Answers(off: Zone, wall: int) {
    NoneExact(off, wall) ==>
      BisectionEnds(wall, off, wall - GreatestOffset(off, wall), wall - LeastOffset(off, wall))
  }

  lemma FiveBounds(xs: seq<int>)
    requires |xs| == 5
    ensures MinOf(xs) == Lesser(xs[0], Lesser(xs[1], Lesser(xs[2], Lesser(xs[3], xs[4]))))
    ensures -MaxOf(xs) == Lesser(-xs[0], Lesser(-xs[1], Lesser(-xs[2], Lesser(-xs[3], -xs[4]))))
  {
    assert xs[0] in xs && xs[1] in xs && xs[2] in xs && xs[3] in xs && xs[4] in xs;
  }

  lemma NoneExactMeans(off: Zone, wall: int)
    ensures Exact(off, wall, Candidates(off, wall)) == [] <==> NoneExact(off, wall)
  {
    var c := Candidates(off, wall);
    assert c[0] in c && c[1] in c && c[2] in c && c[3] in c && c[4] in c;
    forall x | x in c ensures x == c[0] || x == c[1] || x == c[2] || x == c[3] || x == c[4] {
    }
  }

  lemma CandidateBounds(off: Zone, wall: int)
    ensures MinOf(Candidates(off, wall)) == wall - GreatestOffset(off, wall)
    ensures MaxOf(Candidates(off, wall)) == wall - LeastOffset(off, wall)
  {
    FiveBounds(Candidates(off, wall));
  }

  lemma OffsetsOrdered(off: Zone, wall: int)
    ensures LeastOffset(off, wall) <= GreatestOffset(off, wall)
  {
  }

  /** That is what localInstant goes by. */
  lemma AnswersMean(off: Zone, wall: int)
    requires Exact(off, wall, Candidates(off, wall)) == []
    ensures var cands := Candidates(off, wall);
      && MinOf(cands) <= MaxOf(cands)
      && (Answers(off, wall) <==> BisectionEnds(wall, off, MinOf(cands), MaxOf(cands)))
  {
    NoneExactMeans(off, wall);
    CandidateBounds(off, wall);
    OffsetsOrdered(off, wall);
  }

  lemma WholeApartFrom(a: int, b: int)
    requires a % MINUTE == 0 && b % MINUTE == 0
    ensures (a - b) % MINUTE == 0
  {
  }

  /** As it does wherever the offsets around are whole minutes. */
  lemma WholeMinutesAnswer(off: Zone, wall: int)
    requires forall k | 0 <= k < 5 :: off(Samples(wall)[k]) % MINUTE == 0
    ensures Answers(off, wall)
  {
    assert LeastOffset(off, wall) % MINUTE == 0 && GreatestOffset(off, wall) % MINUTE == 0;
    WholeApartFrom(GreatestOffset(off, wall), LeastOffset(off, wall));
  }

  /**
   localInstant: the instant the clock first reads `wall`. A time shown twice is
   its first showing; one it skips is the moment the clock jumps past it.
   */
  method LocalInstant(wall: int, off: Zone) returns (r: int)
    requires Answers(off, wall)
    ensures FirstReading(off, wall, r)
  {
    var cands := Candidates(off, wall);
    var exact := Exact(off, wall, cands);
    if exact != [] {
      ExactIsFirst(off, wall);
      return MinOf(exact);
    }
    AnswersMean(off, wall);
    var from, to := MinOf(cands), MaxOf(cands);
    var lo, hi := Bisect(wall, off, from, to);
    BisectedIsFirst(off, wall, lo, hi);
    return hi;
  }
}
