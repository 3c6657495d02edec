/**
 The night cap's window: nightWindow of dashboard/lib/night-cap.js, over the instants
 at which the clock of a zone first reads a time (LocalTime).
 */
module NightHours {
  import opened Wrappers
  import opened Text
  import opened LocalTime

  /** Minutes after local midnight; a window whose start is after its end runs across midnight. */
  datatype Window = Window(start: int, end: int)

  ghost predicate ValidWindow(w: Window) {
    0 <= w.start < 1440 && 0 <= w.end < 1440 && w.start != w.end
  }

  datatype WindowState = WindowState(active: bool, startsAt: Option<int>, endsAt: Option<int>, until: Option<string>)

  function Pad(n: int): string {
    if 0 <= n < 10 then "0" + IntText(n) else IntText(n)
  }

  /** hhmm: minutes after midnight as the clock shows them. */
  function HhMm(minutes: int): string {
    Pad(minutes / 60) + ":" + Pad(minutes % 60)
  }

  predicate Digit(c: char, d: int) {
    0 <= d < 10 && c as int == 48 + d
  }

  lemma PadMeans(n: int)
    requires 0 <= n < 100
    ensures |Pad(n)| == 2 && Digit(Pad(n)[0], n / 10) && Digit(Pad(n)[1], n % 10)
  {
    if n >= 10 {
      assert IntText(n) == IntText(n / 10) + [(n % 10 + 48) as char];
    }
  }

  /** Two digits of the hour, a colon, and two of the minute. */
  lemma HhMmMeans(minutes: int)
    requires 0 <= minutes < 1440
    ensures var t := HhMm(minutes);
      && |t| == 5 && t[2] == ':'
      && Digit(t[0], minutes / 60 / 10) && Digit(t[1], minutes / 60 % 10)
      && Digit(t[3], minutes % 60 / 10) && Digit(t[4], minutes % 60 % 10)
  {
    PadMeans(minutes / 60);
    PadMeans(minutes % 60);
  }

  /** What the clock shows at t. */
  function Clock(off: Zone, t: int): string {
    HhMm(Reads(off, t) % DAY / MINUTE)
  }

  /** The wall clock's time of day at t, under a fixed offset, in ms after midnight. */
  function TimeOfDay(t: int, offset: int): int {
    (t + offset) % DAY
  }

  /** Whether a time of day lies in the window, which may run across midnight. */
  predicate InWindow(w: Window, timeOfDay: int) {
    if w.start < w.end then w.start * MINUTE <= timeOfDay < w.end * MINUTE
    else w.start * MINUTE <= timeOfDay || timeOfDay < w.end * MINUTE
  }

  /** t is the first instant after now at which the clock reads `minute`. */
  ghost predicate NextAt(t: int, now: int, offset: int, minute: int) {
    && now < t && TimeOfDay(t, offset) == minute * MINUTE
    && forall u | now < u < t :: TimeOfDay(u, offset) != minute * MINUTE
  }

  ghost predicate FixedOffset(off: Zone, offset: int) {
    -REACH < offset < REACH && forall t :: off(t) == offset
  }

  lemma FixedOffsetReading(off: Zone, offset: int, wall: int, r: int)
    requires FixedOffset(off, offset) && FirstReading(off, wall, r)
    ensures r == wall - offset
  {
    var z := Transition(wall - REACH, offset, offset);
    assert OneTransition(off, wall, z);
    assert !Skipped(wall, z);
  }

  function EndDay(day: int, w: Window): int {
    if w.end > w.start then day else day + 1
  }

  /** The readings at which the window of local day `day` opens and closes. */
  function OpeningAt(day: int, w: Window): int {
    day * DAY + w.start * MINUTE
  }

  function ClosingAt(day: int, w: Window): int {
    EndDay(day, w) * DAY + w.end * MINUTE
  }

  /** What the state must be when the zone keeps one offset. */
  ghost predicate WindowRight(state: WindowState, now: int, w: Window, offset: int) {
    && (state.active <==> InWindow(w, TimeOfDay(now, offset)))
    && (state.active ==>
          && state.startsAt == None && state.until == Some(HhMm(w.end))
          && state.endsAt.Some? && NextAt(state.endsAt.value, now, offset, w.end))
    && (!state.active ==>
          && state.endsAt == None && state.until == None
          && state.startsAt.Some? && NextAt(state.startsAt.value, now, offset, w.start))
  }

  /** localInstant has an answer for both ends of the night. */
  predicate NightAnswers(off: Zone, w: Window, d: int) {
    Answers(off, OpeningAt(d, w)) && Answers(off, ClosingAt(d, w))
  }

  ghost predicate NightRead(off: Zone, w: Window, d: int, night: (int, int)) {
    FirstReading(off, OpeningAt(d, w), night.0) && FirstReading(off, ClosingAt(d, w), night.1)
  }

  /** And for those of the nights around. */
  predicate NightsAnswer(off: Zone, w: Window, day: int) {
    forall d | day - 1 <= d <= day + 1 :: NightAnswers(off, w, d)
  }

  /** The window that opens on local day `day`. */
  method Night(day: int, w: Window, off: Zone) returns (night: (int, int))
    requires NightAnswers(off, w, day)
    ensures NightRead(off, w, day, night)
  {
    var s := LocalInstant(OpeningAt(day, w), off);
    var e := LocalInstant(ClosingAt(day, w), off);
    night := (s, e);
  }

  /** The nights from that of day `from` on. */
  ghost predicate NightsRead(off: Zone, w: Window, from: int, nights: seq<(int, int)>) {
    forall i | 0 <= i < |nights| :: NightRead(off, w, from + i, nights[i])
  }

  lemma OneNightMore(off: Zone, w: Window, from: int, nights: seq<(int, int)>, night: (int, int), d: int)
    requires NightsRead(off, w, from, nights) && d == from + |nights| && NightRead(off, w, d, night)
    ensures NightsRead(off, w, from, nights + [night])
  {
    forall i | 0 <= i < |nights + [night]| ensures NightRead(off, w, from + i, (nights + [night])[i]) {
      if i < |nights| {
        assert NightRead(off, w, from + i, nights[i]);
      } else {
        assert from + i == d;
      }
    }
  }

  /** Yesterday's night, today's and tomorrow's. */
  method NightsAround(day: int, w: Window, off: Zone) returns (nights: seq<(int, int)>)
    requires NightsAnswer(off, w, day)
    ensures |nights| == 3 && NightsRead(off, w, day - 1, nights)
  {
    nights := [];
    for n := -1 to 2
      invariant |nights| == n + 1 && NightsRead(off, w, day - 1, nights)
    {
      var night := Night(day + n, w, off);
      OneNightMore(off, w, day - 1, nights, night, day + n);
      nights := nights + [night];
    }
  }

  /** The decision taken once the three nights around `now` are known. */
  function StateFrom(now: int, off: Zone, nights: seq<(int, int)>): WindowState {
    var inside := Inside(now, nights);
    if inside.Some? then WindowState(true, None, inside, Some(Clock(off, inside.value)))
    else WindowState(false, NextStart(now, nights), None, None)
  }

  function Inside(now: int, nights: seq<(int, int)>): Option<int> {
    if nights == [] then None
    else if nights[0].0 <= now < nights[0].1 then Some(nights[0].1)
    else Inside(now, nights[1..])
  }

  function NextStart(now: int, nights: seq<(int, int)>): Option<int> {
    if nights == [] then None
    else
      var rest := NextStart(now, nights[1..]);
      if nights[0].0 > now && (rest.None? || nights[0].0 < rest.value) then Some(nights[0].0) else rest
  }

  lemma ThreeNights(now: int, a: (int, int), b: (int, int), c: (int, int))
    requires a.0 <= b.0 <= c.0
    ensures Inside(now, [a, b, c]) ==
            if a.0 <= now < a.1 then Some(a.1)
            else if b.0 <= now < b.1 then Some(b.1)
            else if c.0 <= now < c.1 then Some(c.1)
            else None
    ensures NextStart(now, [a, b, c]) ==
            if a.0 > now then Some(a.0) else if b.0 > now then Some(b.0) else if c.0 > now then Some(c.0) else None
  {
    assert [a, b, c][1..] == [b, c] && [b, c][1..] == [c] && [c][1..] == [];
    assert Inside(now, [c]) == if c.0 <= now < c.1 then Some(c.1) else None;
    assert NextStart(now, [c]) == if c.0 > now then Some(c.0) else None;
    assert Inside(now, [b, c]) == if b.0 <= now < b.1 then Some(b.1) else Inside(now, [c]);
    assert NextStart(now, [b, c]) == if b.0 > now then Some(b.0) else NextStart(now, [c]);
  }

  lemma ClockAt(off: Zone, offset: int, t: int, minute: int)
    requires FixedOffset(off, offset) && TimeOfDay(t, offset) == minute * MINUTE
    ensures Clock(off, t) == HhMm(minute)
  {
    assert Reads(off, t) == t + offset;
    assert minute * MINUTE / MINUTE == minute;
  }

  /** The next time the clock reads `minute`, under a fixed offset. */
  function NextTime(now: int, offset: int, minute: int): int {
    var day := (now + offset) / DAY;
    (if minute * MINUTE > TimeOfDay(now, offset) then day else day + 1) * DAY + minute * MINUTE - offset
  }

  function FixedNight(d: int, w: Window, offset: int): (int, int) {
    (OpeningAt(d, w) - offset, ClosingAt(d, w) - offset)
  }

  /** The three nights around now. */
  function FixedNights(now: int, w: Window, offset: int): seq<(int, int)> {
    var day := (now + offset) / DAY;
    [FixedNight(day - 1, w, offset), FixedNight(day, w, offset), FixedNight(day + 1, w, offset)]
  }

  lemma FixedDecision(now: int, w: Window, offset: int)
    requires ValidWindow(w)
    ensures var nights := FixedNights(now, w, offset);
      if InWindow(w, TimeOfDay(now, offset)) then Inside(now, nights) == Some(NextTime(now, offset, w.end))
      else Inside(now, nights) == None && NextStart(now, nights) == Some(NextTime(now, offset, w.start))
  {
    var day := (now + offset) / DAY;
    ThreeNights(now, FixedNight(day - 1, w, offset), FixedNight(day, w, offset), FixedNight(day + 1, w, offset));
    assert now + offset == day * DAY + TimeOfDay(now, offset);
  }

  /** Under a fixed offset the three nights decide as the clock face says. */
  lemma FixedNightsDecide(now: int, w: Window, off: Zone, offset: int)
    requires ValidWindow(w) && FixedOffset(off, offset)
    ensures WindowRight(StateFrom(now, off, FixedNights(now, w, offset)), now, w, offset)
  {
    FixedDecision(now, w, offset);
    if InWindow(w, TimeOfDay(now, offset)) {
      NextReading(now, offset, w.end);
      ClockAt(off, offset, NextTime(now, offset, w.end), w.end);
    } else {
      NextReading(now, offset, w.start);
    }
  }

  lemma NextReading(now: int, offset: int, minute: int)
    requires 0 <= minute < 1440
    ensures NextAt(NextTime(now, offset, minute), now, offset, minute)
  {
    var t, day := NextTime(now, offset, minute), (now + offset) / DAY;
    forall u | now < u < t ensures TimeOfDay(u, offset) != minute * MINUTE {
      if (u + offset) / DAY == day {
        assert u + offset == day * DAY + TimeOfDay(u, offset);
      } else {
        assert (u + offset) / DAY == day + 1;
        assert u + offset == (day + 1) * DAY + TimeOfDay(u, offset);
      }
    }
  }

  // ---- the nights of a zone whose clock changes --------------------------------

  /** Nearby the clock changes at most once, on a whole minute, to whole minutes, and by no more than a day. */
  ghost predicate OneChange(off: Zone, now: int, z: Transition) {
    && -REACH < z.before < REACH && -REACH < z.after < REACH
    && -DAY <= z.after - z.before <= DAY && z.at % MINUTE == 0 && z.after % MINUTE == 0
    && forall t | now - 6 * DAY <= t <= now + 6 * DAY :: off(t) == if t < z.at then z.before else z.after
  }

  /** The clock has read `wall` or later by now. */
  ghost predicate ReadBy(off: Zone, wall: int, now: int) {
    exists t | wall - REACH <= t <= now :: Reads(off, t) >= wall
  }

  /** Whether the window of local day d has begun, or ended, by an instant. */
  ghost function Opened(off: Zone, w: Window): (int, int) -> bool {
    (d: int, u: int) => ReadBy(off, OpeningAt(d, w), u)
  }

  ghost function Closed(off: Zone, w: Window): (int, int) -> bool {
    (d: int, u: int) => ReadBy(off, ClosingAt(d, w), u)
  }

  /** Now lies in the night of day d. */
  predicate InNight(began: (int, int) -> bool, ended: (int, int) -> bool, now: int, d: int) {
    began(d, now) && !ended(d, now)
  }

  /** No window opens after now and before t. */
  ghost predicate NoneOpensBefore(began: (int, int) -> bool, now: int, t: int) {
    forall d, u | now < u < t && began(d, u) :: began(d, now)
  }

  /** Given exactly in a night, as the first reading of its close. */
  ghost predicate EndsRight(endsAt: Option<int>, now: int, w: Window, off: Zone) {
    && (endsAt.Some? <==> exists d :: InNight(Opened(off, w), Closed(off, w), now, d))
    && (endsAt.Some? ==>
          exists d :: InNight(Opened(off, w), Closed(off, w), now, d)
                      && LeastReading(off, ClosingAt(d, w), endsAt.value))
  }

  /** The first reading of the next opening; missing exactly when the clock, set back since, has read tomorrow's. */
  ghost predicate StartsRight(startsAt: Option<int>, now: int, w: Window, off: Zone) {
    && (startsAt.None? <==> Opened(off, w)(Reads(off, now) / DAY + 1, now))
    && (startsAt.Some? ==>
      && now < startsAt.value
      && (exists d :: LeastReading(off, OpeningAt(d, w), startsAt.value))
      && NoneOpensBefore(Opened(off, w), now, startsAt.value))
  }

  /** What the state must be when the clock changes at most once nearby. */
  ghost predicate NightsRight(state: WindowState, now: int, w: Window, off: Zone) {
    && (state.active <==> state.endsAt.Some?)
    && state.until == (if state.endsAt.Some? then Some(Clock(off, state.endsAt.value)) else None)
    && EndsRight(state.endsAt, now, w, off)
    && if state.active then state.startsAt == None else StartsRight(state.startsAt, now, w, off)
  }

  lemma WallOnMinute(d: int, minute: int)
    ensures (d * DAY + minute * MINUTE) % MINUTE == 0
  {
    assert d * DAY + minute * MINUTE == (d * 1440 + minute) * MINUTE;
  }

  /** The first reading of a nearby time of day is there by t exactly when the clock has read it by t. */
  lemma FirstByThen(off: Zone, now: int, z: Transition, wall: int, r: int)
    requires OneChange(off, now, z) && wall % MINUTE == 0 && FirstReading(off, wall, r)
    requires now - 4 * DAY - DAY / 2 <= wall <= now + 4 * DAY + DAY / 2
    ensures LeastReading(off, wall, r)
    ensures forall t :: ReadBy(off, wall, t) <==> r <= t
  {
    assert OneTransition(off, wall, z);
    forall t ensures ReadBy(off, wall, t) <==> r <= t {
      if u :| wall - REACH <= u <= t && Reads(off, u) >= wall {
        assert !(u < r);
      }
    }
  }

  /** The night of day d, by the first readings of its opening and its close. */
  ghost predicate Reckoned(off: Zone, w: Window, d: int, night: (int, int)) {
    && LeastReading(off, OpeningAt(d, w), night.0) && LeastReading(off, ClosingAt(d, w), night.1)
    && (forall t :: ReadBy(off, OpeningAt(d, w), t) <==> night.0 <= t)
    && (forall t :: ReadBy(off, ClosingAt(d, w), t) <==> night.1 <= t)
  }

  lemma NightReckoned(off: Zone, now: int, z: Transition, w: Window, day: int, d: int, night: (int, int))
    requires ValidWindow(w) && OneChange(off, now, z)
    requires day == Reads(off, now) / DAY && day - 1 <= d <= day + 1 && NightRead(off, w, d, night)
    ensures Reckoned(off, w, d, night)
  {
    var x := Reads(off, now);
    assert day * DAY <= x < (day + 1) * DAY;
    assert (day - 1) * DAY <= d * DAY <= (day + 1) * DAY;
    WallOnMinute(d, w.start);
    WallOnMinute(EndDay(d, w), w.end);
    FirstByThen(off, now, z, OpeningAt(d, w), night.0);
    FirstByThen(off, now, z, ClosingAt(d, w), night.1);
  }

  /** The nights before yesterday's are over, and those after tomorrow's have not begun. */
  lemma FarNights(off: Zone, now: int, z: Transition, w: Window, d: int)
    requires ValidWindow(w) && OneChange(off, now, z)
    ensures d < Reads(off, now) / DAY - 1 ==> ReadBy(off, OpeningAt(d, w), now) && ReadBy(off, ClosingAt(d, w), now)
    ensures d > Reads(off, now) / DAY + 1 ==> !ReadBy(off, OpeningAt(d, w), now)
  {
    var x := Reads(off, now);
    var day := x / DAY;
    assert day * DAY <= x < (day + 1) * DAY;
    if d < day - 1 {
      assert d * DAY <= (day - 2) * DAY;
      assert ClosingAt(d, w) <= x && OpeningAt(d, w) <= x;
    }
    if d > day + 1 {
      assert d * DAY >= (day + 2) * DAY;
      forall t | OpeningAt(d, w) - REACH <= t <= now ensures Reads(off, t) < OpeningAt(d, w) {
      }
    }
  }

  /** The clock that has read an opening has read every earlier one. */
  lemma EarlierOpenings(off: Zone, w: Window, d: int, later: int, u: int)
    requires d <= later && ReadBy(off, OpeningAt(later, w), u)
    ensures ReadBy(off, OpeningAt(d, w), u)
  {
    assert d * DAY <= later * DAY;
    var t :| OpeningAt(later, w) - REACH <= t <= u && Reads(off, t) >= OpeningAt(later, w);
  }

  ghost predicate TrueFrom(f: (int, int) -> bool, d: int, t: int) {
    forall u :: f(d, u) <==> t <= u
  }

  /** The three nights around now, and all others, told apart by what has opened and closed. */
  ghost predicate Around(
    now: int, day: int, began: (int, int) -> bool, ended: (int, int) -> bool, a: (int, int), b: (int, int),
    c: (int, int))
  {
    && TrueFrom(began, day - 1, a.0) && TrueFrom(ended, day - 1, a.1)
    && TrueFrom(began, day, b.0) && TrueFrom(ended, day, b.1)
    && TrueFrom(began, day + 1, c.0) && TrueFrom(ended, day + 1, c.1)
    && (forall d | d < day - 1 :: began(d, now) && ended(d, now))
    && (forall d | d > day + 1 :: !began(d, now))
    && (forall d, u | d > day + 1 && began(d, u) :: began(day + 1, u))
    && a.0 <= b.0 <= c.0
  }

  /** The decision, given the three nights. */
  lemma AroundDecides(
    now: int, day: int, began: (int, int) -> bool, ended: (int, int) -> bool, a: (int, int), b: (int, int),
    c: (int, int))
    requires Around(now, day, began, ended, a, b, c)
    ensures var inside := Inside(now, [a, b, c]);
      && (inside.Some? <==> exists d :: InNight(began, ended, now, d))
      && (inside.Some? ==>
            || (InNight(began, ended, now, day - 1) && inside.value == a.1)
            || (InNight(began, ended, now, day) && inside.value == b.1)
            || (InNight(began, ended, now, day + 1) && inside.value == c.1))
    ensures var next := NextStart(now, [a, b, c]);
      && (next.None? <==> began(day + 1, now))
      && (next.Some? ==>
        now < next.value && next.value in {a.0, b.0, c.0} && NoneOpensBefore(began, now, next.value))
  {
    ThreeNights(now, a, b, c);
    if Inside(now, [a, b, c]).Some? {
      assert InNight(began, ended, now, day - 1) || InNight(began, ended, now, day)
        || InNight(began, ended, now, day + 1);
    } else {
      forall d ensures !InNight(began, ended, now, d) {
        assert d < day - 1 || d == day - 1 || d == day || d == day + 1 || d > day + 1;
      }
    }
    if !began(day + 1, now) {
      var t := NextStart(now, [a, b, c]).value;
      forall d, u | now < u < t && began(d, u) ensures began(d, now) {
        assert d < day - 1 || d == day - 1 || d == day || d == day + 1 || d > day + 1;
      }
    }
  }

  lemma NightsInOrder(off: Zone, w: Window, d: int, a: (int, int), b: (int, int))
    requires Reckoned(off, w, d, a) && Reckoned(off, w, d + 1, b)
    ensures a.0 <= b.0
  {
    assert ReadBy(off, OpeningAt(d + 1, w), b.0);
    EarlierOpenings(off, w, d, d + 1, b.0);
  }

  lemma OthersFar(now: int, w: Window, off: Zone, z: Transition, day: int)
    requires ValidWindow(w) && OneChange(off, now, z) && day == Reads(off, now) / DAY
    ensures forall d | d < day - 1 :: Opened(off, w)(d, now) && Closed(off, w)(d, now)
    ensures forall d | d > day + 1 :: !Opened(off, w)(d, now)
    ensures forall d, u | d > day + 1 && Opened(off, w)(d, u) :: Opened(off, w)(day + 1, u)
  {
    forall d | d < day - 1 ensures Opened(off, w)(d, now) && Closed(off, w)(d, now) {
      FarNights(off, now, z, w, d);
    }
    forall d | d > day + 1 ensures !Opened(off, w)(d, now) {
      FarNights(off, now, z, w, d);
    }
    forall d, u | d > day + 1 && Opened(off, w)(d, u) ensures Opened(off, w)(day + 1, u) {
      EarlierOpenings(off, w, day + 1, d, u);
    }
  }

  lemma ReckonedNight(off: Zone, w: Window, d: int, night: (int, int))
    requires Reckoned(off, w, d, night)
    ensures TrueFrom(Opened(off, w), d, night.0) && TrueFrom(Closed(off, w), d, night.1)
    ensures LeastReading(off, OpeningAt(d, w), night.0) && LeastReading(off, ClosingAt(d, w), night.1)
  {
  }

  /** What the decision comes to, once the first readings are known. */
  lemma DecisionRight(
    now: int, w: Window, off: Zone, day: int, a: (int, int), b: (int, int), c: (int, int),
    began: (int, int) -> bool, ended: (int, int) -> bool)
    requires began == Opened(off, w) && ended == Closed(off, w) && day == Reads(off, now) / DAY
    requires Around(now, day, began, ended, a, b, c)
    requires LeastReading(off, OpeningAt(day - 1, w), a.0) && LeastReading(off, ClosingAt(day - 1, w), a.1)
    requires LeastReading(off, OpeningAt(day, w), b.0) && LeastReading(off, ClosingAt(day, w), b.1)
    requires LeastReading(off, OpeningAt(day + 1, w), c.0) && LeastReading(off, ClosingAt(day + 1, w), c.1)
    ensures EndsRight(Inside(now, [a, b, c]), now, w, off)
    ensures StartsRight(NextStart(now, [a, b, c]), now, w, off)
  {
    AroundDecides(now, day, began, ended, a, b, c);
  }

  lemma ReckonedAround(
    now: int, w: Window, off: Zone, z: Transition, day: int, a: (int, int), b: (int, int), c: (int, int))
    requires ValidWindow(w) && day == Reads(off, now) / DAY && OneChange(off, now, z)
    requires Reckoned(off, w, day - 1, a) && Reckoned(off, w, day, b) && Reckoned(off, w, day + 1, c)
    ensures Around(now, day, Opened(off, w), Closed(off, w), a, b, c)
  {
    NightsInOrder(off, w, day - 1, a, b);
    NightsInOrder(off, w, day, b, c);
    OthersFar(now, w, off, z, day);
    ReckonedNight(off, w, day - 1, a);
    ReckonedNight(off, w, day, b);
    ReckonedNight(off, w, day + 1, c);
  }

  lemma ReckonedRight(
    now: int, w: Window, off: Zone, z: Transition, day: int, a: (int, int), b: (int, int), c: (int, int))
    requires ValidWindow(w) && day == Reads(off, now) / DAY && OneChange(off, now, z)
    requires Reckoned(off, w, day - 1, a) && Reckoned(off, w, day, b) && Reckoned(off, w, day + 1, c)
    ensures EndsRight(Inside(now, [a, b, c]), now, w, off)
    ensures StartsRight(NextStart(now, [a, b, c]), now, w, off)
  {
    ReckonedAround(now, w, off, z, day, a, b, c);
    ReckonedNight(off, w, day - 1, a);
    ReckonedNight(off, w, day, b);
    ReckonedNight(off, w, day + 1, c);
    DecisionRight(now, w, off, day, a, b, c, Opened(off, w), Closed(off, w));
  }

  lemma RightUnder(
    now: int, w: Window, off: Zone, z: Transition, day: int, a: (int, int), b: (int, int), c: (int, int))
    requires ValidWindow(w) && day == Reads(off, now) / DAY && OneChange(off, now, z)
    requires NightRead(off, w, day - 1, a) && NightRead(off, w, day, b) && NightRead(off, w, day + 1, c)
    ensures EndsRight(Inside(now, [a, b, c]), now, w, off)
    ensures StartsRight(NextStart(now, [a, b, c]), now, w, off)
  {
    NightReckoned(off, now, z, w, day, day - 1, a);
    NightReckoned(off, now, z, w, day, day, b);
    NightReckoned(off, now, z, w, day, day + 1, c);
    ReckonedRight(now, w, off, z, day, a, b, c);
  }

  lemma RightUnderOneChange(now: int, w: Window, off: Zone, day: int, a: (int, int), b: (int, int), c: (int, int))
    requires ValidWindow(w) && day == Reads(off, now) / DAY
    requires NightRead(off, w, day - 1, a) && NightRead(off, w, day, b) && NightRead(off, w, day + 1, c)
    ensures forall z | OneChange(off, now, z) :: NightsRight(StateFrom(now, off, [a, b, c]), now, w, off)
  {
    forall z | OneChange(off, now, z) ensures NightsRight(StateFrom(now, off, [a, b, c]), now, w, off) {
      RightUnder(now, w, off, z, day, a, b, c);
    }
  }

  lemma NightUnderOneOffset(w: Window, off: Zone, offset: int, d: int, night: (int, int))
    requires FixedOffset(off, offset) && NightRead(off, w, d, night)
    ensures night == FixedNight(d, w, offset)
  {
    FixedOffsetReading(off, offset, OpeningAt(d, w), night.0);
    FixedOffsetReading(off, offset, ClosingAt(d, w), night.1);
  }

  lemma NightsUnderOneOffset(
    now: int, w: Window, off: Zone, offset: int, day: int, a: (int, int), b: (int, int), c: (int, int))
    requires FixedOffset(off, offset) && day == Reads(off, now) / DAY
    requires NightRead(off, w, day - 1, a) && NightRead(off, w, day, b) && NightRead(off, w, day + 1, c)
    ensures [a, b, c] == FixedNights(now, w, offset)
  {
    NightUnderOneOffset(w, off, offset, day - 1, a);
    NightUnderOneOffset(w, off, offset, day, b);
    NightUnderOneOffset(w, off, offset, day + 1, c);
  }

  lemma RightUnderOneOffset(now: int, w: Window, off: Zone, day: int, a: (int, int), b: (int, int), c: (int, int))
    requires ValidWindow(w) && day == Reads(off, now) / DAY
    requires NightRead(off, w, day - 1, a) && NightRead(off, w, day, b) && NightRead(off, w, day + 1, c)
    ensures forall offset | FixedOffset(off, offset) :: WindowRight(StateFrom(now, off, [a, b, c]), now, w, offset)
  {
    forall offset | FixedOffset(off, offset) ensures WindowRight(StateFrom(now, off, [a, b, c]), now, w, offset) {
      NightsUnderOneOffset(now, w, off, offset, day, a, b, c);
      FixedNightsDecide(now, w, off, offset);
    }
  }

  /** What the state has to be, in a zone of one offset and in one whose clock changes once nearby. */
  ghost predicate StateRight(state: WindowState, now: int, w: Window, off: Zone) {
    && (forall offset | FixedOffset(off, offset) :: WindowRight(state, now, w, offset))
    && (forall z | OneChange(off, now, z) :: NightsRight(state, now, w, off))
  }

  lemma DecidedRight(now: int, w: Window, off: Zone, day: int, nights: seq<(int, int)>)
    requires ValidWindow(w) && day == Reads(off, now) / DAY
    requires |nights| == 3 && NightsRead(off, w, day - 1, nights)
    ensures StateRight(StateFrom(now, off, nights), now, w, off)
  {
    var a, b, c := nights[0], nights[1], nights[2];
    assert nights == [a, b, c];
    assert NightRead(off, w, day - 1 + 0, a) && NightRead(off, w, day - 1 + 1, b) && NightRead(off, w, day - 1 + 2, c);
    RightUnderOneOffset(now, w, off, day, a, b, c);
    RightUnderOneChange(now, w, off, day, a, b, c);
  }

  /** nightWindow: where `now` stands against the window. */
  method NightWindow(now: int, w: Window, off: Zone) returns (state: WindowState)
    requires ValidWindow(w) && NightsAnswer(off, w, Reads(off, now) / DAY)
    ensures StateRight(state, now, w, off)
  {
    var day := Reads(off, now) / DAY;
    var nights := NightsAround(day, w, off);
    state := StateFrom(now, off, nights);
    DecidedRight(now, w, off, day, nights);
  }

  /** A clock set back by an hour half an hour past midnight, when it reads half past eleven again. */
  const SET_BACK: int := DAY - 30 * MINUTE

  function SetBack(): Zone {
    (t: int) => if t < SET_BACK then HOUR else 0
  }

  lemma ReadAt(off: Zone, wall: int, t: int, now: int)
    requires wall - REACH <= t <= now && Reads(off, t) >= wall
    ensures ReadBy(off, wall, now)
  {
  }

  lemma SetBackNights(w: Window, d: int)
    requires w == Window(10, 20)
    ensures ReadBy(SetBack(), OpeningAt(1, w), SET_BACK)
    ensures d <= 1 ==> ReadBy(SetBack(), ClosingAt(d, w), SET_BACK)
    ensures d > 1 ==> !ReadBy(SetBack(), OpeningAt(d, w), SET_BACK)
  {
    ReadAt(SetBack(), OpeningAt(1, w), SET_BACK - 1, SET_BACK);
    if d <= 1 {
      assert d * DAY <= DAY;
      ReadAt(SetBack(), ClosingAt(d, w), SET_BACK - 1, SET_BACK);
    } else {
      assert d * DAY >= 2 * DAY;
    }
  }

  /** Then a window from ten to twenty past midnight was over before the day began: no next opening is given. */
  lemma SetBackHidesNextStart(state: WindowState)
    requires StateRight(state, SET_BACK, Window(10, 20), SetBack())
    ensures state == WindowState(false, None, None, None)
  {
    var w, off, z := Window(10, 20), SetBack(), Transition(SET_BACK, HOUR, 0);
    assert OneChange(off, SET_BACK, z);
    assert NightsRight(state, SET_BACK, w, off);
    assert Reads(off, SET_BACK) / DAY == 0;
    forall d ensures !InNight(Opened(off, w), Closed(off, w), SET_BACK, d) {
      SetBackNights(w, d);
    }
    SetBackNights(w, 1);
    assert Opened(off, w)(1, SET_BACK);
  }
}
