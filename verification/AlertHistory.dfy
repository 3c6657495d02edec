/**
 What one alert key goes through: the intervals the engine of
 dashboard/lib/alerts.js records for it, and what they have to be, stated on the
 history of evaluations alone.
 */
module AlertHistory {
  import opened Wrappers

  /** An evaluation, with what it found of the key, or a restart of the process. */
  datatype Event = Tick(now: int, found: bool, superseded: bool) | Restart

  datatype Interval = Interval(openedAt: int, closedAt: Option<int>)

  /** What the engine holds of the key: its entries of the open and clearing maps, and its rows. */
  datatype KeyState = KeyState(openedAt: Option<int>, clearing: Option<int>, rows: seq<Interval>)

  function CloseAt(rows: seq<Interval>, t: int): (r: seq<Interval>)
    ensures |r| == |rows|
  {
    seq(|rows|, i requires 0 <= i < |rows| =>
      if rows[i].closedAt.None? then rows[i].(closedAt := Some(t)) else rows[i])
  }

  /** One event, for a rule that waits out a window before it closes, or for one that does not. */
  function KeyStep(window: Option<int>, s: KeyState, e: Event): KeyState {
    match e
    case Restart => s.(clearing := None)
    case Tick(now, true, _) =>
      if s.openedAt.Some? then s.(clearing := None)
      else KeyState(Some(now), s.clearing, s.rows + [Interval(now, None)])
    case Tick(now, false, superseded) =>
      if s.openedAt.None? then s
      else
        var since := s.clearing.GetOr(now);
        if window.Some? && !superseded && now - since < window.value then s.(clearing := Some(since))
        else KeyState(None, None, CloseAt(s.rows, since))
  }

  function KeyRun(window: Option<int>, h: seq<Event>, n: nat): KeyState
    requires n <= |h|
  {
    if n == 0 then KeyState(None, None, []) else KeyStep(window, KeyRun(window, h, n - 1), h[n - 1])
  }

  // ---- what the intervals have to be -------------------------------------------

  predicate PresentAt(h: seq<Event>, i: nat) {
    i < |h| && h[i].Tick? && h[i].found
  }

  predicate AbsentAt(h: seq<Event>, i: nat) {
    i < |h| && h[i].Tick? && !h[i].found
  }

  /** The first evaluation of the unbroken absence that includes m. */
  function GoneFrom(h: seq<Event>, m: nat): (g: nat)
    requires AbsentAt(h, m)
    ensures g <= m && AbsentAt(h, g) && (forall i: nat | g <= i <= m :: AbsentAt(h, i))
    ensures g == 0 || !AbsentAt(h, g - 1)
  {
    if m == 0 || !AbsentAt(h, m - 1) then m else GoneFrom(h, m - 1)
  }

  /** Evaluation m ends an open interval: the absence is as long as the window, or another alert takes over. */
  predicate Closes(window: Option<int>, h: seq<Event>, m: nat) {
    AbsentAt(h, m) && (window.None? || h[m].superseded || h[m].now - h[GoneFrom(h, m)].now >= window.value)
  }

  /** The first of the events after s and before n that closes. */
  function EndOf(window: Option<int>, h: seq<Event>, s: nat, n: nat): (e: Option<nat>)
    requires n <= |h|
    ensures e.Some? ==> s < e.value < n && Closes(window, h, e.value)
    ensures e.Some? ==> forall m: nat | s < m < e.value :: !Closes(window, h, m)
    ensures e.None? ==> forall m: nat | s < m < n :: !Closes(window, h, m)
    decreases n
  {
    if n <= s + 1 then None
    else
      var e := EndOf(window, h, s, n - 1);
      if e.Some? then e else if Closes(window, h, n - 1) then Some(n - 1) else None
  }

  /** The condition was found, and nothing closed it since. */
  ghost predicate IsOpen(window: Option<int>, h: seq<Event>, n: nat)
    requires n <= |h|
  {
    exists i: nat | i < n && PresentAt(h, i) :: EndOf(window, h, i, n).None?
  }

  /** The evaluations that open an interval: those that find the condition while none is open. */
  ghost function Starts(window: Option<int>, h: seq<Event>, n: nat): (ss: seq<nat>)
    requires n <= |h|
    ensures forall j | 0 <= j < |ss| :: ss[j] < n && PresentAt(h, ss[j])
  {
    if n == 0 then []
    else
      var before := Starts(window, h, n - 1);
      if PresentAt(h, n - 1) && !IsOpen(window, h, n - 1) then before + [n - 1] else before
  }

  lemma {:induction false} StartsMean(window: Option<int>, h: seq<Event>, n: nat, s: nat)
    requires n <= |h|
    ensures s in Starts(window, h, n) <==> s < n && PresentAt(h, s) && !IsOpen(window, h, s)
    ensures forall i, j | 0 <= i < j < |Starts(window, h, n)| :: Starts(window, h, n)[i] < Starts(window, h, n)[j]
  {
    if n > 0 {
      StartsMean(window, h, n - 1, s);
    }
  }

  /** The interval a start begins: it ends at the first moment gone of the absence that closes it. */
  function RowOf(window: Option<int>, h: seq<Event>, s: nat, n: nat): Interval
    requires n <= |h| && PresentAt(h, s)
  {
    var e := EndOf(window, h, s, n);
    Interval(h[s].now, if e.Some? then Some(h[GoneFrom(h, e.value)].now) else None)
  }

  ghost function Intervals(window: Option<int>, h: seq<Event>, n: nat): (rows: seq<Interval>)
    requires n <= |h|
  {
    var ss := Starts(window, h, n);
    seq(|ss|, j requires 0 <= j < |ss| => RowOf(window, h, ss[j], n))
  }

  /** The absence under way, while an interval is open. */
  ghost function GoneSince(window: Option<int>, h: seq<Event>, n: nat): Option<int>
    requires n <= |h|
  {
    if n > 0 && IsOpen(window, h, n) && AbsentAt(h, n - 1) then Some(h[GoneFrom(h, n - 1)].now) else None
  }

  // ---- the engine records them ---------------------------------------------------

  lemma EndStep(window: Option<int>, h: seq<Event>, s: nat, n: nat)
    requires n < |h| && s < n
    ensures EndOf(window, h, s, n + 1) ==
      var e := EndOf(window, h, s, n); if e.Some? then e else if Closes(window, h, n) then Some(n) else None
  {
  }

  lemma OpenStep(window: Option<int>, h: seq<Event>, n: nat)
    requires n < |h|
    ensures IsOpen(window, h, n + 1) <==> PresentAt(h, n) || (IsOpen(window, h, n) && !Closes(window, h, n))
  {
    forall i: nat | i < n
      ensures EndOf(window, h, i, n + 1).None? <==> EndOf(window, h, i, n).None? && !Closes(window, h, n)
    {
      EndStep(window, h, i, n);
    }
    if PresentAt(h, n) {
      assert EndOf(window, h, n, n + 1).None?;
    }
    if IsOpen(window, h, n) && !Closes(window, h, n) {
      var i: nat :| i < n && PresentAt(h, i) && EndOf(window, h, i, n).None?;
      assert EndOf(window, h, i, n + 1).None?;
    }
  }

  /** An interval is open exactly when the last one begun has not ended, and all before it have. */
  ghost predicate OnlyLastOpen(window: Option<int>, h: seq<Event>, n: nat)
    requires n <= |h|
  {
    var ss := Starts(window, h, n);
    && (IsOpen(window, h, n) <==> ss != [] && EndOf(window, h, ss[|ss| - 1], n).None?)
    && (forall j | 0 <= j < |ss| - 1 :: EndedBefore(window, h, ss[j], n, ss[j + 1]))
  }

  predicate EndedBefore(window: Option<int>, h: seq<Event>, s: nat, n: nat, next: nat)
    requires n <= |h|
  {
    var e := EndOf(window, h, s, n);
    e.Some? && e.value < next
  }

  lemma EndsStep(window: Option<int>, h: seq<Event>, n: nat)
    requires n < |h|
    ensures forall j | 0 <= j < |Starts(window, h, n)| ::
      EndOf(window, h, Starts(window, h, n)[j], n + 1) ==
        var e := EndOf(window, h, Starts(window, h, n)[j], n);
        if e.Some? then e else if Closes(window, h, n) then Some(n) else None
  {
    var ss := Starts(window, h, n);
    forall j | 0 <= j < |ss|
      ensures EndOf(window, h, ss[j], n + 1) ==
        var e := EndOf(window, h, ss[j], n); if e.Some? then e else if Closes(window, h, n) then Some(n) else None
    {
      assert ss[j] in ss;
      EndStep(window, h, ss[j], n);
    }
  }

  lemma {:induction false} LastIsOpen(window: Option<int>, h: seq<Event>, n: nat)
    requires n <= |h|
    ensures OnlyLastOpen(window, h, n)
  {
    if n > 0 {
      var m: nat := n - 1;
      LastIsOpen(window, h, m);
      OpenStep(window, h, m);
      EndsStep(window, h, m);
      var before, ss := Starts(window, h, m), Starts(window, h, n);
      forall j | 0 <= j < |before| - 1 ensures EndedBefore(window, h, before[j], n, before[j + 1]) {
        assert EndedBefore(window, h, before[j], m, before[j + 1]);
      }
      if PresentAt(h, m) && !IsOpen(window, h, m) {
        assert ss == before + [m];
        assert EndOf(window, h, m, n).None?;
        forall j | 0 <= j < |ss| - 1 ensures EndedBefore(window, h, ss[j], n, ss[j + 1]) {
          if j == |before| - 1 {
            assert EndOf(window, h, before[j], m).Some?;
          } else {
            assert EndedBefore(window, h, before[j], n, before[j + 1]);
          }
        }
      } else {
        assert ss == before;
      }
    }
  }

  /** A start's row as it stands one event later. */
  lemma RowStep(window: Option<int>, h: seq<Event>, s: nat, n: nat)
    requires s < n < |h| && PresentAt(h, s)
    ensures var row := RowOf(window, h, s, n);
      RowOf(window, h, s, n + 1) ==
        if row.closedAt.None? && Closes(window, h, n) then row.(closedAt := Some(h[GoneFrom(h, n)].now)) else row
  {
    EndStep(window, h, s, n);
  }

  /** The rows as they stand one event later. */
  lemma IntervalsKept(window: Option<int>, h: seq<Event>, n: nat)
    requires n < |h| && !(PresentAt(h, n) && !IsOpen(window, h, n))
    requires !(IsOpen(window, h, n) && Closes(window, h, n))
    ensures Intervals(window, h, n + 1) == Intervals(window, h, n)
  {
    AllClosed(window, h, n);
    var ss := Starts(window, h, n);
    forall j | 0 <= j < |ss| ensures RowOf(window, h, ss[j], n + 1) == RowOf(window, h, ss[j], n) {
      RowStep(window, h, ss[j], n);
    }
  }

  lemma IntervalsBegun(window: Option<int>, h: seq<Event>, n: nat)
    requires n < |h| && PresentAt(h, n) && !IsOpen(window, h, n)
    ensures Intervals(window, h, n + 1) == Intervals(window, h, n) + [Interval(h[n].now, None)]
  {
    var ss := Starts(window, h, n);
    forall j | 0 <= j < |ss| ensures RowOf(window, h, ss[j], n + 1) == RowOf(window, h, ss[j], n) {
      RowStep(window, h, ss[j], n);
    }
    assert EndOf(window, h, n, n + 1).None?;
  }

  lemma IntervalsEnded(window: Option<int>, h: seq<Event>, n: nat)
    requires n < |h| && Closes(window, h, n)
    ensures Intervals(window, h, n + 1) == CloseAt(Intervals(window, h, n), h[GoneFrom(h, n)].now)
  {
    var ss := Starts(window, h, n);
    forall j | 0 <= j < |ss|
      ensures var row := RowOf(window, h, ss[j], n);
        RowOf(window, h, ss[j], n + 1) == if row.closedAt.None? then row.(closedAt := Some(h[GoneFrom(h, n)].now))
          else row
    {
      RowStep(window, h, ss[j], n);
    }
  }

  /** While nothing is open every row is closed. */
  lemma AllClosed(window: Option<int>, h: seq<Event>, n: nat)
    requires n <= |h|
    ensures !IsOpen(window, h, n) ==>
      forall j | 0 <= j < |Starts(window, h, n)| :: RowOf(window, h, Starts(window, h, n)[j], n).closedAt.Some?
  {
    LastIsOpen(window, h, n);
    var ss := Starts(window, h, n);
    forall j | 0 <= j < |ss| && !IsOpen(window, h, n) ensures EndOf(window, h, ss[j], n).Some? {
      if j < |ss| - 1 {
        assert EndedBefore(window, h, ss[j], n, ss[j + 1]);
      }
    }
  }

  /** Since when the condition is gone, while it is: the moment kept in the clearing map, or now. */
  lemma GoneStep(window: Option<int>, h: seq<Event>, n: nat)
    requires n < |h| && AbsentAt(h, n) && IsOpen(window, h, n)
    ensures GoneSince(window, h, n).GetOr(h[n].now) == h[GoneFrom(h, n)].now
  {
  }

  ghost predicate Records(window: Option<int>, h: seq<Event>, n: nat, s: KeyState)
    requires n <= |h|
  {
    && s.rows == Intervals(window, h, n)
    && (s.openedAt.Some? <==> IsOpen(window, h, n))
    && (s.openedAt.Some? ==> s.rows != [] && s.rows[|s.rows| - 1] == Interval(s.openedAt.value, None))
    && s.clearing == GoneSince(window, h, n)
  }

  lemma RecordsFound(window: Option<int>, h: seq<Event>, n: nat, s: KeyState)
    requires n < |h| && !AbsentAt(h, n) && Records(window, h, n, s)
    ensures Records(window, h, n + 1, KeyStep(window, s, h[n]))
  {
    OpenStep(window, h, n);
    if PresentAt(h, n) && !IsOpen(window, h, n) {
      IntervalsBegun(window, h, n);
    } else {
      IntervalsKept(window, h, n);
    }
  }

  lemma RecordsGone(window: Option<int>, h: seq<Event>, n: nat, s: KeyState)
    requires n < |h| && AbsentAt(h, n) && Records(window, h, n, s)
    ensures Records(window, h, n + 1, KeyStep(window, s, h[n]))
  {
    OpenStep(window, h, n);
    if IsOpen(window, h, n) {
      GoneStep(window, h, n);
    }
    if IsOpen(window, h, n) && Closes(window, h, n) {
      IntervalsEnded(window, h, n);
    } else {
      IntervalsKept(window, h, n);
    }
  }

  lemma RecordsStep(window: Option<int>, h: seq<Event>, n: nat, s: KeyState)
    requires n < |h| && Records(window, h, n, s)
    ensures Records(window, h, n + 1, KeyStep(window, s, h[n]))
  {
    if AbsentAt(h, n) {
      RecordsGone(window, h, n, s);
    } else {
      RecordsFound(window, h, n, s);
    }
  }

  lemma NothingYet(window: Option<int>, h: seq<Event>)
    ensures Records(window, h, 0, KeyState(None, None, []))
  {
  }

  /**
   The rows of a key, after any run of evaluations and restarts, are the intervals
   its history calls for: one for each time the condition was found while none was
   open, ended at the first moment gone of the absence that closed it.
   */
  lemma {:induction false} RunRecordsIntervals(window: Option<int>, h: seq<Event>, n: nat)
    requires n <= |h|
    ensures Records(window, h, n, KeyRun(window, h, n))
  {
    if n == 0 {
      NothingYet(window, h);
    } else {
      RunRecordsIntervals(window, h, n - 1);
      RecordsStep(window, h, n - 1, KeyRun(window, h, n - 1));
    }
  }

  // ---- what that comes to ---------------------------------------------------------

  /** The clock does not go back from one evaluation to the next. */
  ghost predicate Forward(h: seq<Event>) {
    forall i, j | 0 <= i < j < |h| && h[i].Tick? && h[j].Tick? :: h[i].now <= h[j].now
  }

  predicate Ordered(rows: seq<Interval>) {
    && (forall j | 0 <= j < |rows| && rows[j].closedAt.Some? :: rows[j].openedAt <= rows[j].closedAt.value)
    && (forall j | 0 <= j < |rows| - 1 :: rows[j].closedAt.Some? && rows[j].closedAt.value <= rows[j + 1].openedAt)
  }

  lemma {:induction false} GoneAfter(h: seq<Event>, s: nat, m: nat)
    requires s < m && !AbsentAt(h, s) && AbsentAt(h, m)
    ensures s < GoneFrom(h, m)
  {
    if AbsentAt(h, m - 1) {
      GoneAfter(h, s, m - 1);
    }
  }

  lemma EndsAfterStart(window: Option<int>, h: seq<Event>, s: nat, n: nat)
    requires n <= |h| && Forward(h) && PresentAt(h, s) && EndOf(window, h, s, n).Some?
    ensures var e := EndOf(window, h, s, n).value;
      s < GoneFrom(h, e) <= e && h[s].now <= h[GoneFrom(h, e)].now <= h[e].now
  {
    GoneAfter(h, s, EndOf(window, h, s, n).value);
  }

  /** A key's intervals come one after the other, each closed no earlier than opened, and only the last can be open. */
  lemma IntervalsInOrder(window: Option<int>, h: seq<Event>, n: nat)
    requires n <= |h| && Forward(h)
    ensures Ordered(Intervals(window, h, n))
  {
    LastIsOpen(window, h, n);
    var ss, rows := Starts(window, h, n), Intervals(window, h, n);
    forall j | 0 <= j < |rows| && rows[j].closedAt.Some? ensures rows[j].openedAt <= rows[j].closedAt.value {
      assert ss[j] in ss;
      EndsAfterStart(window, h, ss[j], n);
    }
    forall j | 0 <= j < |rows| - 1 ensures rows[j].closedAt.Some? && rows[j].closedAt.value <= rows[j + 1].openedAt {
      assert ss[j] in ss && ss[j + 1] in ss;
      assert EndedBefore(window, h, ss[j], n, ss[j + 1]);
      EndsAfterStart(window, h, ss[j], n);
    }
  }

  /** Gone at g and still at m: within the window, and no other alert has taken over. */
  predicate Waits(window: Option<int>, h: seq<Event>, g: nat, m: nat) {
    AbsentAt(h, g) && AbsentAt(h, m) && window.Some? && !h[m].superseded && h[m].now - h[g].now < window.value
  }

  /** An absence shorter than the window never splits an interval, restarts or not. */
  lemma {:induction false} ShortAbsenceNeverSplits(window: Option<int>, h: seq<Event>, i: nat, j: nat)
    requires i < j <= |h| && PresentAt(h, i)
    requires forall g: nat, m: nat | i < g <= m < j && AbsentAt(h, g) && AbsentAt(h, m) :: Waits(window, h, g, m)
    ensures IsOpen(window, h, j) && Starts(window, h, j) == Starts(window, h, i + 1)
  {
    if j == i + 1 {
      assert EndOf(window, h, i, j).None?;
    } else {
      ShortAbsenceNeverSplits(window, h, i, j - 1);
      OpenStep(window, h, j - 1);
      assert !Closes(window, h, j - 1) by {
        if AbsentAt(h, j - 1) {
          GoneAfter(h, i, j - 1);
          assert Waits(window, h, GoneFrom(h, j - 1), j - 1);
        }
      }
    }
  }

  lemma {:induction false} GoneFromFirst(h: seq<Event>, i: nat, m: nat)
    requires i < m < |h| && !AbsentAt(h, i) && forall k: nat | i < k <= m :: AbsentAt(h, k)
    ensures GoneFrom(h, m) == i + 1
  {
    if m > i + 1 {
      GoneFromFirst(h, i, m - 1);
    }
  }

  /**
   An unbroken absence that reaches the window at evaluation c, or that another
   alert takes over there, closes the interval at the first moment it was gone.
   */
  lemma LongAbsenceClosesAtFirstGone(window: Option<int>, h: seq<Event>, i: nat, g: nat, c: nat)
    requires g == i + 1 && i < c < |h| && PresentAt(h, i) && forall k: nat | i < k <= c :: AbsentAt(h, k)
    requires (forall k: nat | i < k < c :: Waits(window, h, g, k)) && !Waits(window, h, g, c)
    ensures !IsOpen(window, h, c + 1)
    ensures var rows := Intervals(window, h, c + 1); rows != [] && rows[|rows| - 1].closedAt == Some(h[g].now)
  {
    GoneFromFirst(h, i, c);
    NothingCloses(window, h, i, g, c);
    assert IsOpen(window, h, c) && Closes(window, h, c);
    RunRecordsIntervals(window, h, c);
    IntervalsEnded(window, h, c);
    OpenStep(window, h, c);
  }

  lemma NothingCloses(window: Option<int>, h: seq<Event>, i: nat, g: nat, c: nat)
    requires g == i + 1 && i < c < |h| && PresentAt(h, i) && forall k: nat | i < k <= c :: AbsentAt(h, k)
    requires forall k: nat | i < k < c :: Waits(window, h, g, k)
    ensures EndOf(window, h, i, c).None?
  {
    forall m: nat | i < m < c ensures !Closes(window, h, m) {
      GoneFromFirst(h, i, m);
      assert Waits(window, h, g, m);
    }
  }

  // ---- the settle timer of one runner ------------------------------------------------

  /** An evaluation: whether the runner was offline in it, and whether the host-wide alert stood in for it. */
  datatype Look = Look(now: int, offline: bool, hostWide: bool) | Restarted

  /** The runner's entry in the pending map. Under the host-wide alert it is neither set nor cleared. */
  function TimerStep(settleMs: int, timer: Option<int>, l: Look): Option<int> {
    match l
    case Restarted => None
    case Look(now, offline, hostWide) =>
      if hostWide then timer
      else if !offline then None
      else if settleMs <= 0 || timer.Some? then timer
      else Some(now)
  }

  function TimerRun(settleMs: int, h: seq<Look>, n: nat): Option<int>
    requires n <= |h|
  {
    if n == 0 then None else TimerStep(settleMs, TimerRun(settleMs, h, n - 1), h[n - 1])
  }

  predicate SeenOffline(l: Look) {
    l.Look? && !l.hostWide && l.offline
  }

  /** Nothing in this event says the runner was not offline: it was, or nobody looked. */
  predicate NotSeenBack(l: Look) {
    l.Look? && (l.hostWide || l.offline)
  }

  /** Seen offline at i, and not seen back in any event since. */
  ghost predicate OfflineSince(h: seq<Look>, i: nat, n: nat)
    requires n <= |h|
  {
    i < n && SeenOffline(h[i]) && forall m: nat | i <= m < n :: NotSeenBack(h[m])
  }

  /** The timer runs from the first evaluation that saw the runner offline and since which none saw it back. */
  lemma {:induction false} TimerMeans(settleMs: int, h: seq<Look>, n: nat)
    requires n <= |h| && settleMs > 0
    ensures TimerRun(settleMs, h, n).Some? <==> exists i: nat :: OfflineSince(h, i, n)
    ensures TimerRun(settleMs, h, n).Some? ==>
      exists i: nat :: OfflineSince(h, i, n) && h[i].now == TimerRun(settleMs, h, n).value
                       && forall j: nat | OfflineSince(h, j, n) :: i <= j
  {
    if n > 0 {
      var k: nat := n - 1;
      TimerMeans(settleMs, h, k);
      var before, l := TimerRun(settleMs, h, k), h[k];
      assert forall j: nat | j < k :: OfflineSince(h, j, n) <==> OfflineSince(h, j, k) && NotSeenBack(l);
      if before.Some? && NotSeenBack(l) {
        var i: nat :| OfflineSince(h, i, k) && h[i].now == before.value
          && forall j: nat | OfflineSince(h, j, k) :: i <= j;
        assert OfflineSince(h, i, n);
      } else if SeenOffline(l) {
        assert OfflineSince(h, k, n);
      }
    }
  }

  predicate Settled(settleMs: int, timer: Option<int>, now: int) {
    settleMs <= 0 || (timer.Some? && now - timer.value >= settleMs)
  }

  // ---- a condition that has to hold for a while ------------------------------------------

  /** sustained at call n: the condition is true, and the entry was set long enough ago. */
  predicate HeldAt(calls: seq<Look>, n: nat, windowMs: int)
    requires n < |calls| && calls[n].Look?
  {
    var since := TimerRun(1, calls, n);
    calls[n].offline && since.Some? && calls[n].now - since.value >= windowMs
  }

  /** True at i and at every call since, up to n. */
  ghost predicate TrueSince(calls: seq<Look>, i: nat, n: nat)
    requires n < |calls|
  {
    i <= n && forall m: nat | i <= m <= n :: calls[m].Look? && calls[m].offline
  }

  /** It counts exactly when it was true at an earlier call and ever since, the first of which is that long ago. */
  lemma HeldMeans(calls: seq<Look>, n: nat, windowMs: int)
    requires n < |calls| && calls[n].Look? && forall c | c in calls && c.Look? :: !c.hostWide
    ensures HeldAt(calls, n, windowMs) <==>
      exists i: nat :: i < n && TrueSince(calls, i, n) && (forall j: nat | TrueSince(calls, j, n) :: i <= j)
                       && calls[n].now - calls[i].now >= windowMs
  {
    forall m: nat | m < |calls| ensures calls[m].Look? ==> !calls[m].hostWide {
      assert calls[m] in calls;
    }
    TimerMeans(1, calls, n);
    forall i: nat | i < n && calls[n].offline ensures OfflineSince(calls, i, n) <==> TrueSince(calls, i, n) {
      if TrueSince(calls, i, n) {
        assert SeenOffline(calls[i]);
      }
    }
    if HeldAt(calls, n, windowMs) {
      var i: nat :| OfflineSince(calls, i, n) && calls[i].now == TimerRun(1, calls, n).value
                    && forall j: nat | OfflineSince(calls, j, n) :: i <= j;
      assert TrueSince(calls, i, n);
    }
    if i: nat :| i < n && TrueSince(calls, i, n) && (forall j: nat | TrueSince(calls, j, n) :: i <= j)
                 && calls[n].now - calls[i].now >= windowMs {
      assert OfflineSince(calls, i, n);
      var k: nat :| OfflineSince(calls, k, n) && calls[k].now == TimerRun(1, calls, n).value
                    && forall j: nat | OfflineSince(calls, j, n) :: k <= j;
      assert TrueSince(calls, k, n);
    }
  }
}
