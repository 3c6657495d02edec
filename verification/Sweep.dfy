/**
 The two sweep lines over job intervals: the concurrency histogram of
 dashboard/lib/analytics.js and peakOverlap of dashboard/lib/forecast.js.
 Both walk sorted endpoints once; here both are tied to a definition that looks
 at every millisecond on its own.
 */
module Sweep {
  import opened Wrappers

  /** A job row: an absent time is one the row does not carry or that is not a finite number. */
  datatype Job = Job(ran: bool, startedAt: Option<int>, completedAt: Option<int>)

  datatype Interval = Interval(start: int, end: int)

  datatype Event = Event(ts: int, delta: int)

  // ---- the pointwise reading ------------------------------------------------

  function Step(from: int, t: int): int {
    if from <= t then 1 else 0
  }

  /** Intervals that have started by t, less those that have ended by t. */
  function NetAt(ivs: seq<Interval>, t: int): int {
    if ivs == [] then 0 else Step(ivs[0].start, t) - Step(ivs[0].end, t) + NetAt(ivs[1..], t)
  }

  /** How many half-open intervals contain t. */
  function Overlap(ivs: seq<Interval>, t: int): nat {
    if ivs == [] then 0 else (if ivs[0].start <= t < ivs[0].end then 1 else 0) + Overlap(ivs[1..], t)
  }

  predicate Ordered(ivs: seq<Interval>) {
    forall i | 0 <= i < |ivs| :: ivs[i].start <= ivs[i].end
  }

  /** Every endpoint lies in [a, b]. */
  predicate Spans(ivs: seq<Interval>, a: int, b: int) {
    forall i | 0 <= i < |ivs| :: a <= ivs[i].start <= b && a <= ivs[i].end <= b
  }

  /** Milliseconds of [a, b) at which the net count is exactly n. */
  function MsAt(ivs: seq<Interval>, n: int, a: int, b: int): nat
    decreases b - a
  {
    if b <= a then 0 else MsAt(ivs, n, a, b - 1) + (if NetAt(ivs, b - 1) == n then 1 else 0)
  }

  /** Milliseconds of [a, b) inside at least one interval, counted off the intervals themselves. */
  function BusyMs(ivs: seq<Interval>, a: int, b: int): nat
    decreases b - a
  {
    if b <= a then 0 else BusyMs(ivs, a, b - 1) + (if Overlap(ivs, b - 1) > 0 then 1 else 0)
  }

  /** The jobs' total time: the sum of their (signed) durations. */
  function TotalMs(ivs: seq<Interval>): int {
    if ivs == [] then 0 else ivs[0].end - ivs[0].start + TotalMs(ivs[1..])
  }

  /** p is the greatest net count over all instants, or 0 when none is positive. */
  ghost predicate IsPeak(ivs: seq<Interval>, p: int) {
    && p >= 0
    && (forall t :: NetAt(ivs, t) <= p)
    && (p > 0 ==> exists t :: NetAt(ivs, t) == p)
  }

  /** How many reversed intervals have t between their end and their start. */
  function Backwards(ivs: seq<Interval>, t: int): nat {
    if ivs == [] then 0 else (if ivs[0].end <= t < ivs[0].start then 1 else 0) + Backwards(ivs[1..], t)
  }

  /** Every reversed interval takes one off the count over its span. */
  lemma {:induction false} NetIsOverlapLessBackwards(ivs: seq<Interval>, t: int)
    ensures NetAt(ivs, t) == Overlap(ivs, t) - Backwards(ivs, t)
  {
    if ivs != [] {
      NetIsOverlapLessBackwards(ivs[1..], t);
    }
  }

  lemma {:induction false} NetIsOverlap(ivs: seq<Interval>, t: int)
    requires Ordered(ivs)
    ensures NetAt(ivs, t) == Overlap(ivs, t)
  {
    if ivs != [] {
      NetIsOverlap(ivs[1..], t);
    }
  }

  // ---- events ---------------------------------------------------------------

  function Timed(jobs: seq<Job>): seq<Interval> {
    if jobs == [] then []
    else if !jobs[0].ran || jobs[0].startedAt.None? || jobs[0].completedAt.None? then Timed(jobs[1..])
    else [Interval(jobs[0].startedAt.value, jobs[0].completedAt.value)] + Timed(jobs[1..])
  }

  /** A row is an interval exactly when it ran and carries both times; rows after others come after theirs. */
  lemma TimedOne(job: Job)
    ensures Timed([job]) ==
      if job.ran && job.startedAt.Some? && job.completedAt.Some?
      then [Interval(job.startedAt.value, job.completedAt.value)] else []
  {
    assert [job][1..] == [];
  }

  lemma {:induction false} TimedAppend(xs: seq<Job>, ys: seq<Job>)
    ensures Timed(xs + ys) == Timed(xs) + Timed(ys)
  {
    if xs == [] {
      assert xs + ys == ys;
    } else {
      TimedAppend(xs[1..], ys);
      assert (xs + ys)[1..] == xs[1..] + ys;
    }
  }

  function Contribution(e: Event, t: int): int {
    if e.ts <= t then e.delta else 0
  }

  function EventNet(evs: seq<Event>, t: int): int {
    if evs == [] then 0 else Contribution(evs[0], t) + EventNet(evs[1..], t)
  }

  function Events(ivs: seq<Interval>): (evs: seq<Event>)
    ensures forall t :: EventNet(evs, t) == NetAt(ivs, t)
    ensures |evs| == 2 * |ivs|
    ensures forall e | e in evs :: e.delta == 1 || e.delta == -1
    ensures forall a, b | Spans(ivs, a, b) :: forall e | e in evs :: a <= e.ts <= b
  {
    if ivs == [] then []
    else
      var rest := Events(ivs[1..]);
      var evs := [Event(ivs[0].start, 1), Event(ivs[0].end, -1)] + rest;
      assert forall t :: EventNet(evs, t) == NetAt(ivs, t) by {
        assert evs[1..] == [Event(ivs[0].end, -1)] + rest;
        assert evs[1..][1..] == rest;
        forall t ensures EventNet(evs, t) == NetAt(ivs, t) {
          assert EventNet(evs[1..], t) == Contribution(evs[1], t) + EventNet(rest, t);
        }
      }
      assert forall a, b | Spans(ivs, a, b) :: forall e | e in evs :: a <= e.ts <= b by {
        forall a, b | Spans(ivs, a, b) ensures forall e | e in evs :: a <= e.ts <= b {
          assert Spans(ivs[1..], a, b) by {
            forall i | 0 <= i < |ivs[1..]| ensures a <= ivs[1..][i].start <= b && a <= ivs[1..][i].end <= b {
              assert ivs[1..][i] == ivs[i + 1];
            }
          }
        }
      }
      evs
  }

  /** The sort's comparator: by time, ends before starts at the same instant. */
  predicate NotAfter(a: Event, b: Event) {
    a.ts < b.ts || (a.ts == b.ts && a.delta <= b.delta)
  }

  predicate SortedEvents(evs: seq<Event>) {
    forall i, j | 0 <= i < j < |evs| :: NotAfter(evs[i], evs[j])
  }

  function InsertEvent(e: Event, evs: seq<Event>): (r: seq<Event>)
    requires SortedEvents(evs)
    ensures SortedEvents(r) && |r| == |evs| + 1
    ensures forall x :: x in r <==> x == e || x in evs
    ensures forall t :: EventNet(r, t) == Contribution(e, t) + EventNet(evs, t)
  {
    if evs == [] then [e]
    else if NotAfter(e, evs[0]) then
      var r := [e] + evs;
      assert r[1..] == evs;
      r
    else
      var tail := InsertEvent(e, evs[1..]);
      var r := [evs[0]] + tail;
      assert r[1..] == tail;
      assert forall x | x in tail :: NotAfter(evs[0], x) by {
        assert forall x | x in evs[1..] :: NotAfter(evs[0], x);
      }
      r
  }

  function SortEvents(evs: seq<Event>): (r: seq<Event>)
    ensures SortedEvents(r) && |r| == |evs|
    ensures forall x :: x in r <==> x in evs
    ensures forall t :: EventNet(r, t) == EventNet(evs, t)
  {
    if evs == [] then [] else InsertEvent(evs[0], SortEvents(evs[1..]))
  }

  function DeltaSum(evs: seq<Event>): int {
    if evs == [] then 0 else DeltaSum(evs[..|evs| - 1]) + evs[|evs| - 1].delta
  }

  lemma {:induction false} EventNetAppend(a: seq<Event>, b: seq<Event>, t: int)
    ensures EventNet(a + b, t) == EventNet(a, t) + EventNet(b, t)
  {
    if a == [] {
      assert a + b == b;
    } else {
      assert (a + b)[1..] == a[1..] + b;
      EventNetAppend(a[1..], b, t);
    }
  }

  lemma {:induction false} AllStarted(evs: seq<Event>, t: int)
    requires forall e | e in evs :: e.ts <= t
    ensures EventNet(evs, t) == DeltaSum(evs)
  {
    if evs != [] {
      var init, last := evs[..|evs| - 1], evs[|evs| - 1];
      AllStarted(init, t);
      assert evs == init + [last];
      EventNetAppend(init, [last], t);
    }
  }

  lemma {:induction false} NoneStarted(evs: seq<Event>, t: int)
    requires forall e | e in evs :: t < e.ts
    ensures EventNet(evs, t) == 0
  {
    if evs != [] {
      NoneStarted(evs[1..], t);
    }
  }

  lemma {:induction false} RestNotNegative(evs: seq<Event>, t: int)
    requires forall e | e in evs :: e.ts <= t ==> e.delta >= 0
    ensures EventNet(evs, t) >= 0
  {
    if evs != [] {
      RestNotNegative(evs[1..], t);
    }
  }

  /** Between two consecutive events the net count is the running sum of the sweep. */
  lemma RunningSum(evs: seq<Event>, i: nat, t: int)
    requires SortedEvents(evs) && i <= |evs|
    requires i > 0 ==> evs[i - 1].ts <= t
    requires i < |evs| ==> t < evs[i].ts
    ensures EventNet(evs, t) == DeltaSum(evs[..i])
  {
    assert evs == evs[..i] + evs[i..];
    EventNetAppend(evs[..i], evs[i..], t);
    AllStarted(evs[..i], t);
    NoneStarted(evs[i..], t);
  }

  /** A count reached by a start is reached for good at that instant. */
  lemma ReachedBySomeInstant(evs: seq<Event>, i: nat)
    requires SortedEvents(evs) && i < |evs| && evs[i].delta == 1
    ensures EventNet(evs, evs[i].ts) >= DeltaSum(evs[..i + 1])
  {
    var t := evs[i].ts;
    assert evs == evs[..i + 1] + evs[i + 1..];
    EventNetAppend(evs[..i + 1], evs[i + 1..], t);
    AllStarted(evs[..i + 1], t);
    RestNotNegative(evs[i + 1..], t);
  }

  lemma SumExtends(evs: seq<Event>, i: nat)
    requires i < |evs|
    ensures DeltaSum(evs[..i + 1]) == DeltaSum(evs[..i]) + evs[i].delta
  {
    assert evs[..i + 1][..i] == evs[..i];
  }

  // ---- counting milliseconds ------------------------------------------------

  lemma {:induction false} MsSplit(ivs: seq<Interval>, n: int, a: int, m: int, b: int)
    requires a <= m <= b
    ensures MsAt(ivs, n, a, b) == MsAt(ivs, n, a, m) + MsAt(ivs, n, m, b)
    decreases b - m
  {
    if m < b {
      MsSplit(ivs, n, a, m, b - 1);
    }
  }

  lemma {:induction false} MsConstant(ivs: seq<Interval>, n: int, c: int, a: int, b: int)
    requires a <= b
    requires forall t | a <= t < b :: NetAt(ivs, t) == c
    ensures MsAt(ivs, n, a, b) == if n == c then b - a else 0
    decreases b - a
  {
    if a < b {
      MsConstant(ivs, n, c, a, b - 1);
    }
  }

  // ---- the sweeps -----------------------------------------------------------

  function Bucket(histogram: map<int, int>, n: int): int {
    if n in histogram then histogram[n] else 0
  }

  /** What the sweep has established once it has taken the first i events. */
  ghost predicate PeakSoFar(evs: seq<Event>, i: nat, peak: int)
    requires i <= |evs|
  {
    && peak >= 0
    && (forall t | i < |evs| ==> t < evs[i].ts :: EventNet(evs, t) <= peak)
    && (peak > 0 ==> exists t :: EventNet(evs, t) >= peak)
  }

  lemma PeakStep(evs: seq<Event>, i: nat, peak: int, peak': int)
    requires SortedEvents(evs) && i < |evs| && (evs[i].delta == 1 || evs[i].delta == -1)
    requires PeakSoFar(evs, i, peak) && DeltaSum(evs[..i]) <= peak
    requires peak' == if DeltaSum(evs[..i + 1]) > peak then DeltaSum(evs[..i + 1]) else peak
    ensures PeakSoFar(evs, i + 1, peak')
  {
    SumExtends(evs, i);
    forall t | i + 1 < |evs| ==> t < evs[i + 1].ts
      ensures EventNet(evs, t) <= peak'
    {
      if t >= evs[i].ts {
        RunningSum(evs, i + 1, t);
      }
    }
    if peak' > peak {
      ReachedBySomeInstant(evs, i);
    }
  }

  lemma PeakDone(ivs: seq<Interval>, evs: seq<Event>, peak: int)
    requires forall t :: EventNet(evs, t) == NetAt(ivs, t)
    requires PeakSoFar(evs, |evs|, peak)
    ensures IsPeak(ivs, peak)
  {
    forall t ensures NetAt(ivs, t) <= peak {
      assert EventNet(evs, t) <= peak;
    }
    if peak > 0 {
      var t :| EventNet(evs, t) >= peak;
      assert NetAt(ivs, t) == peak;
    }
  }

  /** peakOverlap: the greatest number of intervals overlapping at any instant. */
  method PeakOverlap(jobs: seq<Job>) returns (peak: int)
    ensures IsPeak(Timed(jobs), peak)
  {
    var points := CollectEvents(jobs);
    points := SortEvents(points);
    var cur := 0;
    peak := 0;
    for i := 0 to |points|
      invariant cur == DeltaSum(points[..i]) && peak == PeakAfter(points, i)
    {
      SumExtends(points, i);
      cur := cur + points[i].delta;
      if cur > peak {
        peak := cur;
      }
    }
    PeakReached(points, |points|);
    PeakDone(Timed(jobs), points, peak);
  }

  /** Both sweeps start by collecting the endpoints of the rows that carry both times. */
  method CollectEvents(jobs: seq<Job>) returns (events: seq<Event>)
    ensures events == Events(Timed(jobs))
  {
    events := [];
    for k := 0 to |jobs|
      invariant events + Events(Timed(jobs[k..])) == Events(Timed(jobs))
    {
      var j := jobs[k];
      assert jobs[k..][1..] == jobs[k + 1..];
      if !j.ran || j.startedAt.None? || j.completedAt.None? {
        continue;
      }
      ghost var rest := Timed(jobs[k + 1..]);
      ghost var iv := Interval(j.startedAt.value, j.completedAt.value);
      assert Timed(jobs[k..]) == [iv] + rest;
      assert ([iv] + rest)[1..] == rest;
      assert events + Events([iv] + rest)
          == events + [Event(iv.start, 1), Event(iv.end, -1)] + Events(rest);
      events := events + [Event(j.startedAt.value, 1), Event(j.completedAt.value, -1)];
    }
    assert jobs[|jobs|..] == [];
  }

  /** The histogram after i events: each bucket holds the milliseconds spent at its count so far. */
  ghost predicate HistogramSoFar(ivs: seq<Interval>, evs: seq<Event>, i: nat, histogram: map<int, int>)
    requires i <= |evs|
  {
    && (forall n | n in histogram :: n >= 1)
    && (forall n | n >= 1 ::
          Bucket(histogram, n) == if i == 0 then 0 else MsAt(ivs, n, evs[0].ts, evs[i - 1].ts))
  }

  lemma HistogramStep(ivs: seq<Interval>, evs: seq<Event>, i: nat, histogram: map<int, int>, histogram': map<int, int>)
    requires SortedEvents(evs) && i < |evs|
    requires forall t :: EventNet(evs, t) == NetAt(ivs, t)
    requires HistogramSoFar(ivs, evs, i, histogram)
    requires var cur := DeltaSum(evs[..i]);
      histogram' == if i > 0 && cur > 0
                    then histogram[cur := Bucket(histogram, cur) + (evs[i].ts - evs[i - 1].ts)]
                    else histogram
    ensures HistogramSoFar(ivs, evs, i + 1, histogram')
  {
    if i > 0 {
      var cur := DeltaSum(evs[..i]);
      var a, m, b := evs[0].ts, evs[i - 1].ts, evs[i].ts;
      forall t | m <= t < b ensures NetAt(ivs, t) == cur {
        RunningSum(evs, i, t);
        assert EventNet(evs, t) == NetAt(ivs, t);
      }
      forall n | n >= 1 ensures Bucket(histogram', n) == MsAt(ivs, n, a, b) {
        assert Bucket(histogram, n) == MsAt(ivs, n, a, m);
        MsSplit(ivs, n, a, m, b);
        MsConstant(ivs, n, cur, m, b);
      }
    } else {
      forall n | n >= 1 ensures Bucket(histogram', n) == MsAt(ivs, n, evs[0].ts, evs[0].ts) {
        assert Bucket(histogram, n) == 0;
      }
    }
  }

  lemma {:induction false} AllOver(ivs: seq<Interval>, b: int)
    requires forall i | 0 <= i < |ivs| :: ivs[i].start <= b && ivs[i].end <= b
    ensures NetAt(ivs, b) == 0
  {
    if ivs != [] {
      AllOver(ivs[1..], b);
    }
  }

  /** Widening the window past the first and last endpoint adds no positive count. */
  lemma HistogramDone(ivs: seq<Interval>, evs: seq<Event>, histogram: map<int, int>, n: int, a: int, b: int)
    requires SortedEvents(evs) && |evs| == 2 * |ivs|
    requires forall t :: EventNet(evs, t) == NetAt(ivs, t)
    requires Spans(ivs, a, b) && a <= b
    requires forall e | e in evs :: a <= e.ts <= b
    requires HistogramSoFar(ivs, evs, |evs|, histogram) && n >= 1
    ensures Bucket(histogram, n) == MsAt(ivs, n, a, b)
  {
    if evs == [] {
      assert ivs == [];
      MsConstant(ivs, n, 0, a, b);
    } else {
      var lo, hi := evs[0].ts, evs[|evs| - 1].ts;
      assert evs[0] in evs && evs[|evs| - 1] in evs;
      assert NotAfter(evs[0], evs[|evs| - 1]);
      RunningSum(evs, |evs|, b);
      AllOver(ivs, b);
      assert EventNet(evs, b) == NetAt(ivs, b);
      forall t | a <= t < lo || hi <= t < b ensures NetAt(ivs, t) == 0 {
        RunningSum(evs, if t < lo then 0 else |evs|, t);
        assert EventNet(evs, t) == NetAt(ivs, t);
      }
      MsConstant(ivs, n, 0, a, lo);
      MsConstant(ivs, n, 0, hi, b);
      MsSplit(ivs, n, a, lo, b);
      MsSplit(ivs, n, lo, hi, b);
    }
  }

  /** Bucket n of the histogram is the number of milliseconds at which the net count is n. */
  ghost predicate CountsEveryMs(ivs: seq<Interval>, histogram: map<int, int>) {
    && (forall n | n in histogram :: n >= 1)
    && (forall a, b | a <= b && Spans(ivs, a, b) :: CountsMs(histogram, ivs, a, b))
  }

  lemma HistogramCounts(jobs: seq<Job>, evs: seq<Event>, histogram: map<int, int>)
    requires evs == SortEvents(Events(Timed(jobs)))
    requires HistogramSoFar(Timed(jobs), evs, |evs|, histogram)
    ensures CountsEveryMs(Timed(jobs), histogram)
  {
    var ivs := Timed(jobs);
    forall a, b | a <= b && Spans(ivs, a, b) ensures CountsMs(histogram, ivs, a, b) {
      assert forall e | e in Events(ivs) :: a <= e.ts <= b;
      forall n | n >= 1 ensures Bucket(histogram, n) == MsAt(ivs, n, a, b) {
        HistogramDone(ivs, evs, histogram, n, a, b);
      }
    }
  }

  lemma NothingBeforeFirst(evs: seq<Event>)
    requires SortedEvents(evs)
    ensures PeakSoFar(evs, 0, 0)
  {
    forall t | 0 < |evs| ==> t < evs[0].ts ensures EventNet(evs, t) <= 0 {
      RunningSum(evs, 0, t);
    }
  }

  /** The greatest count, and the histogram, after the first i events. */
  function PeakAfter(evs: seq<Event>, i: nat): int
    requires i <= |evs|
  {
    if i == 0 then 0
    else
      var before, cur := PeakAfter(evs, i - 1), DeltaSum(evs[..i]);
      if cur > before then cur else before
  }

  function HistogramAfter(evs: seq<Event>, i: nat): map<int, int>
    requires i <= |evs|
  {
    if i == 0 then map[]
    else
      var before, cur := HistogramAfter(evs, i - 1), DeltaSum(evs[..i - 1]);
      if i > 1 && cur > 0 then before[cur := Bucket(before, cur) + (evs[i - 1].ts - evs[i - 2].ts)] else before
  }

  lemma {:induction false} PeakReached(evs: seq<Event>, i: nat)
    requires SortedEvents(evs) && i <= |evs| && forall e | e in evs :: e.delta == 1 || e.delta == -1
    ensures PeakSoFar(evs, i, PeakAfter(evs, i)) && DeltaSum(evs[..i]) <= PeakAfter(evs, i)
  {
    if i == 0 {
      NothingBeforeFirst(evs);
    } else {
      PeakReached(evs, i - 1);
      assert evs[i - 1] in evs;
      PeakStep(evs, i - 1, PeakAfter(evs, i - 1), PeakAfter(evs, i));
    }
  }

  lemma {:induction false} HistogramReached(ivs: seq<Interval>, evs: seq<Event>, i: nat)
    requires SortedEvents(evs) && i <= |evs| && forall t :: EventNet(evs, t) == NetAt(ivs, t)
    ensures HistogramSoFar(ivs, evs, i, HistogramAfter(evs, i))
  {
    if i > 0 {
      HistogramReached(ivs, evs, i - 1);
      HistogramStep(ivs, evs, i - 1, HistogramAfter(evs, i - 1), HistogramAfter(evs, i));
    }
  }

  /** The loop of the sweep. */
  method SweepEvents(events: seq<Event>) returns (maxConcurrent: int, histogram: map<int, int>)
    ensures maxConcurrent == PeakAfter(events, |events|)
    ensures histogram == HistogramAfter(events, |events|)
  {
    var cur, lastTs := 0, None;
    maxConcurrent, histogram := 0, map[];
    for i := 0 to |events|
      invariant cur == DeltaSum(events[..i])
      invariant lastTs == if i == 0 then None else Some(events[i - 1].ts)
      invariant maxConcurrent == PeakAfter(events, i)
      invariant histogram == HistogramAfter(events, i)
    {
      SumExtends(events, i);
      var ts, delta := events[i].ts, events[i].delta;
      if lastTs.Some? && cur > 0 {
        histogram := histogram[cur := Bucket(histogram, cur) + (ts - lastTs.value)];
      }
      cur := cur + delta;
      maxConcurrent := if cur > maxConcurrent then cur else maxConcurrent;
      lastTs := Some(ts);
    }
  }

  /** The sweep of analytics(): the most jobs at once, and the time spent at each count. */
  method Concurrency(jobs: seq<Job>) returns (maxConcurrent: int, histogram: map<int, int>)
    ensures IsPeak(Timed(jobs), maxConcurrent)
    ensures CountsEveryMs(Timed(jobs), histogram)
  {
    var events := CollectEvents(jobs);
    events := SortEvents(events);
    maxConcurrent, histogram := SweepEvents(events);
    PeakReached(events, |events|);
    PeakDone(Timed(jobs), events, maxConcurrent);
    HistogramReached(Timed(jobs), events, |events|);
    HistogramCounts(jobs, events, histogram);
  }

  // ---- what the histogram adds up to ----------------------------------------

  /** The sum of n * histogram[n] for n = 1 .. top. */
  function Weighted(histogram: map<int, int>, top: nat): int {
    if top == 0 then 0 else top * Bucket(histogram, top) + Weighted(histogram, top - 1)
  }

  /** The sum of histogram[n] for n = 1 .. top. */
  function BucketSum(histogram: map<int, int>, top: nat): int {
    if top == 0 then 0 else Bucket(histogram, top) + BucketSum(histogram, top - 1)
  }

  ghost predicate CountsMs(histogram: map<int, int>, ivs: seq<Interval>, a: int, b: int) {
    forall n | n >= 1 :: Bucket(histogram, n) == MsAt(ivs, n, a, b)
  }

  /** The net count summed over the milliseconds of [a, b), positive instants only or all of them. */
  function Area(ivs: seq<Interval>, a: int, b: int, positiveOnly: bool): int
    decreases b - a
  {
    if b <= a then 0
    else
      var n := NetAt(ivs, b - 1);
      Area(ivs, a, b - 1, positiveOnly) + (if positiveOnly && n < 0 then 0 else n)
  }

  function MsWeighted(ivs: seq<Interval>, a: int, b: int, top: nat): int {
    if top == 0 then 0 else top * MsAt(ivs, top, a, b) + MsWeighted(ivs, a, b, top - 1)
  }

  function MsSum(ivs: seq<Interval>, a: int, b: int, top: nat): int {
    if top == 0 then 0 else MsAt(ivs, top, a, b) + MsSum(ivs, a, b, top - 1)
  }

  lemma {:induction false} WeightedIsMs(histogram: map<int, int>, ivs: seq<Interval>, a: int, b: int, top: nat)
    requires CountsMs(histogram, ivs, a, b)
    ensures Weighted(histogram, top) == MsWeighted(ivs, a, b, top)
    ensures BucketSum(histogram, top) == MsSum(ivs, a, b, top)
  {
    if top > 0 {
      WeightedIsMs(histogram, ivs, a, b, top - 1);
      assert Bucket(histogram, top) == MsAt(ivs, top, a, b);
    }
  }

  lemma Distribute(k: int, x: int, y: int)
    ensures k * (x + y) == k * x + k * y
  {
  }

  lemma {:induction false} MsWeightedStep(ivs: seq<Interval>, a: int, b: int, top: nat)
    requires a < b
    ensures MsWeighted(ivs, a, b, top) == MsWeighted(ivs, a, b - 1, top)
              + (if 1 <= NetAt(ivs, b - 1) <= top then NetAt(ivs, b - 1) else 0)
    ensures MsSum(ivs, a, b, top) == MsSum(ivs, a, b - 1, top)
              + (if 1 <= NetAt(ivs, b - 1) <= top then 1 else 0)
  {
    if top > 0 {
      MsWeightedStep(ivs, a, b, top - 1);
      var here := if NetAt(ivs, b - 1) == top then 1 else 0;
      Distribute(top, MsAt(ivs, top, a, b - 1), here);
    }
  }

  lemma {:induction false} MsWeightedEmpty(ivs: seq<Interval>, a: int, b: int, top: nat)
    requires b <= a
    ensures MsWeighted(ivs, a, b, top) == 0 && MsSum(ivs, a, b, top) == 0
  {
    if top > 0 {
      MsWeightedEmpty(ivs, a, b, top - 1);
    }
  }

  lemma {:induction false} MsWeightedIsArea(ivs: seq<Interval>, a: int, b: int, top: nat)
    requires forall t :: NetAt(ivs, t) <= top
    ensures MsWeighted(ivs, a, b, top) == Area(ivs, a, b, true)
    ensures Ordered(ivs) ==> MsSum(ivs, a, b, top) == BusyMs(ivs, a, b)
    decreases b - a
  {
    if b <= a {
      MsWeightedEmpty(ivs, a, b, top);
    } else {
      MsWeightedIsArea(ivs, a, b - 1, top);
      MsWeightedStep(ivs, a, b, top);
      if Ordered(ivs) {
        NetIsOverlap(ivs, b - 1);
      }
    }
  }

  lemma {:induction false} AreaOfNone(a: int, b: int)
    ensures Area([], a, b, false) == 0
    decreases b - a
  {
    if a < b {
      AreaOfNone(a, b - 1);
    }
  }

  /** The area under the first interval alone, over the part of the window up to b. */
  lemma {:induction false} AreaPeel(ivs: seq<Interval>, a: int, b: int)
    requires ivs != [] && a <= b && a <= ivs[0].start && a <= ivs[0].end
    ensures var late := (x: int) => if x < b then b - x else 0;
      Area(ivs, a, b, false) == Area(ivs[1..], a, b, false) + late(ivs[0].start) - late(ivs[0].end)
    decreases b - a
  {
    if a < b {
      AreaPeel(ivs, a, b - 1);
    }
  }

  lemma {:induction false} AreaIsTotal(ivs: seq<Interval>, a: int, b: int)
    requires Spans(ivs, a, b) && a <= b
    ensures Area(ivs, a, b, false) == TotalMs(ivs)
  {
    if ivs == [] {
      AreaOfNone(a, b);
    } else {
      AreaPeel(ivs, a, b);
      forall i | 0 <= i < |ivs[1..]| ensures a <= ivs[1..][i].start <= b && a <= ivs[1..][i].end <= b {
        assert ivs[1..][i] == ivs[i + 1];
      }
      AreaIsTotal(ivs[1..], a, b);
    }
  }

  ghost predicate NeverNegative(ivs: seq<Interval>, a: int, b: int) {
    forall t | a <= t < b :: NetAt(ivs, t) >= 0
  }

  lemma {:induction false} AreasAgree(ivs: seq<Interval>, a: int, b: int)
    ensures Area(ivs, a, b, true) >= Area(ivs, a, b, false)
    ensures Area(ivs, a, b, true) == Area(ivs, a, b, false) <==> NeverNegative(ivs, a, b)
    decreases b - a
  {
    if a < b {
      AreasAgree(ivs, a, b - 1);
      assert NeverNegative(ivs, a, b) <==> NeverNegative(ivs, a, b - 1) && NetAt(ivs, b - 1) >= 0;
    }
  }

  /**
   Conservation. Weighing each bucket by its count gives back exactly the jobs'
   total time if and only if no instant has more ends than starts behind it; rows
   whose end is not before their start meet that, and then the buckets add up to
   the measure of the union of the intervals.
   */
  lemma Conservation(histogram: map<int, int>, peak: int, ivs: seq<Interval>, a: int, b: int)
    requires Spans(ivs, a, b) && a <= b
    requires CountsMs(histogram, ivs, a, b) && IsPeak(ivs, peak)
    ensures Weighted(histogram, peak) >= TotalMs(ivs)
    ensures Weighted(histogram, peak) == TotalMs(ivs) <==> NeverNegative(ivs, a, b)
    ensures Ordered(ivs) ==>
      Weighted(histogram, peak) == TotalMs(ivs) && BucketSum(histogram, peak) == BusyMs(ivs, a, b)
  {
    WeightedIsMs(histogram, ivs, a, b, peak);
    MsWeightedIsArea(ivs, a, b, peak);
    AreaIsTotal(ivs, a, b);
    AreasAgree(ivs, a, b);
    if Ordered(ivs) {
      forall t ensures NetAt(ivs, t) >= 0 {
        NetIsOverlap(ivs, t);
      }
    }
  }

  /** A row that ends before it starts can break it: the histogram then counts more than the rows' total. */
  lemma ReversedRowBreaksConservation(histogram: map<int, int>, peak: int)
    requires var ivs := [Interval(0, 10), Interval(30, 20)]; CountsMs(histogram, ivs, 0, 30) && IsPeak(ivs, peak)
    ensures Weighted(histogram, peak) > TotalMs([Interval(0, 10), Interval(30, 20)])
  {
    var ivs := [Interval(0, 10), Interval(30, 20)];
    assert ivs[1..] == [Interval(30, 20)];
    assert NetAt(ivs, 25) == -1;
    assert !NeverNegative(ivs, 0, 30);
    Conservation(histogram, peak, ivs, 0, 30);
  }

  /** Where another row runs meanwhile it does not: the two still add up. */
  lemma CoveredReversedRowConserves(histogram: map<int, int>, peak: int)
    requires var ivs := [Interval(0, 100), Interval(30, 20)]; CountsMs(histogram, ivs, 0, 100) && IsPeak(ivs, peak)
    ensures Weighted(histogram, peak) == TotalMs([Interval(0, 100), Interval(30, 20)])
  {
    var ivs := [Interval(0, 100), Interval(30, 20)];
    assert ivs[1..] == [Interval(30, 20)] && ivs[1..][1..] == [];
    forall t | 0 <= t < 100 ensures NetAt(ivs, t) >= 0 {
      assert NetAt(ivs, t) == Step(0, t) - Step(100, t) + NetAt(ivs[1..], t);
      assert NetAt(ivs[1..], t) == Step(30, t) - Step(20, t) + NetAt([], t);
    }
    Conservation(histogram, peak, ivs, 0, 100);
  }

  lemma {:induction false} NetRemove(ivs: seq<Interval>, i: nat, t: int)
    requires i < |ivs|
    ensures NetAt(ivs, t) == NetAt([ivs[i]], t) + NetAt(ivs[..i] + ivs[i + 1..], t)
  {
    var rest := ivs[..i] + ivs[i + 1..];
    if i == 0 {
      assert rest == ivs[1..];
    } else {
      NetRemove(ivs[1..], i - 1, t);
      assert rest[1..] == ivs[1..][..i - 1] + ivs[1..][i..];
    }
  }

  lemma PickOut(xs: seq<Interval>, ys: seq<Interval>) returns (i: nat, rest: seq<Interval>)
    requires xs != [] && multiset(xs) == multiset(ys)
    ensures i < |ys| && ys[i] == xs[0] && rest == ys[..i] + ys[i + 1..]
    ensures multiset(rest) == multiset(xs[1..])
  {
    assert xs[0] in multiset(ys);
    i :| 0 <= i < |ys| && ys[i] == xs[0];
    rest := ys[..i] + ys[i + 1..];
    TakeOut(ys, i);
    TakeOut(xs, 0);
    assert xs[..0] + xs[1..] == xs[1..];
  }

  lemma TakeOut(xs: seq<Interval>, i: nat)
    requires i < |xs|
    ensures multiset(xs[..i] + xs[i + 1..]) == multiset(xs) - multiset{xs[i]}
  {
    assert xs == xs[..i] + [xs[i]] + xs[i + 1..];
  }

  lemma {:induction false} NetIgnoresOrder(xs: seq<Interval>, ys: seq<Interval>, t: int)
    requires multiset(xs) == multiset(ys)
    ensures NetAt(xs, t) == NetAt(ys, t)
  {
    if xs == [] {
      assert |multiset(ys)| == 0;
    } else {
      var i, rest := PickOut(xs, ys);
      NetRemove(ys, i, t);
      NetIgnoresOrder(xs[1..], rest, t);
    }
  }

  /** The peak is a property of the intervals, not of the order they were listed in. */
  lemma PeakIgnoresOrder(xs: seq<Interval>, ys: seq<Interval>, p: int, q: int)
    requires multiset(xs) == multiset(ys) && IsPeak(xs, p) && IsPeak(ys, q)
    ensures p == q
  {
    forall t ensures NetAt(xs, t) == NetAt(ys, t) {
      NetIgnoresOrder(xs, ys, t);
    }
    if p > 0 {
      var t :| NetAt(xs, t) == p;
      assert NetAt(ys, t) == p;
    }
    if q > 0 {
      var t :| NetAt(ys, t) == q;
      assert NetAt(xs, t) == q;
    }
  }

  ghost predicate IsGreatestOverlap(ivs: seq<Interval>, p: int) {
    (forall t :: Overlap(ivs, t) <= p) && exists t :: Overlap(ivs, t) == p
  }

  /** For rows in order the peak is the greatest number of intervals sharing an instant. */
  lemma PeakIsGreatestOverlap(ivs: seq<Interval>, p: int)
    requires Ordered(ivs)
    ensures IsPeak(ivs, p) <==> IsGreatestOverlap(ivs, p)
  {
    forall t ensures NetAt(ivs, t) == Overlap(ivs, t) {
      NetIsOverlap(ivs, t);
    }
    if IsPeak(ivs, p) {
      forall t ensures Overlap(ivs, t) <= p {
        assert NetAt(ivs, t) <= p;
      }
      var at := Latest(ivs);
      AllOver(ivs, at);
      if p > 0 {
        at :| NetAt(ivs, at) == p;
      }
      assert Overlap(ivs, at) == p;
    }
    if IsGreatestOverlap(ivs, p) {
      forall t ensures NetAt(ivs, t) <= p {
        assert Overlap(ivs, t) <= p;
      }
      var at :| Overlap(ivs, at) == p;
      assert NetAt(ivs, at) == p;
    }
  }

  /**
   For any rows: the peak is the greatest number of intervals sharing an instant exactly
   when they share one over which no row runs backwards, and else it is less.
   */
  lemma PeakIsGreatestOverlapIff(ivs: seq<Interval>, p: int, q: int)
    requires IsPeak(ivs, p) && IsGreatestOverlap(ivs, q)
    ensures p <= q
    ensures p == q <==> exists t :: Overlap(ivs, t) == q && Backwards(ivs, t) == 0
  {
    forall t
      ensures NetAt(ivs, t) == Overlap(ivs, t) - Backwards(ivs, t) && Overlap(ivs, t) <= q && NetAt(ivs, t) <= p
    {
      NetIsOverlapLessBackwards(ivs, t);
    }
    if p == q {
      var at := PeakPlace(ivs, p);
      assert Overlap(ivs, at) == q && Backwards(ivs, at) == 0;
    }
    if t :| Overlap(ivs, t) == q && Backwards(ivs, t) == 0 {
      assert NetAt(ivs, t) == q;
    }
  }

  /** An instant at which the peak is reached: if need be, past all rows. */
  lemma PeakPlace(ivs: seq<Interval>, p: int) returns (at: int)
    requires IsPeak(ivs, p)
    ensures NetAt(ivs, at) == p && Backwards(ivs, at) >= 0
  {
    if p > 0 {
      at :| NetAt(ivs, at) == p;
    } else {
      at := Latest(ivs);
      AllOver(ivs, at);
      NoneOver(ivs, at);
    }
  }

  lemma {:induction false} NoneOver(ivs: seq<Interval>, b: int)
    requires forall i | 0 <= i < |ivs| :: ivs[i].start <= b && ivs[i].end <= b
    ensures Overlap(ivs, b) == 0 && Backwards(ivs, b) == 0
  {
    if ivs != [] {
      NoneOver(ivs[1..], b);
    }
  }

  function Latest(ivs: seq<Interval>): (b: int)
    ensures forall i | 0 <= i < |ivs| :: ivs[i].start <= b && ivs[i].end <= b
  {
    if ivs == [] then 0
    else
      var rest := Latest(ivs[1..]);
      var here := if ivs[0].start < ivs[0].end then ivs[0].end else ivs[0].start;
      if rest < here then here else rest
  }
}
