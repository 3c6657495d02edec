/**
 An agent host's admission log, carried to the coordinator: readPending and
 advance of dashboard/lib/admission-ship.js, the heartbeats that overlap in
 dashboard/agent.js, and the coordinator's side in dashboard/fleetd.js.
 */
module Shipping {
  import opened Wrappers
  import opened LogLines

  const SHIP_MAX_LINES: nat := 500
  const SHIP_MAX_BYTES: nat := 192 * 1024
  const TAKE_MAX: nat := 2000

  /** sizes holds the bytes of each line, newline included. */
  datatype Pending = Pending(offset: nat, lines: seq<Line>, sizes: seq<nat>)

  function Least(a: nat, b: nat): nat {
    if a < b then a else b
  }

  function SizesOf(lines: seq<Line>): (sizes: seq<nat>)
    ensures |sizes| == |lines|
  {
    seq(|lines|, i requires 0 <= i < |lines| => |lines[i]| + 1)
  }

  // ---- the offset file -----------------------------------------------------------

  class OffsetFile {
    /** What Number makes of the file: None when there is none, or no finite number in it. */
    var contents: Option<int>

    constructor (contents: Option<int>)
      ensures this.contents == contents
    {
      this.contents := contents;
    }

    /** First start means from the end of the log, and is written down at once. */
    method LoadOffset(log: Option<seq<Byte>>) returns (n: nat)
      modifies this
      ensures old(contents).Some? && old(contents).value >= 0 ==> n == old(contents).value && contents == old(contents)
      ensures !(old(contents).Some? && old(contents).value >= 0) ==> n == |log.GetOr([])| && contents == Some(n)
    {
      if contents.Some? && contents.value >= 0 {
        return contents.value;
      }
      n := |log.GetOr([])|;
      SaveOffset(n);
    }

    method SaveOffset(n: nat)
      modifies this
      ensures contents == Some(n)
    {
      contents := Some(n);
    }
  }

  // ---- reading -----------------------------------------------------------------

  /** The cursor to read from: back to the start when the file is gone, or shorter than it was. */
  function From(log: Option<seq<Byte>>, offset: nat): nat {
    if log.None? || |log.value| < offset then 0 else offset
  }

  /** The bytes one read gives: at most maxBytes, perhaps fewer than asked for. */
  function ReadBytes(log: Option<seq<Byte>>, offset: nat, maxBytes: nat, missing: nat): seq<Byte> {
    var rest := log.GetOr([])[From(log, offset)..];
    var want := Least(|rest|, maxBytes);
    rest[..want - Least(want, missing)]
  }

  function PendingOf(log: Option<seq<Byte>>, offset: nat, maxLines: nat, maxBytes: nat, missing: nat): Pending {
    var all := Lines(ReadBytes(log, offset, maxBytes, missing));
    var lines := all[..Least(|all|, maxLines)];
    Pending(From(log, offset), lines, SizesOf(lines))
  }

  /** The scan so far: the lines ended, and where the one under way begins. */
  predicate Scanned(buf: seq<Byte>, start: nat, i: nat, lines: seq<Line>, sizes: seq<nat>) {
    && start <= i <= |buf|
    && lines == Lines(buf[..i]) && sizes == SizesOf(lines) && buf[start..i] == Tail(buf[..i])
  }

  lemma ScanStep(buf: seq<Byte>, start: nat, i: nat, lines: seq<Line>, sizes: seq<nat>)
    requires i < |buf| && Scanned(buf, start, i, lines, sizes)
    ensures if buf[i] == NL then Scanned(buf, i + 1, i + 1, lines + [buf[start..i]], sizes + [i + 1 - start])
            else Scanned(buf, start, i + 1, lines, sizes)
  {
    assert buf[..i + 1] == buf[..i] + [buf[i]];
    SplitSnoc(buf[..i], buf[i]);
    if buf[i] == NL {
      assert SizesOf(lines + [buf[start..i]]) == SizesOf(lines) + [i + 1 - start];
    } else {
      assert buf[start..i + 1] == buf[start..i] + [buf[i]];
    }
  }

  lemma ScanEnds(buf: seq<Byte>, i: nat, maxLines: nat)
    requires i <= |buf| && |Lines(buf[..i])| <= maxLines && (i == |buf| || |Lines(buf[..i])| == maxLines)
    ensures Lines(buf[..i]) == Lines(buf)[..Least(|Lines(buf)|, maxLines)]
  {
    if i == |buf| {
      assert buf[..i] == buf;
    } else {
      assert buf == buf[..i] + buf[i..];
      LinesGrow(buf[..i], buf[i..]);
    }
  }

  /** readPending: the complete lines among the bytes read, found in one scan. */
  method ReadPending(log: Option<seq<Byte>>, offset: nat, maxLines: nat, maxBytes: nat, missing: nat)
    returns (p: Pending)
    ensures p == PendingOf(log, offset, maxLines, maxBytes, missing)
  {
    var buf := ReadBytes(log, offset, maxBytes, missing);
    var lines: seq<Line>, sizes: seq<nat> := [], [];
    var start: nat, i: nat := 0, 0;
    while i < |buf| && |lines| < maxLines
      invariant Scanned(buf, start, i, lines, sizes) && |lines| <= maxLines
    {
      ScanStep(buf, start, i, lines, sizes);
      if buf[i] == NL {
        lines := lines + [buf[start..i]];
        sizes := sizes + [i + 1 - start];
        start := i + 1;
      }
      i := i + 1;
    }
    ScanEnds(buf, i, maxLines);
    p := Pending(From(log, offset), lines, sizes);
  }

  function Sum(sizes: seq<nat>): nat {
    if sizes == [] then 0 else Sum(sizes[..|sizes| - 1]) + sizes[|sizes| - 1]
  }

  /** advance: the offset once the first `accepted` lines were taken. */
  function Advance(p: Pending, accepted: int): nat {
    var n := if accepted < 0 then 0 else Least(accepted, |p.sizes|);
    p.offset + Sum(p.sizes[..n])
  }

  lemma {:induction false} SumIsJoin(lines: seq<Line>, n: nat)
    requires n <= |lines|
    ensures Sum(SizesOf(lines)[..n]) == |Join(lines[..n])|
  {
    if n > 0 {
      SumIsJoin(lines, n - 1);
      assert SizesOf(lines)[..n][..n - 1] == SizesOf(lines)[..n - 1];
      assert lines[..n][..n - 1] == lines[..n - 1];
    }
  }

  /** A place between two lines of the log, after its first n. */
  predicate IsCut(log: seq<Byte>, c: nat, n: nat) {
    c <= |log| && Boundary(log[..c]) && |Lines(log[..c])| == n
  }

  /** Lines n and on of the log. */
  predicate Follows(log: seq<Byte>, n: nat, lines: seq<Line>) {
    n + |lines| <= |Lines(log)| && Lines(log)[n..n + |lines|] == lines
  }

  /**
   Read from between two lines, a batch is the lines that follow, and taking any number
   of them leads between two lines again.
   */
  lemma ReadFollows(log: seq<Byte>, offset: nat, n: nat, maxLines: nat, maxBytes: nat, missing: nat)
    requires IsCut(log, offset, n)
    ensures var p := PendingOf(Some(log), offset, maxLines, maxBytes, missing);
      && p.offset == offset && |p.sizes| == |p.lines| && Follows(log, n, p.lines)
      && forall k: nat | k <= |p.lines| :: IsCut(log, Advance(p, k), n + k)
  {
    var p := PendingOf(Some(log), offset, maxLines, maxBytes, missing);
    var buf := ReadBytes(Some(log), offset, maxBytes, missing);
    assert buf <= log[offset..];
    forall k: nat | k <= |p.lines|
      ensures IsCut(log, offset + Sum(p.sizes[..k]), n + k) && Follows(log, n, p.lines[..k])
    {
      assert Lines(buf)[..k] == p.lines[..k];
      TakesLeadTo(log, offset, n, buf, p.lines, k);
    }
    assert p.lines[..|p.lines|] == p.lines;
  }

  /** The bytes of the first k lines. */
  lemma HeadOf(buf: seq<Byte>, lines: seq<Line>, k: nat) returns (head: seq<Byte>)
    requires k <= |lines| && k <= |Lines(buf)| && Lines(buf)[..k] == lines[..k]
    ensures head <= buf && Boundary(head) && Lines(head) == lines[..k] && |head| == Sum(SizesOf(lines)[..k])
  {
    head := Join(lines[..k]);
    TakeLines(buf, k);
    SumIsJoin(lines, k);
  }

  lemma TakesLeadTo(log: seq<Byte>, c: nat, n: nat, buf: seq<Byte>, lines: seq<Line>, k: nat)
    requires IsCut(log, c, n) && buf <= log[c..] && k <= |lines| && k <= |Lines(buf)| && Lines(buf)[..k] == lines[..k]
    ensures IsCut(log, c + Sum(SizesOf(lines)[..k]), n + k) && Follows(log, n, lines[..k])
  {
    var head := HeadOf(buf, lines, k);
    CutMoves(log, c, n, buf, head);
  }

  lemma CutMoves(log: seq<Byte>, c: nat, n: nat, buf: seq<Byte>, head: seq<Byte>)
    requires IsCut(log, c, n) && Boundary(head) && head <= buf <= log[c..]
    ensures IsCut(log, c + |head|, n + |Lines(head)|) && Follows(log, n, Lines(head))
  {
    var before, after := log[..c], log[c + |head|..];
    assert log == before + head + after;
    CutInParts(before, head, after);
  }

  lemma CutInParts(before: seq<Byte>, head: seq<Byte>, after: seq<Byte>)
    requires Boundary(before) && Boundary(head)
    ensures IsCut(before + head + after, |before| + |head|, |Lines(before)| + |Lines(head)|)
    ensures Follows(before + head + after, |Lines(before)|, Lines(head))
  {
    LinesAppend(before, head);
    BoundaryAppend(before, head);
    assert (before + head + after)[..|before| + |head|] == before + head;
    LinesAppend(before + head, after);
    FollowsIn(before + head + after, Lines(before), Lines(head), Lines(after));
  }

  lemma BoundaryAppend(before: seq<Byte>, head: seq<Byte>)
    requires Boundary(before) && Boundary(head)
    ensures Boundary(before + head)
  {
    if head != [] {
      assert (before + head)[|before + head| - 1] == head[|head| - 1];
    } else {
      assert before + head == before;
    }
  }

  lemma FollowsIn(log: seq<Byte>, before: seq<Line>, lines: seq<Line>, after: seq<Line>)
    requires Lines(log) == before + lines + after
    ensures Follows(log, |before|, lines)
  {
    assert (before + lines + after)[|before|..|before| + |lines|] == lines;
  }

  /**
   A read that misses nothing moves on exactly when a line is complete and fits:
   a line longer than the limit never ships, nor does anything after it.
   */
  lemma ProgressIff(log: seq<Byte>, offset: nat, maxLines: nat, maxBytes: nat)
    requires offset <= |log| && maxLines > 0
    ensures var rest := Lines(log[offset..]);
      PendingOf(Some(log), offset, maxLines, maxBytes, 0).lines != [] <==> rest != [] && |rest[0]| + 1 <= maxBytes
  {
    var text := log[offset..];
    var want := Least(|text|, maxBytes);
    assert ReadBytes(Some(log), offset, maxBytes, 0) == text[..want];
    assert text == text[..want] + text[want..];
    FirstFits(text[..want], text[want..]);
    if Lines(text) != [] && |Lines(text)[0]| + 1 <= maxBytes {
      FirstIsRead(text, want);
    }
  }

  lemma FirstFits(buf: seq<Byte>, more: seq<Byte>)
    ensures Lines(buf) != [] ==>
      Lines(buf + more) != [] && Lines(buf + more)[0] == Lines(buf)[0] && |Lines(buf)[0]| + 1 <= |buf|
  {
    LinesGrow(buf, more);
    if Lines(buf) != [] {
      TakeLines(buf, 1);
      FirstSize(buf);
    }
  }

  lemma FirstIsRead(text: seq<Byte>, want: nat)
    requires want <= |text| && Lines(text) != [] && (want == |text| || |Lines(text)[0]| + 1 <= want)
    ensures Lines(text[..want]) != []
  {
    TakeLines(text, 1);
    FirstSize(text);
    var head := Join(Lines(text)[..1]);
    assert text[..want] == head + text[..want][|head|..];
    LinesGrow(head, text[..want][|head|..]);
  }

  lemma FirstSize(s: seq<Byte>)
    requires Lines(s) != []
    ensures |Join(Lines(s)[..1])| == |Lines(s)[0]| + 1
  {
    JoinSnoc([], Lines(s)[0]);
    assert Lines(s)[..1] == [] + [Lines(s)[0]];
  }

  lemma ReadIsFirst(text: seq<Byte>, want: nat)
    requires want <= |text|
    ensures Lines(text[..want]) <= Lines(text)
  {
    assert text == text[..want] + text[want..];
    LinesGrow(text[..want], text[want..]);
  }

  /** What is read of the text holds its first k lines exactly when these are no longer than it. */
  lemma JoinFits(text: seq<Byte>, want: nat, k: nat)
    requires want <= |text| && k <= |Lines(text)|
    ensures k <= |Lines(text[..want])| <==> |Join(Lines(text)[..k])| <= want
  {
    ReadIsFirst(text, want);
    TakeLines(text, k);
    if k <= |Lines(text[..want])| {
      assert Lines(text[..want])[..k] == Lines(text)[..k];
      TakeLines(text[..want], k);
    }
    if |Join(Lines(text)[..k])| <= want {
      HeadFits(text[..want], Join(Lines(text)[..k]));
    }
  }

  lemma HeadFits(buf: seq<Byte>, head: seq<Byte>)
    requires head <= buf
    ensures |Lines(head)| <= |Lines(buf)|
  {
    assert buf == head + buf[|head|..];
    LinesGrow(head, buf[|head|..]);
  }

  /**
   A read that misses nothing takes the first complete lines after the cursor, and one
   more would be over one of the limits, or there is none.
   */
  lemma BatchIsFull(log: seq<Byte>, offset: nat, maxLines: nat, maxBytes: nat)
    requires offset <= |log|
    ensures var p, rest := PendingOf(Some(log), offset, maxLines, maxBytes, 0), Lines(log[offset..]);
      var k := |p.lines|;
      && p.offset == offset && k <= |rest| && p.lines == rest[..k]
      && k <= maxLines && |Join(rest[..k])| <= maxBytes
      && (k == |rest| || k == maxLines || |Join(rest[..k + 1])| > maxBytes)
  {
    var text := log[offset..];
    var want := Least(|text|, maxBytes);
    var p, rest := PendingOf(Some(log), offset, maxLines, maxBytes, 0), Lines(text);
    var k := |p.lines|;
    assert ReadBytes(Some(log), offset, maxBytes, 0) == text[..want];
    ReadIsFirst(text, want);
    assert p.lines == Lines(text[..want])[..k] == rest[..k];
    JoinFits(text, want, k);
    if k < |rest| && k < maxLines {
      JoinFits(text, want, k + 1);
      TakeLines(text, k + 1);
    }
  }

  /** Without a log there is nothing to send, and a log that is shorter than it was is read from its start. */
  lemma LostLogStartsOver(log: Option<seq<Byte>>, offset: nat, maxLines: nat, maxBytes: nat, missing: nat)
    requires log.Some? ==> |log.value| < offset
    ensures PendingOf(log, offset, maxLines, maxBytes, missing)
         == if log.None? then Pending(0, [], []) else PendingOf(log, 0, maxLines, maxBytes, missing)
  {
  }

  /** A count the coordinator cannot have taken moves no further than its batch, and none moves nowhere. */
  lemma AdvanceStays(p: Pending, accepted: int)
    ensures accepted <= 0 ==> Advance(p, accepted) == p.offset
    ensures accepted >= |p.sizes| ==> Advance(p, accepted) == Advance(p, |p.sizes|)
  {
  }
}
