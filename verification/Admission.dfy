/**
 The coordinator's own admission log: ingest and ingestLines of
 dashboard/lib/admission.js. What a line makes of the table, a row or nothing
 (blank, malformed or refused), is the parameter row.
 */
module Admission {
  import opened Wrappers
  import opened LogLines

  function RowsOf<R>(row: Line -> Option<R>, lines: seq<Line>): seq<R> {
    if lines == [] then []
    else
      var before, r := RowsOf(row, lines[..|lines| - 1]), row(lines[|lines| - 1]);
      if r.Some? then before + [r.value] else before
  }

  lemma {:induction false} RowsAppend<R>(row: Line -> Option<R>, xs: seq<Line>, ys: seq<Line>)
    ensures RowsOf(row, xs + ys) == RowsOf(row, xs) + RowsOf(row, ys)
  {
    if ys == [] {
      assert xs + ys == xs;
    } else {
      var init, last := ys[..|ys| - 1], ys[|ys| - 1];
      RowsAppend(row, xs, init);
      assert (xs + ys)[..|xs + ys| - 1] == xs + init;
    }
  }

  /** A line gives its own row or none; with the lemma before, that is all there is to say of the rows of many. */
  lemma RowOfOne<R>(row: Line -> Option<R>, line: Line)
    ensures RowsOf(row, [line]) == if row(line).Some? then [row(line).value] else []
  {
    assert [line][..0] == [];
  }

  /** lastIndexOf of the newline, plus one: where the complete lines end. */
  method EndOfLines(text: seq<Byte>) returns (n: nat)
    ensures n <= |text| && Boundary(text[..n]) && Lines(text[..n]) == Lines(text) && text[n..] == Tail(text)
  {
    n := |text|;
    assert text[..n] == text;
    while n > 0 && text[n - 1] != NL
      invariant n <= |text| && Lines(text[..n]) == Lines(text) && Tail(text[..n]) + text[n..] == Tail(text)
    {
      assert text[..n] == text[..n - 1] + [text[n - 1]];
      SplitSnoc(text[..n - 1], text[n - 1]);
      assert [text[n - 1]] + text[n..] == text[n - 1..];
      n := n - 1;
    }
    TailOfBoundary(text[..n]);
  }

  /** Where a pass reads from: back at the start of a log shorter than the cursor. */
  function From(log: seq<Byte>, offset: nat): nat {
    if |log| < offset then 0 else offset
  }

  /** The bytes a pass gets, perhaps fewer than it asked for. */
  function Text(log: seq<Byte>, offset: nat, missing: nat): seq<Byte> {
    var rest := log[From(log, offset)..];
    rest[..if missing < |rest| then |rest| - missing else 0]
  }

  /** Where a pass leaves the cursor: past the lines it took, and as it was when there were none. */
  function CursorAfter(log: seq<Byte>, offset: nat, missing: nat): nat {
    var lines := Lines(Text(log, offset, missing));
    if lines == [] then offset else From(log, offset) + |Join(lines)|
  }

  /** The cursor stands between two lines, and the rows are those of the lines before it, split once. */
  ghost predicate Imported<R(!new)>(row: Line -> Option<R>, log: seq<Byte>, offset: nat, rows: seq<R>) {
    offset <= |log| && Boundary(log[..offset]) && rows == RowsOf(row, Lines(log[..offset]))
  }

  lemma BoundaryMoves(before: seq<Byte>, lines: seq<Byte>)
    requires Boundary(before) && Boundary(lines)
    ensures Boundary(before + lines)
  {
    if lines != [] {
      assert (before + lines)[|before + lines| - 1] == lines[|lines| - 1];
    } else {
      assert before + lines == before;
    }
  }

  lemma CursorMoves<R(!new)>(row: Line -> Option<R>, log: seq<Byte>, offset: nat, rows: seq<R>, lines: seq<Byte>)
    requires Imported(row, log, offset, rows) && lines <= log[offset..] && Boundary(lines)
    ensures Imported(row, log, offset + |lines|, rows + RowsOf(row, Lines(lines)))
  {
    InParts(log, offset, lines);
    ImportedInParts(row, log[..offset], lines, log[offset + |lines|..]);
  }

  lemma InParts(log: seq<Byte>, offset: nat, lines: seq<Byte>)
    requires offset <= |log| && lines <= log[offset..]
    ensures log == log[..offset] + lines + log[offset + |lines|..]
  {
  }

  lemma ImportedInParts<R(!new)>(row: Line -> Option<R>, before: seq<Byte>, lines: seq<Byte>, after: seq<Byte>)
    requires Boundary(before) && Boundary(lines)
    ensures Imported(row, before + lines + after, |before| + |lines|,
      RowsOf(row, Lines(before)) + RowsOf(row, Lines(lines)))
  {
    assert (before + lines + after)[..|before| + |lines|] == before + lines;
    BoundaryMoves(before, lines);
    RowsInParts(row, before, lines);
  }

  lemma RowsInParts<R>(row: Line -> Option<R>, before: seq<Byte>, text: seq<Byte>)
    requires Boundary(before)
    ensures RowsOf(row, Lines(before + text)) == RowsOf(row, Lines(before)) + RowsOf(row, Lines(text))
  {
    LinesAppend(before, text);
    RowsAppend(row, Lines(before), Lines(text));
  }

  lemma GrownLog<R(!new)>(row: Line -> Option<R>, was: seq<Byte>, log: seq<Byte>, offset: nat, rows: seq<R>)
    requires Imported(row, was, offset, rows) && was <= log
    ensures Imported(row, log, offset, rows)
  {
    assert log[..offset] == was[..offset];
  }

  class Importer<R(!new)> {
    const row: Line -> Option<R>
    var offset: nat
    var rows: seq<R>

    constructor (row: Line -> Option<R>)
      ensures this.row == row && offset == 0 && rows == []
    {
      this.row := row;
      offset, rows := 0, [];
    }

    /** ingestLines: a line that makes no row does not stop the rest. */
    method IngestLines(lines: seq<Line>) returns (n: nat)
      modifies this`rows
      ensures rows == old(rows) + RowsOf(row, lines) && n == |RowsOf(row, lines)|
    {
      n := 0;
      for i := 0 to |lines|
        invariant rows == old(rows) + RowsOf(row, lines[..i]) && n == |RowsOf(row, lines[..i])|
      {
        assert lines[..i + 1][..i] == lines[..i];
        var r := row(lines[i]);
        if r.Some? {
          rows := rows + [r.value];
          n := n + 1;
        }
      }
      assert lines[..|lines|] == lines;
    }

    /** ingest: the complete lines among the bytes read make rows, and the cursor moves past exactly them. */
    method Ingest(log: Option<seq<Byte>>, missing: nat) returns (n: nat)
      modifies this
      ensures log.None? ==> n == 0 && rows == old(rows) && offset == old(offset)
      ensures log.Some? ==>
        var lines := Lines(Text(log.value, old(offset), missing));
        && rows == old(rows) + RowsOf(row, lines) && n == |RowsOf(row, lines)|
        && offset == CursorAfter(log.value, old(offset), missing)
    {
      if log.None? {
        return 0;
      }
      var text := Text(log.value, offset, missing);
      var consumed := EndOfLines(text);
      if consumed == 0 {
        return 0;
      }
      BoundaryJoins(text[..consumed]);
      n := IngestLines(Lines(text[..consumed]));
      offset := From(log.value, offset) + consumed;
    }
  }

  lemma PassTakes(log: seq<Byte>, offset: nat, missing: nat) returns (lines: seq<Byte>)
    requires offset <= |log|
    ensures lines <= log[offset..] && Boundary(lines) && Lines(lines) == Lines(Text(log, offset, missing))
    ensures CursorAfter(log, offset, missing) == offset + |lines|
  {
    lines := CompleteLines(Text(log, offset, missing));
    assert Lines(lines) == [] ==> Join(Lines(lines)) == [];
  }

  /**
   One pass over a log that only grew since the last: whatever was appended in
   between, mid-line or not, and however many bytes the pass got, the rows stay
   those of splitting the log once; and a pass that misses nothing leaves no
   complete line behind.
   */
  lemma PassKeepsImport<R(!new)>(row: Line -> Option<R>, was: seq<Byte>, log: seq<Byte>, offset: nat, rows: seq<R>,
      missing: nat)
    requires Imported(row, was, offset, rows) && was <= log
    ensures var offset', rows' :=
        CursorAfter(log, offset, missing), rows + RowsOf(row, Lines(Text(log, offset, missing)));
      && offset' >= offset && Imported(row, log, offset', rows')
      && (missing == 0 ==> rows' == RowsOf(row, Lines(log)))
  {
    GrownLog(row, was, log, offset, rows);
    var text := Text(log, offset, missing);
    var lines := PassTakes(log, offset, missing);
    CursorMoves(row, log, offset, rows, lines);
    if missing == 0 {
      assert text == log[offset..] && log == log[..offset] + text;
      RowsInParts(row, log[..offset], text);
    }
  }

  lemma {:induction false} CompleteLines(text: seq<Byte>) returns (lines: seq<Byte>)
    ensures lines <= text && Boundary(lines) && Lines(lines) == Lines(text) && lines == Join(Lines(text))
  {
    TakeLines(text, |Lines(text)|);
    assert Lines(text)[..|Lines(text)|] == Lines(text);
    lines := Join(Lines(text));
  }

  // ---- any run of growth and passes -------------------------------------------------

  /** The log grows, or a pass comes that gets all but so many of the bytes after the cursor. */
  datatype Event = Grow(bytes: seq<Byte>) | Pass(missing: nat)

  datatype System<R> = System(log: seq<Byte>, offset: nat, rows: seq<R>)

  function Gained(e: Event): seq<Byte> {
    if e.Grow? then e.bytes else []
  }

  /** A pass is Importer.Ingest over the log. */
  function After<R>(row: Line -> Option<R>, s: System<R>, e: Event): System<R> {
    match e
    case Grow(bytes) => s.(log := s.log + bytes)
    case Pass(missing) =>
      System(s.log, CursorAfter(s.log, s.offset, missing),
             s.rows + RowsOf(row, Lines(Text(s.log, s.offset, missing))))
  }

  function RunOf<R>(row: Line -> Option<R>, s: System<R>, es: seq<Event>): System<R>
    decreases |es|
  {
    if es == [] then s else RunOf(row, After(row, s, es[0]), es[1..])
  }

  lemma Regroup<T>(a: seq<T>, b: seq<T>, c: seq<T>)
    ensures (a + b) + c == a + (b + c)
  {
  }

  /** All that was appended in the run. */
  function Appended(es: seq<Event>): seq<Byte> {
    if es == [] then [] else Gained(es[0]) + Appended(es[1..])
  }

  lemma {:induction false} LogGains<R(!new)>(row: Line -> Option<R>, s: System<R>, es: seq<Event>)
    ensures RunOf(row, s, es).log == s.log + Appended(es)
    decreases |es|
  {
    if es == [] {
      assert s.log + [] == s.log;
    } else {
      LogGains(row, After(row, s, es[0]), es[1..]);
      Regroup(s.log, Gained(es[0]), Appended(es[1..]));
      assert After(row, s, es[0]).log == s.log + Gained(es[0]);
    }
  }

  ghost predicate Keeps<R(!new)>(row: Line -> Option<R>, s: System<R>) {
    Imported(row, s.log, s.offset, s.rows)
  }

  lemma StepKeeps<R(!new)>(row: Line -> Option<R>, s: System<R>, e: Event)
    requires Keeps(row, s)
    ensures Keeps(row, After(row, s, e))
    ensures e == Pass(0) ==> After(row, s, e).rows == RowsOf(row, Lines(s.log))
  {
    match e
    case Grow(bytes) => GrownLog(row, s.log, s.log + bytes, s.offset, s.rows);
    case Pass(missing) => PassKeepsImport(row, s.log, s.log, s.offset, s.rows, missing);
  }

  lemma {:induction false} RunKeeps<R(!new)>(row: Line -> Option<R>, s: System<R>, es: seq<Event>)
    requires Keeps(row, s)
    ensures Keeps(row, RunOf(row, s, es))
    ensures es != [] && es[|es| - 1] == Pass(0) ==>
      RunOf(row, s, es).rows == RowsOf(row, Lines(RunOf(row, s, es).log))
    decreases |es|
  {
    if es != [] {
      StepKeeps(row, s, es[0]);
      if |es| == 1 {
        assert RunOf(row, s, es) == RunOf(row, After(row, s, es[0]), es[1..]) == After(row, s, es[0]);
      } else {
        RunKeeps(row, After(row, s, es[0]), es[1..]);
      }
    }
  }

  /**
   Over any run from an empty log, however growth and passes alternate and whatever the
   passes miss: the rows are those of splitting, once, what lies before the cursor of
   all that was appended; and after a pass that misses nothing they are those of all of
   it.
   */
  lemma RunsKeepImport<R(!new)>(row: Line -> Option<R>, es: seq<Event>)
    ensures var s := RunOf(row, System([], 0, []), es);
      && s.log == Appended(es) && Imported(row, s.log, s.offset, s.rows)
      && (es != [] && es[|es| - 1] == Pass(0) ==> s.rows == RowsOf(row, Lines(Appended(es))))
  {
    var start: System<R> := System([], 0, []);
    assert Keeps(row, start);
    RunKeeps(row, start, es);
    LogGains(row, start, es);
    assert [] + Appended(es) == Appended(es);
  }

  // ---- a log that was cut short -----------------------------------------------------------

  /** part is what s comes to from byte b of the log on, apart from the rows before. */
  predicate Shifted<R(==)>(s: System<R>, part: System<R>, b: nat, before: seq<R>) {
    && b <= |s.log| && part.log == s.log[b..] && part.offset <= |part.log|
    && s.offset == b + part.offset && s.rows == before + part.rows
  }

  lemma TextFrom(log: seq<Byte>, b: nat, offset: nat, missing: nat)
    requires b <= offset <= |log|
    ensures Text(log[b..], offset - b, missing) == Text(log, offset, missing)
    ensures CursorAfter(log[b..], offset - b, missing) == CursorAfter(log, offset, missing) - b
  {
    assert log[b..][offset - b..] == log[offset..];
  }

  lemma PassShifts<R>(row: Line -> Option<R>, s: System<R>, part: System<R>, b: nat, before: seq<R>, missing: nat)
    requires Shifted(s, part, b, before) && CursorAfter(part.log, part.offset, missing) <= |part.log|
    ensures Shifted(After(row, s, Pass(missing)), After(row, part, Pass(missing)), b, before)
  {
    TextFrom(s.log, b, s.offset, missing);
    var more := RowsOf(row, Lines(Text(s.log, s.offset, missing)));
    assert After(row, s, Pass(missing)).rows == s.rows + more;
    assert After(row, part, Pass(missing)).rows == part.rows + more;
    Regroup(before, part.rows, more);
  }

  lemma StepShifts<R(!new)>(row: Line -> Option<R>, s: System<R>, part: System<R>, b: nat, before: seq<R>, e: Event)
    requires Shifted(s, part, b, before) && Keeps(row, part)
    ensures Shifted(After(row, s, e), After(row, part, e), b, before)
  {
    match e
    case Grow(bytes) =>
      assert (s.log + bytes)[b..] == s.log[b..] + bytes;
    case Pass(missing) =>
      StepKeeps(row, part, e);
      PassShifts(row, s, part, b, before, missing);
  }

  lemma {:induction false} RunShifts<R(!new)>(row: Line -> Option<R>, s: System<R>, part: System<R>, b: nat,
      before: seq<R>, es: seq<Event>)
    requires Shifted(s, part, b, before) && Keeps(row, part)
    ensures Shifted(RunOf(row, s, es), RunOf(row, part, es), b, before)
    decreases |es|
  {
    if es != [] {
      StepShifts(row, s, part, b, before, es[0]);
      StepKeeps(row, part, es[0]);
      RunShifts(row, After(row, s, es[0]), After(row, part, es[0]), b, before, es[1..]);
    }
  }

  /** So what is taken from byte b on is what a log beginning there would give. */
  lemma TakenFrom<R(!new)>(row: Line -> Option<R>, s: System<R>, part: System<R>, b: nat, before: seq<R>,
      es: seq<Event>)
    requires Shifted(s, part, b, before) && Keeps(row, part) && es != [] && es[|es| - 1] == Pass(0)
    ensures b <= |RunOf(row, s, es).log|
    ensures RunOf(row, s, es).rows == before + RowsOf(row, Lines(RunOf(row, s, es).log[b..]))
  {
    RunShifts(row, s, part, b, before, es);
    RunKeeps(row, part, es);
  }

  /** A pass finds the log shorter than the cursor, and a complete line in it. */
  predicate FoundShort(log: seq<Byte>, cursor: nat, es: seq<Event>)
    decreases |es|
  {
    es != [] &&
    ((es[0].Pass? && |log| < cursor && Lines(log) != []) || FoundShort(log + Gained(es[0]), cursor, es[1..]))
  }

  predicate AllFull(es: seq<Event>) {
    forall e | e in es && e.Pass? :: e.missing == 0
  }

  /** The part of the log a run takes in the end: all of it once it was found short, else what is past the cursor. */
  function PartTaken(log: seq<Byte>, cursor: nat, found: bool): seq<Byte> {
    if found then log else if cursor <= |log| then log[cursor..] else []
  }

  lemma FoundOnce<R(!new)>(row: Line -> Option<R>, s: System<R>)
    requires |s.log| < s.offset && Lines(s.log) != []
    ensures After(row, s, Pass(0)).rows == s.rows + RowsOf(row, Lines(s.log))
    ensures var part := System(s.log, CursorAfter(s.log, 0, 0), RowsOf(row, Lines(s.log)));
      Keeps(row, part) && Shifted(After(row, s, Pass(0)), part, 0, s.rows)
  {
    assert Imported(row, s.log, 0, []);
    PassKeepsImport(row, s.log, s.log, 0, [], 0);
    assert Text(s.log, s.offset, 0) == Text(s.log, 0, 0) == s.log;
    assert s.log[0..] == s.log && [] + RowsOf(row, Lines(s.log)) == RowsOf(row, Lines(s.log));
  }

  /** A pass that finds it short and without a complete line changes nothing. */
  lemma NothingFound<R>(row: Line -> Option<R>, s: System<R>)
    requires |s.log| < s.offset && Lines(s.log) == []
    ensures After(row, s, Pass(0)) == s
  {
    assert Text(s.log, s.offset, 0) == s.log;
  }

  /**
   A log that was cut short, whatever is appended to it and however often it is looked
   at: its lines are taken from its start once a pass found it shorter than the cursor
   with a complete line in it. Otherwise they are taken from the byte the cursor stood at.
   */
  lemma {:induction false} CutLog<R(!new)>(row: Line -> Option<R>, s: System<R>, es: seq<Event>)
    requires |s.log| < s.offset && AllFull(es) && es != [] && es[|es| - 1].Pass?
    ensures var s' := RunOf(row, s, es);
      s'.rows == s.rows + RowsOf(row, Lines(PartTaken(s'.log, s.offset, FoundShort(s.log, s.offset, es))))
    decreases |es|
  {
    var s1 := After(row, s, es[0]);
    assert es[0] in es && es[|es| - 1] in es && forall e | e in es[1..] :: e in es;
    if es[0].Pass? && Lines(s.log) != [] {
      FoundOnce(row, s);
      if es[1..] != [] {
        var part := System(s.log, CursorAfter(s.log, 0, 0), RowsOf(row, Lines(s.log)));
        TakenFrom(row, s1, part, 0, s.rows, es[1..]);
        assert RunOf(row, s, es).log[0..] == RunOf(row, s, es).log;
      }
    } else if es[0].Pass? {
      NothingFound(row, s);
      assert s.log + Gained(es[0]) == s.log;
      if es[1..] != [] {
        CutLog(row, s, es[1..]);
      }
    } else if |s1.log| < s.offset {
      CutLog(row, s1, es[1..]);
    } else {
      var part: System<R> := System(s1.log[s.offset..], 0, []);
      assert Keeps(row, part);
      TakenFrom(row, s1, part, s.offset, s.rows, es[1..]);
      NeverShort(s1.log, s.offset, es[1..]);
    }
  }

  lemma {:induction false} NeverShort(log: seq<Byte>, cursor: nat, es: seq<Event>)
    requires cursor <= |log|
    ensures !FoundShort(log, cursor, es)
    decreases |es|
  {
    if es != [] {
      NeverShort(log + Gained(es[0]), cursor, es[1..]);
    }
  }

  function Whole(line: Line): Option<Line> {
    Some(line)
  }

  lemma {:induction false} WholeRows(lines: seq<Line>)
    ensures RowsOf(Whole, lines) == lines
  {
    if lines != [] {
      WholeRows(lines[..|lines| - 1]);
      assert lines == lines[..|lines| - 1] + [lines[|lines| - 1]];
    }
  }

  lemma {:induction false} SameTail(before: seq<Byte>, s: seq<Byte>)
    requires Lines(s) != []
    ensures Tail(before + s) == Tail(s)
  {
    assert (before + s)[..|before + s| - 1] == before + s[..|s| - 1] && (before + s)[|before + s| - 1] == s[|s| - 1];
    if s[|s| - 1] != NL {
      SameTail(before, s[..|s| - 1]);
    }
  }

  lemma LinesLost(log: seq<Byte>, cursor: nat)
    requires 0 < cursor <= |log|
    ensures Lines(log[cursor..]) == Lines(log) <==> Lines(log) == []
  {
    var part := log[cursor..];
    assert log == log[..cursor] + part;
    SplitMeans(log);
    SplitMeans(part);
    if Lines(part) != [] {
      SameTail(log[..cursor], part);
      assert |Join(Lines(log))| == |log| - |Tail(log)|;
    } else if Lines(log) == [] {
      assert Lines(part) == Lines(log);
    }
  }

  /** So no line of a log cut short is lost exactly when it holds none, or a pass found it so. */
  lemma CutLogIff(log: seq<Byte>, cursor: nat, es: seq<Event>)
    requires |log| < cursor && AllFull(es) && es != [] && es[|es| - 1].Pass?
    ensures var s' := RunOf(Whole, System(log, cursor, []), es);
      s'.log == log + Appended(es)
      && (s'.rows == Lines(s'.log) <==> Lines(s'.log) == [] || FoundShort(log, cursor, es))
  {
    var s := System(log, cursor, []);
    CutLog(Whole, s, es);
    LogGains(Whole, s, es);
    PartIsWhole(log, cursor, es);
    WholeRows(Lines(PartTaken(log + Appended(es), cursor, FoundShort(log, cursor, es))));
  }

  lemma PartIsWhole(log: seq<Byte>, cursor: nat, es: seq<Event>)
    requires |log| < cursor && es != [] && es[|es| - 1].Pass?
    ensures var found, log' := FoundShort(log, cursor, es), log + Appended(es);
      Lines(PartTaken(log', cursor, found)) == Lines(log') <==> Lines(log') == [] || found
  {
    var log' := log + Appended(es);
    if !FoundShort(log, cursor, es) {
      if cursor <= |log'| {
        LinesLost(log', cursor);
      } else if Lines(log') != [] {
        StaysShort(log, cursor, es);
      }
    }
  }

  lemma {:induction false} StaysShort(log: seq<Byte>, cursor: nat, es: seq<Event>)
    requires es != [] && es[|es| - 1].Pass? && |log + Appended(es)| < cursor && Lines(log + Appended(es)) != []
    ensures FoundShort(log, cursor, es)
    decreases |es|
  {
    Regroup(log, Gained(es[0]), Appended(es[1..]));
    if |es| == 1 {
      assert log + Appended(es) == log;
    } else {
      StaysShort(log + Gained(es[0]), cursor, es[1..]);
    }
  }
}
