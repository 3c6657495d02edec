/**
 The lines of an append-only log: what splitting the whole file once gives, and
 how that fits together when the file is read in pieces.
 */
module LogLines {
  type Byte = x: int | 0 <= x < 256

  const NL: Byte := 10

  type Line = seq<Byte>

  /** What follows the last newline: not a line yet. */
  function Tail(s: seq<Byte>): Line {
    if s == [] || s[|s| - 1] == NL then [] else Tail(s[..|s| - 1]) + [s[|s| - 1]]
  }

  /** The complete lines, without their newlines. */
  function Lines(s: seq<Byte>): seq<Line> {
    if s == [] then []
    else
      var init := s[..|s| - 1];
      if s[|s| - 1] == NL then Lines(init) + [Tail(init)] else Lines(init)
  }

  function Join(ls: seq<Line>): seq<Byte> {
    if ls == [] then [] else Join(ls[..|ls| - 1]) + ls[|ls| - 1] + [NL]
  }

  /** The text ends where a line ends. */
  predicate Boundary(s: seq<Byte>) {
    s == [] || s[|s| - 1] == NL
  }

  lemma JoinSnoc(ls: seq<Line>, l: Line)
    ensures Join(ls + [l]) == Join(ls) + l + [NL]
  {
    assert (ls + [l])[..|ls|] == ls;
  }

  lemma SplitSnoc(s: seq<Byte>, b: Byte)
    ensures Lines(s + [b]) == if b == NL then Lines(s) + [Tail(s)] else Lines(s)
    ensures Tail(s + [b]) == if b == NL then [] else Tail(s) + [b]
  {
    assert (s + [b])[..|s|] == s;
  }

  /** Splitting loses nothing, and no line holds a newline: there is only one way to split. */
  lemma {:induction false} SplitMeans(s: seq<Byte>)
    ensures Join(Lines(s)) + Tail(s) == s
    ensures NL !in Tail(s) && forall l | l in Lines(s) :: NL !in l
  {
    if s != [] {
      var init, b := s[..|s| - 1], s[|s| - 1];
      assert s == init + [b];
      SplitMeans(init);
      SplitSnoc(init, b);
      if b == NL {
        JoinSnoc(Lines(init), Tail(init));
      }
    }
  }

  lemma {:induction false} TailOfBoundary(s: seq<Byte>)
    ensures Boundary(s) <==> Tail(s) == []
  {
  }

  /** Text cut at the end of a line is split piece by piece. */
  lemma {:induction false} LinesAppend(a: seq<Byte>, b: seq<Byte>)
    requires Boundary(a)
    ensures Lines(a + b) == Lines(a) + Lines(b) && Tail(a + b) == Tail(b)
  {
    if b == [] {
      assert a + b == a;
    } else {
      var init, x := b[..|b| - 1], b[|b| - 1];
      assert b == init + [x] && a + b == (a + init) + [x];
      LinesAppend(a, init);
      SplitSnoc(init, x);
      SplitSnoc(a + init, x);
    }
  }

  /** What is a line stays one as the file grows. */
  lemma {:induction false} LinesGrow(a: seq<Byte>, b: seq<Byte>)
    ensures Lines(a) <= Lines(a + b)
  {
    if b == [] {
      assert a + b == a;
    } else {
      var init, x := b[..|b| - 1], b[|b| - 1];
      assert b == init + [x] && a + b == (a + init) + [x];
      LinesGrow(a, init);
      SplitSnoc(a + init, x);
    }
  }

  lemma {:induction false} BoundaryJoins(s: seq<Byte>)
    requires Boundary(s)
    ensures Join(Lines(s)) == s
  {
    SplitMeans(s);
    assert s + [] == s;
  }

  /** The text through the n-th line ends a line, and its lines are the first n. */
  lemma {:induction false} TakeLines(s: seq<Byte>, n: nat)
    requires n <= |Lines(s)|
    ensures var head := Join(Lines(s)[..n]);
      head <= s && Boundary(head) && Lines(head) == Lines(s)[..n]
  {
    if n == |Lines(s)| && Boundary(s) {
      assert Lines(s)[..n] == Lines(s);
      BoundaryJoins(s);
    } else if s != [] {
      var init, x := s[..|s| - 1], s[|s| - 1];
      assert s == init + [x];
      SplitSnoc(init, x);
      TakeLines(init, n);
      assert Lines(s)[..n] == Lines(init)[..n];
    }
  }
}
