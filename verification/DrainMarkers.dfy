/**
 The text of a .drain file, as scripts/drain-runner.sh writes it and
 markerStillHeld of dashboard/lib/host-switch.js reads it again.
 */
module DrainMarkers {
  import opened Wrappers
  import opened Text
  import opened Drains
  import opened DrainOwners

  const BY: string := "by="

  /** split('\n'). */
  function SplitLines(s: string): (ls: seq<string>)
    ensures |ls| > 0
  {
    if s == [] then [""]
    else if s[0] == '\n' then [""] + SplitLines(s[1..])
    else
      var rest := SplitLines(s[1..]);
      [[s[0]] + rest[0]] + rest[1..]
  }

  predicate IsSpace(c: char) {
    c in {' ', '\t', '\n', '\r', '\U{000B}', '\U{000C}', '\U{00A0}', '\U{1680}', '\U{2028}', '\U{2029}', '\U{202F}',
          '\U{205F}', '\U{3000}', '\U{FEFF}'} || '\U{2000}' <= c <= '\U{200A}'
  }

  function TrimLeft(s: string): string {
    if s != [] && IsSpace(s[0]) then TrimLeft(s[1..]) else s
  }

  function TrimRight(s: string): string {
    if s != [] && IsSpace(s[|s| - 1]) then TrimRight(s[..|s| - 1]) else s
  }

  function Trim(s: string): string {
    TrimRight(TrimLeft(s))
  }

  /** The owner the first by= line names, if it names one. */
  function OwnerIn(lines: seq<string>): Option<string> {
    if lines == [] then None
    else if StartsWith(Trim(lines[0]), BY) then
      var owner := Trim(lines[0])[3..];
      if owner == "" then None else Some(owner)
    else OwnerIn(lines[1..])
  }

  /** markerStillHeld: the marker read again still says drained or draining, under the same owner. */
  predicate MarkerStillHeld(text: Option<string>, owner: Option<string>) {
    && text.GetOr("") != ""
    && var lines := SplitLines(text.value);
    && Trim(lines[0]) in {"drained", "draining"}
    && OwnerIn(lines) == owner
  }

  /** Nothing but white space. */
  predicate Blank(s: string) {
    forall c | c in s :: IsSpace(c)
  }

  lemma {:induction false} LeftTrimmed(s: string)
    ensures TrimLeft(s) == "" || !IsSpace(TrimLeft(s)[0])
    ensures |TrimLeft(s)| <= |s| && s[|s| - |TrimLeft(s)|..] == TrimLeft(s)
    ensures Blank(s[..|s| - |TrimLeft(s)|])
  {
    if s != [] && IsSpace(s[0]) {
      LeftTrimmed(s[1..]);
      var n := |s| - |TrimLeft(s)|;
      assert s[..n] == [s[0]] + s[1..][..n - 1] && s[n..] == s[1..][n - 1..];
    }
  }

  lemma {:induction false} RightTrimmed(s: string)
    ensures TrimRight(s) == "" || !IsSpace(TrimRight(s)[|TrimRight(s)| - 1])
    ensures |TrimRight(s)| <= |s| && s[..|TrimRight(s)|] == TrimRight(s) && Blank(s[|TrimRight(s)|..])
  {
    if s != [] && IsSpace(s[|s| - 1]) {
      var n := |TrimRight(s)|;
      RightTrimmed(s[..|s| - 1]);
      assert s[..n] == s[..|s| - 1][..n] && s[n..] == s[..|s| - 1][n..] + [s[|s| - 1]];
    }
  }

  /** A line without the white space around it. */
  lemma TrimMeans(s: string) returns (left: string, right: string)
    ensures s == left + Trim(s) + right && Blank(left) && Blank(right)
    ensures Trim(s) != "" ==> !IsSpace(Trim(s)[0]) && !IsSpace(Trim(s)[|Trim(s)| - 1])
  {
    var t := TrimLeft(s);
    LeftTrimmed(s);
    RightTrimmed(t);
    left, right := s[..|s| - |t|], t[|Trim(s)|..];
    assert s == left + t && t == Trim(s) + right;
    if Trim(s) != "" {
      assert Trim(s)[0] == t[0];
    }
  }

  /** Lines, each without a newline, that joined by newlines are the text. */
  function Joined(lines: seq<string>): string {
    if lines == [] then "" else if |lines| == 1 then lines[0] else lines[0] + "\n" + Joined(lines[1..])
  }

  lemma {:induction false} SplitJoins(s: string)
    ensures Joined(SplitLines(s)) == s && forall l | l in SplitLines(s) :: NoNewline(l)
  {
    if s != [] {
      var rest := SplitLines(s[1..]);
      SplitJoins(s[1..]);
      assert s == [s[0]] + s[1..];
      if s[0] == '\n' {
        assert ([""] + rest)[1..] == rest;
      } else {
        var lines := [[s[0]] + rest[0]] + rest[1..];
        assert lines[1..] == rest[1..] && rest == [rest[0]] + rest[1..];
        assert |rest| > 1 ==> Joined(lines) == [s[0]] + Joined(rest);
        forall l | l in lines ensures NoNewline(l) {
          assert rest[0] in rest;
        }
      }
    }
  }

  /** Line k is the first to begin with by=, once trimmed. */
  ghost predicate NamesOwner(lines: seq<string>, k: nat) {
    && k < |lines| && StartsWith(Trim(lines[k]), "by=")
    && forall j | 0 <= j < k :: !StartsWith(Trim(lines[j]), "by=")
  }

  lemma {:induction false} OwnerInMeans(lines: seq<string>)
    ensures OwnerIn(lines).None? <==> forall k: nat | NamesOwner(lines, k) :: Trim(lines[k]) == "by="
    ensures forall o ::
      OwnerIn(lines) == Some(o) <==> o != "" && exists k: nat :: NamesOwner(lines, k) && Trim(lines[k]) == "by=" + o
  {
    if lines != [] {
      var line := Trim(lines[0]);
      if StartsWith(line, BY) {
        assert NamesOwner(lines, 0) && line == "by=" + line[3..];
        forall o ensures (line == "by=" + o) <==> o == line[3..] {
          assert line == "by=" + o ==> line[3..] == o;
        }
        forall k: nat | NamesOwner(lines, k) ensures k == 0 {
        }
      } else {
        OwnerInMeans(lines[1..]);
        forall k: nat ensures NamesOwner(lines[1..], k) <==> NamesOwner(lines, k + 1) {
          assert NamesOwner(lines, k + 1) ==> forall j | 0 <= j < k :: lines[1..][j] == lines[j + 1];
        }
        assert !NamesOwner(lines, 0);
      }
    }
  }

  /**
   Any text of a marker: it still holds under a name exactly when its first line says
   drained or draining and its first by= line gives that name, and under no name when
   that line is missing or gives none.
   */
  lemma StillHeldMeans(text: string, owner: Option<string>)
    ensures var lines := SplitLines(text);
      MarkerStillHeld(Some(text), owner) <==>
        && Trim(lines[0]) in {"drained", "draining"}
        && match owner
           case None => forall k: nat | NamesOwner(lines, k) :: Trim(lines[k]) == "by="
           case Some(o) => o != "" && exists k: nat :: NamesOwner(lines, k) && Trim(lines[k]) == "by=" + o
  {
    OwnerInMeans(SplitLines(text));
  }

  function StateText(s: DrainState): string {
    match s
    case Draining => "draining"
    case Drained => "drained"
  }

  /** write_marker. */
  function MarkerText(m: Marker, at: nat): string {
    StateText(m.state) + ("\n" + (("requested_at=" + IntText(at)) + ("\n" + (
      match m.owner
      case Some(owner) => (BY + owner) + "\n"
      case None => ""))))
  }

  /** The identifiers --by takes. */
  predicate PlainOwner(owner: string) {
    owner != "" && forall c | c in owner ::
      'A' <= c <= 'Z' || 'a' <= c <= 'z' || '0' <= c <= '9' || c in {'.', '_', '-'}
  }

  predicate NoNewline(s: string) {
    '\n' !in s
  }

  lemma {:induction false} FirstOfLines(s: string, rest: string)
    requires NoNewline(s)
    ensures SplitLines(s + ("\n" + rest)) == [s] + SplitLines(rest)
  {
    var t := s + ("\n" + rest);
    if s == "" {
      assert t == "\n" + rest && t[1..] == rest;
    } else {
      assert s == [s[0]] + s[1..] && s[0] in s;
      assert t[0] == s[0] && t[1..] == s[1..] + ("\n" + rest);
      FirstOfLines(s[1..], rest);
    }
  }

  lemma TrimOfPlain(s: string)
    requires s != "" ==> !IsSpace(s[0]) && !IsSpace(s[|s| - 1])
    ensures Trim(s) == s
  {
  }

  lemma {:induction false} IntTextIsPlain(n: nat)
    ensures IntText(n) != "" && forall c | c in IntText(n) :: '0' <= c <= '9'
    decreases n
  {
    if n >= 10 {
      IntTextIsPlain(n / 10);
    }
  }

  /** What was written is still held by its owner, and by nobody else. */
  lemma WrittenIsHeld(m: Marker, at: nat, owner: Option<string>)
    requires m.owner.Some? ==> PlainOwner(m.owner.value)
    ensures MarkerStillHeld(Some(MarkerText(m, at)), owner) <==> m.owner == owner
    ensures SplitLines(MarkerText(m, at))[0] == if m.state == Draining then "draining" else "drained"
  {
    var asked := "requested_at=" + IntText(at);
    var tail := match m.owner case Some(o) => (BY + o) + "\n" case None => "";
    IntTextIsPlain(at);
    assert NoNewline(asked) && asked[|asked| - 1] == IntText(at)[|IntText(at)| - 1]
      && asked[|asked| - 1] in IntText(at);
    FirstOfLines(StateText(m.state), asked + ("\n" + tail));
    FirstOfLines(asked, tail);
    TrimOfPlain(StateText(m.state));
    TrimOfPlain(asked);
    assert asked[0] == 'r' && StateText(m.state)[0] == 'd';
    var lines := [StateText(m.state)] + ([asked] + SplitLines(tail));
    assert SplitLines(MarkerText(m, at)) == lines;
    OwnerAfter(StateText(m.state), [asked] + SplitLines(tail));
    OwnerAfter(asked, SplitLines(tail));
    OwnerOfTail(m);
  }

  lemma StartsFirst(s: string, prefix: string)
    requires prefix != ""
    ensures StartsWith(s, prefix) ==> s != "" && s[0] == prefix[0]
  {
    if StartsWith(s, prefix) {
      assert s[..|prefix|][0] == s[0];
    }
  }

  lemma OwnerAfter(line: string, lines: seq<string>)
    requires line != "" && line[0] != 'b' && Trim(line) == line
    ensures OwnerIn([line] + lines) == OwnerIn(lines)
  {
    assert ([line] + lines)[1..] == lines;
    StartsFirst(line, BY);
  }

  lemma OwnerOfTail(m: Marker)
    requires m.owner.Some? ==> PlainOwner(m.owner.value)
    ensures OwnerIn(SplitLines(match m.owner case Some(o) => (BY + o) + "\n" case None => "")) == m.owner
  {
    match m.owner
    case None =>
      assert SplitLines("") == [""] && [""][1..] == [];
    case Some(o) =>
      var line := BY + o;
      assert forall c | c in o :: !IsSpace(c);
      assert o[|o| - 1] in o && line[|line| - 1] == o[|o| - 1];
      assert NoNewline(line);
      assert line + "\n" == line + ("\n" + "");
      FirstOfLines(line, "");
      TrimOfPlain(line);
      assert line[..3] == BY && line[3..] == o;
  }
}
