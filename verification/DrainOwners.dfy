/**
 Who holds a drain marker: scripts/drain-runner.sh under its callers' names, the
 re-assertions of dashboard/fleetd.js and dashboard/agent.js, and the agent's
 autonomy (dashboard/lib/agent-autonomy.js), interleaved over one runner.
 */
module DrainOwners {
  import opened Wrappers
  import opened Drains

  const TIERS: string := "tiers"
  const NIGHT_CAP: string := "night-cap"
  const HOST: string := "host"

  /** A runner's .drain file: an operator's names no owner. */
  datatype Marker = Marker(state: DrainState, owner: Option<string>)

  datatype Command = Drain(busy: bool) | Stop | Resume

  /** drain-runner.sh, with or without --by: an owned command leaves a marker somebody else wrote alone. */
  function Script(m: Option<Marker>, c: Command, owner: Option<string>): Option<Marker> {
    if owner.Some? && m.Some? && m.value.owner != owner then m
    else
      match c
      case Resume => None
      case Stop => Some(Marker(Drained, owner))
      case Drain(busy) => Some(Marker(if busy then Draining else Drained, owner))
  }

  predicate Held(m: Option<Marker>, owner: Option<string>) {
    m.Some? && m.value.owner == owner
  }

  // ---- the agent alone --------------------------------------------------------

  datatype Autonomy = Autonomy(autonomous: bool, entered: bool, left: bool, release: seq<string>)

  function OfTiers(runners: seq<Runner>): (dirs: seq<string>)
    ensures forall d :: d in dirs <==>
              exists r | r in runners :: r.dirName == d && r.drainState.Some? && r.drainBy == Some(TIERS)
  {
    if runners == [] then []
    else
      var init, last := runners[..|runners| - 1], runners[|runners| - 1];
      assert runners == init + [last];
      assert last in runners;
      if last.drainState.Some? && last.drainBy == Some(TIERS) then OfTiers(init) + [last.dirName] else OfTiers(init)
  }

  /** autonomyStep: after a long enough silence the agent resumes what the tiers drained, unless the host is off. */
  function AutonomyStep(
    now: int, lastOkAt: Option<int>, autonomous: bool, afterMs: int, runners: seq<Runner>, hostOff: bool): Autonomy
  {
    var silentMs := if now - lastOkAt.GetOr(now) > 0 then now - lastOkAt.GetOr(now) else 0;
    if afterMs == 0 || silentMs < afterMs then Autonomy(false, false, autonomous, [])
    else Autonomy(true, !autonomous, false, if hostOff then [] else OfTiers(runners))
  }

  // ---- one runner's marker under everything that touches it -------------------------

  /**
   Where the runner is. On the coordinator's own host the tiers, the night cap and the
   re-assertions run one after another, each to its end; on an agent's nothing keeps
   them apart.
   */
  datatype Place = Coordinator | Agent

  /**
   What happens to one runner's marker: a command of an operator, the host switch, the
   tiers or the night cap, each under its owner's name; a re-assertion's look at the
   marker, and after it its drain; the agent's look at all markers, and after it the
   release of this runner if it was among those to release.
   */
  datatype Step =
    | Run(command: Command, owner: Option<string>)
    | Look(owner: Option<string>)
    | Reassert(busy: bool)
    | Consider(
        now: int, lastOkAt: Option<int>, autonomous: bool, afterMs: int, hostOff: bool, runners: seq<Runner>)
    | Release
    | Restart

  /** looked: the owner a re-assertion under way found; freeing: the agent is about to release the runner. */
  datatype System = System(marker: Option<Marker>, looked: Option<Option<string>>, freeing: bool)

  predicate InChain(place: Place, owner: Option<string>) {
    place == Coordinator && owner in {Some(TIERS), Some(NIGHT_CAP)}
  }

  /** The runner as the agent finds it among those of its host. */
  predicate Shows(runners: seq<Runner>, dir: string, m: Option<Marker>) {
    && (exists r | r in runners :: r.dirName == dir)
    && forall r | r in runners && r.dirName == dir ::
         (if m.None? then r.drainState.None? else r.drainState == Some(m.value.state) && r.drainBy == m.value.owner)
  }

  predicate Possible(place: Place, dir: string, s: System, e: Step) {
    match e
    case Run(_, owner) => s.looked.Some? ==> !InChain(place, owner)
    case Look(owner) => s.looked.None? && Held(s.marker, owner)
    case Reassert(_) => s.looked.Some?
    case Consider(_, _, _, _, _, runners) => place == Agent && !s.freeing && Shows(runners, dir, s.marker)
    case Release => s.freeing
    case Restart => true
  }

  function After(dir: string, s: System, e: Step): System {
    match e
    case Run(c, owner) => s.(marker := Script(s.marker, c, owner))
    case Look(owner) => s.(looked := Some(owner))
    case Reassert(busy) =>
      if s.looked.Some? then s.(marker := Script(s.marker, Drain(busy), s.looked.value), looked := None) else s
    case Consider(now, lastOkAt, autonomous, afterMs, hostOff, runners) =>
      s.(freeing := dir in AutonomyStep(now, lastOkAt, autonomous, afterMs, runners, hostOff).release)
    case Release => s.(marker := Script(s.marker, Resume, Some(TIERS)), freeing := false)
    case Restart => s.(looked := None, freeing := false)
  }

  predicate IsRun(place: Place, dir: string, s: System, es: seq<Step>)
    decreases |es|
  {
    es == [] || (Possible(place, dir, s, es[0]) && IsRun(place, dir, After(dir, s, es[0]), es[1..]))
  }

  function RunOf(dir: string, s: System, es: seq<Step>): System
    decreases |es|
  {
    if es == [] then s else RunOf(dir, After(dir, s, es[0]), es[1..])
  }

  function Start(m: Option<Marker>): System {
    System(m, None, false)
  }

  // ---- who keeps a marker ------------------------------------------------------------

  /**
   A step that may take the marker from its owner: the owner's own resume, a command
   under no name, a re-assertion that looked under no name, or for the tiers the
   agent's release.
   */
  predicate Takes(s: System, e: Step, owner: string) {
    match e
    case Run(c, o) => (o == Some(owner) && c.Resume?) || o.None?
    case Reassert(_) => s.looked == Some(None)
    case Release => owner == TIERS
    case _ => false
  }

  predicate NoneTakes(dir: string, s: System, es: seq<Step>, owner: string)
    decreases |es|
  {
    es == [] || (!Takes(s, es[0], owner) && NoneTakes(dir, After(dir, s, es[0]), es[1..], owner))
  }

  /** Through any interleaving an owner's marker stays that owner's until one of these steps comes. */
  lemma {:induction false} OwnersKeepTheirs(place: Place, dir: string, s: System, es: seq<Step>, owner: string)
    requires IsRun(place, dir, s, es) && Held(s.marker, Some(owner)) && NoneTakes(dir, s, es, owner)
    ensures Held(RunOf(dir, s, es).marker, Some(owner))
    decreases |es|
  {
    if es != [] {
      OwnersKeepTheirs(place, dir, After(dir, s, es[0]), es[1..], owner);
    }
  }

  predicate OperatorResumes(e: Step) {
    e.Run? && e.owner.None? && e.command.Resume?
  }

  /** An operator's marker, which names no owner, is touched by no owned command, re-assertion or release. */
  lemma {:induction false} OperatorsKeepTheirs(place: Place, dir: string, s: System, es: seq<Step>)
    requires IsRun(place, dir, s, es) && Held(s.marker, None) && forall e | e in es :: !OperatorResumes(e)
    ensures Held(RunOf(dir, s, es).marker, None)
    decreases |es|
  {
    if es != [] {
      assert es[0] in es;
      OperatorsKeepTheirs(place, dir, After(dir, s, es[0]), es[1..]);
    }
  }

  // ---- re-assertions that come late ------------------------------------------------------

  /** The marker is there as before, under the same owner. */
  predicate SameHolder(m: Option<Marker>, m': Option<Marker>) {
    m.Some? && m'.Some? && m'.value.owner == m.value.owner
  }

  /**
   A re-assertion leaves the marker with its holder exactly when there still is one, and
   it looked under a name or the marker bears none. Else it writes the marker: again
   after a resume, or over a marker with an owner that came meanwhile.
   */
  lemma ReassertLate(place: Place, dir: string, s: System, busy: bool)
    requires Possible(place, dir, s, Reassert(busy))
    ensures var m' := After(dir, s, Reassert(busy)).marker;
      && (SameHolder(s.marker, m') <==> s.marker.Some? && (s.looked.value.Some? || s.marker.value.owner.None?))
      && (!SameHolder(s.marker, m') ==> Held(m', s.looked.value))
  {
  }

  /**
   While a re-assertion is under way on the coordinator's host, a marker of its
   controllers is the one it looked at.
   */
  ghost predicate ChainHolds(s: System) {
    s.looked.Some? ==>
      forall owner | owner in {Some(TIERS), Some(NIGHT_CAP)} && Held(s.marker, owner) :: s.looked.value == owner
  }

  lemma {:induction false} ChainKept(dir: string, s: System, es: seq<Step>)
    requires IsRun(Coordinator, dir, s, es) && ChainHolds(s)
    ensures ChainHolds(RunOf(dir, s, es))
    decreases |es|
  {
    if es != [] {
      ChainKept(dir, After(dir, s, es[0]), es[1..]);
    }
  }

  /** So there no re-assertion takes over a marker of the tiers or the night cap, whenever it comes. */
  lemma ChainMarkersStay(dir: string, m: Option<Marker>, es: seq<Step>, busy: bool)
    requires IsRun(Coordinator, dir, Start(m), es)
    requires var s := RunOf(dir, Start(m), es);
      Possible(Coordinator, dir, s, Reassert(busy)) && s.marker.Some? && InChain(Coordinator, s.marker.value.owner)
    ensures var s := RunOf(dir, Start(m), es); SameHolder(s.marker, After(dir, s, Reassert(busy)).marker)
  {
    ChainKept(dir, Start(m), es);
    var s := RunOf(dir, Start(m), es);
    assert Held(s.marker, s.marker.value.owner) && s.looked.value == s.marker.value.owner;
  }

  lemma Four(place: Place, dir: string, s: System, a: Step, b: Step, c: Step, d: Step)
    ensures var s1 := After(dir, s, a);
      var s2 := After(dir, s1, b);
      var s3 := After(dir, s2, c);
      && (IsRun(place, dir, s, [a, b, c, d]) <==>
           && Possible(place, dir, s, a) && Possible(place, dir, s1, b)
           && Possible(place, dir, s2, c) && Possible(place, dir, s3, d))
      && RunOf(dir, s, [a, b, c, d]) == After(dir, s3, d)
  {
    assert [a, b, c, d][1..] == [b, c, d] && [b, c, d][1..] == [c, d] && [c, d][1..] == [d] && [d][1..] == [];
    var s1 := After(dir, s, a);
    var s2 := After(dir, s1, b);
    var s3 := After(dir, s2, c);
    var none: seq<Step> := [];
    assert IsRun(place, dir, After(dir, s3, d), none);
    assert IsRun(place, dir, s3, [d]) <==> Possible(place, dir, s3, d);
    assert IsRun(place, dir, s2, [c, d]) <==> Possible(place, dir, s2, c) && IsRun(place, dir, s3, [d]);
    assert RunOf(dir, s3, [d]) == After(dir, s3, d);
    assert RunOf(dir, s2, [c, d]) == RunOf(dir, s3, [d]);
  }

  /**
   Elsewhere it can. On either host: an operator's drain, looked at and resumed, and
   drained by the host switch, is the operator's again. On an agent's host the tiers'
   drain meets the same end; on the coordinator's that is no run.
   */
  lemma LateReassertTakesOver(place: Place, dir: string, owner: string)
    requires owner == HOST || owner == TIERS
    ensures
      var es := [Look(None), Run(Resume, None), Run(Drain(false), Some(owner)), Reassert(false)];
      var s := Start(Some(Marker(Drained, None)));
      && (IsRun(place, dir, s, es) <==> place == Agent || owner == HOST)
      && Held(RunOf(dir, s, es[..3]).marker, Some(owner)) && Held(RunOf(dir, s, es).marker, None)
  {
    var es := [Look(None), Run(Resume, None), Run(Drain(false), Some(owner)), Reassert(false)];
    var s := Start(Some(Marker(Drained, None)));
    Four(place, dir, s, es[0], es[1], es[2], es[3]);
    assert es[..3] == [es[0], es[1], es[2]];
    assert es[..3][1..] == [es[1], es[2]] && [es[1], es[2]][1..] == [es[2]] && [es[2]][1..] == [];
    var s2 := After(dir, After(dir, s, es[0]), es[1]);
    assert RunOf(dir, s2, [es[2]]) == After(dir, s2, es[2]);
    assert RunOf(dir, After(dir, s, es[0]), [es[1], es[2]]) == RunOf(dir, s2, [es[2]]);
  }

  /** And a runner the tiers resumed meanwhile is drained again on an agent's host, in the tiers' name. */
  lemma LateReassertUndoesResume(place: Place, dir: string)
    ensures
      var es :=
        [Run(Drain(false), Some(TIERS)), Look(Some(TIERS)), Run(Resume, Some(TIERS)), Reassert(false)];
      && (IsRun(place, dir, Start(None), es) <==> place == Agent)
      && RunOf(dir, Start(None), es).marker == Some(Marker(Drained, Some(TIERS)))
  {
    Four(place, dir, Start(None), Run(Drain(false), Some(TIERS)), Look(Some(TIERS)), Run(Resume, Some(TIERS)),
         Reassert(false));
  }

  // ---- what the agent releases alone ------------------------------------------------------

  /** The agent heard nothing for long enough, and its host is not switched off. */
  predicate Silent(e: Step)
    requires e.Consider?
  {
    && !e.hostOff
    && (e.afterMs < 0 || (e.afterMs > 0 && e.now - e.lastOkAt.GetOr(e.now) >= e.afterMs))
  }

  /** A look of the agent's that decides to release the runner. */
  predicate Decides(s: System, e: Step) {
    e.Consider? && Silent(e) && Held(s.marker, Some(TIERS))
  }

  /**
   The agent decides to release a runner exactly after such a silence and when the
   marker is the tiers'; and the release takes exactly a marker that still is.
   */
  lemma AutonomyFrees(place: Place, dir: string, s: System, e: Step)
    requires e.Consider? && Possible(place, dir, s, e)
    ensures Possible(place, dir, After(dir, s, e), Release) <==> Decides(s, e)
    ensures forall s' :: After(dir, s', Release).marker == if Held(s'.marker, Some(TIERS)) then None else s'.marker
  {
    var r :| r in e.runners && r.dirName == dir;
  }

  lemma {:induction false} FreeingHadCause(place: Place, dir: string, s: System, es: seq<Step>) returns (i: nat)
    requires IsRun(place, dir, s, es) && !s.freeing && RunOf(dir, s, es).freeing
    ensures i < |es| && Decides(RunOf(dir, s, es[..i]), es[i])
    decreases |es|
  {
    var s1 := After(dir, s, es[0]);
    if s1.freeing {
      i := 0;
      AutonomyFrees(place, dir, s, es[0]);
    } else {
      i := FreeingHadCause(place, dir, s1, es[1..]);
      i := i + 1;
      assert es[..i][1..] == es[1..][..i - 1];
    }
  }

  /** So in any run a release goes back to a look that found the silence and the tiers' marker. */
  lemma ReleaseHadCause(place: Place, dir: string, m: Option<Marker>, es: seq<Step>)
    requires IsRun(place, dir, Start(m), es) && Possible(place, dir, RunOf(dir, Start(m), es), Release)
    ensures exists i | 0 <= i < |es| :: Decides(RunOf(dir, Start(m), es[..i]), es[i])
  {
    var i := FreeingHadCause(place, dir, Start(m), es);
  }
}
