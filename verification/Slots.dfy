/**
 Handing a few slots to jobs in the order they queued, each to the best runner
 left for it: the assignment loop of decideNightCap (dashboard/lib/night-cap.js),
 over job and runner indices. What a job and a runner are, and which fit, is the
 caller's business: `fits(j, k)` says runner k could start job j, and `rank(k)`
 how gladly it would (0 best; 3 and above not at all).
 */
module Slots {
  import opened Wrappers

  const UNUSABLE: nat := 3

  /** Which runner is kept for which job: runner index to job index. */
  type Slotting = map<nat, nat>

  predicate Candidate(fits: (nat, nat) -> bool, rank: nat -> nat, j: nat, k: nat, taken: Slotting) {
    fits(j, k) && rank(k) < UNUSABLE && k !in taken
  }

  /** The first candidate of rank r at or after runner k. */
  function FirstOfRank(
    fits: (nat, nat) -> bool, rank: nat -> nat, runners: nat, j: nat, taken: Slotting, r: nat, k: nat := 0)
    : (at: Option<nat>)
    requires k <= runners
    ensures at.Some? ==> k <= at.value < runners && rank(at.value) == r && Candidate(fits, rank, j, at.value, taken)
    ensures forall b | k <= b < (if at.Some? then at.value else runners) ::
              !(rank(b) == r && Candidate(fits, rank, j, b, taken))
    decreases runners - k
  {
    if k == runners then None
    else if rank(k) == r && Candidate(fits, rank, j, k, taken) then Some(k)
    else FirstOfRank(fits, rank, runners, j, taken, r, k + 1)
  }

  /** Runner b is chosen before runner k. */
  predicate Better(rank: nat -> nat, b: nat, k: nat) {
    rank(b) < rank(k) || (rank(b) == rank(k) && b < k)
  }

  /** The best runner still free for job j. */
  function Pick(fits: (nat, nat) -> bool, rank: nat -> nat, runners: nat, j: nat, taken: Slotting): (at: Option<nat>)
    ensures at.Some? ==> at.value < runners && Candidate(fits, rank, j, at.value, taken)
    ensures at.Some? ==> forall b: nat | b < runners && Better(rank, b, at.value) :: !Candidate(fits, rank, j, b, taken)
    ensures at.None? ==> forall b: nat | b < runners :: !Candidate(fits, rank, j, b, taken)
  {
    var online := FirstOfRank(fits, rank, runners, j, taken, 0);
    if online.Some? then online
    else
      var coming := FirstOfRank(fits, rank, runners, j, taken, 1);
      if coming.Some? then coming else FirstOfRank(fits, rank, runners, j, taken, 2)
  }

  function Assign(
    fits: (nat, nat) -> bool, rank: nat -> nat, runners: nat, jobs: nat, j: nat, left: nat, taken: Slotting): Slotting
    requires j <= jobs
    decreases jobs - j
  {
    if j == jobs || left == 0 then taken
    else
      match Pick(fits, rank, runners, j, taken)
      case None => Assign(fits, rank, runners, jobs, j + 1, left, taken)
      case Some(k) => Assign(fits, rank, runners, jobs, j + 1, left - 1, taken[k := j])
  }

  /** Runner k could take job j and is not kept for an older one. */
  predicate FreeFor(fits: (nat, nat) -> bool, rank: nat -> nat, slotted: Slotting, j: nat, k: nat) {
    fits(j, k) && rank(k) < UNUSABLE && !(k in slotted && slotted[k] < j)
  }

  /** The runner of a slot fits its job, and no better one was free for it. */
  ghost predicate WellSlotted(fits: (nat, nat) -> bool, rank: nat -> nat, runners: nat, slotted: Slotting, k: nat)
    requires k in slotted
  {
    && k < runners && fits(slotted[k], k) && rank(k) < UNUSABLE
    && forall b: nat | b < runners && Better(rank, b, k) :: !FreeFor(fits, rank, slotted, slotted[k], b)
  }

  /** Job j has no slot: every slot went to an older job, or every runner it fits did. */
  ghost predicate RightlyLeft(
    fits: (nat, nat) -> bool, rank: nat -> nat, runners: nat, slots: nat, slotted: Slotting, j: nat)
  {
    || (|slotted| == slots && forall k | k in slotted :: slotted[k] < j)
    || (forall k: nat | k < runners :: !FreeFor(fits, rank, slotted, j, k))
  }

  /** What the assignment promises of the first `upto` jobs. */
  ghost predicate GoodSlots(
    fits: (nat, nat) -> bool, rank: nat -> nat, runners: nat, upto: nat, slots: nat, slotted: Slotting)
  {
    && |slotted| <= slots
    && (forall k | k in slotted :: slotted[k] < upto && WellSlotted(fits, rank, runners, slotted, k))
    && (forall k, k' | k in slotted && k' in slotted && slotted[k] == slotted[k'] :: k == k')
    && (forall j: nat | j < upto && j !in slotted.Values :: RightlyLeft(fits, rank, runners, slots, slotted, j))
  }

  lemma SlotTaken(
    fits: (nat, nat) -> bool, rank: nat -> nat, runners: nat, j: nat, slots: nat, taken: Slotting, k: nat)
    requires GoodSlots(fits, rank, runners, j, slots, taken) && |taken| < slots
    requires Pick(fits, rank, runners, j, taken) == Some(k)
    ensures GoodSlots(fits, rank, runners, j + 1, slots, taken[k := j])
  {
    var after := taken[k := j];
    assert after[k] == j;
    assert forall n | n in taken :: after[n] == taken[n] && after[n] in after.Values;
    forall i: nat | i < j + 1 && i !in after.Values
      ensures RightlyLeft(fits, rank, runners, slots, after, i)
    {
      assert RightlyLeft(fits, rank, runners, slots, taken, i);
      forall b: nat | b < runners ensures !FreeFor(fits, rank, after, i, b) {
        assert !FreeFor(fits, rank, taken, i, b);
      }
    }
    forall n | n in after ensures WellSlotted(fits, rank, runners, after, n) {
      if n != k {
        assert WellSlotted(fits, rank, runners, taken, n);
      }
    }
  }

  lemma SlotRefused(fits: (nat, nat) -> bool, rank: nat -> nat, runners: nat, j: nat, slots: nat, taken: Slotting)
    requires GoodSlots(fits, rank, runners, j, slots, taken)
    requires Pick(fits, rank, runners, j, taken).None? || |taken| == slots
    ensures GoodSlots(fits, rank, runners, j + 1, slots, taken)
  {
    assert RightlyLeft(fits, rank, runners, slots, taken, j) by {
      if |taken| < slots {
        forall k: nat | k < runners ensures !FreeFor(fits, rank, taken, j, k) {
          assert !Candidate(fits, rank, j, k, taken);
        }
      }
    }
  }

  /** One turn of the assignment. */
  lemma OneSlot(fits: (nat, nat) -> bool, rank: nat -> nat, runners: nat, jobs: nat, j: nat, slots: nat,
      taken: Slotting)
    returns (next: Slotting)
    requires j < jobs && GoodSlots(fits, rank, runners, j, slots, taken)
    ensures GoodSlots(fits, rank, runners, j + 1, slots, next) && |taken| <= |next|
    ensures Assign(fits, rank, runners, jobs, j, slots - |taken|, taken)
         == Assign(fits, rank, runners, jobs, j + 1, slots - |next|, next)
  {
    var pick := Pick(fits, rank, runners, j, taken);
    if |taken| == slots || pick.None? {
      SlotRefused(fits, rank, runners, j, slots, taken);
      next := taken;
    } else {
      SlotTaken(fits, rank, runners, j, slots, taken, pick.value);
      next := taken[pick.value := j];
    }
  }

  /**
   Slots go to distinct jobs on distinct fitting runners, never more than there
   are, oldest job first and best runner first; and a job goes without only if
   every slot, or every runner it fits, is kept for an older one.
   */
  lemma {:induction false} AssignIsGood(
    fits: (nat, nat) -> bool, rank: nat -> nat, runners: nat, jobs: nat, j: nat, slots: nat, taken: Slotting)
    requires j <= jobs && GoodSlots(fits, rank, runners, j, slots, taken)
    ensures GoodSlots(fits, rank, runners, jobs, slots, Assign(fits, rank, runners, jobs, j, slots - |taken|, taken))
    decreases jobs - j
  {
    if j < jobs {
      var next := OneSlot(fits, rank, runners, jobs, j, slots, taken);
      AssignIsGood(fits, rank, runners, jobs, j + 1, slots, next);
    }
  }

  /** From no slot kept at all. */
  lemma AssignFromNone(fits: (nat, nat) -> bool, rank: nat -> nat, runners: nat, jobs: nat, slots: nat)
    ensures GoodSlots(fits, rank, runners, jobs, slots, Assign(fits, rank, runners, jobs, 0, slots, map[]))
  {
    AssignIsGood(fits, rank, runners, jobs, 0, slots, map[]);
  }
}
