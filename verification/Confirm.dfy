/**
 Confirmations of previewed actions: purge, issueConfirmation and
 consumeConfirmation of dashboard/lib/confirm.js. Tokens are random and taken as
 never repeated; the clock and the token are parameters.
 */
module Confirm {
  import opened Wrappers
  import opened Canonical
  import opened CanonicalText

  const CONFIRM_TTL_MS: int := 5 * 60 * 1000
  const MAX_PENDING: nat := 500

  /** Arguments as JSON.parse makes them: no object has a key twice. */
  type Args = j: Json | WellFormed(j) witness Null

  datatype Request = Request(action: string, args: Args, caller: string)

  /** An entry of the pending map, in the order the map keeps. */
  datatype Entry = Entry(token: string, action: string, args: Str, caller: string, expires: int)

  /** The token as a caller sends it: a string, or another value with the text String makes of it. */
  datatype Given = AsString(text: string) | AsOther(text: string)

  datatype Refusal = Unknown | OtherCaller | OtherRequest

  /** What the tokens issued and spent come to. */
  datatype Issued = Issued(token: string, request: Request, at: int)

  datatype Spent = Spent(given: Given, request: Request, at: int)

  function Alive(ps: seq<Entry>, now: int): seq<Entry> {
    if ps == [] then []
    else if ps[|ps| - 1].expires <= now then Alive(ps[..|ps| - 1], now)
    else Alive(ps[..|ps| - 1], now) + [ps[|ps| - 1]]
  }

  /** purge: the expired go, then the oldest until there is room for one more. */
  function Purged(ps: seq<Entry>, now: int): (r: seq<Entry>)
    ensures |r| < MAX_PENDING
  {
    var alive := Alive(ps, now);
    if |alive| < MAX_PENDING then alive else alive[|alive| - (MAX_PENDING - 1)..]
  }

  function Find(ps: seq<Entry>, token: string): (i: Option<nat>)
    ensures i.Some? ==> i.value < |ps| && ps[i.value].token == token
    ensures i.None? ==> forall k | 0 <= k < |ps| :: ps[k].token != token
  {
    if ps == [] then None
    else if ps[|ps| - 1].token == token then Some(|ps| - 1)
    else Find(ps[..|ps| - 1], token)
  }

  predicate TokensApart(ps: seq<Entry>) {
    forall i, j | 0 <= i < j < |ps| :: ps[i].token != ps[j].token
  }

  /** Why a token is refused, if it is. */
  function Refused(ps: seq<Entry>, given: Given, request: Request, now: int): Option<Refusal> {
    var i := Find(ps, given.text);
    if i.None? || ps[i.value].expires <= now then Some(Unknown)
    else if ps[i.value].caller != request.caller then Some(OtherCaller)
    else if ps[i.value].action != request.action || ps[i.value].args != Canon(request.args) then Some(OtherRequest)
    else None
  }

  /** pending.delete(token): a value that is not the string itself is not a key of the map. */
  function Deleted(ps: seq<Entry>, given: Given): seq<Entry> {
    if given.AsOther? || Find(ps, given.text).None? then ps
    else ps[..Find(ps, given.text).value] + ps[Find(ps, given.text).value + 1..]
  }

  // ---- what tokens are good for ---------------------------------------------------------

  /** The entry stands for a confirmation that was issued. */
  predicate Stands(i: Issued, e: Entry) {
    && i.token == e.token && i.request.action == e.action && i.request.caller == e.caller
    && e.args == Canon(i.request.args) && e.expires == i.at + CONFIRM_TTL_MS
  }

  /**
   The confirmation was issued to that caller, for that action and arguments of the same
   meaning, and had not expired.
   */
  predicate Covers(i: Issued, s: Spent) {
    && i.token == s.given.text && i.request.caller == s.request.caller && i.request.action == s.request.action
    && Meaning(i.request.args) == Meaning(s.request.args) && s.at < i.at + CONFIRM_TTL_MS
  }

  ghost predicate Backed(issued: seq<Issued>, e: Entry) {
    exists k | 0 <= k < |issued| :: Stands(issued[k], e)
  }

  ghost predicate Justified(issued: seq<Issued>, s: Spent) {
    exists k | 0 <= k < |issued| :: Covers(issued[k], s)
  }

  predicate NeverIssued(issued: seq<Issued>, token: string) {
    forall k | 0 <= k < |issued| :: issued[k].token != token
  }

  predicate AllStrings(spent: seq<Spent>) {
    forall k | 0 <= k < |spent| :: spent[k].given.AsString?
  }

  /** Every token was spent at most once, and none that was spent is still pending. */
  predicate SpentOnce(ps: seq<Entry>, spent: seq<Spent>) {
    && (forall j, k | 0 <= j < k < |spent| :: spent[j].given.text != spent[k].given.text)
    && (forall k | 0 <= k < |spent| :: Find(ps, spent[k].given.text).None?)
  }

  predicate IssuedApart(issued: seq<Issued>) {
    forall j, k | 0 <= j < k < |issued| :: issued[j].token != issued[k].token
  }

  predicate SpentAsString(spent: seq<Spent>, token: string) {
    exists k | 0 <= k < |spent| :: spent[k].given == AsString(token)
  }

  /** Confirmation k was not used up, had not expired at any issue since, and those are fewer than 500. */
  ghost predicate Lasts(issued: seq<Issued>, spent: seq<Spent>, k: nat) {
    && k < |issued| && |issued| - k <= MAX_PENDING && !SpentAsString(spent, issued[k].token)
    && forall m | k < m < |issued| :: issued[m].at < issued[k].at + CONFIRM_TTL_MS
  }

  /** Entry i stands for confirmation k, and there are no more entries from it on than were issued from k on. */
  ghost predicate HeldAt(ps: seq<Entry>, issued: seq<Issued>, k: nat, i: nat) {
    k < |issued| && i < |ps| && Stands(issued[k], ps[i]) && |ps| - i <= |issued| - k
  }

  ghost predicate StillPending(ps: seq<Entry>, issued: seq<Issued>, spent: seq<Spent>) {
    forall k: nat | Lasts(issued, spent, k) :: exists i: nat :: HeldAt(ps, issued, k, i)
  }

  ghost predicate Sound(ps: seq<Entry>, issued: seq<Issued>, spent: seq<Spent>) {
    && |ps| <= MAX_PENDING && TokensApart(ps) && IssuedApart(issued) && StillPending(ps, issued, spent)
    && (forall k | 0 <= k < |ps| :: Backed(issued, ps[k]))
    && (forall k | 0 <= k < |spent| :: Justified(issued, spent[k]))
    && (AllStrings(spent) ==> SpentOnce(ps, spent))
  }

  // ---- the lists, step by step ------------------------------------------------------------

  /** What is alive: the entries not expired, in their order. */
  lemma {:induction false} AliveHolds(ps: seq<Entry>, now: int)
    ensures forall e :: e in Alive(ps, now) <==> e in ps && e.expires > now
    ensures TokensApart(ps) ==> TokensApart(Alive(ps, now))
  {
    if ps != [] {
      var init, last := ps[..|ps| - 1], ps[|ps| - 1];
      assert ps == init + [last];
      AliveHolds(init, now);
      var alive := Alive(init, now);
      forall i | 0 <= i < |alive| && TokensApart(ps) ensures alive[i].token != last.token {
        assert alive[i] in init;
        var k :| 0 <= k < |init| && init[k] == alive[i];
        assert ps[k] == init[k];
      }
    }
  }

  lemma PurgedHolds(ps: seq<Entry>, now: int)
    ensures forall e | e in Purged(ps, now) :: e in ps && e.expires > now
    ensures |Alive(ps, now)| < MAX_PENDING ==> Purged(ps, now) == Alive(ps, now)
    ensures TokensApart(ps) ==> TokensApart(Purged(ps, now))
  {
    AliveHolds(ps, now);
    var alive := Alive(ps, now);
    assert forall e | e in Purged(ps, now) :: e in alive;
  }

  lemma FindIff(ps: seq<Entry>, token: string)
    ensures Find(ps, token).None? <==> forall k | 0 <= k < |ps| :: ps[k].token != token
  {
  }

  lemma Without(ps: seq<Entry>, i: nat)
    requires i < |ps|
    ensures var left := ps[..i] + ps[i + 1..];
      forall k | 0 <= k < |left| :: left[k] == if k < i then ps[k] else ps[k + 1]
  {
  }

  /** The others stay, and the token itself is gone exactly when it was given as the string it is. */
  lemma DeletedHolds(ps: seq<Entry>, given: Given)
    requires TokensApart(ps) && Find(ps, given.text).Some?
    ensures TokensApart(Deleted(ps, given)) && |Deleted(ps, given)| == |ps| - (if given.AsString? then 1 else 0)
    ensures forall k | 0 <= k < |Deleted(ps, given)| :: Deleted(ps, given)[k] in ps
    ensures Find(Deleted(ps, given), given.text).None? <==> given.AsString?
  {
    var i, left := Find(ps, given.text).value, Deleted(ps, given);
    FindIff(left, given.text);
    if given.AsString? {
      Without(ps, i);
    } else {
      assert left == ps;
    }
  }

  lemma StillNone(ps: seq<Entry>, qs: seq<Entry>, token: string)
    requires Find(ps, token).None? && forall k | 0 <= k < |qs| :: qs[k] in ps
    ensures Find(qs, token).None?
  {
    FindIff(ps, token);
    FindIff(qs, token);
    forall k | 0 <= k < |qs| ensures qs[k].token != token {
      assert qs[k] in ps;
    }
  }

  lemma StillBacked(issued: seq<Issued>, more: seq<Issued>, e: Entry)
    requires Backed(issued, e)
    ensures Backed(issued + more, e)
  {
    var k :| 0 <= k < |issued| && Stands(issued[k], e);
    assert Stands((issued + more)[k], e);
  }

  lemma StillJustified(issued: seq<Issued>, more: seq<Issued>, s: Spent)
    requires Justified(issued, s)
    ensures Justified(issued + more, s)
  {
    var k :| 0 <= k < |issued| && Covers(issued[k], s);
    assert Covers((issued + more)[k], s);
  }

  /** A spent token was issued. */
  lemma SpentWasIssued(issued: seq<Issued>, s: Spent)
    requires Justified(issued, s)
    ensures !NeverIssued(issued, s.given.text)
  {
    var k :| 0 <= k < |issued| && Covers(issued[k], s);
  }

  lemma {:induction false} AliveHeld(ps: seq<Entry>, now: int, i: nat) returns (j: nat)
    requires i < |ps| && now < ps[i].expires
    ensures j < |Alive(ps, now)| && Alive(ps, now)[j] == ps[i] && |Alive(ps, now)| - j <= |ps| - i
  {
    var init, n := ps[..|ps| - 1], |ps| - 1;
    if i == n {
      j := |Alive(ps, now)| - 1;
    } else {
      j := AliveHeld(init, now, i);
    }
  }

  /** A purge leaves what has not expired and has fewer than 499 entries after it. */
  lemma PurgedHeld(ps: seq<Entry>, now: int, i: nat) returns (j: nat)
    requires i < |ps| && now < ps[i].expires && |ps| - i < MAX_PENDING
    ensures j < |Purged(ps, now)| && Purged(ps, now)[j] == ps[i] && |Purged(ps, now)| - j <= |ps| - i
  {
    var alive := Alive(ps, now);
    j := AliveHeld(ps, now, i);
    if |alive| >= MAX_PENDING {
      j := j - (|alive| - (MAX_PENDING - 1));
    }
  }

  lemma IssueKeepsPending(ps: seq<Entry>, issued: seq<Issued>, spent: seq<Spent>, e: Entry, i: Issued)
    requires StillPending(ps, issued, spent) && Stands(i, e)
    ensures StillPending(Purged(ps, i.at) + [e], issued + [i], spent)
  {
    var kept, later := Purged(ps, i.at), issued + [i];
    forall k: nat | Lasts(later, spent, k) ensures exists n: nat :: HeldAt(kept + [e], later, k, n) {
      if k == |issued| {
        assert HeldAt(kept + [e], later, k, |kept|);
      } else {
        assert later[|issued|] == i && forall m | 0 <= m < |issued| :: later[m] == issued[m];
        assert Lasts(issued, spent, k);
        var n: nat :| HeldAt(ps, issued, k, n);
        var j := PurgedHeld(ps, i.at, n);
        assert HeldAt(kept + [e], later, k, j);
      }
    }
  }

  lemma ConsumeKeepsPending(ps: seq<Entry>, issued: seq<Issued>, spent: seq<Spent>, s: Spent)
    requires StillPending(ps, issued, spent) && TokensApart(ps) && Find(ps, s.given.text).Some?
    ensures StillPending(Deleted(ps, s.given), issued, spent + [s])
  {
    var left, i := Deleted(ps, s.given), Find(ps, s.given.text).value;
    forall k: nat | Lasts(issued, spent + [s], k) ensures exists n: nat :: HeldAt(left, issued, k, n) {
      assert (spent + [s])[|spent|] == s && forall m | 0 <= m < |spent| :: (spent + [s])[m] == spent[m];
      assert Lasts(issued, spent, k);
      var n: nat :| HeldAt(ps, issued, k, n);
      if s.given.AsOther? {
        assert left == ps;
      } else {
        Without(ps, i);
        assert n != i;
        assert HeldAt(left, issued, k, if n < i then n else n - 1);
      }
    }
  }

  lemma IssueKeeps(ps: seq<Entry>, issued: seq<Issued>, spent: seq<Spent>, request: Request, token: string, now: int)
    requires Sound(ps, issued, spent) && NeverIssued(issued, token)
    ensures Sound(Purged(ps, now)
      + [Entry(token, request.action, Canon(request.args), request.caller, now + CONFIRM_TTL_MS)],
                  issued + [Issued(token, request, now)], spent)
  {
    var e := Entry(token, request.action, Canon(request.args), request.caller, now + CONFIRM_TTL_MS);
    var i := Issued(token, request, now);
    var kept, later := Purged(ps, now), issued + [i];
    var ps' := kept + [e];
    PurgedHolds(ps, now);
    IssueKeepsPending(ps, issued, spent, e, i);
    assert Stands(later[|issued|], e);
    forall k | 0 <= k < |kept| ensures kept[k].token != token && Backed(later, kept[k]) {
      assert kept[k] in ps;
      var j :| 0 <= j < |ps| && ps[j] == kept[k];
      assert Backed(issued, ps[j]);
      StillBacked(issued, [i], kept[k]);
    }
    forall k | 0 <= k < |spent| ensures Justified(later, spent[k]) && spent[k].given.text != token {
      StillJustified(issued, [i], spent[k]);
      SpentWasIssued(issued, spent[k]);
    }
    if AllStrings(spent) {
      forall k | 0 <= k < |spent| ensures Find(ps', spent[k].given.text).None? {
        StillNone(ps, kept, spent[k].given.text);
        FindIff(kept, spent[k].given.text);
        FindIff(ps', spent[k].given.text);
      }
    }
  }

  /** A confirmation that runs was issued to that caller for that request, and has not expired. */
  lemma RunsForItsRequest(ps: seq<Entry>, issued: seq<Issued>, spent: seq<Spent>, given: Given, request: Request,
      now: int)
    requires Sound(ps, issued, spent) && Refused(ps, given, request, now).None?
    ensures Justified(issued, Spent(given, request, now))
  {
    var e := ps[Find(ps, given.text).value];
    assert Backed(issued, e);
    var k :| 0 <= k < |issued| && Stands(issued[k], e);
    CanonIsMeaning(issued[k].request.args, request.args);
    assert Covers(issued[k], Spent(given, request, now));
  }

  /** Confirmation k bears the token that was sent, is still pending and has not expired. */
  ghost predicate Out(ps: seq<Entry>, issued: seq<Issued>, token: string, now: int, k: nat) {
    && k < |issued| && issued[k].token == token && now < issued[k].at + CONFIRM_TTL_MS
    && exists i | 0 <= i < |ps| :: ps[i].token == token
  }

  ghost predicate SameRequest(a: Request, b: Request) {
    a.action == b.action && Meaning(a.args) == Meaning(b.args)
  }

  /** What a request is told, by the confirmation its token stands for; None lets it run. */
  ghost predicate Answers(issued: seq<Issued>, request: Request, k: nat, why: Option<Refusal>)
    requires k < |issued|
  {
    match why
    case None => issued[k].request.caller == request.caller && SameRequest(issued[k].request, request)
    case Some(Unknown) => false
    case Some(OtherCaller) => issued[k].request.caller != request.caller
    case Some(OtherRequest) =>
      issued[k].request.caller == request.caller && !SameRequest(issued[k].request, request)
  }

  lemma OutIs(ps: seq<Entry>, issued: seq<Issued>, spent: seq<Spent>, token: string, now: int, k: nat)
    requires Sound(ps, issued, spent) && Out(ps, issued, token, now, k)
    ensures Find(ps, token).Some? && Stands(issued[k], ps[Find(ps, token).value])
    ensures forall j: nat | Out(ps, issued, token, now, j) :: j == k
  {
    FindIff(ps, token);
    var e := ps[Find(ps, token).value];
    assert Backed(issued, e);
    var j :| 0 <= j < |issued| && Stands(issued[j], e);
  }

  /**
   A token is known exactly while a confirmation that bears it is pending and has not
   expired, and then the answer is whether caller, action and the meaning of the
   arguments are those it was issued for.
   */
  lemma RefusedMeans(ps: seq<Entry>, issued: seq<Issued>, spent: seq<Spent>, given: Given, request: Request, now: int)
    requires Sound(ps, issued, spent)
    ensures Refused(ps, given, request, now) == Some(Unknown)
       <==> !exists k: nat :: Out(ps, issued, given.text, now, k)
    ensures forall k: nat | Out(ps, issued, given.text, now, k) ::
              Answers(issued, request, k, Refused(ps, given, request, now))
  {
    var i := Find(ps, given.text);
    FindIff(ps, given.text);
    if i.Some? && now < ps[i.value].expires {
      assert Backed(issued, ps[i.value]);
      var j :| 0 <= j < |issued| && Stands(issued[j], ps[i.value]);
      assert Out(ps, issued, given.text, now, j);
    }
    if k: nat :| Out(ps, issued, given.text, now, k) {
      OutIs(ps, issued, spent, given.text, now, k);
      CanonIsMeaning(issued[k].request.args, request.args);
    }
  }

  /**
   A good token runs: not used up, issued less than five minutes before any issue since
   and now, and fewer than 500 issues ago, it is accepted from its caller for its action
   and arguments of that meaning.
   */
  lemma GoodTokenRuns(ps: seq<Entry>, issued: seq<Issued>, spent: seq<Spent>, k: nat, request: Request, now: int)
    requires Sound(ps, issued, spent) && Lasts(issued, spent, k) && now < issued[k].at + CONFIRM_TTL_MS
    requires issued[k].request.caller == request.caller && SameRequest(issued[k].request, request)
    ensures Refused(ps, AsString(issued[k].token), request, now).None?
  {
    var i: nat :| HeldAt(ps, issued, k, i);
    assert ps[i].token == issued[k].token;
    assert Out(ps, issued, issued[k].token, now, k);
    RefusedMeans(ps, issued, spent, AsString(issued[k].token), request, now);
  }

  lemma ConsumeKeeps(ps: seq<Entry>, issued: seq<Issued>, spent: seq<Spent>, given: Given, request: Request, now: int)
    requires Sound(ps, issued, spent) && Refused(ps, given, request, now).None?
    ensures Sound(Deleted(ps, given), issued, spent + [Spent(given, request, now)])
  {
    var ps', spent' := Deleted(ps, given), spent + [Spent(given, request, now)];
    DeletedHolds(ps, given);
    ConsumeKeepsPending(ps, issued, spent, Spent(given, request, now));
    RunsForItsRequest(ps, issued, spent, given, request, now);
    forall k | 0 <= k < |ps'| ensures Backed(issued, ps'[k]) {
      assert ps'[k] in ps;
    }
    if AllStrings(spent') {
      assert spent'[|spent|].given == given;
      assert AllStrings(spent) by {
        assert forall k | 0 <= k < |spent| :: spent[k] == spent'[k];
      }
      forall k | 0 <= k < |spent| ensures Find(ps', spent[k].given.text).None? && spent[k].given.text != given.text {
        StillNone(ps, ps', spent[k].given.text);
      }
    }
  }

  // ---- the map --------------------------------------------------------------------------------

  class Confirmations {
    var pending: seq<Entry>
    ghost var issued: seq<Issued>
    ghost var spent: seq<Spent>

    /**
     After any calls: at most 500 are pending, each of them issued; whatever ran had
     been issued to its own caller for its own action and arguments, in time; and if
     every token was given as a string, none ran twice.
     */
    ghost predicate Valid()
      reads this
    {
      Sound(pending, issued, spent)
    }

    constructor ()
      ensures Valid() && pending == [] && issued == [] && spent == []
    {
      pending, issued, spent := [], [], [];
    }

    method Purge(now: int)
      modifies this`pending
      ensures pending == Purged(old(pending), now)
    {
      var kept: seq<Entry> := [];
      for i := 0 to |pending|
        invariant kept == Alive(pending[..i], now) && pending == old(pending)
      {
        assert pending[..i + 1][..i] == pending[..i];
        if pending[i].expires > now {
          kept := kept + [pending[i]];
        }
      }
      assert pending[..|pending|] == pending;
      pending := kept;
      ghost var n: nat := 0;
      while |pending| >= MAX_PENDING
        invariant n <= |kept| && pending == kept[n..] && (n > 0 ==> |pending| >= MAX_PENDING - 1)
      {
        pending := pending[1..];
        n := n + 1;
      }
    }

    method Issue(request: Request, token: string, now: int) returns (expiresAt: int)
      requires Valid() && NeverIssued(issued, token)
      modifies this
      ensures Valid() && expiresAt == now + CONFIRM_TTL_MS
      ensures pending
        == Purged(old(pending), now) + [Entry(token, request.action, Canon(request.args), request.caller, expiresAt)]
      ensures issued == old(issued) + [Issued(token, request, now)] && spent == old(spent)
    {
      expiresAt := now + CONFIRM_TTL_MS;
      IssueKeeps(pending, issued, spent, request, token, now);
      Purge(now);
      pending := pending + [Entry(token, request.action, Canon(request.args), request.caller, expiresAt)];
      issued := issued + [Issued(token, request, now)];
    }

    /** None when the action may run. */
    method Consume(given: Given, request: Request, now: int) returns (why: Option<Refusal>)
      requires Valid()
      modifies this
      ensures Valid() && why == Refused(old(pending), given, request, now) && issued == old(issued)
      ensures why == Some(Unknown) <==> !exists k: nat :: Out(old(pending), issued, given.text, now, k)
      ensures forall k: nat | Out(old(pending), issued, given.text, now, k) :: Answers(issued, request, k, why)
      ensures why.Some? ==> pending == old(pending) && spent == old(spent)
      ensures why.None? ==>
        pending == Deleted(old(pending), given) && spent == old(spent) + [Spent(given, request, now)]
      ensures why.None? ==> (Find(pending, given.text).None? <==> given.AsString?)
    {
      RefusedMeans(pending, issued, spent, given, request, now);
      var i := Find(pending, given.text);
      if i.None? || pending[i.value].expires <= now {
        return Some(Unknown);
      }
      if pending[i.value].caller != request.caller {
        return Some(OtherCaller);
      }
      if pending[i.value].action != request.action || pending[i.value].args != Canon(request.args) {
        return Some(OtherRequest);
      }
      ConsumeKeeps(pending, issued, spent, given, request, now);
      DeletedHolds(pending, given);
      pending := Deleted(pending, given);
      spent := spent + [Spent(given, request, now)];
      return None;
    }
  }
}
