/** Short-lived email verification codes: issuing, verifying with a bounded number of attempts, and
    pruning in place. Each operation is one serialised database update. */
module EmailCodes {
  import opened Text

  type Id = string
  type Hash = string

  datatype Code = Code(id: Id, email: string, purpose: string, codeHash: Hash, attempts: nat,
                       expiresAt: int, usedAt: Option<int>)

  const MAX_ATTEMPTS := 5
  const TTL := 600_000
  const KEEP_USED := 86_400_000

  predicate IsExpired(c: Code, now: int) { now >= c.expiresAt }

  /** What pruning keeps: unused and unexpired codes, and used ones for 24 hours. */
  predicate Keep(c: Code, now: int)
  {
    if c.usedAt.None? then !IsExpired(c, now) else c.usedAt.value >= now - KEEP_USED
  }

  function Kept(list: seq<Code>, now: int): seq<Code>
  {
    if list == [] then []
    else
      var last := list[|list| - 1];
      var rest := Kept(list[..|list| - 1], now);
      if Keep(last, now) then rest + [last] else rest
  }

  lemma {:induction false} KeptMembers(list: seq<Code>, now: int)
    ensures forall c :: c in Kept(list, now) <==> c in list && Keep(c, now)
    decreases |list|
  {
    if list != [] {
      KeptMembers(list[..|list| - 1], now);
      assert list == list[..|list| - 1] + [list[|list| - 1]];
    }
  }

  lemma {:induction false} KeptConcat(a: seq<Code>, b: seq<Code>, now: int)
    ensures Kept(a + b, now) == Kept(a, now) + Kept(b, now)
    decreases |b|
  {
    if b == [] {
      assert a + b == a;
    } else {
      KeptConcat(a, b[..|b| - 1], now);
      assert (a + b)[..|a + b| - 1] == a + b[..|b| - 1];
    }
  }

  lemma KeptNone(now: int)
    ensures Kept([], now) == []
  {}

  lemma KeptFirst(c: Code, tail: seq<Code>, now: int)
    ensures Kept([c] + tail, now) == (if Keep(c, now) then [c] else []) + Kept(tail, now)
  {
    KeptConcat([c], tail, now);
    assert [c][..0] == [];
  }

  predicate Matches(c: Code, email: string, purpose: string)
  {
    c.email == email && c.purpose == purpose && c.usedAt.None?
  }

  /** The head of the filtered list sorted by expiry, latest first, ties in list order; -1 if empty. */
  function Freshest(list: seq<Code>, email: string, purpose: string): (i: int)
    ensures i == -1 <==> forall k :: 0 <= k < |list| ==> !Matches(list[k], email, purpose)
    ensures i != -1 ==> 0 <= i < |list| && Matches(list[i], email, purpose)
    ensures i != -1 ==> forall k :: 0 <= k < |list| && Matches(list[k], email, purpose) ==>
              list[k].expiresAt < list[i].expiresAt || (list[k].expiresAt == list[i].expiresAt && i <= k)
    ensures -1 <= i
  {
    if list == [] then -1
    else
      var n := |list| - 1;
      var i := Freshest(list[..n], email, purpose);
      if Matches(list[n], email, purpose) && (i == -1 || list[n].expiresAt > list[i].expiresAt) then n else i
  }

  datatype Verdict = Verified(entry: Code) | NotFound | Expired | WrongCode | AlreadyUsed | TooManyAttempts

  /** The verification of a pruned list. `now` is the clock at the decision. */
  function Decide(list: seq<Code>, email: string, purpose: string, hash: Hash, now: int): (seq<Code>, Verdict)
  {
    var i := Freshest(list, email, purpose);
    if i == -1 then (list, NotFound)
    else
      var c := list[i];
      if IsExpired(c, now) then (list, Expired)
      else if c.attempts >= MAX_ATTEMPTS then (list[i := c.(usedAt := Some(now))], TooManyAttempts)
      else if c.codeHash != hash then
        var tried := c.(attempts := c.attempts + 1);
        if tried.attempts >= MAX_ATTEMPTS then (list[i := tried.(usedAt := Some(now))], TooManyAttempts)
        else (list[i := tried], WrongCode)
      else (list[i := c.(usedAt := Some(now))], Verified(c.(usedAt := Some(now))))
  }

  // The verdict, by fields ----------------------------------------------------------------------------

  /** An unused code of this address and purpose. */
  predicate Open(c: Code, email: string, purpose: string)
  {
    c.email == email && c.purpose == purpose && c.usedAt == None
  }

  /** The code a verification decides on: open, no open one expires later, and none before it as late. */
  ghost predicate IsChosen(list: seq<Code>, email: string, purpose: string, i: int)
  {
    && 0 <= i < |list| && Open(list[i], email, purpose)
    && (forall k :: 0 <= k < |list| && Open(list[k], email, purpose) ==> list[k].expiresAt <= list[i].expiresAt)
    && (forall k :: 0 <= k < i && Open(list[k], email, purpose) ==> list[k].expiresAt < list[i].expiresAt)
  }

  /** Nothing is found exactly when no code is open; otherwise the chosen code, which is unique, decides:
      expired at its expiry, locked from five attempts on or on the fifth wrong guess, wrong while the
      hash differs, verified when it is the same. */
  lemma VerdictByFields(list: seq<Code>, email: string, purpose: string, hash: Hash, now: int)
    ensures var verdict := Decide(list, email, purpose, hash, now).1;
            && (verdict == NotFound <==> forall c :: c in list ==> !Open(c, email, purpose))
            && (verdict != NotFound <==> exists i :: IsChosen(list, email, purpose, i))
            && verdict != AlreadyUsed
    ensures var verdict := Decide(list, email, purpose, hash, now).1;
            forall i :: IsChosen(list, email, purpose, i) ==>
              var c := list[i];
              && (verdict == Expired <==> c.expiresAt <= now)
              && (verdict == TooManyAttempts <==> now < c.expiresAt && (c.attempts >= 5 || (c.attempts == 4 && c.codeHash != hash)))
              && (verdict == WrongCode <==> now < c.expiresAt && c.attempts < 4 && c.codeHash != hash)
              && (verdict.Verified? <==> now < c.expiresAt && c.attempts < 5 && c.codeHash == hash)
              && (verdict.Verified? ==> verdict.entry == c.(usedAt := Some(now)))
  {
    var f := Freshest(list, email, purpose);
    assert forall c :: Matches(c, email, purpose) <==> Open(c, email, purpose);
    if f == -1 {
      forall c | c in list
        ensures !Open(c, email, purpose)
      {
        var k :| 0 <= k < |list| && list[k] == c;
      }
    } else {
      assert IsChosen(list, email, purpose, f);
      assert list[f] in list && Open(list[f], email, purpose);
    }
  }

  /** What a verification changes: the chosen code alone, if it has not expired. A wrong guess counts
      one attempt; success and lock-out mark it used; all else is as it was, in place. */
  lemma ChangeByFields(list: seq<Code>, email: string, purpose: string, hash: Hash, now: int)
    ensures var (after, verdict) := Decide(list, email, purpose, hash, now);
            && |after| == |list|
            && (forall k :: 0 <= k < |list| && !IsChosen(list, email, purpose, k) ==> after[k] == list[k])
            && (forall k :: 0 <= k < |list| && IsChosen(list, email, purpose, k) ==>
                  after[k] == match verdict
                              case Expired => list[k]
                              case WrongCode => list[k].(attempts := list[k].attempts + 1)
                              case TooManyAttempts =>
                                if list[k].attempts >= 5 then list[k].(usedAt := Some(now))
                                else list[k].(attempts := list[k].attempts + 1, usedAt := Some(now))
                              case _ => list[k].(usedAt := Some(now)))
  {
    VerdictByFields(list, email, purpose, hash, now);
    var f := Freshest(list, email, purpose);
    assert forall c :: Matches(c, email, purpose) <==> Open(c, email, purpose);
    if f != -1 {
      assert IsChosen(list, email, purpose, f);
    }
  }

  /** What pruning keeps, by fields. */
  lemma KeepByFields(c: Code, now: int)
    ensures Keep(c, now) <==>
              match c.usedAt
              case None => now < c.expiresAt
              case Some(used) => now - 24 * 60 * 60 * 1000 <= used
  {}

  /** A pruned table's verification: who is verified, when nothing is found, and that no code of another
      address or purpose is touched. */
  lemma VerifiedIsOwn(codes: seq<Code>, email: string, purpose: string, hash: Hash, pruneAt: int, now: int)
    ensures var (after, verdict) := Decide(Kept(codes, pruneAt), email, purpose, hash, now);
            && (verdict.Verified? ==>
                  exists c :: c in codes && c.email == email && c.purpose == purpose && c.codeHash == hash
                              && c.usedAt == None && now < c.expiresAt && verdict.entry == c.(usedAt := Some(now)))
            && (verdict == NotFound <==>
                  forall c :: c in codes ==> !(c.email == email && c.purpose == purpose && c.usedAt == None && pruneAt < c.expiresAt))
            && (forall c: Code :: c.email != email || c.purpose != purpose ==> (c in after <==> c in codes && Keep(c, pruneAt)))
  {
    hide Kept, Decide, IsChosen, Freshest;
    var list := Kept(codes, pruneAt);
    KeptMembers(codes, pruneAt);
    VerdictByFields(list, email, purpose, hash, now);
    ChangeByFields(list, email, purpose, hash, now);
    var (after, verdict) := Decide(list, email, purpose, hash, now);
    if verdict.Verified? {
      var i :| IsChosen(list, email, purpose, i);
      ChosenIsOpen(list, email, purpose, i);
      assert list[i] in list;
    }
    forall c: Code | c.email != email || c.purpose != purpose
      ensures c in after <==> c in list
    {
      if c in list {
        var k :| 0 <= k < |list| && list[k] == c;
        ChosenIsOpen(list, email, purpose, k);
        assert after[k] == c;
      }
      if c in after {
        var k :| 0 <= k < |after| && after[k] == c;
        ChosenIsOpen(list, email, purpose, k);
        assert list[k] == c;
      }
    }
  }

  lemma ChosenIsOpen(list: seq<Code>, email: string, purpose: string, i: int)
    ensures IsChosen(list, email, purpose, i) ==> 0 <= i < |list| && Open(list[i], email, purpose)
  {}

  class CodeTable {
    var codes: seq<Code>

    constructor ()
      ensures codes == []
    {
      codes := [];
    }

    /** The backward loop that splices out what is stale; what is kept stays in order. */
    method PruneExpiredInPlace(now: int)
      modifies this
      ensures codes == Kept(old(codes), now)
    {
      hide Kept;
      var i := |codes| - 1;
      KeptNone(now);
      assert codes[i + 1..] == [] && codes[..i + 1] == codes;
      while i >= 0
        invariant -1 <= i < |old(codes)| && i < |codes|
        invariant codes == old(codes)[..i + 1] + Kept(old(codes)[i + 1..], now)
      {
        ghost var tail := old(codes)[i + 1..];
        var c := codes[i];
        KeptFirst(c, tail, now);
        assert [c] + tail == old(codes)[i..];
        if IsExpired(c, now) && c.usedAt.None? {
          codes := codes[..i] + codes[i + 1..];
        } else if c.usedAt.Some? && c.usedAt.value < now - KEEP_USED {
          codes := codes[..i] + codes[i + 1..];
        }
        i := i - 1;
      }
      assert old(codes)[0..] == old(codes);
    }

    method IssueVerificationCode(id: Id, email: string, purpose: string, hash: Hash, now: int, pruneAt: int)
      modifies this
      ensures codes == Kept(old(codes) + [Code(id, email, purpose, hash, 0, now + TTL, None)], pruneAt)
      ensures forall c :: c in codes <==>
                (c in old(codes) || c == Code(id, email, purpose, hash, 0, now + 10 * 60 * 1000, None))
                && if c.usedAt.Some? then pruneAt - 24 * 60 * 60 * 1000 <= c.usedAt.value else pruneAt < c.expiresAt
    {
      KeptMembers(codes + [Code(id, email, purpose, hash, 0, now + TTL, None)], pruneAt);
      codes := codes + [Code(id, email, purpose, hash, 0, now + TTL, None)];
      PruneExpiredInPlace(pruneAt);
    }

    method VerifyCode(email: string, purpose: string, hash: Hash, pruneAt: int, now: int) returns (verdict: Verdict)
      modifies this
      ensures (codes, verdict) == Decide(Kept(old(codes), pruneAt), email, purpose, hash, now)
      ensures verdict.Verified? ==>
                exists c :: c in old(codes) && c.email == email && c.purpose == purpose && c.codeHash == hash
                            && c.usedAt == None && now < c.expiresAt && verdict.entry == c.(usedAt := Some(now))
      ensures verdict == NotFound <==>
                forall c :: c in old(codes) ==>
                  !(c.email == email && c.purpose == purpose && c.usedAt == None && pruneAt < c.expiresAt)
      ensures forall c: Code :: c.email != email || c.purpose != purpose ==> (c in codes <==> c in old(codes) && Keep(c, pruneAt))
    {
      VerifiedIsOwn(codes, email, purpose, hash, pruneAt, now);
      PruneExpiredInPlace(pruneAt);
      var i := Freshest(codes, email, purpose);
      if i == -1 {
        return NotFound;
      }
      var entry := codes[i];
      if IsExpired(entry, now) {
        return Expired;
      }
      if entry.attempts >= MAX_ATTEMPTS {
        codes := codes[i := entry.(usedAt := Some(now))];
        return TooManyAttempts;
      }
      if entry.codeHash != hash {
        entry := entry.(attempts := entry.attempts + 1);
        if entry.attempts >= MAX_ATTEMPTS {
          codes := codes[i := entry.(usedAt := Some(now))];
          return TooManyAttempts;
        }
        codes := codes[i := entry];
        return WrongCode;
      }
      codes := codes[i := entry.(usedAt := Some(now))];
      verdict := Verified(entry.(usedAt := Some(now)));
    }
  }

  // Runs -------------------------------------------------------------------------------------------

  /** Guesses one code has absorbed: wrong ones and successes. */
  datatype Tally = Tally(wrong: nat, right: nat)

  datatype State = State(now: int, codes: seq<Code>, tallies: map<Id, Tally>)

  const INIT := State(0, [], map[])

  datatype Event =
    | Issue(t: int, id: Id, email: string, purpose: string, hash: Hash, issuedAt: int)
    | Verify(t: int, email: string, purpose: string, hash: Hash, pruneAt: int)
    | Cleanup(t: int)

  /** Ids are fresh; within one update the clock may move from the prune to the decision. */
  predicate Enabled(s: State, e: Event)
  {
    s.now <= e.t
    && match e
       case Issue(t, id, _, _, _, issuedAt) => id !in s.tallies && issuedAt <= t
       case Verify(t, _, _, _, pruneAt) => s.now <= pruneAt <= t
       case Cleanup(_) => true
  }

  function Unexpired(list: seq<Code>, now: int): seq<Code>
  {
    if list == [] then []
    else
      var last := list[|list| - 1];
      var rest := Unexpired(list[..|list| - 1], now);
      if IsExpired(last, now) then rest else rest + [last]
  }

  /** A verification counts on the code it picked: right if it verified, wrong if it compared and failed. */
  function Counted(tallies: map<Id, Tally>, list: seq<Code>, email: string, purpose: string, hash: Hash, now: int): map<Id, Tally>
  {
    var i := Freshest(list, email, purpose);
    if i == -1 || list[i].id !in tallies || IsExpired(list[i], now) || list[i].attempts >= MAX_ATTEMPTS then tallies
    else
      var t := tallies[list[i].id];
      tallies[list[i].id := if list[i].codeHash == hash then t.(right := t.right + 1) else t.(wrong := t.wrong + 1)]
  }

  function Apply(s: State, e: Event): State
  {
    match e
    case Issue(t, id, email, purpose, hash, issuedAt) =>
      State(t, Kept(s.codes + [Code(id, email, purpose, hash, 0, issuedAt + TTL, None)], t), s.tallies[id := Tally(0, 0)])
    case Verify(t, email, purpose, hash, pruneAt) =>
      var list := Kept(s.codes, pruneAt);
      State(t, Decide(list, email, purpose, hash, t).0, Counted(s.tallies, list, email, purpose, hash, t))
    case Cleanup(t) => s.(now := t, codes := Unexpired(s.codes, t))
  }

  ghost predicate IsRun(states: seq<State>, events: seq<Event>)
  {
    && |states| == |events| + 1
    && states[0] == INIT
    && forall i :: 0 <= i < |events| ==> Enabled(states[i], events[i]) && states[i + 1] == Apply(states[i], events[i])
  }

  ghost predicate CodeOk(c: Code, tallies: map<Id, Tally>)
  {
    && c.id in tallies && tallies[c.id].wrong == c.attempts <= 5
    && (c.usedAt.None? ==> c.attempts < 5 && tallies[c.id].right == 0)
  }

  ghost predicate DistinctIds(list: seq<Code>)
  {
    forall i, j :: 0 <= i < j < |list| ==> list[i].id != list[j].id
  }

  ghost predicate Inv(s: State)
  {
    && DistinctIds(s.codes)
    && (forall c :: c in s.codes ==> CodeOk(c, s.tallies))
    && (forall id :: id in s.tallies ==> s.tallies[id].wrong <= 5 && s.tallies[id].right <= 1)
  }

  lemma {:induction false} KeptDistinct(list: seq<Code>, now: int)
    requires DistinctIds(list)
    ensures DistinctIds(Kept(list, now))
    decreases |list|
  {
    if list != [] {
      var n := |list| - 1;
      KeptDistinct(list[..n], now);
      KeptMembers(list[..n], now);
      forall k | 0 <= k < |Kept(list[..n], now)|
        ensures Kept(list[..n], now)[k].id != list[n].id
      {
        assert Kept(list[..n], now)[k] in list[..n];
      }
    }
  }

  lemma {:induction false} UnexpiredMembers(list: seq<Code>, now: int)
    ensures forall c :: c in Unexpired(list, now) <==> c in list && !IsExpired(c, now)
    decreases |list|
  {
    hide IsExpired;
    if list != [] {
      UnexpiredMembers(list[..|list| - 1], now);
      assert list == list[..|list| - 1] + [list[|list| - 1]];
    }
  }

  /** The periodic clean-up keeps exactly the unexpired codes, used or not, in their order. */
  lemma {:induction false} CleanupKeeps(a: seq<Code>, b: seq<Code>, c: Code, now: int)
    ensures Unexpired(a + b, now) == Unexpired(a, now) + Unexpired(b, now)
    ensures Unexpired([c], now) == if now < c.expiresAt then [c] else []
    decreases |b|
  {
    var none: seq<Code> := [c][..0];
    assert Unexpired(none, now) == [];
    if b == [] {
      assert a + b == a;
    } else {
      var n := |b| - 1;
      CleanupKeeps(a, b[..n], c, now);
      var both := a + b;
      assert both[..|both| - 1] == a + b[..n] && both[|both| - 1] == b[n];
    }
  }

  /** What each step leaves in the table. */
  lemma StepMeaning(s: State, e: Event)
    ensures Apply(s, e).now == e.t
    ensures match e
            case Issue(t, id, email, purpose, hash, issuedAt) =>
              Apply(s, e).codes == Kept(s.codes + [Code(id, email, purpose, hash, 0, issuedAt + 600_000, None)], t)
            case Verify(t, email, purpose, hash, pruneAt) => Apply(s, e).codes == Decide(Kept(s.codes, pruneAt), email, purpose, hash, t).0
            case Cleanup(t) => Apply(s, e).codes == Unexpired(s.codes, t)
  {}

  lemma {:induction false} UnexpiredDistinct(list: seq<Code>, now: int)
    requires DistinctIds(list)
    ensures DistinctIds(Unexpired(list, now))
    decreases |list|
  {
    hide IsExpired;
    if list != [] {
      var n := |list| - 1;
      UnexpiredDistinct(list[..n], now);
      UnexpiredMembers(list[..n], now);
      forall k | 0 <= k < |Unexpired(list[..n], now)|
        ensures Unexpired(list[..n], now)[k].id != list[n].id
      {
        assert Unexpired(list[..n], now)[k] in list[..n];
      }
    }
  }

  lemma DecideKeeps(list: seq<Code>, tallies: map<Id, Tally>, email: string, purpose: string, hash: Hash, t: int)
    requires Inv(State(t, list, tallies))
    ensures Inv(State(t, Decide(list, email, purpose, hash, t).0, Counted(tallies, list, email, purpose, hash, t)))
  {
    var list' := Decide(list, email, purpose, hash, t).0;
    var tallies' := Counted(tallies, list, email, purpose, hash, t);
    var i := Freshest(list, email, purpose);
    if i != -1 {
      assert CodeOk(list[i], tallies);
      forall k | 0 <= k < |list'|
        ensures CodeOk(list'[k], tallies')
      {
        assert list[k] in list;
      }
    }
  }

  lemma PruneKeeps(s: State, now: int)
    requires Inv(s)
    ensures Inv(s.(codes := Kept(s.codes, now)))
  {
    hide Kept;
    KeptMembers(s.codes, now);
    KeptDistinct(s.codes, now);
  }

  lemma StepKeepsInv(s: State, e: Event)
    requires Inv(s) && Enabled(s, e)
    ensures Inv(Apply(s, e))
  {
    hide Kept, Decide, Counted, Unexpired;
    match e
    case Issue(t, id, email, purpose, hash, issuedAt) =>
      var code := Code(id, email, purpose, hash, 0, issuedAt + TTL, None);
      var s1 := State(t, s.codes + [code], s.tallies[id := Tally(0, 0)]);
      forall c | c in s1.codes
        ensures CodeOk(c, s1.tallies)
      {
        if c != code {
          assert c in s.codes;
        }
      }
      forall k | 0 <= k < |s.codes|
        ensures s.codes[k].id != id
      {
        assert s.codes[k] in s.codes;
      }
      PruneKeeps(s1, t);
    case Verify(t, email, purpose, hash, pruneAt) =>
      PruneKeeps(s, pruneAt);
      DecideKeeps(Kept(s.codes, pruneAt), s.tallies, email, purpose, hash, t);
    case Cleanup(t) =>
      UnexpiredMembers(s.codes, t);
      UnexpiredDistinct(s.codes, t);
  }

  lemma {:induction false} RunKeepsInv(states: seq<State>, events: seq<Event>, n: nat)
    requires IsRun(states, events) && n < |states|
    ensures Inv(states[n])
  {
    hide Inv, Apply;
    if n == 0 {
      InitInv();
    } else {
      RunKeepsInv(states, events, n - 1);
      StepKeepsInv(states[n - 1], events[n - 1]);
    }
  }

  lemma InitInv()
    ensures Inv(INIT)
  {}

  // What every run guarantees ------------------------------------------------------------------------

  /** This verification compares a submitted hash with the code `id`: it is the chosen one, unexpired,
      and not locked; `right` says whether the hash is the same. */
  ghost predicate Guesses(s: State, e: Event, id: Id, right: bool)
  {
    e.Verify?
    && exists i :: IsChosen(Kept(s.codes, e.pruneAt), e.email, e.purpose, i) && GuessOn(Kept(s.codes, e.pruneAt), e, id, right, i)
  }

  predicate GuessOn(list: seq<Code>, e: Event, id: Id, right: bool, i: int)
    requires e.Verify?
  {
    0 <= i < |list| && list[i].id == id && e.t < list[i].expiresAt && list[i].attempts < 5 && (right <==> list[i].codeHash == e.hash)
  }

  ghost function CountGuesses(states: seq<State>, events: seq<Event>, n: nat, id: Id, right: bool): nat
    requires n <= |events| && n <= |states|
  {
    if n == 0 then 0
    else CountGuesses(states, events, n - 1, id, right) + if Guesses(states[n - 1], events[n - 1], id, right) then 1 else 0
  }

  lemma VerifyCounts(s: State, e: Event, id: Id)
    requires Inv(s) && Enabled(s, e) && e.Verify? && id in s.tallies
    ensures var after := Apply(s, e).tallies;
            && id in after
            && after[id].wrong == s.tallies[id].wrong + (if Guesses(s, e, id, false) then 1 else 0)
            && after[id].right == s.tallies[id].right + (if Guesses(s, e, id, true) then 1 else 0)
  {
    hide Kept, Decide;
    var list := Kept(s.codes, e.pruneAt);
    KeptMembers(s.codes, e.pruneAt);
    var f := Freshest(list, e.email, e.purpose);
    assert forall c :: Matches(c, e.email, e.purpose) <==> Open(c, e.email, e.purpose);
    if f != -1 {
      assert IsChosen(list, e.email, e.purpose, f);
      assert list[f] in list;
      CodeKnown(s, list[f]);
    }
    assert forall i :: IsChosen(list, e.email, e.purpose, i) ==> i == f;
  }

  /** The tallies count the guesses of the run. */
  lemma {:induction false} TalliesCount(states: seq<State>, events: seq<Event>, n: nat, id: Id)
    requires IsRun(states, events) && n < |states|
    ensures id !in states[n].tallies ==> CountGuesses(states, events, n, id, false) == 0 && CountGuesses(states, events, n, id, true) == 0
    ensures id in states[n].tallies ==>
              CountGuesses(states, events, n, id, false) == states[n].tallies[id].wrong
              && CountGuesses(states, events, n, id, true) == states[n].tallies[id].right
    decreases n
  {
    hide Inv, Guesses, Kept, Decide, Counted, Unexpired;
    if n > 0 {
      TalliesCount(states, events, n - 1, id);
      RunKeepsInv(states, events, n - 1);
      var s, e := states[n - 1], events[n - 1];
      assert states[n] == Apply(s, e);
      if e.Verify? {
        if id in s.tallies {
          VerifyCounts(s, e, id);
        } else {
          UnknownIsNotGuessed(s, e, id);
        }
      } else {
        assert !Guesses(s, e, id, false) && !Guesses(s, e, id, true) by { OnlyVerifyGuesses(s, e, id); }
      }
    }
  }

  lemma OnlyVerifyGuesses(s: State, e: Event, id: Id)
    ensures !e.Verify? ==> !Guesses(s, e, id, false) && !Guesses(s, e, id, true)
  {}

  lemma UnknownIsNotGuessed(s: State, e: Event, id: Id)
    requires Inv(s) && Enabled(s, e) && e.Verify? && id !in s.tallies
    ensures !Guesses(s, e, id, false) && !Guesses(s, e, id, true) && id !in Apply(s, e).tallies
  {
    hide Kept, Decide;
    var list := Kept(s.codes, e.pruneAt);
    KeptMembers(s.codes, e.pruneAt);
    forall i | 0 <= i < |list|
      ensures list[i].id != id
    {
      assert list[i] in list;
      CodeKnown(s, list[i]);
    }
  }

  /** In every run each issued code absorbs at most five wrong guesses and at most one success, for
      good: the counts cover its whole life, also after it has been pruned. */
  lemma GuessesAreBounded(states: seq<State>, events: seq<Event>, n: nat, id: Id)
    requires IsRun(states, events) && n < |states|
    ensures CountGuesses(states, events, n, id, false) <= 5
    ensures CountGuesses(states, events, n, id, true) <= 1
  {
    hide Apply, CountGuesses;
    RunKeepsInv(states, events, n);
    TalliesCount(states, events, n, id);
  }

  /** An unused code has had fewer than five wrong guesses and no success; its counter is exact. */
  lemma UnusedHasAttemptsLeft(states: seq<State>, events: seq<Event>, n: nat, c: Code)
    requires IsRun(states, events) && n < |states| && c in states[n].codes
    ensures c.id in states[n].tallies && c.attempts == states[n].tallies[c.id].wrong
    ensures c.usedAt.None? ==> c.attempts < 5 && states[n].tallies[c.id].right == 0
  {
    hide Apply;
    RunKeepsInv(states, events, n);
  }

  /** In a run, a verification finds nothing exactly when no unused unexpired code of the address and
      purpose is stored; else the chosen code, which still has an attempt left, decides by its expiry
      and hash. It never meets an exhausted code and never answers "already used". */
  lemma VerdictIsDecided(states: seq<State>, events: seq<Event>, n: nat)
    requires IsRun(states, events) && n < |events| && events[n].Verify?
    ensures var e := events[n];
            var list := Kept(states[n].codes, e.pruneAt);
            var verdict := Decide(list, e.email, e.purpose, e.hash, e.t).1;
            && verdict != AlreadyUsed
            && (verdict == NotFound <==>
                  forall c :: c in states[n].codes ==>
                    !(c.email == e.email && c.purpose == e.purpose && c.usedAt == None && e.pruneAt < c.expiresAt))
            && forall i :: IsChosen(list, e.email, e.purpose, i) ==>
                 var c := list[i];
                 && c in states[n].codes && c.usedAt == None && c.attempts < 5
                 && (verdict == Expired <==> c.expiresAt <= e.t)
                 && (verdict.Verified? <==> e.t < c.expiresAt && c.codeHash == e.hash)
                 && (verdict == WrongCode <==> e.t < c.expiresAt && c.codeHash != e.hash && c.attempts < 4)
                 && (verdict == TooManyAttempts <==> e.t < c.expiresAt && c.codeHash != e.hash && c.attempts == 4)
  {
    hide Apply, Kept, Decide, Inv;
    var e := events[n];
    var list := Kept(states[n].codes, e.pruneAt);
    RunKeepsInv(states, events, n);
    KeptMembers(states[n].codes, e.pruneAt);
    VerdictByFields(list, e.email, e.purpose, e.hash, e.t);
    VerifiedIsOwn(states[n].codes, e.email, e.purpose, e.hash, e.pruneAt, e.t);
    forall i | IsChosen(list, e.email, e.purpose, i)
      ensures list[i] in states[n].codes && list[i].attempts < 5
    {
      assert list[i] in list;
      CodeKnown(states[n], list[i]);
    }
  }

  lemma CodeKnown(s: State, c: Code)
    requires Inv(s) && c in s.codes
    ensures CodeOk(c, s.tallies)
  {}

  /** Once used, a code is never touched again by a verification. */
  lemma UsedIsNeverSelected(list: seq<Code>, email: string, purpose: string, hash: Hash, now: int, k: nat)
    requires k < |list| && list[k].usedAt.Some?
    ensures |Decide(list, email, purpose, hash, now).0| == |list| && Decide(list, email, purpose, hash, now).0[k] == list[k]
  {}
}
