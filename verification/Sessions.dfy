/** Web sessions and two-factor login: pending sessions, their one-time upgrade by rotation, and the
    eight recovery codes. Each event is the code between two awaits, so calls interleave freely. */
module Sessions {
  import opened Text

  type UserId = string
  type Token = string
  type Hash = string
  type CallId = nat

  datatype User = User(enabled: bool, recovery: seq<Hash>)

  datatype Session = Session(token: Token, userId: UserId, expiresAt: int, twofaPending: bool, enrollmentRequired: bool)

  datatype ApiToken = ApiToken(tokenHash: Hash, userId: UserId, expiresAt: Option<int>)

  predicate Full(s: Session) { !s.twofaPending && !s.enrollmentRequired }

  function FindSession(sessions: seq<Session>, token: Token): (i: int)
    ensures i == -1 <==> forall k :: 0 <= k < |sessions| ==> sessions[k].token != token
    ensures i != -1 ==> 0 <= i < |sessions| && sessions[i].token == token
                        && forall k :: 0 <= k < i ==> sessions[k].token != token
  {
    if sessions == [] then -1
    else if sessions[0].token == token then 0
    else
      var i := FindSession(sessions[1..], token);
      assert forall k :: 0 < k < |sessions| ==> sessions[k] == sessions[1..][k - 1];
      if i == -1 then -1 else i + 1
  }

  /** The filters the code applies to the session list. */
  datatype Sweep = Expired(now: int) | OfUser(userId: UserId) | StaleRestricted(now: int)

  predicate Drops(w: Sweep, s: Session)
  {
    match w
    case Expired(now) => s.expiresAt <= now
    case OfUser(userId) => s.userId == userId
    case StaleRestricted(now) => !Full(s) && s.expiresAt <= now
  }

  function Swept(sessions: seq<Session>, w: Sweep): seq<Session>
  {
    if sessions == [] then []
    else if Drops(w, sessions[0]) then Swept(sessions[1..], w)
    else [sessions[0]] + Swept(sessions[1..], w)
  }

  // Resolving a token --------------------------------------------------------------------------

  datatype Options = Options(allowTwofaPending: bool, allowEnrollmentRequired: bool)

  const DEFAULT := Options(false, false)

  datatype Resolved = Anonymous | Api(userId: UserId) | Web(userId: UserId) | Restricted2FA(userId: UserId) | RestrictedEnrolment(userId: UserId)

  function FindApi(apiTokens: seq<ApiToken>, h: Hash): Option<ApiToken>
  {
    if apiTokens == [] then None
    else if apiTokens[0].tokenHash == h then Some(apiTokens[0])
    else FindApi(apiTokens[1..], h)
  }

  function Resolve(users: map<UserId, User>, sessions: seq<Session>, apiTokens: seq<ApiToken>, sha: string -> Hash,
                   token: Token, options: Options, now: int): Resolved
  {
    if token == "" then Anonymous
    else if StartsWith(token, "envf_") then
      match FindApi(apiTokens, sha(token))
      case None => Anonymous
      case Some(a) =>
        if (a.expiresAt.Some? && a.expiresAt.value <= now) || a.userId !in users then Anonymous else Api(a.userId)
    else
      var i := FindSession(sessions, token);
      if i == -1 || sessions[i].expiresAt <= now || sessions[i].userId !in users then Anonymous
      else if sessions[i].twofaPending then
        if options.allowTwofaPending then Restricted2FA(sessions[i].userId) else Anonymous
      else if sessions[i].enrollmentRequired then
        if options.allowEnrollmentRequired then RestrictedEnrolment(sessions[i].userId) else Anonymous
      else Web(sessions[i].userId)
  }

  // Rotation and recovery codes ------------------------------------------------------------------

  function Rotated(sessions: seq<Session>, oldToken: Token, newToken: Token, expiresAt: int): Option<seq<Session>>
  {
    var i := FindSession(sessions, oldToken);
    if i == -1 then None
    else Some(sessions[..i] + sessions[i + 1..] + [Session(newToken, sessions[i].userId, expiresAt, false, false)])
  }

  function FindHash(list: seq<Hash>, h: Hash): (i: int)
    ensures i == -1 <==> h !in list
    ensures i != -1 ==> 0 <= i < |list| && list[i] == h && h !in list[..i]
  {
    if list == [] then -1
    else if list[0] == h then 0
    else
      var i := FindHash(list[1..], h);
      assert list == [list[0]] + list[1..];
      if i == -1 then -1 else assert list[..i + 1] == [list[0]] + list[1..][..i]; i + 1
  }

  function Consume(users: map<UserId, User>, userId: UserId, h: Hash): (map<UserId, User>, bool)
  {
    if userId !in users || !users[userId].enabled then (users, false)
    else
      var list := users[userId].recovery;
      var i := FindHash(list, h);
      if i == -1 then (users, false)
      else (users[userId := User(true, list[..i] + list[i + 1..])], true)
  }

  /** Hyphens are dropped and letters are folded before hashing. */
  function Upper(c: char): char
  {
    if 'a' <= c <= 'z' then (c as int - 32) as char else c
  }

  function Normal(code: string): string
  {
    if code == "" then ""
    else if code[0] == '-' then Normal(code[1..])
    else [Upper(code[0])] + Normal(code[1..])
  }

  predicate IsBase32(c: char) { 'A' <= Upper(c) <= 'Z' || '2' <= c <= '7' }

  datatype Shape = TotpShape | RecoveryShape | NoShape

  /** Which of the two second factors a submitted code is taken for; six digits win. */
  function Sniff(code: string): Shape
  {
    if |code| == 6 && forall c :: c in code ==> IsDigit(c) then TotpShape
    else if |code| >= 4 && (forall k :: 0 <= k < 4 ==> IsBase32(code[k]))
            && (forall k :: 0 <= k < |code| ==> IsBase32(code[k]) || code[k] == '-')
            && (forall k :: 0 <= k < |code| - 1 ==> code[k] != '-' || code[k + 1] != '-')
            && code[|code| - 1] != '-' then RecoveryShape
    else NoShape
  }

  datatype Attempt = Totp(valid: bool) | Recovery(codeHash: Hash) | Malformed

  /** `valid` is the answer of the time-based check for this code at this moment. */
  function AttemptOf(code: string, valid: bool, sha: string -> Hash): Attempt
  {
    match Sniff(code)
    case TotpShape => Totp(valid)
    case RecoveryShape => Recovery(sha(Normal(code)))
    case NoShape => Malformed
  }

  function Printed(raw: string): string
    requires |raw| == 16
  {
    raw[..8] + "-" + raw[8..]
  }

  predicate IsSymbol(c: char) { 'A' <= c <= 'Z' || '2' <= c <= '7' }

  predicate IsRaw(raw: string)
  {
    |raw| == 16 && forall k :: 0 <= k < 16 ==> IsSymbol(raw[k])
  }

  function Hashes(raws: seq<string>, sha: string -> Hash): (hs: seq<Hash>)
    ensures |hs| == |raws| && forall k :: 0 <= k < |raws| ==> hs[k] == sha(raws[k])
  {
    if raws == [] then [] else [sha(raws[0])] + Hashes(raws[1..], sha)
  }

  lemma {:induction false} NormalConcat(a: string, b: string)
    ensures Normal(a + b) == Normal(a) + Normal(b)
    decreases |a|
  {
    if a == "" {
      assert a + b == b;
    } else {
      hide Upper;
      NormalConcat(a[1..], b);
      assert (a + b)[1..] == a[1..] + b && (a + b)[0] == a[0];
      if a[0] != '-' {
        var head, rest := [Upper(a[0])], Normal(a[1..]);
        assert Normal(a) == head + rest && Normal(a + b) == head + Normal(a[1..] + b);
        assert head + (rest + Normal(b)) == (head + rest) + Normal(b);
      }
    }
  }

  lemma {:induction false} NormalOfRaw(s: string)
    requires forall k :: 0 <= k < |s| ==> IsSymbol(s[k])
    ensures Normal(s) == s
    decreases |s|
  {
    if s != "" {
      NormalOfRaw(s[1..]);
    }
  }

  /** Neither hyphens nor the case of letters change what is hashed. */
  lemma {:induction false} SpellingDoesNotMatter(a: string, b: string)
    ensures Normal(a + "-" + b) == Normal(a + b)
    ensures Normal(LowerCase(a)) == Normal(a)
    decreases |a|
  {
    NormalConcat(a + "-", b);
    NormalConcat(a, "-");
    NormalConcat(a, b);
    assert Normal("-") == "";
    assert Normal(a) + "" == Normal(a);
    if a != "" {
      SpellingDoesNotMatter(a[1..], b);
      assert LowerCase(a)[1..] == LowerCase(a[1..]);
    }
  }

  /** Groups of letters and the digits 2 to 7, the first of at least four. */
  predicate Grouped(groups: seq<string>)
  {
    && |groups| >= 1 && |groups[0]| >= 4
    && forall i, k :: 0 <= i < |groups| && 0 <= k < |groups[i]| ==>
         'A' <= groups[i][k] <= 'Z' || 'a' <= groups[i][k] <= 'z' || '2' <= groups[i][k] <= '7'
  }

  /** Exactly which codes are taken for recovery codes: non-empty groups joined by single hyphens, unless
      the code is six digits. */
  lemma RecoveryShapeExactly(code: string, valid: bool, sha: string -> Hash)
    ensures AttemptOf(code, valid, sha).Recovery? <==>
              var groups := Split(code, '-');
              && Grouped(groups) && (forall i :: 1 <= i < |groups| ==> groups[i] != "")
              && !(|code| == 6 && forall k :: 0 <= k < 6 ==> '0' <= code[k] <= '9')
    ensures AttemptOf(code, valid, sha).Recovery? ==> AttemptOf(code, valid, sha) == Recovery(sha(Normal(code)))
  {
    SixDigitsAreTotp(code, valid, sha);
    FirstPart(code, '-', 4);
    LaterParts(code, '-');
    GroupsExactly(code);
    var groups := Split(code, '-');
    assert LaterFilled(groups) <==> forall i :: 1 <= i < |groups| ==> groups[i] != "";
    hide Normal, IsBase32, Split, Grouped, LaterFilled;
    assert (forall k :: 0 <= k < 4 ==> |code| >= 4 && IsBase32(code[k])) ==> forall k :: 0 <= k < 4 ==> code[k] != '-';
  }

  lemma GroupsExactly(code: string)
    ensures Grouped(Split(code, '-')) <==>
              |code| >= 4 && (forall k :: 0 <= k < 4 ==> code[k] != '-')
              && forall k :: 0 <= k < |code| ==> IsBase32(code[k]) || code[k] == '-'
  {
    var groups := Split(code, '-');
    FirstPart(code, '-', 4);
    forall c: char
      ensures c in code && c != '-' <==> exists i :: 0 <= i < |groups| && c in groups[i]
    {
      SplitHolds(code, '-', c);
    }
    forall c: char
      ensures IsBase32(c) <==> 'A' <= c <= 'Z' || 'a' <= c <= 'z' || '2' <= c <= '7'
    {}
    hide Split, IsBase32;
    if forall k :: 0 <= k < |code| ==> IsBase32(code[k]) || code[k] == '-' {
      forall i, k | 0 <= i < |groups| && 0 <= k < |groups[i]|
        ensures IsBase32(groups[i][k])
      {
        assert groups[i][k] in groups[i] && groups[i][k] in code;
      }
    }
    if Grouped(groups) {
      forall k | 0 <= k < |code| && code[k] != '-'
        ensures IsBase32(code[k])
      {
        assert code[k] in code;
        var i :| 0 <= i < |groups| && code[k] in groups[i];
        var m :| 0 <= m < |groups[i]| && groups[i][m] == code[k];
      }
    }
  }

  /** A printed code is taken for a recovery code and hashes as its sixteen symbols do. */
  lemma PrintedIsRecognised(raw: string, sha: string -> Hash, valid: bool)
    requires IsRaw(raw)
    ensures AttemptOf(Printed(raw), valid, sha) == Recovery(sha(raw))
  {
    ShapeOfPrinted(raw);
    NormalConcat(raw[..8] + "-", raw[8..]);
    NormalConcat(raw[..8], "-");
    NormalOfRaw(raw[..8]);
    NormalOfRaw(raw[8..]);
    assert Normal("-") == "";
    assert Normal(Printed(raw)) == raw[..8] + "" + raw[8..] == raw;
    hide Sniff;
  }

  lemma ShapeOfPrinted(raw: string)
    requires IsRaw(raw)
    ensures Sniff(Printed(raw)) == RecoveryShape
  {
    var code := Printed(raw);
    assert forall k :: 0 <= k < 17 ==> code[k] == if k < 8 then raw[k] else if k == 8 then '-' else raw[k - 1];
    assert |code| == 17;
    assert forall k :: 0 <= k < 17 && k != 8 ==> IsSymbol(code[k]) && IsBase32(code[k]) && code[k] != '-';
  }

  /** The in-memory rows the handlers change. */
  class AuthTables {
    var users: map<UserId, User>
    var sessions: seq<Session>

    constructor ()
      ensures users == map[] && sessions == []
    {
      users := map[];
      sessions := [];
    }

    /** Splices the old session out and pushes the new one; answers nothing if the old one is gone. */
    method RotateSession(oldToken: Token, newToken: Token, expiresAt: int) returns (ok: bool)
      modifies this`sessions
      ensures ok <==> FindSession(old(sessions), oldToken) != -1
      ensures sessions == match Rotated(old(sessions), oldToken, newToken, expiresAt) case None => old(sessions) case Some(next) => next
    {
      var i := FindSession(sessions, oldToken);
      if i == -1 {
        return false;
      }
      var previous := sessions[i];
      sessions := sessions[..i] + sessions[i + 1..];
      sessions := sessions + [Session(newToken, previous.userId, expiresAt, false, false)];
      ok := true;
    }

    /** What is left are the full sessions and the restricted ones that are still running. */
    method CleanupExpiredIntermediateSessions(now: int) returns (removed: nat)
      modifies this`sessions
      ensures sessions == Swept(old(sessions), StaleRestricted(now))
      ensures forall x :: x in sessions <==> x in old(sessions) && (Full(x) || now < x.expiresAt)
      ensures removed == |old(sessions)| - |sessions|
    {
      SweptMembers(sessions, StaleRestricted(now));
      SweptShorter(sessions, StaleRestricted(now));
      var before := |sessions|;
      sessions := Swept(sessions, StaleRestricted(now));
      removed := before - |sessions|;
    }

    method ConsumeRecoveryCode(userId: UserId, h: Hash) returns (consumed: bool)
      modifies this`users
      ensures (users, consumed) == Consume(old(users), userId, h)
    {
      if userId !in users || !users[userId].enabled {
        return false;
      }
      var list := users[userId].recovery;
      var i := FindHash(list, h);
      if i == -1 {
        return false;
      }
      list := list[..i] + list[i + 1..];
      users := users[userId := User(true, list)];
      consumed := true;
    }

    /** The generating loop shared by confirming and regenerating: eight codes are shown once, and
        only their hashes are stored. */
    static method GenerateRecoveryCodes(raws: seq<string>, sha: string -> Hash) returns (codes: seq<string>, hashes: seq<Hash>)
      requires |raws| == 8 && forall k :: 0 <= k < 8 ==> IsRaw(raws[k])
      ensures |codes| == 8 && hashes == Hashes(raws, sha)
      ensures forall k, valid :: 0 <= k < 8 ==> AttemptOf(codes[k], valid, sha) == Recovery(hashes[k])
    {
      codes, hashes := [], [];
      for i := 0 to 8
        invariant |codes| == |hashes| == i
        invariant forall k :: 0 <= k < i ==> codes[k] == Printed(raws[k]) && hashes[k] == sha(raws[k])
      {
        var plain := Printed(raws[i]);
        PrintedIsRecognised(raws[i], sha, true);
        codes := codes + [plain];
        hashes := hashes + [sha(Normal(plain))];
      }
      forall k, valid | 0 <= k < 8
        ensures AttemptOf(codes[k], valid, sha) == Recovery(hashes[k])
      {
        PrintedIsRecognised(raws[k], sha, valid);
      }
    }

    /** Writes what confirming a checked enrolment writes; an unknown user is left alone. */
    method Confirm(userId: UserId, raws: seq<string>, sha: string -> Hash) returns (codes: seq<string>)
      requires |raws| == 8 && forall k :: 0 <= k < 8 ==> IsRaw(raws[k])
      modifies this`users
      ensures users == Confirmed(old(users), userId, Hashes(raws, sha))
      ensures |codes| == 8 && forall k, valid :: 0 <= k < 8 ==> AttemptOf(codes[k], valid, sha) == Recovery(Hashes(raws, sha)[k])
    {
      var hashes;
      codes, hashes := GenerateRecoveryCodes(raws, sha);
      if userId in users {
        users := users[userId := User(true, hashes)];
      }
    }

    method RegenerateRecoveryCodes(userId: UserId, raws: seq<string>, sha: string -> Hash) returns (codes: Option<seq<string>>)
      requires |raws| == 8 && forall k :: 0 <= k < 8 ==> IsRaw(raws[k])
      modifies this`users
      ensures users == Regenerated(old(users), userId, Hashes(raws, sha))
      ensures codes.Some? <==> userId in old(users) && old(users)[userId].enabled
    {
      var list, hashes := GenerateRecoveryCodes(raws, sha);
      if userId !in users || !users[userId].enabled {
        return None;
      }
      users := users[userId := User(true, hashes)];
      codes := Some(list);
    }

    /** Afterwards no second factor of this user is accepted, recovery codes included; others keep
        theirs. */
    method Disable(userId: UserId)
      modifies this`users
      ensures users == Disabled(old(users), userId)
      ensures forall a: Attempt :: !Accepts(users, userId, a)
      ensures forall other, a: Attempt :: other != userId ==> (Accepts(users, other, a) <==> old(Accepts(users, other, a)))
    {
      if userId in users {
        users := users[userId := User(false, [])];
      }
    }
  }

  function Confirmed(users: map<UserId, User>, userId: UserId, hashes: seq<Hash>): map<UserId, User>
  {
    if userId in users then users[userId := User(true, hashes)] else users
  }

  function Regenerated(users: map<UserId, User>, userId: UserId, hashes: seq<Hash>): map<UserId, User>
  {
    if userId in users && users[userId].enabled then users[userId := User(true, hashes)] else users
  }

  function Disabled(users: map<UserId, User>, userId: UserId): map<UserId, User>
  {
    if userId in users then users[userId := User(false, [])] else users
  }

  lemma {:induction false} SweptShorter(sessions: seq<Session>, w: Sweep)
    ensures |Swept(sessions, w)| <= |sessions|
    decreases |sessions|
  {
    if sessions != [] {
      SweptShorter(sessions[1..], w);
    }
  }

  /** A spent code is gone, and nothing else is. */
  lemma SpentIsGone(users: map<UserId, User>, userId: UserId, h: Hash)
    requires Consume(users, userId, h).1
    ensures var before := users[userId].recovery;
            var after := Consume(users, userId, h).0[userId].recovery;
            multiset(before) == multiset(after) + multiset{h}
            && (multiset(before)[h] == 1 ==> !Consume(Consume(users, userId, h).0, userId, h).1)
  {
    var list := users[userId].recovery;
    var i := FindHash(list, h);
    assert list == list[..i] + [list[i]] + list[i + 1..];
  }

  /** Rotation retires the old token, grants the new one to the same user, and changes the answer for
      no other token, now or later. */
  lemma RotationIsLocal(users: map<UserId, User>, sessions: seq<Session>, apiTokens: seq<ApiToken>, sha: string -> Hash,
                        oldToken: Token, newToken: Token, expiresAt: int, other: Token, options: Options, now: int)
    requires Rotated(sessions, oldToken, newToken, expiresAt).Some?
    requires DistinctTokens(sessions) && FindSession(sessions, newToken) == -1
    ensures var next := Rotated(sessions, oldToken, newToken, expiresAt).value;
            && FindSession(next, oldToken) == -1
            && DistinctTokens(next)
            && FindSession(next, newToken) != -1
            && next[FindSession(next, newToken)] ==
               Session(newToken, sessions[FindSession(sessions, oldToken)].userId, expiresAt, false, false)
            && (other != oldToken && other != newToken ==>
                  Resolve(users, next, apiTokens, sha, other, options, now)
                  == Resolve(users, sessions, apiTokens, sha, other, options, now))
  {
    RotatedAt(sessions, oldToken, newToken, expiresAt);
    hide Rotated;
    RotatedDistinct(sessions, oldToken, newToken, expiresAt);
    RotatedFinds(sessions, oldToken, newToken, expiresAt, oldToken);
    RotatedFinds(sessions, oldToken, newToken, expiresAt, newToken);
    RotatedFinds(sessions, oldToken, newToken, expiresAt, other);
  }

  lemma RotatedDistinct(sessions: seq<Session>, oldToken: Token, newToken: Token, expiresAt: int)
    requires Rotated(sessions, oldToken, newToken, expiresAt).Some?
    requires DistinctTokens(sessions) && FindSession(sessions, newToken) == -1
    ensures DistinctTokens(Rotated(sessions, oldToken, newToken, expiresAt).value)
  {
    var next := Rotated(sessions, oldToken, newToken, expiresAt).value;
    var at := FindSession(sessions, oldToken);
    RotatedAt(sessions, oldToken, newToken, expiresAt);
    hide Rotated;
    forall i, j | 0 <= i < j < |next|
      ensures next[i].token != next[j].token
    {
      assert next[i] == sessions[if i < at then i else i + 1];
      if j < |next| - 1 {
        assert next[j] == sessions[if j < at then j else j + 1];
      }
    }
  }

  /** Where a token is found after a rotation. */
  lemma RotatedFinds(sessions: seq<Session>, oldToken: Token, newToken: Token, expiresAt: int, token: Token)
    requires Rotated(sessions, oldToken, newToken, expiresAt).Some?
    requires DistinctTokens(sessions) && FindSession(sessions, newToken) == -1
    ensures var next := Rotated(sessions, oldToken, newToken, expiresAt).value;
            var i, k := FindSession(sessions, token), FindSession(next, token);
            if token == oldToken then k == -1
            else if token == newToken then k == |next| - 1
            else if i == -1 then k == -1
            else k != -1 && next[k] == sessions[i]
  {
    var next := Rotated(sessions, oldToken, newToken, expiresAt).value;
    var at, i, k := FindSession(sessions, oldToken), FindSession(sessions, token), FindSession(next, token);
    RotatedAt(sessions, oldToken, newToken, expiresAt);
    RotatedDistinct(sessions, oldToken, newToken, expiresAt);
    hide Rotated, FindSession;
    if k != -1 && token != newToken {
      assert next[k] == sessions[if k < at then k else k + 1];
    }
    if token != oldToken && token != newToken && i != -1 {
      assert next[if i < at then i else i - 1] == sessions[i];
    }
  }

  lemma RotatedAt(sessions: seq<Session>, oldToken: Token, newToken: Token, expiresAt: int)
    requires Rotated(sessions, oldToken, newToken, expiresAt).Some?
    ensures var i := FindSession(sessions, oldToken);
            var next := Rotated(sessions, oldToken, newToken, expiresAt).value;
            && |next| == |sessions|
            && (forall k :: 0 <= k < i ==> next[k] == sessions[k])
            && (forall k :: i < k < |sessions| ==> next[k - 1] == sessions[k])
            && (forall k :: i <= k < |sessions| - 1 ==> next[k] == sessions[k + 1])
            && next[|sessions| - 1] == Session(newToken, sessions[i].userId, expiresAt, false, false)
  {
    var i := FindSession(sessions, oldToken);
    hide FindSession;
    assert Rotated(sessions, oldToken, newToken, expiresAt).value
           == sessions[..i] + sessions[i + 1..] + [Session(newToken, sessions[i].userId, expiresAt, false, false)];
  }

  ghost predicate DistinctTokens(sessions: seq<Session>)
  {
    forall i, j :: 0 <= i < j < |sessions| ==> sessions[i].token != sessions[j].token
  }

  // Runs -------------------------------------------------------------------------------------------

  /** What a call in flight has learnt so far. */
  datatype Call =
    | Reading(user: UserId, enabled: bool, enrol: bool)
    | Checked(token: Token, user: UserId)
    | Enrolling(token: Token, user: UserId)
    | Passed(token: Token, user: UserId)
    | Closed

  /** Where a token came from; recorded for the statements below. */
  datatype Origin =
    | Direct(user: UserId)
    | Limited(user: UserId, twofa: bool)
    | UpgradeOf(previous: Token, user: UserId, call: CallId)

  datatype State = State(now: int, users: map<UserId, User>, sessions: seq<Session>, calls: map<CallId, Call>, origins: map<Token, Origin>)

  const INIT := State(0, map[], [], map[], map[])

  datatype Event =
    | Register(t: int, user: UserId, token: Token, expiresAt: int)
    | LoginRead(t: int, call: CallId, user: UserId, enrol: bool)
    | LoginWrite(t: int, call: CallId, token: Token, expiresAt: int)
    | BeginLogin2FA(t: int, call: CallId, token: Token)
    | SecondFactor(t: int, call: CallId, attempt: Attempt)
    | BeginEnrolment(t: int, call: CallId, token: Token)
    | ConfirmEnrolment(t: int, call: CallId, hashes: seq<Hash>)
    | Rotate(t: int, call: CallId, newToken: Token, expiresAt: int)
    | Confirm(t: int, user: UserId, hashes: seq<Hash>)
    | Regenerate(t: int, user: UserId, hashes: seq<Hash>)
    | Disable(t: int, user: UserId)
    | SweepSessions(t: int, sweep: Sweep)

  /** Pending sessions are written with five minutes to live, enrolment sessions with fifteen. */
  predicate LimitObserved(call: Call, t: int, expiresAt: int)
    requires call.Reading?
  {
    if call.enabled then expiresAt == t + 300_000 else call.enrol ==> expiresAt == t + 900_000
  }

  /** Calls and random tokens are new, hash lists come from the generating loop, the clock never goes
      back. A login's write may come long after its read. */
  predicate Enabled(s: State, e: Event)
  {
    s.now <= e.t
    && match e
       case Register(_, user, token, _) => user !in s.users && token !in s.origins
       case LoginRead(_, call, user, _) => call !in s.calls && user in s.users
       case LoginWrite(t, call, token, expiresAt) =>
         call in s.calls && s.calls[call].Reading? && token !in s.origins && LimitObserved(s.calls[call], t, expiresAt)
       case BeginLogin2FA(_, call, _) => call !in s.calls
       case SecondFactor(_, call, _) => call in s.calls && s.calls[call].Checked?
       case BeginEnrolment(_, call, _) => call !in s.calls
       case ConfirmEnrolment(_, call, hashes) => call in s.calls && s.calls[call].Enrolling? && |hashes| == 8
       case Rotate(_, call, newToken, _) => call in s.calls && s.calls[call].Passed? && newToken !in s.origins
       case Confirm(_, _, hashes) => |hashes| == 8
       case Regenerate(_, _, hashes) => |hashes| == 8
       case Disable(_, _) => true
       case SweepSessions(_, _) => true
  }

  /** The checks before the second factor: the session exists, is unexpired, pending, and its user known. */
  function Opened(s: State, token: Token, now: int): Call
  {
    var i := FindSession(s.sessions, token);
    if i == -1 || s.sessions[i].expiresAt <= now || !s.sessions[i].twofaPending || s.sessions[i].userId !in s.users then Closed
    else Checked(token, s.sessions[i].userId)
  }

  /** A confirmation that arrives on an enrolment-required session. */
  function OpenedEnrolment(s: State, token: Token, now: int): Call
  {
    var r := Resolve(s.users, s.sessions, [], x => x, token, Options(false, true), now);
    if r.RestrictedEnrolment? then Enrolling(token, r.userId) else Closed
  }

  /** Whether a second factor is accepted: only for a user whose 2FA is on right now. */
  predicate Accepts(users: map<UserId, User>, user: UserId, a: Attempt)
  {
    user in users && users[user].enabled
    && match a
       case Totp(valid) => valid
       case Recovery(h) => h in users[user].recovery
       case Malformed => false
  }

  function Written(call: Call, token: Token, expiresAt: int): Session
    requires call.Reading?
  {
    Session(token, call.user, expiresAt, call.enabled, !call.enabled && call.enrol)
  }

  function Apply(s: State, e: Event): State
    requires Enabled(s, e)
  {
    match e
    case Register(t, user, token, expiresAt) =>
      s.(now := t, users := s.users[user := User(false, [])],
         sessions := s.sessions + [Session(token, user, expiresAt, false, false)],
         origins := s.origins[token := Direct(user)])
    case LoginRead(t, call, user, enrol) =>
      s.(now := t, calls := s.calls[call := Reading(user, s.users[user].enabled, enrol)])
    case LoginWrite(t, call, token, expiresAt) =>
      var c := s.calls[call];
      s.(now := t, sessions := Swept(s.sessions, Expired(t)) + [Written(c, token, expiresAt)],
         calls := s.calls[call := Closed],
         origins := s.origins[token := if c.enabled || c.enrol then Limited(c.user, c.enabled) else Direct(c.user)])
    case BeginLogin2FA(t, call, token) =>
      s.(now := t, calls := s.calls[call := Opened(s, token, t)])
    case SecondFactor(t, call, attempt) =>
      var c := s.calls[call];
      s.(now := t,
         users := if attempt.Recovery? then Consume(s.users, c.user, attempt.codeHash).0 else s.users,
         calls := s.calls[call := if Accepts(s.users, c.user, attempt) then Passed(c.token, c.user) else Closed])
    case BeginEnrolment(t, call, token) =>
      s.(now := t, calls := s.calls[call := OpenedEnrolment(s, token, t)])
    case ConfirmEnrolment(t, call, hashes) =>
      var c := s.calls[call];
      s.(now := t, users := Confirmed(s.users, c.user, hashes), calls := s.calls[call := Passed(c.token, c.user)])
    case Rotate(t, call, newToken, expiresAt) =>
      var c := s.calls[call];
      (match Rotated(s.sessions, c.token, newToken, expiresAt)
       case None => s.(now := t, calls := s.calls[call := Closed])
       case Some(next) =>
         s.(now := t, sessions := next, calls := s.calls[call := Closed],
            origins := s.origins[newToken := UpgradeOf(c.token, s.sessions[FindSession(s.sessions, c.token)].userId, call)]))
    case Confirm(t, user, hashes) => s.(now := t, users := Confirmed(s.users, user, hashes))
    case Regenerate(t, user, hashes) => s.(now := t, users := Regenerated(s.users, user, hashes))
    case Disable(t, user) => s.(now := t, users := Disabled(s.users, user))
    case SweepSessions(t, sweep) => s.(now := t, sessions := Swept(s.sessions, sweep))
  }

  ghost predicate IsRun(states: seq<State>, events: seq<Event>)
  {
    && |states| == |events| + 1
    && states[0] == INIT
    && forall i :: 0 <= i < |events| ==> Enabled(states[i], events[i]) && states[i + 1] == Apply(states[i], events[i])
  }

  // The invariant ----------------------------------------------------------------------------------

  predicate Agrees(s: Session, o: Origin)
  {
    s.userId == o.user
    && match o
       case Direct(_) => Full(s)
       case Limited(_, twofa) => s.twofaPending == twofa && s.enrollmentRequired == !twofa
       case UpgradeOf(_, _, _) => Full(s)
  }

  predicate Bounded(s: Session, origins: map<Token, Origin>)
  {
    s.token in origins && Agrees(s, origins[s.token])
  }

  ghost predicate SessionsOk(sessions: seq<Session>, origins: map<Token, Origin>)
  {
    DistinctTokens(sessions) && forall k :: 0 <= k < |sessions| ==> Bounded(sessions[k], origins)
  }

  predicate CallOk(c: Call, origins: map<Token, Origin>)
  {
    (c.Checked? || c.Enrolling? || c.Passed?) ==>
      && c.token in origins && origins[c.token].Limited? && origins[c.token].user == c.user
      && (c.Checked? ==> origins[c.token].twofa) && (c.Enrolling? ==> !origins[c.token].twofa)
  }

  ghost predicate CallsOk(calls: map<CallId, Call>, origins: map<Token, Origin>)
  {
    forall c :: c in calls ==> CallOk(calls[c], origins)
  }

  predicate UpgradeOk(o: Origin, sessions: seq<Session>, origins: map<Token, Origin>)
  {
    o.UpgradeOf? ==>
      && o.previous in origins && origins[o.previous].Limited? && origins[o.previous].user == o.user
      && FindSession(sessions, o.previous) == -1
  }

  ghost predicate UpgradesOk(sessions: seq<Session>, origins: map<Token, Origin>)
  {
    forall t :: t in origins ==> UpgradeOk(origins[t], sessions, origins)
  }

  predicate SameUpgrade(a: Origin, b: Origin)
  {
    a.UpgradeOf? && b.UpgradeOf? && a.previous == b.previous
  }

  ghost predicate UpgradesUnique(origins: map<Token, Origin>)
  {
    forall t, u :: t in origins && u in origins && SameUpgrade(origins[t], origins[u]) ==> t == u
  }

  ghost predicate Ok(sessions: seq<Session>, calls: map<CallId, Call>, origins: map<Token, Origin>)
  {
    SessionsOk(sessions, origins) && CallsOk(calls, origins) && UpgradesOk(sessions, origins) && UpgradesUnique(origins)
  }

  ghost predicate Inv(s: State) { Ok(s.sessions, s.calls, s.origins) }

  lemma {:induction false} SweptMembers(sessions: seq<Session>, w: Sweep)
    ensures forall s :: s in Swept(sessions, w) <==> s in sessions && !Drops(w, s)
    decreases |sessions|
  {
    hide Drops;
    if sessions != [] {
      SweptMembers(sessions[1..], w);
      assert sessions == [sessions[0]] + sessions[1..];
    }
  }

  lemma {:induction false} SweptDistinct(sessions: seq<Session>, w: Sweep)
    requires DistinctTokens(sessions)
    ensures DistinctTokens(Swept(sessions, w))
    decreases |sessions|
  {
    hide Drops;
    if sessions != [] {
      var rest := sessions[1..];
      assert forall i :: 0 <= i < |rest| ==> rest[i] == sessions[i + 1];
      SweptDistinct(rest, w);
      SweptMembers(rest, w);
      forall k | 0 <= k < |Swept(rest, w)|
        ensures Swept(rest, w)[k].token != sessions[0].token
      {
        assert Swept(rest, w)[k] in rest;
      }
    }
  }

  lemma SweptKeeps(sessions: seq<Session>, w: Sweep, origins: map<Token, Origin>)
    requires SessionsOk(sessions, origins) && UpgradesOk(sessions, origins)
    ensures SessionsOk(Swept(sessions, w), origins) && UpgradesOk(Swept(sessions, w), origins)
  {
    var next := Swept(sessions, w);
    SweptMembers(sessions, w);
    SweptDistinct(sessions, w);
    hide Swept, Drops, DistinctTokens;
    forall k | 0 <= k < |next|
      ensures Bounded(next[k], origins)
    {
      assert next[k] in sessions;
    }
    forall t | t in origins
      ensures UpgradeOk(origins[t], next, origins)
    {
      assert UpgradeOk(origins[t], sessions, origins);
      if origins[t].UpgradeOf? {
        assert forall k :: 0 <= k < |next| ==> next[k] in sessions;
      }
    }
  }

  /** Which sessions each of the three sweeps keeps. */
  lemma SweepsExactly(sessions: seq<Session>, x: Session, now: int, user: UserId)
    ensures x in Swept(sessions, Expired(now)) <==> x in sessions && now < x.expiresAt
    ensures x in Swept(sessions, OfUser(user)) <==> x in sessions && x.userId != user
    ensures x in Swept(sessions, StaleRestricted(now)) <==>
              x in sessions && ((!x.twofaPending && !x.enrollmentRequired) || now < x.expiresAt)
  {
    hide Swept;
    SweptMembers(sessions, Expired(now));
    SweptMembers(sessions, OfUser(user));
    SweptMembers(sessions, StaleRestricted(now));
  }

  /** Exactly which pending tokens open a second-factor call, and for whom: those of a live pending
      session of a known user. */
  lemma OpenedExactly(s: State, token: Token, now: int, user: UserId)
    requires DistinctTokens(s.sessions)
    ensures Opened(s, token, now) == Checked(token, user) <==>
              exists x :: x in s.sessions && x.token == token && x.twofaPending && now < x.expiresAt && x.userId == user && user in s.users
    ensures Opened(s, token, now) == Closed || Opened(s, token, now) == Checked(token, Opened(s, token, now).user)
  {
    var i := FindSession(s.sessions, token);
    if i != -1 {
      assert s.sessions[i] in s.sessions;
    }
  }

  /** Exactly which tokens open an enrolment call: those of a live session that demands enrolment and
      waits for no second factor. */
  lemma EnrolmentOpensExactly(s: State, token: Token, now: int, user: UserId)
    requires DistinctTokens(s.sessions) && token != "" && !("envf_" <= token)
    ensures OpenedEnrolment(s, token, now) == Enrolling(token, user) <==>
              exists x :: x in s.sessions && x.token == token && x.enrollmentRequired && !x.twofaPending && now < x.expiresAt
                          && x.userId == user && user in s.users
    ensures OpenedEnrolment(s, token, now) == Closed
            || OpenedEnrolment(s, token, now) == Enrolling(token, OpenedEnrolment(s, token, now).user)
  {
    var i := FindSession(s.sessions, token);
    if i != -1 {
      assert s.sessions[i] in s.sessions;
    }
  }

  /** Exactly what a web token resolves to by default: the owner of a live full session, or nobody. */
  lemma ResolvesExactly(users: map<UserId, User>, sessions: seq<Session>, apiTokens: seq<ApiToken>, sha: string -> Hash,
                        token: Token, now: int, user: UserId)
    requires DistinctTokens(sessions) && token != "" && !StartsWith(token, "envf_")
    ensures var r := Resolve(users, sessions, apiTokens, sha, token, DEFAULT, now);
            && (r.Web? || r == Anonymous)
            && (r == Web(user) <==>
                  exists x :: x in sessions && x.token == token && Full(x) && now < x.expiresAt && x.userId == user && user in users)
  {
    var i := FindSession(sessions, token);
    if i != -1 {
      assert sessions[i] in sessions;
    }
  }

  /** The first API token stored under hash `h` is the `k`-th. */
  predicate FirstUnder(apiTokens: seq<ApiToken>, h: Hash, k: nat)
  {
    k < |apiTokens| && apiTokens[k].tokenHash == h && forall j :: 0 <= j < k ==> apiTokens[j].tokenHash != h
  }

  lemma {:induction false} FindApiIsFirst(apiTokens: seq<ApiToken>, h: Hash)
    ensures FindApi(apiTokens, h).None? ==> forall k :: 0 <= k < |apiTokens| ==> apiTokens[k].tokenHash != h
    ensures FindApi(apiTokens, h).Some? ==> exists k: nat :: FirstUnder(apiTokens, h, k) && apiTokens[k] == FindApi(apiTokens, h).value
    decreases |apiTokens|
  {
    if apiTokens != [] {
      var rest := apiTokens[1..];
      assert forall k :: 0 < k < |apiTokens| ==> apiTokens[k] == rest[k - 1];
      if apiTokens[0].tokenHash == h {
        assert FirstUnder(apiTokens, h, 0);
      } else {
        FindApiIsFirst(rest, h);
        if k: nat :| FirstUnder(rest, h, k) && FindApi(rest, h) == Some(rest[k]) {
          assert FirstUnder(apiTokens, h, k + 1);
        }
      }
    }
  }

  /** Exactly what an API token resolves to, whatever the route allows and whatever the sessions are:
      the user of the first row under its hash, as long as that row has not expired. */
  lemma ApiResolvesExactly(users: map<UserId, User>, sessions: seq<Session>, apiTokens: seq<ApiToken>, sha: string -> Hash,
                           token: Token, options: Options, now: int, user: UserId)
    requires "envf_" <= token
    ensures var r := Resolve(users, sessions, apiTokens, sha, token, options, now);
            && (r.Api? || r == Anonymous)
            && (r == Api(user) <==>
                  exists k: nat :: FirstUnder(apiTokens, sha(token), k) && apiTokens[k].userId == user && user in users
                                   && (apiTokens[k].expiresAt == None || now < apiTokens[k].expiresAt.value))
  {
    FindApiIsFirst(apiTokens, sha(token));
    hide FindApi;
    var found := FindApi(apiTokens, sha(token));
    if j: nat :| found.Some? && FirstUnder(apiTokens, sha(token), j) && apiTokens[j] == found.value {
      forall k: nat | FirstUnder(apiTokens, sha(token), k)
        ensures k == j
      {}
    }
  }

  /** A code of exactly six digits is checked as a time-based one, also when all its digits could be
      symbols of a recovery code; no other code is. */
  lemma SixDigitsAreTotp(code: string, valid: bool, sha: string -> Hash)
    ensures AttemptOf(code, valid, sha).Totp? <==> |code| == 6 && forall k :: 0 <= k < 6 ==> '0' <= code[k] <= '9'
    ensures AttemptOf(code, valid, sha).Totp? ==> AttemptOf(code, valid, sha) == Totp(valid)
  {
    assert |code| == 6 ==> forall k :: 0 <= k < 6 ==> code[k] in code;
    hide Normal, IsBase32;
  }

  /** Adding a session under a token never seen before. */
  lemma PushKeeps(s: State, session: Session, o: Origin)
    requires Inv(s) && session.token !in s.origins && Agrees(session, o) && !o.UpgradeOf?
    ensures Inv(s.(sessions := s.sessions + [session], origins := s.origins[session.token := o]))
  {
    var next := s.sessions + [session];
    var origins := s.origins[session.token := o];
    assert forall k :: 0 <= k < |s.sessions| ==> Bounded(s.sessions[k], s.origins);
    forall c | c in s.calls
      ensures CallOk(s.calls[c], origins)
    {
      assert CallOk(s.calls[c], s.origins);
    }
    forall t | t in origins
      ensures UpgradeOk(origins[t], next, origins)
    {
      if t != session.token {
        assert UpgradeOk(s.origins[t], s.sessions, s.origins);
      }
    }
  }

  lemma NewTokenUnknown(s: State, newToken: Token)
    requires Inv(s) && newToken !in s.origins
    ensures FindSession(s.sessions, newToken) == -1
  {
    assert forall k :: 0 <= k < |s.sessions| ==> Bounded(s.sessions[k], s.origins);
  }

  lemma RotatedSessionsOk(s: State, oldToken: Token, newToken: Token, expiresAt: int, o: Origin)
    requires SessionsOk(s.sessions, s.origins) && newToken !in s.origins && FindSession(s.sessions, newToken) == -1
    requires Rotated(s.sessions, oldToken, newToken, expiresAt).Some?
    requires o.UpgradeOf? && o.user == s.sessions[FindSession(s.sessions, oldToken)].userId
    ensures SessionsOk(Rotated(s.sessions, oldToken, newToken, expiresAt).value, s.origins[newToken := o])
  {
    var i := FindSession(s.sessions, oldToken);
    var next := Rotated(s.sessions, oldToken, newToken, expiresAt).value;
    RotatedAt(s.sessions, oldToken, newToken, expiresAt);
    RotatedDistinct(s.sessions, oldToken, newToken, expiresAt);
    hide Rotated, FindSession, DistinctTokens;
    forall k | 0 <= k < |next|
      ensures Bounded(next[k], s.origins[newToken := o])
    {
      if k < |next| - 1 {
        assert Bounded(s.sessions[if k < i then k else k + 1], s.origins);
      }
    }
  }

  lemma RotateKeeps(s: State, call: CallId, newToken: Token, expiresAt: int)
    requires Inv(s) && call in s.calls && s.calls[call].Passed? && newToken !in s.origins
    requires Rotated(s.sessions, s.calls[call].token, newToken, expiresAt).Some?
    ensures var token := s.calls[call].token;
            var user := s.sessions[FindSession(s.sessions, token)].userId;
            user == s.calls[call].user
            && Inv(s.(sessions := Rotated(s.sessions, token, newToken, expiresAt).value, origins := s.origins[newToken := UpgradeOf(token, user, call)]))
  {
    var token := s.calls[call].token;
    var i := FindSession(s.sessions, token);
    var user := s.sessions[i].userId;
    var next := Rotated(s.sessions, token, newToken, expiresAt).value;
    var origins := s.origins[newToken := UpgradeOf(token, user, call)];
    assert CallOk(s.calls[call], s.origins) && Bounded(s.sessions[i], s.origins);
    NewTokenUnknown(s, newToken);
    RotatedSessionsOk(s, token, newToken, expiresAt, UpgradeOf(token, user, call));
    RotatedFinds(s.sessions, token, newToken, expiresAt, token);
    hide Rotated, SessionsOk, DistinctTokens, FindSession;
    forall c | c in s.calls
      ensures CallOk(s.calls[c], origins)
    {
      assert CallOk(s.calls[c], s.origins);
    }
    forall t | t in origins
      ensures UpgradeOk(origins[t], next, origins)
      ensures t != newToken && origins[t].UpgradeOf? ==> origins[t].previous != token
    {
      if t != newToken {
        assert UpgradeOk(s.origins[t], s.sessions, s.origins);
        if origins[t].UpgradeOf? {
          RotatedFinds(s.sessions, token, newToken, expiresAt, origins[t].previous);
        }
      }
    }
  }

  /** Moving one call on. */
  lemma CallKeeps(s: State, call: CallId, c: Call)
    requires Inv(s) && CallOk(c, s.origins)
    ensures Ok(s.sessions, s.calls[call := c], s.origins)
  {}

  lemma CallKnown(s: State, call: CallId)
    requires Inv(s) && call in s.calls
    ensures CallOk(s.calls[call], s.origins)
  {}

  lemma OpenedOk(s: State, token: Token, now: int)
    requires Inv(s)
    ensures CallOk(Opened(s, token, now), s.origins)
    ensures CallOk(OpenedEnrolment(s, token, now), s.origins)
  {
    var i := FindSession(s.sessions, token);
    if i != -1 {
      assert Bounded(s.sessions[i], s.origins);
    }
  }

  lemma LoginWriteKeeps(s: State, e: Event)
    requires Inv(s) && Enabled(s, e) && e.LoginWrite?
    ensures Inv(Apply(s, e))
  {
    var c := s.calls[e.call];
    var s1 := s.(sessions := Swept(s.sessions, Expired(e.t)));
    SweptKeeps(s.sessions, Expired(e.t), s.origins);
    PushKeeps(s1, Written(c, e.token, e.expiresAt),
              if c.enabled || c.enrol then Limited(c.user, c.enabled) else Direct(c.user));
  }

  lemma StepKeepsInv(s: State, e: Event)
    requires Inv(s) && Enabled(s, e)
    ensures Inv(Apply(s, e))
  {
    hide Ok, Swept, Rotated, Opened, OpenedEnrolment, Consume, Confirmed, Regenerated, Disabled, FindSession, Accepts;
    match e
    case Register(t, user, token, expiresAt) =>
      PushKeeps(s, Session(token, user, expiresAt, false, false), Direct(user));
    case LoginWrite(t, call, token, expiresAt) =>
      LoginWriteKeeps(s, e);
    case BeginLogin2FA(t, call, token) =>
      OpenedOk(s, token, t);
      CallKeeps(s, call, Opened(s, token, t));
    case BeginEnrolment(t, call, token) =>
      OpenedOk(s, token, t);
      CallKeeps(s, call, OpenedEnrolment(s, token, t));
    case LoginRead(t, call, user, enrol) =>
      CallKeeps(s, call, Reading(user, s.users[user].enabled, enrol));
    case SecondFactor(t, call, attempt) =>
      CallKnown(s, call);
      CallKeeps(s, call, Apply(s, e).calls[call]);
    case ConfirmEnrolment(t, call, hashes) =>
      CallKnown(s, call);
      CallKeeps(s, call, Apply(s, e).calls[call]);
    case Rotate(t, call, newToken, expiresAt) =>
      if Rotated(s.sessions, s.calls[call].token, newToken, expiresAt).Some? {
        RotateKeeps(s, call, newToken, expiresAt);
        CallKeeps(Apply(s, e).(calls := s.calls), call, Closed);
      } else {
        CallKeeps(s, call, Closed);
      }
    case SweepSessions(t, sweep) =>
      SweepKeeps(s, sweep);
    case Confirm(t, user, hashes) =>
    case Regenerate(t, user, hashes) =>
    case Disable(t, user) =>
  }

  lemma SweepKeeps(s: State, w: Sweep)
    requires Inv(s)
    ensures Ok(Swept(s.sessions, w), s.calls, s.origins)
  {
    SweptKeeps(s.sessions, w, s.origins);
  }

  lemma {:induction false} RunKeepsInv(states: seq<State>, events: seq<Event>, n: nat)
    requires IsRun(states, events) && n < |states|
    ensures Inv(states[n])
  {
    hide Ok, Apply;
    if n == 0 {
      InitInv();
    } else {
      RunKeepsInv(states, events, n - 1);
      StepKeepsInv(states[n - 1], events[n - 1]);
    }
  }

  lemma InitInv()
    ensures Inv(INIT)
  {}

  // What every run guarantees ------------------------------------------------------------------------

  /** This step turns the session under `previous` into a full one. */
  predicate Upgrades(s: State, e: Event, previous: Token)
  {
    e.Rotate? && e.call in s.calls && s.calls[e.call].Passed? && s.calls[e.call].token == previous
    && Rotated(s.sessions, previous, e.newToken, e.expiresAt).Some?
  }

  /** This step opens a full session for `user` without a second factor: a registration, or a login
      that reads the account while its 2FA is off and no enrolment is demanded. */
  predicate OpensDirectly(s: State, e: Event, user: UserId)
  {
    match e
    case Register(_, u, _, _) => u == user
    case LoginRead(_, _, u, enrol) => u == user && u in s.users && !s.users[u].enabled && !enrol
    case _ => false
  }

  /** This step accepts, for `call`, a second factor of `user` against the limited session `token`. */
  predicate PassesFactor(s: State, e: Event, call: CallId, token: Token, user: UserId)
  {
    match e
    case SecondFactor(_, c, a) => c == call && c in s.calls && s.calls[c] == Checked(token, user) && Accepts(s.users, user, a)
    case ConfirmEnrolment(_, c, _) => c == call && c in s.calls && s.calls[c] == Enrolling(token, user)
    case _ => false
  }

  lemma {:induction false} CallHistory(states: seq<State>, events: seq<Event>, n: nat, call: CallId)
    requires IsRun(states, events) && n < |states| && call in states[n].calls
    ensures var c := states[n].calls[call];
            && (c.Reading? && !c.enabled && !c.enrol ==> exists i :: 0 <= i < n && OpensDirectly(states[i], events[i], c.user))
            && (c.Passed? ==> exists i :: 0 <= i < n && PassesFactor(states[i], events[i], call, c.token, c.user))
    decreases n
  {
    hide Ok, Swept, Rotated, Consume, Confirmed, Regenerated, Disabled, FindSession, Accepts;
    if n > 0 {
      var s, e := states[n - 1], events[n - 1];
      assert states[n] == Apply(s, e);
      if call in s.calls && s.calls[call] == states[n].calls[call] {
        CallHistory(states, events, n - 1, call);
      } else {
        assert states[n].calls[call].Passed? ==> PassesFactor(s, e, call, states[n].calls[call].token, states[n].calls[call].user);
        assert states[n].calls[call].Reading? ==> e.LoginRead?;
      }
    }
  }

  ghost predicate Justified(states: seq<State>, events: seq<Event>, n: nat, o: Origin)
    requires |states| == |events| + 1 && n < |states|
  {
    match o
    case Direct(user) => exists i :: 0 <= i < n && OpensDirectly(states[i], events[i], user)
    case UpgradeOf(previous, user, call) => exists i :: 0 <= i < n && PassesFactor(states[i], events[i], call, previous, user)
    case Limited(_, _) => true
  }

  lemma {:induction false} OriginHistory(states: seq<State>, events: seq<Event>, n: nat, token: Token)
    requires IsRun(states, events) && n < |states| && token in states[n].origins
    ensures Justified(states, events, n, states[n].origins[token])
    decreases n
  {
    hide Ok, Swept, Consume, Confirmed, Regenerated, Disabled, FindSession, Accepts, OpensDirectly, PassesFactor, Opened, OpenedEnrolment;
    if n > 0 {
      var s, e := states[n - 1], events[n - 1];
      assert states[n] == Apply(s, e);
      if token in s.origins {
        OriginHistory(states, events, n - 1, token);
      } else {
        match e
        case Register(_, user, _, _) => DirectRegistration(s, e);
        case LoginWrite(_, call, _, _) => CallHistory(states, events, n - 1, call);
        case Rotate(_, call, newToken, expiresAt) =>
          CallHistory(states, events, n - 1, call);
          RunKeepsInv(states, events, n - 1);
          if Rotated(s.sessions, s.calls[call].token, newToken, expiresAt).Some? {
            RotateKeeps(s, call, newToken, expiresAt);
          }
        case _ =>
      }
    }
  }

  lemma DirectRegistration(s: State, e: Event)
    requires e.Register?
    ensures OpensDirectly(s, e, e.user)
  {}

  lemma {:induction false} OriginsStay(states: seq<State>, events: seq<Event>, i: nat, j: nat, token: Token)
    requires IsRun(states, events) && i <= j < |states| && token in states[i].origins
    ensures token in states[j].origins && states[j].origins[token] == states[i].origins[token]
    decreases j - i
  {
    hide Ok, Swept, Consume, Confirmed, Regenerated, Disabled, FindSession, Accepts, Opened, OpenedEnrolment;
    if i < j {
      OriginsStay(states, events, i, j - 1, token);
      assert states[j] == Apply(states[j - 1], events[j - 1]);
    }
  }

  lemma UpgradedIsGone(s: State, token: Token)
    requires Inv(s) && token in s.origins && s.origins[token].UpgradeOf?
    ensures FindSession(s.sessions, s.origins[token].previous) == -1
  {
    assert UpgradeOk(s.origins[token], s.sessions, s.origins);
  }

  /** In every run a limited session is upgraded at most once, however many calls race for it. */
  lemma UpgradedAtMostOnce(states: seq<State>, events: seq<Event>, i: nat, j: nat, previous: Token)
    requires IsRun(states, events) && i < |events| && j < |events|
    requires Upgrades(states[i], events[i], previous) && Upgrades(states[j], events[j], previous)
    ensures i == j
  {
    if i != j {
      var a, b := if i < j then i else j, if i < j then j else i;
      assert states[a + 1] == Apply(states[a], events[a]);
      OriginsStay(states, events, a + 1, b, events[a].newToken);
      RunKeepsInv(states, events, b);
      UpgradedIsGone(states[b], events[a].newToken);
    }
  }

  /** No way round the second factor: in every run, whoever a web token resolves to by default got
      it from a registration, from a login that found 2FA off, or from a second factor accepted for
      that same user by the very call that rotated the limited session: a code for a pending session,
      a confirmed enrolment for one that demanded it. */
  lemma FullAccessIsEarned(states: seq<State>, events: seq<Event>, n: nat, apiTokens: seq<ApiToken>, sha: string -> Hash,
                           token: Token, now: int)
    requires IsRun(states, events) && n < |states|
    requires Resolve(states[n].users, states[n].sessions, apiTokens, sha, token, DEFAULT, now).Web?
    ensures token in states[n].origins
    ensures var o := states[n].origins[token];
            && o.user == Resolve(states[n].users, states[n].sessions, apiTokens, sha, token, DEFAULT, now).userId
            && match o
               case Direct(user) => exists i :: 0 <= i < n && OpensDirectly(states[i], events[i], user)
               case UpgradeOf(previous, user, call) =>
                 previous in states[n].origins && states[n].origins[previous].Limited? && states[n].origins[previous].user == user
                 && exists i :: 0 <= i < n && PassesFactor(states[i], events[i], call, previous, user)
                                && events[i].SecondFactor? == states[n].origins[previous].twofa
               case Limited(_, _) => false
  {
    hide Apply;
    var s := states[n];
    RunKeepsInv(states, events, n);
    var i := FindSession(s.sessions, token);
    assert Bounded(s.sessions[i], s.origins);
    OriginHistory(states, events, n, token);
    assert UpgradeOk(s.origins[token], s.sessions, s.origins);
    var o := s.origins[token];
    if o.UpgradeOf? {
      var k :| 0 <= k < n && PassesFactor(states[k], events[k], o.call, o.previous, o.user);
      RunKeepsInv(states, events, k);
      CallKnown(states[k], o.call);
      OriginsStay(states, events, k, n, o.previous);
    }
  }

  /** Once upgraded, the limited token resolves to nobody, whatever the route allows. */
  lemma RetiredTokenIsAnonymous(states: seq<State>, events: seq<Event>, i: nat, n: nat, previous: Token,
                                apiTokens: seq<ApiToken>, sha: string -> Hash, options: Options, now: int)
    requires IsRun(states, events) && i < n < |states| && Upgrades(states[i], events[i], previous)
    ensures var r := Resolve(states[n].users, states[n].sessions, apiTokens, sha, previous, options, now);
            r == Anonymous || r.Api?
  {
    assert states[i + 1] == Apply(states[i], events[i]);
    OriginsStay(states, events, i + 1, n, events[i].newToken);
    RunKeepsInv(states, events, n);
    assert UpgradeOk(states[n].origins[events[i].newToken], states[n].sessions, states[n].origins);
  }

  /** This step is what a full session of `user` must go back to, told by the stored fields alone. */
  predicate Earns(s: State, e: Event, user: UserId)
  {
    match e
    case Register(_, u, _, _) => u == user && user !in s.users
    case LoginRead(_, _, u, enrol) => u == user && user in s.users && !s.users[user].enabled && !enrol
    case SecondFactor(_, c, a) =>
      && c in s.calls && s.calls[c].Checked? && s.calls[c].user == user
      && user in s.users && s.users[user].enabled
      && (a == Totp(true) || (a.Recovery? && a.codeHash in s.users[user].recovery))
    case ConfirmEnrolment(_, c, _) => c in s.calls && s.calls[c].Enrolling? && s.calls[c].user == user
    case _ => false
  }

  lemma EarningStep(s: State, e: Event, call: CallId, token: Token, user: UserId)
    requires Enabled(s, e)
    ensures OpensDirectly(s, e, user) ==> Earns(s, e, user)
    ensures PassesFactor(s, e, call, token, user) ==> Earns(s, e, user)
  {}

  /** The same by fields: in every run, a token that resolves by default to `user` goes back to that
      user's registration, to a login while their 2FA was off, to a valid time-based code or a stored
      recovery code given while it was on, or to a confirmed enrolment. */
  lemma FullAccessByFields(states: seq<State>, events: seq<Event>, n: nat, apiTokens: seq<ApiToken>, sha: string -> Hash,
                           token: Token, now: int, user: UserId)
    requires IsRun(states, events) && n < |states|
    requires Resolve(states[n].users, states[n].sessions, apiTokens, sha, token, DEFAULT, now) == Web(user)
    ensures exists i :: 0 <= i < n && Earns(states[i], events[i], user)
  {
    FullAccessIsEarned(states, events, n, apiTokens, sha, token, now);
    hide Resolve, Apply, Earns, PassesFactor, OpensDirectly, Ok;
    match states[n].origins[token]
    case Direct(_) =>
      var i :| 0 <= i < n && OpensDirectly(states[i], events[i], user);
      EarningStep(states[i], events[i], 0, "", user);
    case UpgradeOf(previous, _, call) =>
      var i :| 0 <= i < n && PassesFactor(states[i], events[i], call, previous, user);
      EarningStep(states[i], events[i], call, previous, user);
    case _ =>
  }

  /** A live session of `user` under `token` that waits for a second factor, or for an enrolment. */
  predicate LimitedIn(sessions: seq<Session>, token: Token, user: UserId, twofa: bool, t: int)
  {
    exists x :: x in sessions && x.token == token && x.userId == user && t < x.expiresAt
                && if twofa then x.twofaPending else x.enrollmentRequired
  }

  /** A step that opened `call` on such a session. */
  predicate OpensCall(s: State, e: Event, call: CallId, token: Token, user: UserId, twofa: bool)
  {
    (if twofa then e == BeginLogin2FA(e.t, call, token) else e == BeginEnrolment(e.t, call, token))
    && LimitedIn(s.sessions, token, user, twofa, e.t)
  }

  /** Every call that checks a code was opened, by its own step, on a pending session then alive, and
      every call that confirms an enrolment on one that demanded it. */
  lemma {:induction false} CallsOpenOnLiveSessions(states: seq<State>, events: seq<Event>, n: nat, call: CallId)
    requires IsRun(states, events) && n < |states| && call in states[n].calls
    ensures var c := states[n].calls[call];
            && (c.Checked? ==> exists i :: 0 <= i < n && OpensCall(states[i], events[i], call, c.token, c.user, true))
            && (c.Enrolling? ==> exists i :: 0 <= i < n && OpensCall(states[i], events[i], call, c.token, c.user, false))
    decreases n
  {
    hide Ok, Inv, Swept, Rotated, Consume, Confirmed, Regenerated, Disabled, FindSession, Accepts, Opened, OpenedEnrolment, OpensCall;
    if n > 0 {
      var s, e := states[n - 1], events[n - 1];
      assert states[n] == Apply(s, e);
      if call in s.calls && s.calls[call] == states[n].calls[call] {
        CallsOpenOnLiveSessions(states, events, n - 1, call);
      } else if e.BeginLogin2FA? || e.BeginEnrolment? {
        OpeningStep(s, e);
      }
    }
  }

  lemma OpeningStep(s: State, e: Event)
    requires e.BeginLogin2FA? || e.BeginEnrolment?
    ensures e.BeginLogin2FA? ==>
              var c := Opened(s, e.token, e.t);
              c == Closed || (c.Checked? && OpensCall(s, e, e.call, c.token, c.user, true))
    ensures e.BeginEnrolment? ==>
              var c := OpenedEnrolment(s, e.token, e.t);
              c == Closed || (c.Enrolling? && OpensCall(s, e, e.call, c.token, c.user, false))
  {
    var i := FindSession(s.sessions, e.token);
    if i != -1 {
      assert s.sessions[i] in s.sessions;
    }
  }

  /** What a submitted second factor does: the call passes exactly when the account has 2FA on and the
      code is valid now or is a stored recovery code, which is then spent; no session changes yet. */
  lemma SecondFactorMeaning(s: State, e: Event)
    requires Enabled(s, e) && e.SecondFactor?
    ensures var c, next := s.calls[e.call], Apply(s, e);
            var good := c.user in s.users && s.users[c.user].enabled
                        && (e.attempt == Totp(true) || (e.attempt.Recovery? && e.attempt.codeHash in s.users[c.user].recovery));
            && next.calls[e.call] == (if good then Passed(c.token, c.user) else Closed)
            && next.sessions == s.sessions && next.users.Keys == s.users.Keys
            && (forall u :: u in s.users && u != c.user ==> next.users[u] == s.users[u])
            && (if good && e.attempt.Recovery? then
                  next.users[c.user].enabled
                  && multiset(s.users[c.user].recovery) == multiset(next.users[c.user].recovery) + multiset{e.attempt.codeHash}
                else next.users == s.users)
  {
    var c := s.calls[e.call];
    if e.attempt.Recovery? && Accepts(s.users, c.user, e.attempt) {
      SpentIsGone(s.users, c.user, e.attempt.codeHash);
    }
  }

  /** What a login writes: a full session if the account it read had 2FA off and no enrolment was
      demanded, else a limited one of at most fifteen minutes; expired rows go. */
  lemma LoginWriteMeaning(s: State, e: Event, x: Session)
    requires Enabled(s, e) && e.LoginWrite?
    ensures var c := s.calls[e.call];
            x in Apply(s, e).sessions <==>
              || (x in s.sessions && e.t < x.expiresAt)
              || (x.token == e.token && x.userId == c.user && x.expiresAt == e.expiresAt
                  && x.twofaPending == c.enabled && x.enrollmentRequired == (!c.enabled && c.enrol))
    ensures s.calls[e.call].enabled ==> e.expiresAt == e.t + 300_000
    ensures !s.calls[e.call].enabled && s.calls[e.call].enrol ==> e.expiresAt == e.t + 900_000
  {
    hide Swept;
    SweptMembers(s.sessions, Expired(e.t));
  }

  /** What the other steps write: which calls open and close, what confirming, regenerating, disabling and
      rotating do to the account and the sessions, and that each step touches nothing else. */
  lemma StepMeaning(s: State, e: Event)
    requires Enabled(s, e)
    ensures var next := Apply(s, e);
            next.now == e.t
            && match e
               case Register(_, user, token, expiresAt) =>
                 next.users == s.users[user := User(false, [])] && next.calls == s.calls
                 && next.sessions == s.sessions + [Session(token, user, expiresAt, false, false)]
               case LoginRead(_, call, user, enrol) =>
                 next.users == s.users && next.sessions == s.sessions
                 && next.calls == s.calls[call := Reading(user, s.users[user].enabled, enrol)]
               case LoginWrite(_, call, _, _) => next.users == s.users && next.calls == s.calls[call := Closed]
               case BeginLogin2FA(t, call, token) =>
                 next.users == s.users && next.sessions == s.sessions && next.calls == s.calls[call := Opened(s, token, t)]
               case SecondFactor(_, call, _) => next.sessions == s.sessions && next.calls == s.calls[call := next.calls[call]]
               case BeginEnrolment(t, call, token) =>
                 next.users == s.users && next.sessions == s.sessions && next.calls == s.calls[call := OpenedEnrolment(s, token, t)]
               case ConfirmEnrolment(_, call, hashes) =>
                 var c := s.calls[call];
                 next.sessions == s.sessions && next.calls == s.calls[call := Passed(c.token, c.user)]
                 && next.users == (if c.user in s.users then s.users[c.user := User(true, hashes)] else s.users)
               case Rotate(_, call, newToken, expiresAt) =>
                 next.users == s.users && next.calls == s.calls[call := Closed]
                 && next.sessions == (match Rotated(s.sessions, s.calls[call].token, newToken, expiresAt)
                                      case None => s.sessions
                                      case Some(rotated) => rotated)
               case Confirm(_, user, hashes) =>
                 next.sessions == s.sessions && next.calls == s.calls
                 && next.users == (if user in s.users then s.users[user := User(true, hashes)] else s.users)
               case Regenerate(_, user, hashes) =>
                 next.sessions == s.sessions && next.calls == s.calls
                 && next.users == (if user in s.users && s.users[user].enabled then s.users[user := User(true, hashes)] else s.users)
               case Disable(_, user) =>
                 next.sessions == s.sessions && next.calls == s.calls
                 && next.users == (if user in s.users then s.users[user := User(false, [])] else s.users)
               case SweepSessions(_, sweep) =>
                 next.users == s.users && next.calls == s.calls && next.sessions == Swept(s.sessions, sweep)
  {
    hide Swept, Rotated, Opened, OpenedEnrolment, Accepts, Consume;
  }

  /** Each limited session has at most five minutes left, or fifteen for an enrolment. */
  predicate ShortLived(x: Session, now: int)
  {
    (x.twofaPending ==> x.expiresAt <= now + 300_000) && (x.enrollmentRequired ==> x.expiresAt <= now + 900_000)
  }

  lemma ShortLivedStep(s: State, e: Event, x: Session)
    requires Enabled(s, e) && x in Apply(s, e).sessions
    ensures x in s.sessions || ShortLived(x, e.t)
  {
    hide Consume, Confirmed, Regenerated, Disabled, Opened, OpenedEnrolment, Accepts, Swept, FindSession;
    match e
    case LoginWrite(t, _, _, _) => SweptMembers(s.sessions, Expired(t));
    case SweepSessions(_, sweep) => SweptMembers(s.sessions, sweep);
    case _ =>
  }

  lemma {:induction false} LimitedSessionsAreShort(states: seq<State>, events: seq<Event>, n: nat, x: Session)
    requires IsRun(states, events) && n < |states| && x in states[n].sessions
    ensures ShortLived(x, states[n].now)
    decreases n
  {
    hide Apply;
    if n > 0 {
      var s, e := states[n - 1], events[n - 1];
      ClockOf(s, e);
      ShortLivedStep(s, e, x);
      if x in s.sessions {
        LimitedSessionsAreShort(states, events, n - 1, x);
      }
    }
  }

  lemma ClockOf(s: State, e: Event)
    requires Enabled(s, e)
    ensures s.now <= e.t == Apply(s, e).now
  {}

  /** Whoever gives a good second factor gets in: on a live pending session of an account with 2FA on,
      opening, a valid code and the rotation leave a new token that resolves to that user. */
  lemma GoodFactorGetsIn(s: State, begin: Event, factor: Event, rotate: Event, x: Session,
                         apiTokens: seq<ApiToken>, sha: string -> Hash, now: int)
    requires Inv(s) && x in s.sessions && x.twofaPending && x.userId in s.users && s.users[x.userId].enabled
    requires begin.BeginLogin2FA? && begin.token == x.token && begin.t < x.expiresAt && Enabled(s, begin)
    requires factor.SecondFactor? && factor.call == begin.call && Enabled(Apply(s, begin), factor)
    requires factor.attempt == Totp(true) || (factor.attempt.Recovery? && factor.attempt.codeHash in s.users[x.userId].recovery)
    requires rotate.Rotate? && rotate.call == begin.call && s.now <= begin.t <= factor.t <= rotate.t && rotate.newToken !in s.origins
    requires rotate.newToken != "" && !("envf_" <= rotate.newToken) && now < rotate.expiresAt
    ensures var passed := Apply(Apply(s, begin), factor);
            && Enabled(passed, rotate)
            && var done := Apply(passed, rotate);
               Resolve(done.users, done.sessions, apiTokens, sha, rotate.newToken, DEFAULT, now) == Web(x.userId)
               && FindSession(done.sessions, x.token) == -1
  {
    hide Ok, Opened, Consume, Accepts, Rotated, FindSession, Resolve;
    OpenedIn(s, begin, x);
    var midway := Apply(s, begin);
    SecondFactorMeaning(midway, factor);
    var passed := Apply(midway, factor);
    InGood(s, x, rotate.newToken);
    FoundIn(s.sessions, x);
    RotatesInto(passed.users, s.sessions, apiTokens, sha, x, rotate, now);
  }

  lemma InGood(s: State, x: Session, newToken: Token)
    requires Inv(s) && x in s.sessions && newToken !in s.origins
    ensures DistinctTokens(s.sessions) && FindSession(s.sessions, newToken) == -1
  {
    NewTokenUnknown(s, newToken);
  }

  lemma FoundIn(sessions: seq<Session>, x: Session)
    requires DistinctTokens(sessions) && x in sessions
    ensures FindSession(sessions, x.token) != -1 && sessions[FindSession(sessions, x.token)] == x
  {}

  lemma OpenedIn(s: State, e: Event, x: Session)
    requires Inv(s) && x in s.sessions && x.twofaPending && x.userId in s.users && e.BeginLogin2FA? && e.token == x.token && e.t < x.expiresAt
    ensures Opened(s, e.token, e.t) == Checked(x.token, x.userId)
  {
    OpenedExactly(s, e.token, e.t, x.userId);
  }

  lemma RotatesInto(users: map<UserId, User>, sessions: seq<Session>, apiTokens: seq<ApiToken>, sha: string -> Hash,
                    x: Session, rotate: Event, now: int)
    requires rotate.Rotate? && DistinctTokens(sessions) && FindSession(sessions, rotate.newToken) == -1 && x.userId in users
    requires FindSession(sessions, x.token) != -1 && sessions[FindSession(sessions, x.token)] == x
    requires rotate.newToken != "" && !("envf_" <= rotate.newToken) && now < rotate.expiresAt
    ensures var next := Rotated(sessions, x.token, rotate.newToken, rotate.expiresAt);
            next.Some? && FindSession(next.value, x.token) == -1
            && Resolve(users, next.value, apiTokens, sha, rotate.newToken, DEFAULT, now) == Web(x.userId)
  {
    RotationIsLocal(users, sessions, apiTokens, sha, x.token, rotate.newToken, rotate.expiresAt, x.token, DEFAULT, now);
    hide Rotated, FindSession;
  }

  // Recovery codes over a run -------------------------------------------------------------------------

  /** Codes of `user` consumed in the first `n` steps since the last confirmation or regeneration. */
  ghost function Consumed(states: seq<State>, events: seq<Event>, n: nat, user: UserId): nat
    requires n <= |events| && |states| == |events| + 1
  {
    if n == 0 then 0
    else
      var s, e := states[n - 1], events[n - 1];
      var before := Consumed(states, events, n - 1, user);
      match e
      case Confirm(_, u, _) => if u == user then 0 else before
      case ConfirmEnrolment(_, c, _) => if c in s.calls && s.calls[c].Enrolling? && s.calls[c].user == user then 0 else before
      case Regenerate(_, u, _) => if u == user then 0 else before
      case SecondFactor(_, c, a) =>
        if a.Recovery? && c in s.calls && s.calls[c].Checked? && s.calls[c].user == user && Accepts(s.users, user, a) then before + 1 else before
      case _ => before
  }

  predicate CodesOk(u: User, consumed: nat)
  {
    if u.enabled then |u.recovery| + consumed == 8 else u.recovery == []
  }

  /** While 2FA stays on, the codes left and the codes consumed since they were issued make eight. */
  lemma {:induction false} RecoveryCodesAreConserved(states: seq<State>, events: seq<Event>, n: nat, user: UserId)
    requires IsRun(states, events) && n < |states| && user in states[n].users
    ensures CodesOk(states[n].users[user], Consumed(states, events, n, user))
    decreases n
  {
    hide Ok, Swept, Rotated, Opened, OpenedEnrolment, FindSession;
    if n > 0 {
      var s, e := states[n - 1], events[n - 1];
      assert states[n] == Apply(s, e);
      if user in s.users {
        RecoveryCodesAreConserved(states, events, n - 1, user);
      }
    }
  }

  /** A code is spent exactly when the call goes on; the two never part. */
  lemma SpentIffAccepted(users: map<UserId, User>, user: UserId, h: Hash)
    ensures Consume(users, user, h).1 == Accepts(users, user, Recovery(h))
  {}
}
