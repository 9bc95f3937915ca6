/**
 Accounts, tokens and the endpoints that issue, accept and revoke them, one request at a time.
 A token is what a verified signature vouches for; session rows are keyed by their unique token hash.
 */
module Credentials {
  import opened Bookings
  import Sessions

  const ACCESS_LIFETIME := 15 * 60 * 1_000_000
  const REFRESH_LIFETIME := Sessions.REFRESH_LIFETIME

  datatype Kind = Access | Refresh

  /** `serial` tells tokens of the same instant apart. */
  datatype Token = Token(kind: Kind, userId: UserId, issuedAt: Instant, expiresAt: Instant, serial: int)

  datatype Account = Account(password: string, isActive: bool, isAdmin: bool, validAfter: Option<Instant>)

  /** A session row, without the token hash it is keyed by. */
  datatype Entry = Entry(userId: UserId, expiresAt: Instant)

  datatype Accounts = Accounts(users: map<UserId, Account>, sessions: map<Token, Entry>)

  datatype Request =
    | Register(user: UserId, password: string, isAdmin: bool)
    | Login(user: UserId, password: string, access: int, refresh: int)
    | RefreshWith(token: Token, access: int, refresh: int)
    | Authenticate(token: Token)
    | Logout(token: Token)
    | LogoutAll(token: Token)
    | ChangePassword(token: Token, current: string, new_: string)
    | Deactivate(user: UserId)
    | Activate(user: UserId)

  datatype Reply =
    | Ok
    | Pair(access: Token, refresh: Token)
    | Unauthorized
    | Forbidden
    | BadRequest
    | NotFound
    | AlreadyExists

  function NewAccess(user: UserId, now: Instant, serial: int): Token {
    Token(Access, user, now, now + ACCESS_LIFETIME, serial)
  }

  function NewRefresh(user: UserId, now: Instant, serial: int): Token {
    Token(Refresh, user, now, now + REFRESH_LIFETIME, serial)
  }

  /** Signature aside: the expected type, a positive user, and not at or after the expiry. */
  predicate Verified(t: Token, kind: Kind, now: Instant) {
    t.kind == kind && t.userId > 0 && now < t.expiresAt
  }

  predicate Invalidated(t: Token, validAfter: Option<Instant>) {
    validAfter.Some? && t.issuedAt < validAfter.value
  }

  /** get_current_user */
  predicate AcceptsAccess(a: Accounts, t: Token, now: Instant) {
    && Verified(t, Access, now) && t.userId in a.users
    && a.users[t.userId].isActive && !Invalidated(t, a.users[t.userId].validAfter)
  }

  predicate HasSession(a: Accounts, t: Token, user: UserId, now: Instant) {
    t in a.sessions && a.sessions[t].userId == user && now < a.sessions[t].expiresAt
  }

  predicate AcceptsRefresh(a: Accounts, t: Token, now: Instant) {
    && Verified(t, Refresh, now) && t.userId in a.users && !Invalidated(t, a.users[t.userId].validAfter)
    && a.users[t.userId].isActive && HasSession(a, t, t.userId, now)
  }

  /** Two new tokens of an active user: one for access, and one for refreshing that has a session. */
  predicate SignedIn(a: Accounts, user: UserId, access: Token, refresh: Token, now: Instant) {
    && access.kind == Access && refresh.kind == Refresh && access.userId == user && refresh.userId == user
    && access.issuedAt == now && refresh.issuedAt == now && now < access.expiresAt && now < refresh.expiresAt
    && user in a.users && a.users[user].isActive && HasSession(a, refresh, user, now)
  }

  function WithoutSessionsOf(sessions: map<Token, Entry>, user: UserId): map<Token, Entry> {
    map t | t in sessions && sessions[t].userId != user :: sessions[t]
  }

  /** The cut-off and the deletion that logout-all, password change and deactivation share. */
  function Revoke(a: Accounts, user: UserId, account: Account, now: Instant): Accounts {
    Accounts(a.users[user := account.(validAfter := Some(now))], WithoutSessionsOf(a.sessions, user))
  }

  function Perform(a: Accounts, r: Request, now: Instant): (Accounts, Reply) {
    match r
    case Register(user, password, isAdmin) =>
      if user in a.users then (a, AlreadyExists)
      else (a.(users := a.users[user := Account(password, true, isAdmin, None)]), Ok)
    case Login(user, password, access, refresh) =>
      if user !in a.users || a.users[user].password != password then (a, Unauthorized)
      else if !a.users[user].isActive then (a, Forbidden)
      else
        var t := NewRefresh(user, now, refresh);
        (a.(sessions := a.sessions[t := Entry(user, now + REFRESH_LIFETIME)]),
         Pair(NewAccess(user, now, access), t))
    case RefreshWith(t, access, refresh) =>
      if !Verified(t, Refresh, now) || t.userId !in a.users || Invalidated(t, a.users[t.userId].validAfter) then
        (a, Unauthorized)
      else if !a.users[t.userId].isActive then (a, Forbidden)
      else if !HasSession(a, t, t.userId, now) then (a, Unauthorized)
      else
        var fresh_ := NewRefresh(t.userId, now, refresh);
        (a.(sessions := (a.sessions - {t})[fresh_ := Entry(t.userId, now + REFRESH_LIFETIME)]),
         Pair(NewAccess(t.userId, now, access), fresh_))
    case Authenticate(t) => (a, if AcceptsAccess(a, t, now) then Ok else Unauthorized)
    case Logout(t) =>
      if Verified(t, Refresh, now) && t in a.sessions && a.sessions[t].userId == t.userId
      then (a.(sessions := a.sessions - {t}), Ok)
      else (a, Ok)
    case LogoutAll(t) =>
      if !AcceptsAccess(a, t, now) then (a, Unauthorized)
      else (Revoke(a, t.userId, a.users[t.userId], now), Ok)
    case ChangePassword(t, current, new_) =>
      if !AcceptsAccess(a, t, now) then (a, Unauthorized)
      else if a.users[t.userId].password != current || current == new_ then (a, BadRequest)
      else (Revoke(a, t.userId, a.users[t.userId].(password := new_), now), Ok)
    case Deactivate(user) =>
      if user !in a.users then (a, NotFound)
      else if a.users[user].isAdmin then (a, Forbidden)
      else (Revoke(a, user, a.users[user].(isActive := false), now), Ok)
    case Activate(user) =>
      if user !in a.users then (a, NotFound)
      else if a.users[user].isAdmin then (a, Forbidden)
      else (a.(users := a.users[user := a.users[user].(isActive := true)]), Ok)
  }

  // ---------- the handlers ----------

  class AuthService {
    var users: map<UserId, Account>
    var sessions: map<Token, Entry>

    function State(): Accounts
      reads this
    {
      Accounts(users, sessions)
    }

    constructor ()
      ensures State() == Accounts(map[], map[])
    {
      users, sessions := map[], map[];
    }

    // RefreshTokenService

    method CreateSession(userId: UserId, serial: int, now: Instant) returns (token: Token)
      modifies `sessions
      ensures token == NewRefresh(userId, now, serial)
      ensures sessions == old(sessions)[token := Entry(userId, now + REFRESH_LIFETIME)]
    {
      token := NewRefresh(userId, now, serial);
      sessions := sessions[token := Entry(userId, now + REFRESH_LIFETIME)];
    }

    method Rotate(current: Token, userId: UserId, serial: int, now: Instant) returns (rotated: Option<Token>)
      modifies `sessions
      ensures rotated.Some? <==> old(HasSession(State(), current, userId, now))
      ensures rotated.None? ==> sessions == old(sessions)
      ensures rotated.Some? ==>
                && rotated.value == NewRefresh(userId, now, serial)
                && sessions == (old(sessions) - {current})[rotated.value := Entry(userId, now + REFRESH_LIFETIME)]
    {
      if current !in sessions || sessions[current].userId != userId || sessions[current].expiresAt <= now {
        return None;
      }
      var token := NewRefresh(userId, now, serial);
      var row := sessions[current].(expiresAt := now + REFRESH_LIFETIME);
      sessions := (sessions - {current})[token := row];
      return Some(token);
    }

    method RevokeSession(token: Token, userId: UserId) returns (hit: bool)
      modifies `sessions
      ensures hit <==> token in old(sessions) && old(sessions)[token].userId == userId
      ensures sessions == if hit then old(sessions) - {token} else old(sessions)
    {
      hit := token in sessions && sessions[token].userId == userId;
      if hit {
        sessions := sessions - {token};
      }
    }

    method RevokeAll(userId: UserId) returns (count: nat)
      modifies `sessions
      ensures sessions == WithoutSessionsOf(old(sessions), userId)
      ensures count + |sessions| == |old(sessions)|
    {
      var kept := WithoutSessionsOf(sessions, userId);
      var gone := set t | t in sessions && sessions[t].userId == userId;
      assert sessions.Keys == kept.Keys + gone;
      count := |gone|;
      sessions := kept;
    }

    // endpoints

    method UserLogin(user: UserId, password: string, access: int, refresh: int, now: Instant) returns (reply: Reply)
      modifies this
      ensures (State(), reply) == Perform(old(State()), Login(user, password, access, refresh), now)
      ensures reply.Pair? ==> SignedIn(State(), user, reply.access, reply.refresh, now)
    {
      if user !in users || users[user].password != password {
        return Unauthorized;
      }
      if !users[user].isActive {
        return Forbidden;
      }
      var token := CreateSession(user, refresh, now);
      return Pair(NewAccess(user, now, access), token);
    }

    method GetRefreshToken(token: Token, access: int, refresh: int, now: Instant) returns (reply: Reply)
      modifies this
      ensures (State(), reply) == Perform(old(State()), RefreshWith(token, access, refresh), now)
      ensures reply.Pair? <==> old(AcceptsRefresh(State(), token, now))
      ensures reply.Pair? ==> SignedIn(State(), token.userId, reply.access, reply.refresh, now)
      ensures reply.Pair? && reply.refresh != token ==> token !in sessions
    {
      if !Verified(token, Refresh, now) || token.userId !in users {
        return Unauthorized;
      }
      var user := users[token.userId];
      if Invalidated(token, user.validAfter) {
        return Unauthorized;
      }
      if !user.isActive {
        return Forbidden;
      }
      var rotated := Rotate(token, token.userId, refresh, now);
      if rotated.None? {
        return Unauthorized;
      }
      return Pair(NewAccess(token.userId, now, access), rotated.value);
    }

    method LogoutOne(token: Token, now: Instant) returns (reply: Reply)
      modifies this
      ensures (State(), reply) == Perform(old(State()), Logout(token), now)
      ensures forall later :: now <= later ==> !AcceptsRefresh(State(), token, later)
    {
      if Verified(token, Refresh, now) {
        var hit := RevokeSession(token, token.userId);
      }
      return Ok;
    }

    method LogoutEverywhere(token: Token, now: Instant) returns (reply: Reply)
      modifies this
      ensures (State(), reply) == Perform(old(State()), LogoutAll(token), now)
    {
      if !AcceptsAccess(State(), token, now) {
        return Unauthorized;
      }
      users := users[token.userId := users[token.userId].(validAfter := Some(now))];
      var count := RevokeAll(token.userId);
      return Ok;
    }

    method SetPassword(token: Token, current: string, new_: string, now: Instant) returns (reply: Reply)
      modifies this
      ensures (State(), reply) == Perform(old(State()), ChangePassword(token, current, new_), now)
    {
      if !AcceptsAccess(State(), token, now) {
        return Unauthorized;
      }
      var user := users[token.userId];
      if user.password != current || current == new_ {
        return BadRequest;
      }
      user := user.(password := new_);
      user := user.(validAfter := Some(now));
      users := users[token.userId := user];
      var count := RevokeAll(token.userId);
      return Ok;
    }

    method DeactivateUser(userId: UserId, now: Instant) returns (reply: Reply)
      modifies this
      ensures (State(), reply) == Perform(old(State()), Deactivate(userId), now)
    {
      if userId !in users {
        return NotFound;
      }
      if users[userId].isAdmin {
        return Forbidden;
      }
      users := users[userId := users[userId].(isActive := false, validAfter := Some(now))];
      var count := RevokeAll(userId);
      return Ok;
    }

    method ActivateUser(userId: UserId, now: Instant) returns (reply: Reply)
      modifies this
      ensures (State(), reply) == Perform(old(State()), Activate(userId), now)
    {
      if userId !in users {
        return NotFound;
      }
      if users[userId].isAdmin {
        return Forbidden;
      }
      users := users[userId := users[userId].(isActive := true)];
      return Ok;
    }
  }

  // ---------- histories ----------

  datatype Event = Event(request: Request, at: Instant)

  function After(events: seq<Event>, n: nat): Accounts
    requires n <= |events|
  {
    if n == 0 then Accounts(map[], map[])
    else Perform(After(events, n - 1), events[n - 1].request, events[n - 1].at).0
  }

  function ReplyAt(events: seq<Event>, i: nat): Reply
    requires i < |events|
  {
    Perform(After(events, i), events[i].request, events[i].at).1
  }

  predicate InOrder(events: seq<Event>) {
    forall i, j :: 0 <= i < j < |events| ==> events[i].at <= events[j].at
  }

  /** The request succeeds as a logout-all, password change or deactivation of the user. */
  predicate RevokesNow(a: Accounts, e: Event, user: UserId) {
    Perform(a, e.request, e.at).1 == Ok &&
    match e.request
    case LogoutAll(t) => t.userId == user
    case ChangePassword(t, _, _) => t.userId == user
    case Deactivate(u) => u == user
    case _ => false
  }

  predicate Revokes(events: seq<Event>, i: nat, user: UserId)
    requires i < |events|
  {
    RevokesNow(After(events, i), events[i], user)
  }

  /** One of the first n requests revoked the user's tokens later than the given instant. */
  predicate RevokedSince(events: seq<Event>, n: nat, user: UserId, issuedAt: Instant)
    requires n <= |events|
  {
    n > 0 &&
    (RevokedSince(events, n - 1, user, issuedAt) || (Revokes(events, n - 1, user) && issuedAt < events[n - 1].at))
  }

  lemma {:induction false} RevokedSinceThen(events: seq<Event>, i: nat, n: nat, user: UserId, issuedAt: Instant)
    requires i < n <= |events| && Revokes(events, i, user) && issuedAt < events[i].at
    ensures RevokedSince(events, n, user, issuedAt)
  {
    if i < n - 1 {
      RevokedSinceThen(events, i, n - 1, user, issuedAt);
    }
  }

  /** One request moves the cut-off of an account only by revoking, and then to the present. */
  lemma CutOffStep(a: Accounts, e: Event, user: UserId)
    requires user in a.users
    ensures var after := Perform(a, e.request, e.at).0;
            && user in after.users
            && after.users[user].validAfter == if RevokesNow(a, e, user) then Some(e.at) else a.users[user].validAfter
  {
  }

  lemma UnknownUserStep(a: Accounts, e: Event, user: UserId)
    requires user !in a.users
    ensures !RevokesNow(a, e, user)
    ensures var after := Perform(a, e.request, e.at).0; user in after.users ==> after.users[user].validAfter.None?
  {
  }

  lemma {:induction false} NeverRevokedBefore(events: seq<Event>, n: nat, user: UserId, issuedAt: Instant)
    requires n <= |events| && user !in After(events, n).users
    ensures !RevokedSince(events, n, user, issuedAt)
  {
    if n > 0 {
      var before := After(events, n - 1);
      if user in before.users {
        CutOffStep(before, events[n - 1], user);
      }
      UnknownUserStep(before, events[n - 1], user);
      NeverRevokedBefore(events, n - 1, user, issuedAt);
    }
  }

  /** The cut-off of an account stands exactly for its revocations so far. */
  lemma {:induction false} CutOffMeansRevoked(events: seq<Event>, n: nat, user: UserId, issuedAt: Instant)
    requires InOrder(events) && n <= |events| && user in After(events, n).users
    ensures var cut := After(events, n).users[user].validAfter;
            && (cut.Some? ==> n > 0 && cut.value <= events[n - 1].at)
            && (RevokedSince(events, n, user, issuedAt) <==> cut.Some? && issuedAt < cut.value)
  {
    if n > 0 {
      var before := After(events, n - 1);
      if user in before.users {
        CutOffMeansRevoked(events, n - 1, user, issuedAt);
        CutOffStep(before, events[n - 1], user);
      } else {
        UnknownUserStep(before, events[n - 1], user);
        NeverRevokedBefore(events, n - 1, user, issuedAt);
      }
    }
  }

  /** Request i presented this token and got what it asked for. */
  predicate LetIn(events: seq<Event>, i: nat, t: Token)
    requires i < |events|
  {
    match events[i].request
    case Authenticate(token) => token == t && ReplyAt(events, i) == Ok
    case RefreshWith(token, _, _) => token == t && ReplyAt(events, i).Pair?
    case LogoutAll(token) => token == t && ReplyAt(events, i) == Ok
    case ChangePassword(token, _, _) => token == t && ReplyAt(events, i) == Ok
    case _ => false
  }

  /**
   Permanent revocation. After logout-all, password change or deactivation at T, no token of the user issued
   strictly before T is accepted again, whatever requests follow.
   */
  lemma RevocationIsPermanent(events: seq<Event>, i: nat, n: nat, user: UserId, t: Token, now: Instant)
    requires InOrder(events) && i < n <= |events| && Revokes(events, i, user)
    requires t.userId == user && t.issuedAt < events[i].at
    ensures !AcceptsAccess(After(events, n), t, now) && !AcceptsRefresh(After(events, n), t, now)
    ensures n < |events| ==> !LetIn(events, n, t)
  {
    if user in After(events, n).users {
      CutOffMeansRevoked(events, n, user, t.issuedAt);
      RevokedSinceThen(events, i, n, user, t.issuedAt);
    }
  }

  /** An unexpired access token of an active account is accepted exactly if no revocation came after its issue. */
  lemma AcceptedIffNotRevokedSince(events: seq<Event>, n: nat, t: Token, now: Instant)
    requires InOrder(events) && n <= |events| && Verified(t, Access, now)
    requires t.userId in After(events, n).users && After(events, n).users[t.userId].isActive
    ensures AcceptsAccess(After(events, n), t, now) <==> !RevokedSince(events, n, t.userId, t.issuedAt)
  {
    CutOffMeansRevoked(events, n, t.userId, t.issuedAt);
  }

  /** Right after a revocation the user has no session left, so no refresh token of any age is accepted. */
  lemma RevocationEmptiesSessions(a: Accounts, e: Event, user: UserId, t: Token, now: Instant)
    requires RevokesNow(a, e, user) && t.userId == user
    ensures var after := Perform(a, e.request, e.at).0;
            && (forall k :: k in after.sessions ==> after.sessions[k].userId != user)
            && !AcceptsRefresh(after, t, now)
  {
  }

  /** A login and a logout-all at one instant: the cut-off is strict, so the access token of that login survives. */
  lemma SameInstantSurvives(user: UserId, now: Instant)
    requires user > 0
    ensures var t := NewAccess(user, now, 0);
            var events := [Event(Register(user, "password", false), now), Event(Login(user, "password", 0, 1), now),
                           Event(LogoutAll(t), now)];
            && InOrder(events) && ReplyAt(events, 1) == Pair(t, NewRefresh(user, now, 1))
            && Revokes(events, 2, user) && AcceptsAccess(After(events, 3), t, now)
  {
    var t := NewAccess(user, now, 0);
    var events := [Event(Register(user, "password", false), now), Event(Login(user, "password", 0, 1), now),
                   Event(LogoutAll(t), now)];
    assert After(events, 0) == Accounts(map[], map[]);
    assert After(events, 1).users == map[user := Account("password", true, false, None)];
    assert After(events, 2).users == After(events, 1).users;
    assert AcceptsAccess(After(events, 2), t, now);
  }

  // ---------- what signing in, refreshing and logging out are for ----------

  /** The refresh token that a request hands out. */
  function Minted(events: seq<Event>, i: nat): Option<Token>
    requires i < |events|
  {
    if ReplyAt(events, i).Pair? then Some(ReplyAt(events, i).refresh) else None
  }

  /** No refresh token is handed out twice. */
  predicate FreshTokens(events: seq<Event>) {
    forall i, j :: 0 <= i < j < |events| && Minted(events, i).Some? ==> Minted(events, i) != Minted(events, j)
  }

  lemma SessionStep(a: Accounts, e: Event, t: Token)
    requires t !in a.sessions
    ensures var (after, reply) := Perform(a, e.request, e.at);
            t in after.sessions ==> reply.Pair? && reply.refresh == t
  {
  }

  /** Every session goes back to a token handed out. */
  lemma {:induction false} SessionsWereMinted(events: seq<Event>, n: nat, t: Token) returns (i: nat)
    requires n <= |events| && t in After(events, n).sessions
    ensures i < n && Minted(events, i) == Some(t)
  {
    if t in After(events, n - 1).sessions {
      i := SessionsWereMinted(events, n - 1, t);
    } else {
      SessionStep(After(events, n - 1), events[n - 1], t);
      i := n - 1;
    }
  }

  /** Once its session is gone, by rotation, logout or any revocation, a refresh token has no session ever again. */
  lemma {:induction false} LostForGood(events: seq<Event>, i: nat, n: nat, t: Token)
    requires FreshTokens(events) && i < n <= |events|
    requires t in After(events, i).sessions && t !in After(events, i + 1).sessions
    ensures t !in After(events, n).sessions
    decreases n
  {
    if i + 1 < n {
      LostForGood(events, i, n - 1, t);
      var k := SessionsWereMinted(events, i, t);
      assert Minted(events, k) != Minted(events, n - 1);
      SessionStep(After(events, n - 1), events[n - 1], t);
    }
  }

  /** Request i was a successful refresh with this token. */
  predicate Redeems(events: seq<Event>, i: nat, t: Token)
    requires i < |events|
  {
    events[i].request.RefreshWith? && LetIn(events, i, t)
  }

  /** Request i logged this token out. */
  predicate LogsOut(events: seq<Event>, i: nat, t: Token)
    requires i < |events|
  {
    events[i].request == Logout(t) && AcceptsRefresh(After(events, i), t, events[i].at)
  }

  lemma RedeemingNeedsSession(a: Accounts, t: Token, access: int, refresh: int, now: Instant)
    ensures Perform(a, RefreshWith(t, access, refresh), now).1.Pair? <==> AcceptsRefresh(a, t, now)
  {
  }

  /** Rotation and logout take the session away. */
  lemma SpentTokenIsGone(events: seq<Event>, i: nat, t: Token)
    requires FreshTokens(events) && i < |events| && (Redeems(events, i, t) || LogsOut(events, i, t))
    ensures t in After(events, i).sessions && t !in After(events, i + 1).sessions
  {
    if Redeems(events, i, t) {
      RedeemingNeedsSession(After(events, i), t, events[i].request.access, events[i].request.refresh, events[i].at);
      var k := SessionsWereMinted(events, i, t);
      assert Minted(events, k) != Minted(events, i);
    }
  }

  /** A refresh token that was rotated away or logged out is refused ever after, whatever requests follow. */
  lemma SpentForGood(events: seq<Event>, i: nat, n: nat, t: Token, now: Instant)
    requires FreshTokens(events) && i < n <= |events| && (Redeems(events, i, t) || LogsOut(events, i, t))
    ensures !AcceptsRefresh(After(events, n), t, now)
    ensures n < |events| ==> !Redeems(events, n, t)
  {
    SpentTokenIsGone(events, i, t);
    LostForGood(events, i, n, t);
  }

  /** In every history each refresh token is redeemed at most once. */
  lemma RedeemedAtMostOnce(events: seq<Event>, i: nat, j: nat, t: Token)
    requires FreshTokens(events) && i < |events| && j < |events|
    requires Redeems(events, i, t) && Redeems(events, j, t)
    ensures i == j
  {
    if i < j {
      SpentForGood(events, i, j, t, events[j].at);
    } else if j < i {
      SpentForGood(events, j, i, t, events[i].at);
    }
  }

  lemma PairStep(a: Accounts, e: Event)
    requires Perform(a, e.request, e.at).1.Pair?
    ensures var (after, reply) := Perform(a, e.request, e.at);
            && SignedIn(after, reply.refresh.userId, reply.access, reply.refresh, e.at)
            && (e.request.Login? ==> reply.refresh.userId == e.request.user)
            && (e.request.RefreshWith? ==> reply.refresh.userId == e.request.token.userId)
            && (e.request.Login? || e.request.RefreshWith?)
  {
  }

  lemma SignedInIsAccepted(a: Accounts, user: UserId, access: Token, refresh: Token, now: Instant)
    requires SignedIn(a, user, access, refresh, now) && user > 0
    requires a.users[user].validAfter.Some? ==> a.users[user].validAfter.value <= now
    ensures AcceptsAccess(a, access, now) && AcceptsRefresh(a, refresh, now)
  {
  }

  /** The token that was refreshed with is refused, if the new one is another. */
  lemma OldTokenRefused(events: seq<Event>, i: nat, later: Instant)
    requires FreshTokens(events) && i < |events| && events[i].request.RefreshWith? && ReplyAt(events, i).Pair?
    ensures !AcceptsRefresh(After(events, i + 1), events[i].request.token, later)
  {
    assert Redeems(events, i, events[i].request.token);
    SpentTokenIsGone(events, i, events[i].request.token);
  }

  /** What a login or refresh hands out is accepted at once; what it was given is not, if it was a refresh token. */
  lemma NewTokensWork(events: seq<Event>, i: nat, later: Instant)
    requires InOrder(events) && i < |events| && ReplyAt(events, i).Pair? && ReplyAt(events, i).refresh.userId > 0
    ensures AcceptsAccess(After(events, i + 1), ReplyAt(events, i).access, events[i].at)
    ensures AcceptsRefresh(After(events, i + 1), ReplyAt(events, i).refresh, events[i].at)
    ensures FreshTokens(events) && events[i].request.RefreshWith? ==>
              !AcceptsRefresh(After(events, i + 1), events[i].request.token, later)
  {
    var reply, now := ReplyAt(events, i), events[i].at;
    PairStep(After(events, i), events[i]);
    CutOffMeansRevoked(events, i + 1, reply.refresh.userId, now);
    SignedInIsAccepted(After(events, i + 1), reply.refresh.userId, reply.access, reply.refresh, now);
    if FreshTokens(events) && events[i].request.RefreshWith? {
      OldTokenRefused(events, i, later);
    }
  }
}
