/** What every credential endpoint answers, told from the requests and answers before it alone. */
module Endpoints {
  import opened Bookings
  import opened Credentials

  // ---------- an account, as its requests tell it ----------

  /** The password of the user: the one registered with, or the one of the last successful change. */
  function PasswordOf(events: seq<Event>, n: nat, user: UserId): Option<string>
    requires n <= |events|
  {
    if n == 0 then None
    else
      match events[n - 1].request
      case Register(u, password, _) =>
        if u == user && ReplyAt(events, n - 1) == Ok then Some(password) else PasswordOf(events, n - 1, user)
      case ChangePassword(t, _, new_) =>
        if t.userId == user && ReplyAt(events, n - 1) == Ok then Some(new_) else PasswordOf(events, n - 1, user)
      case _ => PasswordOf(events, n - 1, user)
  }

  /** Registered, and not deactivated since the last activation. */
  predicate IsOpen(events: seq<Event>, n: nat, user: UserId)
    requires n <= |events|
  {
    n > 0 &&
    match events[n - 1].request
    case Register(u, _, _) => (u == user && ReplyAt(events, n - 1) == Ok) || IsOpen(events, n - 1, user)
    case Activate(u) => (u == user && ReplyAt(events, n - 1) == Ok) || IsOpen(events, n - 1, user)
    case Deactivate(u) => !(u == user && ReplyAt(events, n - 1) == Ok) && IsOpen(events, n - 1, user)
    case _ => IsOpen(events, n - 1, user)
  }

  predicate RegisteredAsAdmin(events: seq<Event>, n: nat, user: UserId)
    requires n <= |events|
  {
    n > 0 &&
    match events[n - 1].request
    case Register(u, _, isAdmin) =>
      (u == user && ReplyAt(events, n - 1) == Ok && isAdmin) || RegisteredAsAdmin(events, n - 1, user)
    case _ => RegisteredAsAdmin(events, n - 1, user)
  }

  /** The refresh token was handed out and nothing has spent, logged out or revoked it since. */
  predicate IsSpendable(events: seq<Event>, n: nat, t: Token)
    requires n <= |events|
  {
    n > 0 &&
    var reply := ReplyAt(events, n - 1);
    ((reply.Pair? && reply.refresh == t) || (IsSpendable(events, n - 1, t) && !EndsSession(events[n - 1], reply, t)))
  }

  predicate EndsSession(e: Event, reply: Reply, t: Token) {
    match e.request
    case RefreshWith(token, _, _) => token == t && reply.Pair?
    case Logout(token) => token == t && t.userId > 0 && e.at < t.expiresAt
    case LogoutAll(token) => token.userId == t.userId && reply == Ok
    case ChangePassword(token, _, _) => token.userId == t.userId && reply == Ok
    case Deactivate(user) => user == t.userId && reply == Ok
    case _ => false
  }

  // ---------- the stored accounts and sessions are what the requests tell ----------

  lemma AccountStep(a: Accounts, e: Event, user: UserId)
    requires user in a.users
    ensures var (after, reply) := Perform(a, e.request, e.at);
            && user in after.users && after.users[user].isAdmin == a.users[user].isAdmin
            && after.users[user].password ==
               (if e.request.ChangePassword? && e.request.token.userId == user && reply == Ok then e.request.new_
                else a.users[user].password)
            && after.users[user].isActive ==
               (if e.request == Deactivate(user) && reply == Ok then false
                else if e.request == Activate(user) && reply == Ok then true
                else a.users[user].isActive)
            && (e.request.Register? && e.request.user == user ==> reply != Ok)
  {
  }

  lemma NewAccountStep(a: Accounts, e: Event, user: UserId)
    requires user !in a.users
    ensures var (after, reply) := Perform(a, e.request, e.at);
            && (user in after.users <==> e.request.Register? && e.request.user == user)
            && (user in after.users ==>
                  reply == Ok && after.users[user] == Account(e.request.password, true, e.request.isAdmin, None))
            && (e.request == Activate(user) || e.request == Deactivate(user) ==> reply != Ok)
            && (e.request.ChangePassword? && e.request.token.userId == user ==> reply != Ok)
  {
  }

  lemma {:induction false} AccountFollowsRequests(events: seq<Event>, n: nat, user: UserId)
    requires n <= |events|
    ensures var users := After(events, n).users;
            && (user in users <==> PasswordOf(events, n, user).Some?)
            && (user in users ==>
                  && PasswordOf(events, n, user) == Some(users[user].password)
                  && (IsOpen(events, n, user) <==> users[user].isActive)
                  && (RegisteredAsAdmin(events, n, user) <==> users[user].isAdmin))
            && (user !in users ==> !IsOpen(events, n, user) && !RegisteredAsAdmin(events, n, user))
  {
    if n > 0 {
      AccountFollowsRequests(events, n - 1, user);
      if user in After(events, n - 1).users {
        AccountStep(After(events, n - 1), events[n - 1], user);
      } else {
        NewAccountStep(After(events, n - 1), events[n - 1], user);
      }
    }
  }

  /** What is stored for a token is what the token says. */
  predicate Stored(a: Accounts, t: Token) {
    t in a.sessions ==> t.kind == Refresh && a.sessions[t] == Entry(t.userId, t.expiresAt)
  }

  lemma SessionChanges(a: Accounts, e: Event, t: Token)
    requires Stored(a, t)
    ensures var (after, reply) := Perform(a, e.request, e.at);
            && Stored(after, t)
            && (t in after.sessions <==>
                  (reply.Pair? && reply.refresh == t) || (t in a.sessions && !EndsSession(e, reply, t)))
  {
  }

  lemma {:induction false} SessionsFollowRequests(events: seq<Event>, n: nat, t: Token)
    requires n <= |events|
    ensures t in After(events, n).sessions <==> IsSpendable(events, n, t)
    ensures Stored(After(events, n), t)
  {
    if n > 0 {
      SessionsFollowRequests(events, n - 1, t);
      SessionChanges(After(events, n - 1), events[n - 1], t);
    }
  }

  // ---------- the exact answers ----------

  /** Not expired, of a registered user, and not cut off by a revocation after its issue. */
  predicate Honoured(events: seq<Event>, i: nat, t: Token, now: Instant)
    requires i <= |events|
  {
    && t.userId > 0 && now < t.expiresAt && PasswordOf(events, i, t.userId).Some?
    && !RevokedSince(events, i, t.userId, t.issuedAt)
  }

  predicate AccessWorks(events: seq<Event>, i: nat, t: Token, now: Instant)
    requires i <= |events|
  {
    t.kind == Access && Honoured(events, i, t, now) && IsOpen(events, i, t.userId)
  }

  predicate RefreshWorks(events: seq<Event>, i: nat, t: Token, now: Instant)
    requires i <= |events|
  {
    t.kind == Refresh && Honoured(events, i, t, now) && IsOpen(events, i, t.userId) && IsSpendable(events, i, t)
  }

  /** A quarter of an hour of access and a week of refreshing, for the user, from now. */
  function PairFor(user: UserId, now: Instant, access: int, refresh: int): Reply {
    Pair(Token(Access, user, now, now + 900_000_000, access), Token(Refresh, user, now, now + 604_800_000_000, refresh))
  }

  predicate AnswersExactly(events: seq<Event>, i: nat)
    requires i < |events|
  {
    var reply, now := ReplyAt(events, i), events[i].at;
    match events[i].request
    case Register(user, _, _) => reply == if PasswordOf(events, i, user).None? then Ok else AlreadyExists
    case Login(user, password, access, refresh) =>
      reply == if PasswordOf(events, i, user) != Some(password) then Unauthorized
               else if !IsOpen(events, i, user) then Forbidden
               else PairFor(user, now, access, refresh)
    case RefreshWith(t, access, refresh) =>
      && (reply.Pair? <==> RefreshWorks(events, i, t, now))
      && (reply.Pair? ==> reply == PairFor(t.userId, now, access, refresh))
      && (reply == Forbidden <==> t.kind == Refresh && Honoured(events, i, t, now) && !IsOpen(events, i, t.userId))
      && (reply.Pair? || reply == Forbidden || reply == Unauthorized)
    case Authenticate(t) => reply == if AccessWorks(events, i, t, now) then Ok else Unauthorized
    case Logout(_) => reply == Ok
    case LogoutAll(t) => reply == if AccessWorks(events, i, t, now) then Ok else Unauthorized
    case ChangePassword(t, current, new_) =>
      reply == if !AccessWorks(events, i, t, now) then Unauthorized
               else if PasswordOf(events, i, t.userId) != Some(current) || current == new_ then BadRequest
               else Ok
    case Deactivate(user) => reply == AdminReply(events, i, user)
    case Activate(user) => reply == AdminReply(events, i, user)
  }

  function AdminReply(events: seq<Event>, i: nat, user: UserId): Reply
    requires i <= |events|
  {
    if PasswordOf(events, i, user).None? then NotFound
    else if RegisteredAsAdmin(events, i, user) then Forbidden
    else Ok
  }

  lemma HonouredIff(events: seq<Event>, i: nat, t: Token, now: Instant)
    requires InOrder(events) && i <= |events|
    ensures Honoured(events, i, t, now) <==>
            t.userId > 0 && now < t.expiresAt && t.userId in After(events, i).users &&
            !Invalidated(t, After(events, i).users[t.userId].validAfter)
  {
    AccountFollowsRequests(events, i, t.userId);
    if t.userId in After(events, i).users {
      CutOffMeansRevoked(events, i, t.userId, t.issuedAt);
    }
  }

  lemma AccessWorksIff(events: seq<Event>, i: nat, t: Token, now: Instant)
    requires InOrder(events) && i <= |events|
    ensures AccessWorks(events, i, t, now) <==> AcceptsAccess(After(events, i), t, now)
  {
    HonouredIff(events, i, t, now);
    AccountFollowsRequests(events, i, t.userId);
  }

  lemma RefreshWorksIff(events: seq<Event>, i: nat, t: Token, now: Instant)
    requires InOrder(events) && i <= |events|
    ensures RefreshWorks(events, i, t, now) <==> AcceptsRefresh(After(events, i), t, now)
  {
    HonouredIff(events, i, t, now);
    AccountFollowsRequests(events, i, t.userId);
    SessionsFollowRequests(events, i, t);
  }

  /** In every history each request is answered exactly as the requests and answers before it determine. */
  lemma EveryAnswerIsExact(events: seq<Event>, i: nat)
    requires InOrder(events) && i < |events|
    ensures AnswersExactly(events, i)
  {
    match events[i].request
    case Register(user, _, _) => AccountFollowsRequests(events, i, user);
    case Login(user, _, _, _) => AccountFollowsRequests(events, i, user);
    case RefreshWith(t, _, _) =>
      RefreshWorksIff(events, i, t, events[i].at);
      HonouredIff(events, i, t, events[i].at);
      AccountFollowsRequests(events, i, t.userId);
    case Authenticate(t) => AccessWorksIff(events, i, t, events[i].at);
    case Logout(_) =>
    case LogoutAll(t) => AccessWorksIff(events, i, t, events[i].at);
    case ChangePassword(t, _, _) =>
      AccessWorksIff(events, i, t, events[i].at);
      AccountFollowsRequests(events, i, t.userId);
    case Deactivate(user) => AccountFollowsRequests(events, i, user);
    case Activate(user) => AccountFollowsRequests(events, i, user);
  }
}
