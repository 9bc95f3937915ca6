/** What interleaved rotations and revocations answer and do, over whole runs. */
module Revocations {
  import opened Bookings
  import opened Sessions
  import Progress

  // ---------- revoking all sessions of a user ----------

  function SessionsOf(s: State, user: UserId): set<SessionId> {
    set id | id in s.rows && s.rows[id].userId == user
  }

  /** With the step from a to g the statement of a revoke-all starts. */
  ghost predicate Starts(a: State, g: State, tx: TxId, user: UserId) {
    && tx in a.txs && a.txs[tx] == Tx(RevokeAllCall(user), Start)
    && exists order :: VisitOrder(a, user, order) && g == SetPc(a, tx, Deleting(order, {}))
  }

  /**
   With the step from c to d a revoke-all commits: those of the sessions found that are still there go, their
   tokens are retired, no other session changes, and the answer is their number.
   */
  ghost predicate Commits(c: State, d: State, tx: TxId, found: set<SessionId>, count: nat) {
    && tx in d.txs && d.txs[tx].pc == Done(RevokedAll(count))
    && count == |found * c.rows.Keys|
    && d.rows == (map id | id in c.rows && id !in found :: c.rows[id])
    && d.retired == c.retired + set id | id in c.rows && id in found :: c.rows[id].token
  }

  /** On the way from g to b the revoke-all committed, with this answer. */
  ghost predicate HasCommitted(g: State, b: State, tx: TxId, found: set<SessionId>, count: nat) {
    exists c, d :: Leads(g, c) && Commits(c, d, tx, found, count) && Leads(d, b)
  }

  /** The rows found are still to be visited, marked, or gone; marked ones are found. */
  ghost predicate RowsFine(s: State, pc: Pc, user: UserId, found: set<SessionId>) {
    && found <= s.used && (forall id :: id in found && id in s.rows ==> s.rows[id].userId == user)
    && (pc.Deleting? ==>
          && pc.marked <= found && (forall id :: id in pc.todo ==> id in found)
          && (forall id :: id in found ==> id in pc.todo || id in pc.marked || id !in s.rows))
    && (pc.Done? ==> forall id :: id in found ==> id !in s.rows)
  }

  /** A revoke-all in flight since g, or over: if it has its answer, it has committed. */
  ghost predicate RevokingFine(g: State, s: State, tx: TxId, user: UserId, found: set<SessionId>) {
    && tx in s.txs && s.txs[tx].call == RevokeAllCall(user) && RowsFine(s, s.txs[tx].pc, user, found)
    && (s.txs[tx].pc.Deleting? || s.txs[tx].pc.Done? || s.txs[tx].pc.RolledBack?)
    && (s.txs[tx].pc.Done? ==>
          s.txs[tx].pc.answer.RevokedAll? && HasCommitted(g, s, tx, found, s.txs[tx].pc.answer.count))
  }

  lemma StartsFine(a: State, g: State, tx: TxId, user: UserId)
    requires Inv(a) && Starts(a, g, tx, user)
    ensures Inv(g) && Leads(a, g) && RevokingFine(g, g, tx, user, SessionsOf(a, user))
    ensures g.rows == a.rows && g.retired == a.retired && g.issued == a.issued
  {
    var order :| VisitOrder(a, user, order) && g == SetPc(a, tx, Deleting(order, {}));
    var step := Step(tx, 0, 0, order);
    assert Next(a, step) == Some(g);
    NextKeeps(a, step);
    LeadsNowhere(a);
    LeadsOn(a, a, step);
  }

  /** The commit takes exactly the rows found that are still there. */
  lemma DeletingCommits(s: State, tx: TxId, user: UserId, found: set<SessionId>, order: seq<SessionId>)
    requires Inv(s) && tx in s.txs && s.txs[tx].pc.Deleting? && |s.txs[tx].pc.todo| == 0
    requires RowsFine(s, s.txs[tx].pc, user, found) && StepRevokeAll(s, tx, user, order).Some?
    ensures Commits(s, StepRevokeAll(s, tx, user, order).value, tx, found, |s.txs[tx].pc.marked|)
  {
    var marked := s.txs[tx].pc.marked;
    assert TxFine(s, tx);
    forall id
      ensures id in marked <==> id in found && id in s.rows
    {
      assert id in marked ==> id in RowsHeld(s.txs[tx]);
    }
    assert marked == found * s.rows.Keys;
    MarkedGo(s.rows, marked, found);
  }

  lemma MarkedGo(rows: map<SessionId, Session>, marked: set<SessionId>, found: set<SessionId>)
    requires marked == found * rows.Keys
    ensures Tokens(rows, marked) == set id | id in rows && id in found :: rows[id].token
    ensures Deleted(rows, marked) == map id | id in rows && id !in found :: rows[id]
  {
  }

  lemma OwnStepRevokes(g: State, s: State, tx: TxId, user: UserId, found: set<SessionId>, a: Action)
    requires Inv(s) && Leads(g, s) && RevokingFine(g, s, tx, user, found)
    requires a.Step? && a.tx == tx && Next(s, a).Some?
    ensures RevokingFine(g, Next(s, a).value, tx, user, found)
  {
    var after := Next(s, a).value;
    var todo, marked := s.txs[tx].pc.todo, s.txs[tx].pc.marked;
    assert TxFine(s, tx);
    if |todo| == 0 {
      DeletingCommits(s, tx, user, found, a.order);
      LeadsNowhere(after);
      assert Leads(g, s) && Commits(s, after, tx, found, |marked|) && Leads(after, after);
    } else {
      assert forall id :: id in todo <==> id == todo[0] || id in todo[1..];
    }
  }

  /** Rows keep their owner, ids do not come back, and a row that is gone stays gone. */
  ghost predicate RowsFollow(s: State, after: State) {
    && s.used <= after.used
    && (forall id :: id in after.rows ==> (id in s.rows && after.rows[id].userId == s.rows[id].userId) || id !in s.used)
  }

  lemma FollowingRowsFine(s: State, after: State, pc: Pc, user: UserId, found: set<SessionId>)
    requires RowsFine(s, pc, user, found) && RowsFollow(s, after)
    ensures RowsFine(after, pc, user, found)
  {
  }

  lemma NextRowsFollow(s: State, a: Action)
    requires Inv(s) && Next(s, a).Some?
    ensures RowsFollow(s, Next(s, a).value)
  {
    if a.Step? {
      assert TxFine(s, a.tx);
    }
  }

  lemma OtherStepRevokes(g: State, s: State, tx: TxId, user: UserId, found: set<SessionId>, a: Action)
    requires Inv(s) && Leads(g, s) && RevokingFine(g, s, tx, user, found)
    requires Next(s, a).Some? && !(a.Step? && a.tx == tx)
    ensures RevokingFine(g, Next(s, a).value, tx, user, found)
  {
    var after := Next(s, a).value;
    NextRowsFollow(s, a);
    OtherStays(s, tx, a);
    FollowingRowsFine(s, after, s.txs[tx].pc, user, found);
    if s.txs[tx].pc.Done? {
      var c, d :| Leads(g, c) && Commits(c, d, tx, found, s.txs[tx].pc.answer.count) && Leads(d, s);
      LeadsOn(d, s, a);
      assert HasCommitted(g, after, tx, found, s.txs[tx].pc.answer.count);
    }
  }

  lemma OtherStays(s: State, tx: TxId, a: Action)
    requires tx in s.txs && Next(s, a).Some? && !(a.Step? && a.tx == tx)
    ensures var after := Next(s, a).value;
            && tx in after.txs && after.txs[tx].call == s.txs[tx].call
            && (after.txs[tx] == s.txs[tx] || (!s.txs[tx].Over() && after.txs[tx].pc.RolledBack?))
  {
  }

  lemma {:induction false} RunRevokes(g: State, actions: seq<Action>, tx: TxId, user: UserId, found: set<SessionId>)
    requires Inv(g) && Run(g, actions).Some? && RevokingFine(g, g, tx, user, found)
    ensures RevokingFine(g, Run(g, actions).value, tx, user, found)
  {
    if |actions| > 0 {
      var prefix, last := actions[..|actions| - 1], actions[|actions| - 1];
      var s := Run(g, prefix).value;
      RunRevokes(g, prefix, tx, user, found);
      RunKeeps(g, prefix);
      assert Leads(g, s);
      if last.Step? && last.tx == tx {
        OwnStepRevokes(g, s, tx, user, found, last);
      } else {
        OtherStepRevokes(g, s, tx, user, found, last);
      }
    }
  }

  // ---------- a token stays where it is until it is retired ----------

  ghost predicate TokenStays(s: State, id: SessionId, token: Token) {
    token in s.retired || (id in s.rows && s.rows[id].token == token)
  }

  lemma NextTokenStays(s: State, a: Action, id: SessionId, token: Token)
    requires Inv(s) && Next(s, a).Some? && TokenStays(s, id, token)
    ensures TokenStays(Next(s, a).value, id, token)
  {
    if a.Step? {
      assert TxFine(s, a.tx);
      AdvanceProgresses(s, a.tx, a.id, a.token, a.order);
    }
  }

  lemma {:induction false} RunTokenStays(s: State, actions: seq<Action>, id: SessionId, token: Token)
    requires Inv(s) && Run(s, actions).Some? && TokenStays(s, id, token)
    ensures TokenStays(Run(s, actions).value, id, token)
  {
    if |actions| > 0 {
      var prefix := actions[..|actions| - 1];
      RunTokenStays(s, prefix, id, token);
      RunKeeps(s, prefix);
      NextTokenStays(Run(s, prefix).value, actions[|actions| - 1], id, token);
    }
  }

  /**
   A revoke-all whose statement starts in a and that has got its answer in b: none of the sessions that the user
   had in a is left, whatever was rotated or revoked meanwhile, and the tokens they held are retired. Its commit
   removed exactly those that were still there, left every other session alone, and the answer is their number.
   */
  lemma RevokeAllEmpties(a: State, g: State, b: State, tx: TxId, user: UserId)
    requires Reachable(a) && Starts(a, g, tx, user) && Leads(g, b)
    requires tx in b.txs && b.txs[tx].pc.Done?
    ensures b.txs[tx].pc.answer.RevokedAll?
    ensures HasCommitted(g, b, tx, SessionsOf(a, user), b.txs[tx].pc.answer.count)
    ensures forall id :: id in a.rows && a.rows[id].userId == user ==>
              id !in b.rows && a.rows[id].token in b.retired && !Held(b.rows, a.rows[id].token)
  {
    ReachableInv(a);
    StartsFine(a, g, tx, user);
    var found := SessionsOf(a, user);
    var actions :| Run(g, actions) == Some(b);
    RunRevokes(g, actions, tx, user, found);
    RunKeeps(g, actions);
    forall id | id in found
      ensures a.rows[id].token in b.retired
    {
      RunTokenStays(g, actions, id, a.rows[id].token);
    }
  }

  // ---------- what rotations and single revocations answer ----------

  /** The user has a session with this token. */
  ghost predicate HasSession(s: State, token: Token, user: UserId) {
    exists id :: id in s.rows && s.rows[id].token == token && s.rows[id].userId == user
  }

  ghost predicate HasLiveSession(s: State, token: Token, user: UserId) {
    exists id :: id in s.rows && s.rows[id].token == token && s.rows[id].userId == user &&
      s.clock < s.rows[id].expiresAt
  }

  /** What the call asks for is there. */
  ghost predicate Grantable(s: State, call: Call) {
    match call
    case RotateCall(token, user) => HasLiveSession(s, token, user)
    case RevokeCall(token, user) => HasSession(s, token, user)
    case _ => true
  }

  predicate Asks(call: Call) {
    call.RotateCall? || call.RevokeCall?
  }

  predicate Granted(answer: Answer) {
    answer.Rotated? || answer == Revoked(true)
  }

  /** At some moment at which the call was in flight, what it asks for was there, or was not. */
  ghost predicate WasGrantable(s: State, tx: TxId, call: Call, yes: bool) {
    exists c :: Reachable(c) && Leads(c, s) && InFlight(c, tx, call) && (Grantable(c, call) <==> yes)
  }

  ghost predicate InFlight(s: State, tx: TxId, call: Call) {
    tx in s.txs && s.txs[tx].call == call && !s.txs[tx].Over()
  }

  ghost predicate Decided(s: State, tx: TxId) {
    tx in s.txs && Asks(s.txs[tx].call) ==>
      && (s.txs[tx].pc.RotateAllowed? || s.txs[tx].pc.RevokeLocked? ==> WasGrantable(s, tx, s.txs[tx].call, true))
      && (s.txs[tx].pc.Done? ==>
            && (s.txs[tx].call.RotateCall? ==> s.txs[tx].pc.answer.Rotated? || s.txs[tx].pc.answer.Invalid?)
            && (s.txs[tx].call.RevokeCall? ==> s.txs[tx].pc.answer.Revoked?)
            && WasGrantable(s, tx, s.txs[tx].call, Granted(s.txs[tx].pc.answer)))
  }

  lemma StaysGrantable(s: State, a: Action, tx: TxId, call: Call, yes: bool)
    requires WasGrantable(s, tx, call, yes) && Next(s, a).Some?
    ensures WasGrantable(Next(s, a).value, tx, call, yes)
  {
    var c :| Reachable(c) && Leads(c, s) && InFlight(c, tx, call) && (Grantable(c, call) <==> yes);
    LeadsOn(c, s, a);
  }

  lemma GrantableNow(s: State, a: Action, tx: TxId, call: Call)
    requires Reachable(s) && InFlight(s, tx, call) && Next(s, a).Some?
    ensures WasGrantable(Next(s, a).value, tx, call, Grantable(s, call))
  {
    LeadsNowhere(s);
    LeadsOn(s, s, a);
  }

  /** A rotation that decides looks at the one session that holds its token. */
  lemma RotationDecides(s: State, tx: TxId, token: Token, user: UserId)
    requires Inv(s) && tx in s.txs && s.txs[tx].call == RotateCall(token, user) && s.txs[tx].pc.RotateLocked?
    ensures var row := s.txs[tx].pc.row;
            HasLiveSession(s, token, user) <==> row.userId == user && s.clock < row.expiresAt
  {
    assert TxFine(s, tx);
  }

  lemma RotationStepDecided(s: State, tx: TxId, a: Action)
    requires Inv(s) && Reachable(s) && Decided(s, tx) && tx in s.txs && s.txs[tx].call.RotateCall?
    requires a.Step? && a.tx == tx && Next(s, a).Some?
    ensures Decided(Next(s, a).value, tx)
  {
    var call := s.txs[tx].call;
    GrantableNow(s, a, tx, call);
    if s.txs[tx].pc.RotateLocked? {
      RotationDecides(s, tx, call.token, call.user);
    }
    if s.txs[tx].pc.RotateAllowed? {
      StaysGrantable(s, a, tx, call, true);
    }
  }

  lemma RevocationStepDecided(s: State, tx: TxId, a: Action)
    requires Inv(s) && Reachable(s) && Decided(s, tx) && tx in s.txs && s.txs[tx].call.RevokeCall?
    requires a.Step? && a.tx == tx && Next(s, a).Some?
    ensures Decided(Next(s, a).value, tx)
  {
    var call := s.txs[tx].call;
    GrantableNow(s, a, tx, call);
    if s.txs[tx].pc.RevokeLocked? {
      StaysGrantable(s, a, tx, call, true);
    }
  }

  lemma NextDecided(s: State, tx: TxId, a: Action)
    requires Inv(s) && Reachable(s) && Decided(s, tx) && Next(s, a).Some?
    ensures Decided(Next(s, a).value, tx)
  {
    var after := Next(s, a).value;
    if tx in s.txs && Asks(s.txs[tx].call) {
      if a.Step? && a.tx == tx {
        if s.txs[tx].call.RotateCall? {
          RotationStepDecided(s, tx, a);
        } else {
          RevocationStepDecided(s, tx, a);
        }
      } else {
        OtherStays(s, tx, a);
        var pc := s.txs[tx].pc;
        if after.txs[tx] == s.txs[tx] && (pc.RotateAllowed? || pc.RevokeLocked? || pc.Done?) {
          StaysGrantable(s, a, tx, s.txs[tx].call, pc.Done? ==> Granted(pc.answer));
        }
      }
    }
  }

  lemma {:induction false} RunDecided(clock: Instant, actions: seq<Action>, tx: TxId)
    requires Run(Init(clock), actions).Some?
    ensures Decided(Run(Init(clock), actions).value, tx)
  {
    if |actions| > 0 {
      var prefix := actions[..|actions| - 1];
      var s := Run(Init(clock), prefix).value;
      RunDecided(clock, prefix, tx);
      assert Leads(Init(clock), s);
      ReachableInv(s);
      NextDecided(s, tx, actions[|actions| - 1]);
    }
  }

  /**
   A rotation succeeds exactly if its user had an unexpired session with its token at some moment of its flight,
   and a revocation hits exactly if its user had a session with its token.
   */
  lemma AnswersAreRight(b: State, tx: TxId)
    requires Reachable(b) && tx in b.txs && Asks(b.txs[tx].call) && b.txs[tx].pc.Done?
    ensures WasGrantable(b, tx, b.txs[tx].call, Granted(b.txs[tx].pc.answer))
    ensures b.txs[tx].call.RotateCall? ==> b.txs[tx].pc.answer.Rotated? || b.txs[tx].pc.answer.Invalid?
    ensures b.txs[tx].call.RevokeCall? ==> b.txs[tx].pc.answer.Revoked?
  {
    var clock :| Leads(Init(clock), b);
    var actions :| Run(Init(clock), actions) == Some(b);
    RunDecided(clock, actions, tx);
  }

  /** A revocation that hit has retired the token: no session holds it from then on. */
  lemma RevokedMeansGone(b: State, tx: TxId)
    requires Reachable(b) && tx in b.txs && b.txs[tx].call.RevokeCall? && b.txs[tx].pc == Done(Revoked(true))
    ensures b.txs[tx].call.token in b.retired && !Held(b.rows, b.txs[tx].call.token)
  {
    ReachableInv(b);
    assert TxFine(b, tx);
  }

  /** A rotation commits: the session that held the spent token gets the new one and a week, and nothing else moves. */
  lemma RotationCommits(s: State, tx: TxId, id: SessionId, token: Token)
    requires Reachable(s) && tx in s.txs && s.txs[tx].call.RotateCall? && s.txs[tx].pc.RotateAllowed?
    requires Advance(s, tx, id, token, []).Some?
    ensures var after, call := Advance(s, tx, id, token, []).value, s.txs[tx].call;
            && tx in after.txs && after.txs[tx].pc == Done(Rotated(token)) && token !in s.issued
            && exists k :: k in s.rows && s.rows[k].token == call.token && s.rows[k].userId == call.user &&
                 after.rows == s.rows[k := Session(call.user, token, s.clock + 604_800_000_000)]
  {
    ReachableInv(s);
    assert TxFine(s, tx);
    assert s.txs[tx].pc.id in s.rows;
  }

  /** A login adds one session with a new token for a week, and nothing else moves. */
  lemma OpeningCommits(s: State, tx: TxId, id: SessionId, token: Token)
    requires Reachable(s) && tx in s.txs && s.txs[tx].call.CreateCall? && Advance(s, tx, id, token, []).Some?
    ensures var after, call := Advance(s, tx, id, token, []).value, s.txs[tx].call;
            && tx in after.txs && after.txs[tx].pc == Done(Opened(token)) && token !in s.issued && id !in s.rows
            && after.rows == s.rows[id := Session(call.user, token, s.clock + 604_800_000_000)]
  {
    ReachableInv(s);
  }

  // ---------- only locks hold a transaction up ----------

  /** The row that the transaction's next statement needs is locked. */
  ghost predicate Waits(s: State, tx: TxId)
    requires tx in s.txs
  {
    match s.txs[tx].pc
    case Start =>
      exists id :: id in s.rows && id in s.lock &&
        ((s.txs[tx].call.RotateCall? && s.rows[id].token == s.txs[tx].call.token) ||
         (s.txs[tx].call.RevokeCall? && s.rows[id].token == s.txs[tx].call.token &&
          s.rows[id].userId == s.txs[tx].call.user))
    case Deleting(todo, _) => |todo| > 0 && todo[0] in s.lock
    case _ => false
  }

  lemma NotWaitingCanStep(s: State, tx: TxId)
    requires Reachable(s) && tx in s.txs && !s.txs[tx].Over() && !Waits(s, tx)
    ensures exists id, token, order :: Advance(s, tx, id, token, order).Some?
  {
    ReachableInv(s);
    assert TxFine(s, tx);
    var token := Progress.FreshKey(s.issued);
    if s.txs[tx].pc.Start? {
      match s.txs[tx].call
      case CreateCall(_) =>
        var id := Progress.FreshKey(s.used);
        assert Advance(s, tx, id, token, []).Some?;
      case RotateCall(spent, _) =>
        if id :| id in s.rows && s.rows[id].token == spent {
          assert Advance(s, tx, id, token, []).Some?;
        } else {
          assert Advance(s, tx, 0, token, []).Some?;
        }
      case RevokeCall(gone, user) =>
        if id :| id in s.rows && s.rows[id].token == gone && s.rows[id].userId == user {
          assert Advance(s, tx, id, token, []).Some?;
        } else {
          assert Advance(s, tx, 0, token, []).Some?;
        }
      case RevokeAllCall(user) =>
        var order := Progress.Enumerate(SessionsOf(s, user));
        assert VisitOrder(s, user, order);
        assert Advance(s, tx, 0, token, order).Some?;
    } else {
      LockedCanStep(s, tx, token);
    }
  }

  lemma LockedCanStep(s: State, tx: TxId, token: Token)
    requires Inv(s) && tx in s.txs && !s.txs[tx].Over() && !s.txs[tx].pc.Start? && !Waits(s, tx) && token !in s.issued
    requires TxFine(s, tx) && (s.txs[tx].pc.Deleting? ==> s.txs[tx].call.RevokeAllCall?)
    ensures exists id, token, order :: Advance(s, tx, id, token, order).Some?
  {
    assert Advance(s, tx, 0, token, []).Some?;
  }
}
