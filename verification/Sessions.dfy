/**
 Refresh-token sessions under concurrency: rotation, revocation and revocation of all sessions of a user as
 interleaved transactions on the session rows. A row is found by its token; tokens stand for their hashes.
 */
module Sessions {
  import opened Bookings

  type TxId = int
  type SessionId = int
  type Token = int

  const REFRESH_LIFETIME := 7 * 24 * 60 * 60 * 1_000_000

  datatype Session = Session(userId: UserId, token: Token, expiresAt: Instant)

  datatype Call =
    | CreateCall(user: UserId)
    | RotateCall(token: Token, user: UserId)
    | RevokeCall(token: Token, user: UserId)
    | RevokeAllCall(user: UserId)

  datatype Answer =
    | Opened(token: Token)
    | Rotated(token: Token)
    | Invalid
    | Revoked(hit: bool)
    | RevokedAll(count: nat)

  datatype Pc =
    | Start
    | RotateLocked(id: SessionId, row: Session)
    | RotateAllowed(id: SessionId, row: Session)
    | RevokeLocked(id: SessionId, row: Session)
    | Deleting(todo: seq<SessionId>, marked: set<SessionId>)
    | Done(answer: Answer)
    | RolledBack

  datatype Tx = Tx(call: Call, pc: Pc) {
    predicate Over() {
      pc.Done? || pc.RolledBack?
    }
  }

  /** A successful rotation: who, which token was spent, which one replaced it. */
  datatype Redemption = Redemption(tx: TxId, spent: Token, minted: Token)

  /**
   `used` remembers all row ids ever generated, `issued` and `retired` all tokens ever handed out and those rotated
   away or deleted.
   */
  datatype State = State(
    rows: map<SessionId, Session>,
    clock: Instant,
    lock: map<SessionId, TxId>,
    txs: map<TxId, Tx>,
    used: set<SessionId>,
    issued: set<Token>,
    retired: set<Token>,
    redemptions: seq<Redemption>)

  /** `id` is the row a statement finds or inserts, `token` a newly minted token, `order` a visiting order. */
  datatype Action =
    | Tick(elapsed: nat)
    | Begin(tx: TxId, call: Call)
    | Step(tx: TxId, id: SessionId, token: Token, order: seq<SessionId>)
    | Fail(tx: TxId)

  function Init(clock: Instant): State {
    State(map[], clock, map[], map[], {}, {}, {}, [])
  }

  function SetPc(s: State, tx: TxId, pc: Pc): State
    requires tx in s.txs
  {
    s.(txs := s.txs[tx := s.txs[tx].(pc := pc)])
  }

  function Take(s: State, tx: TxId, id: SessionId, pc: Pc): State
    requires tx in s.txs
  {
    SetPc(s.(lock := s.lock[id := tx]), tx, pc)
  }

  function Leave(s: State, tx: TxId, pc: Pc): State
    requires tx in s.txs
  {
    SetPc(s.(lock := map id | id in s.lock && s.lock[id] != tx :: s.lock[id]), tx, pc)
  }

  ghost predicate Held(rows: map<SessionId, Session>, token: Token) {
    exists id :: id in rows && rows[id].token == token
  }

  function Tokens(rows: map<SessionId, Session>, ids: set<SessionId>): set<Token> {
    set id | id in rows && id in ids :: rows[id].token
  }

  function Deleted(rows: map<SessionId, Session>, ids: set<SessionId>): map<SessionId, Session> {
    map id | id in rows && id !in ids :: rows[id]
  }

  /** DELETE and COMMIT. */
  function Delete(s: State, tx: TxId, ids: set<SessionId>, answer: Answer): State
    requires tx in s.txs
  {
    Leave(s, tx, Done(answer)).(rows := Deleted(s.rows, ids), retired := s.retired + Tokens(s.rows, ids))
  }

  function StepCreate(s: State, tx: TxId, user: UserId, id: SessionId, token: Token): Option<State>
    requires tx in s.txs
  {
    if !s.txs[tx].pc.Start? || id in s.used || token in s.issued then None
    else
      Some(Leave(s, tx, Done(Opened(token))).(
             rows := s.rows[id := Session(user, token, s.clock + REFRESH_LIFETIME)],
             used := s.used + {id},
             issued := s.issued + {token}))
  }

  ghost function StepRotate(s: State, tx: TxId, spent: Token, user: UserId, id: SessionId, token: Token): Option<State>
    requires tx in s.txs
  {
    match s.txs[tx].pc
    case Start =>
      if !Held(s.rows, spent) then Some(Leave(s, tx, Done(Invalid)))
      else if id !in s.rows || s.rows[id].token != spent || id in s.lock then None
      else Some(Take(s, tx, id, RotateLocked(id, s.rows[id])))
    case RotateLocked(found, row) =>
      if row.userId != user || row.expiresAt <= s.clock then Some(Leave(s, tx, Done(Invalid)))
      else Some(SetPc(s, tx, RotateAllowed(found, row)))
    case RotateAllowed(found, row) =>
      if token in s.issued then None
      else
        Some(Leave(s, tx, Done(Rotated(token))).(
               rows := s.rows[found := Session(row.userId, token, s.clock + REFRESH_LIFETIME)],
               issued := s.issued + {token},
               retired := s.retired + {row.token},
               redemptions := s.redemptions + [Redemption(tx, row.token, token)]))
    case _ => None
  }

  ghost function StepRevoke(s: State, tx: TxId, token: Token, user: UserId, id: SessionId): Option<State>
    requires tx in s.txs
  {
    match s.txs[tx].pc
    case Start =>
      if !exists k :: k in s.rows && s.rows[k].token == token && s.rows[k].userId == user then
        Some(Leave(s, tx, Done(Revoked(false))))
      else if id !in s.rows || s.rows[id].token != token || s.rows[id].userId != user || id in s.lock then None
      else Some(Take(s, tx, id, RevokeLocked(id, s.rows[id])))
    case RevokeLocked(found, _) => Some(Delete(s, tx, {found}, Revoked(true)))
    case _ => None
  }

  ghost predicate VisitOrder(s: State, user: UserId, order: seq<SessionId>) {
    && (forall id :: id in order <==> id in s.rows && s.rows[id].userId == user)
    && (forall i, j :: 0 <= i < j < |order| ==> order[i] != order[j])
  }

  ghost function StepRevokeAll(s: State, tx: TxId, user: UserId, order: seq<SessionId>): Option<State>
    requires tx in s.txs
  {
    match s.txs[tx].pc
    case Start => if VisitOrder(s, user, order) then Some(SetPc(s, tx, Deleting(order, {}))) else None
    case Deleting(todo, marked) =>
      if |todo| == 0 then Some(Delete(s, tx, marked, RevokedAll(|marked|)))
      else if todo[0] in s.lock then None
      else if todo[0] in s.rows && s.rows[todo[0]].userId == user then
        Some(Take(s, tx, todo[0], Deleting(todo[1..], marked + {todo[0]})))
      else Some(SetPc(s, tx, Deleting(todo[1..], marked)))
    case _ => None
  }

  ghost function Advance(s: State, tx: TxId, id: SessionId, token: Token, order: seq<SessionId>): Option<State>
    requires tx in s.txs
  {
    match s.txs[tx].call
    case CreateCall(user) => StepCreate(s, tx, user, id, token)
    case RotateCall(spent, user) => StepRotate(s, tx, spent, user, id, token)
    case RevokeCall(gone, user) => StepRevoke(s, tx, gone, user, id)
    case RevokeAllCall(user) => StepRevokeAll(s, tx, user, order)
  }

  ghost function Next(s: State, a: Action): Option<State> {
    match a
    case Tick(elapsed) => Some(s.(clock := s.clock + elapsed))
    case Begin(tx, call) => if tx in s.txs then None else Some(s.(txs := s.txs[tx := Tx(call, Start)]))
    case Step(tx, id, token, order) => if tx in s.txs then Advance(s, tx, id, token, order) else None
    case Fail(tx) => if tx in s.txs && !s.txs[tx].Over() then Some(Leave(s, tx, RolledBack)) else None
  }

  ghost function Run(s: State, actions: seq<Action>): Option<State> {
    if |actions| == 0 then Some(s)
    else
      var before := Run(s, actions[..|actions| - 1]);
      if before.None? then None else Next(before.value, actions[|actions| - 1])
  }

  ghost predicate Leads(a: State, b: State) {
    exists actions :: Run(a, actions) == Some(b)
  }

  ghost predicate Reachable(s: State) {
    exists clock :: Leads(Init(clock), s)
  }

  lemma {:induction false} RunAppend(a: State, first: seq<Action>, second: seq<Action>)
    requires Run(a, first).Some?
    ensures Run(a, first + second) == Run(Run(a, first).value, second)
  {
    if |second| == 0 {
      assert first + second == first;
    } else {
      var n := |second| - 1;
      RunAppend(a, first, second[..n]);
      assert (first + second)[..|first + second| - 1] == first + second[..n];
    }
  }

  lemma LeadsTransitive(a: State, b: State, c: State)
    requires Leads(a, b) && Leads(b, c)
    ensures Leads(a, c)
  {
    var first :| Run(a, first) == Some(b);
    var second :| Run(b, second) == Some(c);
    RunAppend(a, first, second);
    assert Run(a, first + second) == Some(c);
  }

  /** One more step of a run. */
  lemma LeadsOn(a: State, b: State, action: Action)
    requires Leads(a, b) && Next(b, action).Some?
    ensures Leads(a, Next(b, action).value)
  {
    assert [action][..0] == [];
    assert Run(b, [action][..0]) == Some(b);
    assert Run(b, [action]) == Next(b, action);
    LeadsTransitive(a, b, Next(b, action).value);
  }

  lemma LeadsNowhere(a: State)
    ensures Leads(a, a)
  {
    assert Run(a, []) == Some(a);
  }

  // ---------- the invariant ----------

  /** The rows a transaction has locked, with the content it saw. */
  function RowsHeld(t: Tx): set<SessionId> {
    match t.pc
    case RotateLocked(id, _) => {id}
    case RotateAllowed(id, _) => {id}
    case RevokeLocked(id, _) => {id}
    case Deleting(_, marked) => marked
    case _ => {}
  }

  ghost predicate RowFits(rows: map<SessionId, Session>, id: SessionId, row: Session, token: Token) {
    id in rows && rows[id] == row && row.token == token
  }

  ghost predicate TxFine(s: State, tx: TxId) {
    tx in s.txs ==>
      && (forall id :: id in RowsHeld(s.txs[tx]) ==> id in s.rows && id in s.lock && s.lock[id] == tx)
      && match s.txs[tx].pc
         case RotateLocked(id, row) => s.txs[tx].call.RotateCall? && RowFits(s.rows, id, row, s.txs[tx].call.token)
         case RotateAllowed(id, row) =>
           && s.txs[tx].call.RotateCall? && RowFits(s.rows, id, row, s.txs[tx].call.token)
           && row.userId == s.txs[tx].call.user
         case RevokeLocked(id, row) => s.txs[tx].call.RevokeCall? && RowFits(s.rows, id, row, s.txs[tx].call.token)
         case Deleting(_, _) => s.txs[tx].call.RevokeAllCall?
         case Done(answer) =>
           && (answer.Rotated? ==> exists i :: 0 <= i < |s.redemptions| && s.redemptions[i].tx == tx)
           && (answer == Revoked(true) ==> s.txs[tx].call.RevokeCall? && s.txs[tx].call.token in s.retired)
         case _ => true
  }

  /** Every token ever issued is held by exactly one session, or retired, never both. */
  ghost predicate TokensFine(s: State) {
    && (forall a, b :: a in s.rows && b in s.rows && s.rows[a].token == s.rows[b].token ==> a == b)
    && (forall id :: id in s.rows ==> s.rows[id].token in s.issued && s.rows[id].token !in s.retired)
    && (forall t :: t in s.issued ==> t in s.retired || Held(s.rows, t))
    && s.retired <= s.issued
  }

  /** Row ids are not generated twice. */
  ghost predicate IdsFine(s: State) {
    s.rows.Keys <= s.used
  }

  /** Every rotation spent a different token, on behalf of a transaction that asked for it. */
  ghost predicate RedemptionsFine(s: State) {
    && (forall i :: 0 <= i < |s.redemptions| ==>
          var r := s.redemptions[i];
          && r.spent in s.retired && r.minted in s.issued && r.spent != r.minted
          && r.tx in s.txs && s.txs[r.tx].call.RotateCall? && s.txs[r.tx].call.token == r.spent
          && s.txs[r.tx].pc == Done(Rotated(r.minted)))
    && (forall i, j :: 0 <= i < j < |s.redemptions| ==> s.redemptions[i].spent != s.redemptions[j].spent)
  }

  ghost predicate Inv(s: State) {
    (forall tx {:trigger TxFine(s, tx)} :: TxFine(s, tx)) && TokensFine(s) && IdsFine(s) && RedemptionsFine(s)
  }

  /** What one step of tx does to the rows, seen by everybody else. */
  ghost predicate Steps(s: State, after: State, tx: TxId) {
    && tx in s.txs && tx in after.txs && !s.txs[tx].Over() && after.txs == s.txs[tx := after.txs[tx]]
    && after.txs[tx].call == s.txs[tx].call
    && s.redemptions <= after.redemptions && s.retired <= after.retired && s.used <= after.used
    && (forall id :: id in s.rows && id !in RowsHeld(s.txs[tx]) ==> id in after.rows && after.rows[id] == s.rows[id])
    && (forall id :: id in s.lock && s.lock[id] != tx ==> id in after.lock && after.lock[id] == s.lock[id])
  }

  lemma OthersStayFine(s: State, after: State, tx: TxId, other: TxId)
    requires TxFine(s, tx) && TxFine(s, other) && tx != other && Steps(s, after, tx)
    ensures TxFine(after, other)
  {
    if other in s.txs {
      forall id | id in RowsHeld(s.txs[other])
        ensures id !in RowsHeld(s.txs[tx])
      {
        assert s.lock[id] == other;
      }
      if s.txs[other].pc.Done? && s.txs[other].pc.answer.Rotated? {
        var i :| 0 <= i < |s.redemptions| && s.redemptions[i].tx == other;
        assert after.redemptions[i].tx == other;
      }
    }
  }

  /** Steps that leave rows and tokens alone. */
  lemma QuietStepKeeps(s: State, after: State, tx: TxId)
    requires Inv(s) && Steps(s, after, tx) && TxFine(after, tx)
    requires after.rows == s.rows && after.issued == s.issued && after.retired == s.retired
    requires after.redemptions == s.redemptions
    ensures Inv(after)
  {
    assert TxFine(s, tx);
    forall other
      ensures TxFine(after, other)
    {
      assert TxFine(s, other);
      if other != tx {
        OthersStayFine(s, after, tx, other);
      }
    }
  }

  lemma CreateKeeps(s: State, tx: TxId, user: UserId, id: SessionId, token: Token)
    requires Inv(s) && tx in s.txs && StepCreate(s, tx, user, id, token).Some?
    ensures Inv(StepCreate(s, tx, user, id, token).value) && Steps(s, StepCreate(s, tx, user, id, token).value, tx)
  {
    var after := StepCreate(s, tx, user, id, token).value;
    assert TxFine(s, tx);
    forall other
      ensures TxFine(after, other)
    {
      assert TxFine(s, other);
      if other != tx {
        OthersStayFine(s, after, tx, other);
      }
    }
    NewTokenFine(s, after, id, token);
  }

  /** A newly minted token in one row; whatever that row held before is retired. */
  lemma NewTokenFine(s: State, after: State, id: SessionId, token: Token)
    requires TokensFine(s) && token !in s.issued
    requires id in after.rows && after.rows == s.rows[id := after.rows[id]] && after.rows[id].token == token
    requires after.issued == s.issued + {token}
    requires after.retired == s.retired + if id in s.rows then {s.rows[id].token} else {}
    ensures TokensFine(after)
  {
    forall t | t in after.issued
      ensures t in after.retired || Held(after.rows, t)
    {
      if t == token {
        assert after.rows[id].token == t;
      } else if t !in after.retired {
        var k :| k in s.rows && s.rows[k].token == t;
        assert after.rows[k].token == t;
      }
    }
  }

  lemma RotateCommitKeeps(s: State, tx: TxId, spent: Token, user: UserId, id: SessionId, token: Token)
    requires Inv(s) && tx in s.txs && s.txs[tx].call == RotateCall(spent, user) && s.txs[tx].pc.RotateAllowed?
    requires StepRotate(s, tx, spent, user, id, token).Some?
    ensures var after := StepRotate(s, tx, spent, user, id, token).value; Inv(after) && Steps(s, after, tx)
  {
    var after := StepRotate(s, tx, spent, user, id, token).value;
    assert TxFine(s, tx);
    assert after.redemptions[|s.redemptions|].tx == tx;
    forall other
      ensures TxFine(after, other)
    {
      assert TxFine(s, other);
      if other != tx {
        OthersStayFine(s, after, tx, other);
      }
    }
    NewTokenFine(s, after, s.txs[tx].pc.id, token);
  }

  lemma RotateKeeps(s: State, tx: TxId, spent: Token, user: UserId, id: SessionId, token: Token)
    requires Inv(s) && tx in s.txs && s.txs[tx].call == RotateCall(spent, user)
    requires StepRotate(s, tx, spent, user, id, token).Some?
    ensures var after := StepRotate(s, tx, spent, user, id, token).value; Inv(after) && Steps(s, after, tx)
  {
    if s.txs[tx].pc.RotateAllowed? {
      RotateCommitKeeps(s, tx, spent, user, id, token);
    } else {
      assert TxFine(s, tx);
      QuietStepKeeps(s, StepRotate(s, tx, spent, user, id, token).value, tx);
    }
  }

  lemma DeleteKeeps(s: State, tx: TxId, ids: set<SessionId>, answer: Answer)
    requires Inv(s) && tx in s.txs && !s.txs[tx].Over() && ids <= RowsHeld(s.txs[tx]) && !answer.Rotated?
    requires answer == Revoked(true) ==>
               s.txs[tx].call.RevokeCall? && s.txs[tx].call.token in Tokens(s.rows, ids)
    ensures Inv(Delete(s, tx, ids, answer)) && Steps(s, Delete(s, tx, ids, answer), tx)
  {
    var after := Delete(s, tx, ids, answer);
    assert TxFine(s, tx);
    forall other
      ensures TxFine(after, other)
    {
      assert TxFine(s, other);
      if other != tx {
        OthersStayFine(s, after, tx, other);
      }
    }
    DeletedTokensFine(s, after, ids);
  }

  lemma DeletedTokensFine(s: State, after: State, ids: set<SessionId>)
    requires TokensFine(s) && after.rows == Deleted(s.rows, ids) && after.issued == s.issued
    requires after.retired == s.retired + Tokens(s.rows, ids)
    ensures TokensFine(after)
  {
    forall t | t in after.issued
      ensures t in after.retired || Held(after.rows, t)
    {
      if t !in after.retired {
        var k :| k in s.rows && s.rows[k].token == t;
        assert k !in ids;
        assert after.rows[k].token == t;
      }
    }
  }

  lemma RevokeKeeps(s: State, tx: TxId, token: Token, user: UserId, id: SessionId)
    requires Inv(s) && tx in s.txs && s.txs[tx].call == RevokeCall(token, user)
    requires StepRevoke(s, tx, token, user, id).Some?
    ensures var after := StepRevoke(s, tx, token, user, id).value; Inv(after) && Steps(s, after, tx)
  {
    if s.txs[tx].pc.RevokeLocked? {
      assert TxFine(s, tx);
      DeleteKeeps(s, tx, {s.txs[tx].pc.id}, Revoked(true));
    } else {
      assert TxFine(s, tx);
      QuietStepKeeps(s, StepRevoke(s, tx, token, user, id).value, tx);
    }
  }

  lemma RevokeAllKeeps(s: State, tx: TxId, user: UserId, order: seq<SessionId>)
    requires Inv(s) && tx in s.txs && s.txs[tx].call == RevokeAllCall(user)
    requires StepRevokeAll(s, tx, user, order).Some?
    ensures var after := StepRevokeAll(s, tx, user, order).value; Inv(after) && Steps(s, after, tx)
  {
    if s.txs[tx].pc.Deleting? && |s.txs[tx].pc.todo| == 0 {
      DeleteKeeps(s, tx, s.txs[tx].pc.marked, RevokedAll(|s.txs[tx].pc.marked|));
    } else {
      assert TxFine(s, tx);
      QuietStepKeeps(s, StepRevokeAll(s, tx, user, order).value, tx);
    }
  }

  lemma FailKeeps(s: State, tx: TxId)
    requires Inv(s) && tx in s.txs && !s.txs[tx].Over()
    ensures Inv(Leave(s, tx, RolledBack)) && Steps(s, Leave(s, tx, RolledBack), tx)
  {
    QuietStepKeeps(s, Leave(s, tx, RolledBack), tx);
  }

  /** Nothing retired comes back, and a later rotation spends something not yet retired. */
  ghost predicate Progresses(a: State, b: State) {
    && a.retired <= b.retired && a.redemptions <= b.redemptions
    && (forall i :: |a.redemptions| <= i < |b.redemptions| ==> b.redemptions[i].spent !in a.retired)
  }

  lemma AdvanceKeeps(s: State, tx: TxId, id: SessionId, token: Token, order: seq<SessionId>)
    requires Inv(s) && tx in s.txs && Advance(s, tx, id, token, order).Some?
    ensures Inv(Advance(s, tx, id, token, order).value)
  {
    match s.txs[tx].call
    case CreateCall(user) => CreateKeeps(s, tx, user, id, token);
    case RotateCall(spent, user) => RotateKeeps(s, tx, spent, user, id, token);
    case RevokeCall(gone, user) => RevokeKeeps(s, tx, gone, user, id);
    case RevokeAllCall(user) => RevokeAllKeeps(s, tx, user, order);
  }

  lemma AdvanceProgresses(s: State, tx: TxId, id: SessionId, token: Token, order: seq<SessionId>)
    requires Inv(s) && tx in s.txs && Advance(s, tx, id, token, order).Some?
    ensures Progresses(s, Advance(s, tx, id, token, order).value)
  {
    assert TxFine(s, tx);
    var after := Advance(s, tx, id, token, order).value;
    match s.txs[tx].call
    case RotateCall(spent, user) =>
      if s.txs[tx].pc.RotateAllowed? {
        assert after.redemptions == s.redemptions + [Redemption(tx, s.txs[tx].pc.row.token, token)];
      } else {
        assert after.redemptions == s.redemptions && after.retired == s.retired;
      }
    case _ => assert after.redemptions == s.redemptions;
  }

  lemma NextKeeps(s: State, a: Action)
    requires Inv(s) && Next(s, a).Some?
    ensures Inv(Next(s, a).value) && Progresses(s, Next(s, a).value)
  {
    match a
    case Tick(elapsed) =>
      var after := s.(clock := s.clock + elapsed);
      forall tx
        ensures TxFine(after, tx)
      {
        assert TxFine(s, tx);
      }
    case Begin(tx, call) =>
      var after := s.(txs := s.txs[tx := Tx(call, Start)]);
      forall other
        ensures TxFine(after, other)
      {
        assert TxFine(s, other);
      }
    case Fail(tx) => FailKeeps(s, tx);
    case Step(tx, id, token, order) =>
      AdvanceKeeps(s, tx, id, token, order);
      AdvanceProgresses(s, tx, id, token, order);
  }

  lemma {:induction false} RunKeeps(s: State, actions: seq<Action>)
    requires Inv(s) && Run(s, actions).Some?
    ensures Inv(Run(s, actions).value) && Progresses(s, Run(s, actions).value)
  {
    if |actions| > 0 {
      RunKeeps(s, actions[..|actions| - 1]);
      NextKeeps(Run(s, actions[..|actions| - 1]).value, actions[|actions| - 1]);
    }
  }

  lemma ReachableInv(s: State)
    requires Reachable(s)
    ensures Inv(s)
  {
    var clock :| Leads(Init(clock), s);
    var actions :| Run(Init(clock), actions) == Some(s);
    RunKeeps(Init(clock), actions);
  }

  // ---------- what it gives ----------

  /** The call rotated the token away. */
  predicate Won(t: Tx, token: Token) {
    t.call.RotateCall? && t.call.token == token && t.pc.Done? && t.pc.answer.Rotated?
  }

  /** In every interleaving each token is spent at most once: one winner per token. */
  lemma RedeemedAtMostOnce(s: State, token: Token, first: TxId, second: TxId)
    requires Reachable(s) && first in s.txs && second in s.txs
    requires Won(s.txs[first], token) && Won(s.txs[second], token)
    ensures first == second
  {
    ReachableInv(s);
    assert TxFine(s, first) && TxFine(s, second);
    var i :| 0 <= i < |s.redemptions| && s.redemptions[i].tx == first;
    var j :| 0 <= j < |s.redemptions| && s.redemptions[j].tx == second;
  }

  /** A token is redeemable exactly until it is rotated away or deleted. */
  lemma RedeemableIffNotRetired(s: State, token: Token)
    requires Reachable(s) && token in s.issued
    ensures Held(s.rows, token) <==> token !in s.retired
  {
    ReachableInv(s);
  }

  /** Once spent, logged out or revoked with all others, a token is held by no session and wins no rotation again. */
  lemma RetiredForGood(a: State, b: State, token: Token)
    requires Reachable(a) && Leads(a, b) && token in a.retired
    ensures token in b.retired && !Held(b.rows, token)
    ensures forall i :: |a.redemptions| <= i < |b.redemptions| ==> b.redemptions[i].spent != token
    ensures forall tx :: tx in b.txs && Won(b.txs[tx], token) ==> tx in a.txs && Won(a.txs[tx], token)
  {
    ReachableInv(a);
    var actions :| Run(a, actions) == Some(b);
    RunKeeps(a, actions);
    forall tx | tx in b.txs && Won(b.txs[tx], token)
      ensures tx in a.txs && Won(a.txs[tx], token)
    {
      assert TxFine(b, tx);
      var i :| 0 <= i < |b.redemptions| && b.redemptions[i].tx == tx;
      assert i < |a.redemptions|;
      assert a.redemptions[i] == b.redemptions[i];
    }
  }
}
