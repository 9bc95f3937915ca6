/**
 The cut-off of one account when requests overlap. Logout-all, password change and deactivation read the clock
 first and write that reading on commit, whatever is stored by then. Login and refresh check the account first
 and mint an access token later, whatever the account looks like by then.
 */
module CutOff {
  import opened Bookings
  import Credentials

  type TxId = int

  datatype Revocation = Started | ClockRead(readAt: Instant) | Committed | RolledBack

  datatype SignIn = Checked | Minted(token: Credentials.Token) | GivenUp

  datatype State = State(
    user: UserId,
    clock: Instant,
    validAfter: Option<Instant>,
    revocations: map<TxId, Revocation>,
    signIns: map<TxId, SignIn>)

  datatype Action =
    | Tick(elapsed: nat)
    | Begin(tx: TxId)
    | Read(tx: TxId)
    | Commit(tx: TxId)
    | Fail(tx: TxId)
    | Check(tx: TxId)
    | Mint(tx: TxId, serial: int)
    | GiveUp(tx: TxId)

  function Init(user: UserId, clock: Instant): State {
    State(user, clock, None, map[], map[])
  }

  function Next(s: State, a: Action): Option<State> {
    match a
    case Tick(elapsed) => Some(s.(clock := s.clock + elapsed))
    case Begin(tx) =>
      if tx in s.revocations then None else Some(s.(revocations := s.revocations[tx := Started]))
    case Read(tx) =>
      if tx in s.revocations && s.revocations[tx].Started?
      then Some(s.(revocations := s.revocations[tx := ClockRead(s.clock)]))
      else None
    case Commit(tx) =>
      if tx in s.revocations && s.revocations[tx].ClockRead?
      then Some(s.(validAfter := Some(s.revocations[tx].readAt), revocations := s.revocations[tx := Committed]))
      else None
    case Fail(tx) =>
      if tx in s.revocations && !s.revocations[tx].Committed?
      then Some(s.(revocations := s.revocations[tx := RolledBack]))
      else None
    case Check(tx) =>
      if tx in s.signIns then None else Some(s.(signIns := s.signIns[tx := Checked]))
    case Mint(tx, serial) =>
      if tx in s.signIns && s.signIns[tx].Checked?
      then Some(s.(signIns := s.signIns[tx := Minted(Credentials.NewAccess(s.user, s.clock, serial))]))
      else None
    case GiveUp(tx) =>
      if tx in s.signIns && s.signIns[tx].Checked?
      then Some(s.(signIns := s.signIns[tx := GivenUp]))
      else None
  }

  function Run(s: State, actions: seq<Action>): Option<State> {
    if |actions| == 0 then Some(s)
    else
      var before := Run(s, actions[..|actions| - 1]);
      if before.None? then None else Next(before.value, actions[|actions| - 1])
  }

  ghost predicate Leads(a: State, b: State) {
    exists actions :: Run(a, actions) == Some(b)
  }

  ghost predicate Reachable(s: State) {
    exists user, clock :: Leads(Init(user, clock), s)
  }

  /** The cut-off check that every credential of the account goes through. */
  predicate Refused(s: State, t: Credentials.Token) {
    Credentials.Invalidated(t, s.validAfter)
  }

  /** No revocation in flight has read the clock before the given instant. */
  ghost predicate NoneBefore(s: State, t: Instant) {
    forall tx :: tx in s.revocations && s.revocations[tx].ClockRead? ==> t <= s.revocations[tx].readAt
  }

  /** The cut-off is at least t and cannot fall below it. */
  ghost predicate Settled(s: State, t: Instant) {
    s.validAfter.Some? && t <= s.validAfter.value && t <= s.clock && NoneBefore(s, t)
  }

  /** Clock readings and issue times are of the past. */
  ghost predicate PastReadings(s: State) {
    && (s.validAfter.Some? ==> s.validAfter.value <= s.clock)
    && (forall tx :: tx in s.revocations && s.revocations[tx].ClockRead? ==> s.revocations[tx].readAt <= s.clock)
    && (forall tx :: tx in s.signIns && s.signIns[tx].Minted? ==> s.signIns[tx].token.issuedAt <= s.clock)
  }

  lemma {:induction false} RunKeeps(s: State, actions: seq<Action>, t: Instant)
    requires Run(s, actions).Some?
    ensures Settled(s, t) ==> Settled(Run(s, actions).value, t)
    ensures PastReadings(s) ==> PastReadings(Run(s, actions).value)
  {
    if |actions| > 0 {
      RunKeeps(s, actions[..|actions| - 1], t);
    }
  }

  /** A sign-in that is over stays as it is. */
  lemma {:induction false} RunKeepsToken(s: State, actions: seq<Action>, tx: TxId)
    requires Run(s, actions).Some? && tx in s.signIns && !s.signIns[tx].Checked?
    ensures var later := Run(s, actions).value; tx in later.signIns && later.signIns[tx] == s.signIns[tx]
  {
    if |actions| > 0 {
      RunKeepsToken(s, actions[..|actions| - 1], tx);
    }
  }

  lemma ReachablePast(s: State)
    requires Reachable(s)
    ensures PastReadings(s)
  {
    var user, clock :| Leads(Init(user, clock), s);
    var actions :| Run(Init(user, clock), actions) == Some(s);
    RunKeeps(Init(user, clock), actions, 0);
  }

  lemma OneStep(s: State, a: Action)
    requires Next(s, a).Some?
    ensures Leads(s, Next(s, a).value)
  {
    assert [a][..0] == [];
    assert Run(s, [a][..0]) == Some(s);
    assert Run(s, [a]) == Next(s, a);
  }

  // ---------- revocations against each other ----------

  /**
   Once a revocation at t is the cut-off, everything issued before t fails the cut-off check in every later state,
   if and only if no other revocation of the account that is still in flight read the clock before t.
   */
  lemma PermanentIff(s: State)
    requires Reachable(s) && s.validAfter.Some?
    ensures (forall later, t: Credentials.Token ::
               Leads(s, later) && t.issuedAt < s.validAfter.value ==> Refused(later, t))
            <==> NoneBefore(s, s.validAfter.value)
  {
    var cut := s.validAfter.value;
    ReachablePast(s);
    if NoneBefore(s, cut) {
      forall later, t: Credentials.Token | Leads(s, later) && t.issuedAt < cut
        ensures Refused(later, t)
      {
        var actions :| Run(s, actions) == Some(later);
        RunKeeps(s, actions, cut);
      }
    } else {
      var tx :| tx in s.revocations && s.revocations[tx].ClockRead? && s.revocations[tx].readAt < cut;
      OneStep(s, Commit(tx));
      assert !Refused(Next(s, Commit(tx)).value, Credentials.NewAccess(s.user, s.revocations[tx].readAt, 0));
    }
  }

  /**
   Two overlapping revocations that commit in the other order: after the second commit, what was issued between
   their readings passes the cut-off check again.
   */
  lemma CutOffCanMoveBack(user: UserId, clock: Instant, apart: nat) returns (before: State, after: State)
    requires apart > 0
    ensures Reachable(before) && Leads(before, after)
    ensures forall t: Credentials.Token :: clock <= t.issuedAt < clock + apart ==>
              Refused(before, t) && !Refused(after, t)
  {
    var actions := [Begin(0), Begin(1), Read(0), Tick(apart), Read(1), Commit(1)];
    var s0 := Init(user, clock);
    var s1 := s0.(revocations := map[0 := Started]);
    var s2 := s0.(revocations := map[0 := Started, 1 := Started]);
    var s3 := s0.(revocations := map[0 := ClockRead(clock), 1 := Started]);
    var s4 := s3.(clock := clock + apart);
    var s5 := s4.(revocations := map[0 := ClockRead(clock), 1 := ClockRead(clock + apart)]);
    before := s5.(validAfter := Some(clock + apart), revocations := map[0 := ClockRead(clock), 1 := Committed]);
    assert Run(s0, actions[..0]) == Some(s0);
    assert actions[..1][..0] == actions[..0] && Run(s0, actions[..1]) == Some(s1);
    assert actions[..2][..1] == actions[..1] && Run(s0, actions[..2]) == Some(s2);
    assert s2.revocations[0 := ClockRead(clock)] == s3.revocations;
    assert actions[..3][..2] == actions[..2] && Run(s0, actions[..3]) == Some(s3);
    assert actions[..4][..3] == actions[..3] && Run(s0, actions[..4]) == Some(s4);
    assert s4.revocations[1 := ClockRead(clock + apart)] == s5.revocations;
    assert actions[..5][..4] == actions[..4] && Run(s0, actions[..5]) == Some(s5);
    assert s5.revocations[1 := Committed] == before.revocations;
    assert actions[..5] == actions[..|actions| - 1] && Run(s0, actions) == Some(before);
    assert Leads(s0, before);
    OneStep(before, Commit(0));
    after := Next(before, Commit(0)).value;
  }

  // ---------- revocations against logins and refreshes ----------

  /** This sign-in has no token that passes, and is not about to get one: it is over, and no cut-off can free it. */
  ghost predicate ShutOut(s: State, tx: TxId)
    requires tx in s.signIns && s.validAfter.Some?
  {
    !s.signIns[tx].Checked? && (s.signIns[tx].Minted? ==>
      s.signIns[tx].token.issuedAt < s.validAfter.value && NoneBefore(s, s.signIns[tx].token.issuedAt + 1))
  }

  /** Whatever happens later, no access token that this sign-in hands out passes the cut-off check. */
  ghost predicate NeverPasses(s: State, tx: TxId) {
    forall later :: Leads(s, later) && tx in later.signIns && later.signIns[tx].Minted? ==>
      Refused(later, later.signIns[tx].token)
  }

  /**
   A sign-in that passed its checks before a revocation committed, with the old password or an old token, never
   profits from it if and only if it is over by the commit, its token was issued before the cut-off, and no
   revocation still in flight has read the clock at or before the issue.
   */
  lemma NeverPassesIff(s: State, tx: TxId)
    requires Reachable(s) && s.validAfter.Some? && tx in s.signIns
    ensures NeverPasses(s, tx) <==> ShutOut(s, tx)
  {
    ReachablePast(s);
    if ShutOut(s, tx) {
      ShutOutNeverPasses(s, tx);
    } else if s.signIns[tx].Checked? {
      OneStep(s, Mint(tx, 0));
      var later := Next(s, Mint(tx, 0)).value;
      assert !Refused(later, later.signIns[tx].token);
    } else {
      PassingToken(s, tx);
    }
  }

  lemma ShutOutNeverPasses(s: State, tx: TxId)
    requires PastReadings(s) && s.validAfter.Some? && tx in s.signIns && ShutOut(s, tx)
    ensures NeverPasses(s, tx)
  {
    forall later | Leads(s, later) && tx in later.signIns && later.signIns[tx].Minted?
      ensures Refused(later, later.signIns[tx].token)
    {
      var actions :| Run(s, actions) == Some(later);
      RunKeepsToken(s, actions, tx);
      RunKeeps(s, actions, s.signIns[tx].token.issuedAt + 1);
    }
  }

  lemma PassingToken(s: State, tx: TxId)
    requires s.validAfter.Some? && tx in s.signIns && s.signIns[tx].Minted? && !ShutOut(s, tx)
    ensures !NeverPasses(s, tx)
  {
    var issuedAt := s.signIns[tx].token.issuedAt;
    if s.validAfter.value <= issuedAt {
      assert Run(s, []) == Some(s);
      assert Leads(s, s) && !Refused(s, s.signIns[tx].token);
    } else {
      var r :| r in s.revocations && s.revocations[r].ClockRead? && s.revocations[r].readAt < issuedAt + 1;
      OneStep(s, Commit(r));
      var later := Next(s, Commit(r)).value;
      assert later.signIns[tx] == s.signIns[tx] && !Refused(later, later.signIns[tx].token);
    }
  }
}
