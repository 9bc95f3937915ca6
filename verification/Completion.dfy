/** Whatever is in flight can be brought to an end, without giving anything up and without time passing. */
module Completion {
  import opened Bookings
  import opened Operations
  import opened Protocol
  import opened Linearization
  import opened Progress
  import opened Theorems

  /** Steps a sweep has to take before it knows its rows. */
  function Ahead(t: Tx): nat {
    if !t.req.CompleteReq? then 0
    else if t.pc.Start? then 2
    else if t.pc.SweepClockRead? then 1
    else 0
  }

  /** Steps any other transaction, or a sweep that knows its rows, has left at most. */
  function Left(t: Tx): nat {
    match t.pc
    case Start => 5
    case PeriodChecked(_) => 3
    case CreateRoomLocked(_, _) => 2
    case CreateAdmitted(_, _, _) => 1
    case UpdateBookingLocked(_) => 4
    case UpdateRoomLocked(_, _) => 3
    case UpdatePeriodChecked(_, _, _) => 2
    case UpdateAdmitted(_, _, _, _) => 1
    case CancelBookingLocked(_) => 2
    case CancelRoomLocked(_) => 1
    case ChangeRoomLocked(_) => 3
    case ReductionClockRead(_, _) => 2
    case ChangeAllowed(_, _) => 1
    case ArchiveRoomLocked(_) => 1
    case SweepClockRead(_) => 0
    case Sweeping(_, _, todo, _) => |todo| + 1
    case Done(_) => 0
    case RolledBack => 0
  }

  function Sum(txs: map<TxId, Tx>, ids: seq<TxId>, f: Tx -> nat): nat
    requires forall tx :: tx in ids ==> tx in txs
  {
    if |ids| == 0 then 0
    else
      var last := ids[|ids| - 1];
      assert last in ids;
      Sum(txs, ids[..|ids| - 1], f) + f(txs[last])
  }

  ghost predicate Lists(ids: seq<TxId>, txs: map<TxId, Tx>) {
    && (forall tx :: tx in ids <==> tx in txs)
    && (forall i, j :: 0 <= i < j < |ids| ==> ids[i] != ids[j])
  }

  lemma {:induction false} SumUpdated(txs: map<TxId, Tx>, ids: seq<TxId>, f: Tx -> nat, tx: TxId, t: Tx)
    requires (forall k :: k in ids ==> k in txs) && forall i, j :: 0 <= i < j < |ids| ==> ids[i] != ids[j]
    requires tx in txs
    ensures Sum(txs[tx := t], ids, f) == Sum(txs, ids, f) + if tx in ids then f(t) - f(txs[tx]) else 0
  {
    if |ids| > 0 {
      var n := |ids| - 1;
      SumUpdated(txs, ids[..n], f, tx, t);
      assert tx in ids <==> tx in ids[..n] || tx == ids[n];
    }
  }

  /** The system's outstanding work, most significant part first. */
  function Work(s: State, ids: seq<TxId>): (nat, nat)
    requires forall tx :: tx in ids ==> tx in s.txs
  {
    (Sum(s.txs, ids, Ahead), Sum(s.txs, ids, Left))
  }

  predicate Less(a: (nat, nat), b: (nat, nat)) {
    a.0 < b.0 || (a.0 == b.0 && a.1 < b.1)
  }

  /** An unfinished transaction comes closer to its end and does not give up. */
  ghost predicate Closer(t: Tx, e: Effect) {
    var pc := if e.Answer? then Done(e.outcome) else e.pc;
    && !t.Over() && !pc.RolledBack?
    && Less((Ahead(t.(pc := pc)), Left(t.(pc := pc))), (Ahead(t), Left(t)))
  }

  lemma BookingStepAdvances(s: State, tx: TxId, pick: int, order: seq<BookingId>)
    requires tx in s.txs && Advance(s, tx, pick, order).Some?
    requires var r := s.txs[tx].req; r.CreateReq? || r.UpdateReq? || r.CancelReq?
    ensures Closer(s.txs[tx], Advance(s, tx, pick, order).value)
  {
  }

  lemma OtherStepAdvances(s: State, tx: TxId, pick: int, order: seq<BookingId>)
    requires tx in s.txs && Advance(s, tx, pick, order).Some?
    requires var r := s.txs[tx].req; !r.CreateReq? && !r.UpdateReq? && !r.CancelReq?
    ensures Closer(s.txs[tx], Advance(s, tx, pick, order).value)
  {
  }

  /** A step moves its own transaction only, closer to its end, and takes no time. */
  lemma StepAdvances(s: State, tx: TxId, pick: int, order: seq<BookingId>)
    requires tx in s.txs && Advance(s, tx, pick, order).Some?
    ensures var after := Apply(s, tx, Advance(s, tx, pick, order).value);
            && after.txs.Keys == s.txs.Keys && after.txs == s.txs[tx := after.txs[tx]] && after.clock == s.clock
            && !s.txs[tx].Over() && after.txs[tx].req == s.txs[tx].req && !after.txs[tx].pc.RolledBack?
            && Less((Ahead(after.txs[tx]), Left(after.txs[tx])), (Ahead(s.txs[tx]), Left(s.txs[tx])))
  {
    var r := s.txs[tx].req;
    if r.CreateReq? || r.UpdateReq? || r.CancelReq? {
      BookingStepAdvances(s, tx, pick, order);
    } else {
      OtherStepAdvances(s, tx, pick, order);
    }
    EffectMoves(s, tx, Advance(s, tx, pick, order).value);
  }

  lemma EffectMoves(s: State, tx: TxId, e: Effect)
    requires tx in s.txs
    ensures var after := Apply(s, tx, e);
            after.clock == s.clock &&
            after.txs == s.txs[tx := s.txs[tx].(pc := if e.Answer? then Done(e.outcome) else e.pc)]
  {
  }

  /** Every step of every schedule uses up work, so without new requests no schedule goes on for ever. */
  lemma StepUsesUpWork(s: State, tx: TxId, pick: int, order: seq<BookingId>, ids: seq<TxId>)
    requires tx in s.txs && Advance(s, tx, pick, order).Some? && Lists(ids, s.txs)
    ensures var after := Apply(s, tx, Advance(s, tx, pick, order).value);
            Lists(ids, after.txs) && Less(Work(after, ids), Work(s, ids))
  {
    var after := Apply(s, tx, Advance(s, tx, pick, order).value);
    StepAdvances(s, tx, pick, order);
    SumUpdated(s.txs, ids, Ahead, tx, after.txs[tx]);
    SumUpdated(s.txs, ids, Left, tx, after.txs[tx]);
  }

  /** At most one sweep is in flight, started or about to. */
  ghost predicate OneSweepAsked(s: State) {
    forall a, b :: a in s.txs && b in s.txs && PendingSweep(s.txs[a]) && PendingSweep(s.txs[b]) ==> a == b
  }

  predicate PendingSweep(t: Tx) {
    t.req.CompleteReq? && !t.Over()
  }

  lemma OneSweepRuns(s: State)
    requires Inv(s) && OneSweepAsked(s)
    ensures AtMostOneSweep(s)
  {
    forall tx | tx in s.txs && s.txs[tx].pc.Sweeping?
      ensures s.txs[tx].req.CompleteReq?
    {
      assert TxFine(s, tx);
    }
  }

  /** Every transaction of s runs to its own end: the same requests, and nothing given up that was not already. */
  ghost predicate RunsOut(s: State, end: State) {
    && end.txs.Keys == s.txs.Keys && end.clock == s.clock
    && forall tx :: tx in s.txs ==>
         && end.txs[tx].req == s.txs[tx].req && end.txs[tx].Over()
         && (end.txs[tx].pc.RolledBack? ==> s.txs[tx].pc.RolledBack?)
  }

  lemma {:induction false} Finish(start: State, s: State, ids: seq<TxId>) returns (end: State)
    requires Leads(start, s) && Inv(s) && OneSweepAsked(s) && Lists(ids, s.txs)
    ensures Leads(start, end) && RunsOut(s, end)
    decreases Work(s, ids).0, Work(s, ids).1
  {
    if tx :| tx in s.txs && !s.txs[tx].Over() {
      OneSweepRuns(s);
      var ready := FollowTheWaits(s, tx);
      var pick, order :| Advance(s, ready, pick, order).Some?;
      var after := Apply(s, ready, Advance(s, ready, pick, order).value);
      NextKeeps(s, Step(ready, pick, order));
      StepAdvances(s, ready, pick, order);
      StepUsesUpWork(s, ready, pick, order, ids);
      Extend(start, s, ready, pick, order, Advance(s, ready, pick, order).value);
      end := Finish(start, after, ids);
    } else {
      end := s;
    }
  }

  /** From every reachable state with at most one sweep in flight, every unfinished transaction can get its answer. */
  lemma EverybodyCanFinish(s: State)
    requires Reachable(s) && OneSweepAsked(s)
    ensures exists end :: Leads(s, end) && RunsOut(s, end)
  {
    ReachableInv(s);
    assert Run(s, []) == Some(s);
    var ids := Enumerate(s.txs.Keys);
    var end := Finish(s, s, ids);
  }
}
