/** Lock waits: who waits for whom, that waits never form a cycle, and that somebody can always step. */
module Progress {
  import opened Bookings
  import opened Operations
  import opened Protocol
  import opened Linearization

  function Owner(locks: map<int, TxId>, key: int): Option<TxId> {
    if key in locks then Some(locks[key]) else None
  }

  /** The transaction whose lock this one needs next, if any. */
  function WaitsFor(s: State, t: Tx): Option<TxId> {
    match t.pc
    case Start =>
      (match t.req
       case UpdateReq(id, _, _) => Owner(s.bookingLock, id)
       case CancelReq(id, _, _) => Owner(s.bookingLock, id)
       case ChangeRoomReq(room, _) => Owner(s.roomLock, room)
       case ArchiveReq(room) => Owner(s.roomLock, room)
       case _ => None)
    case PeriodChecked(_) => if t.req.CreateReq? then Owner(s.roomLock, t.req.room) else None
    case UpdateBookingLocked(row) => Owner(s.roomLock, row.roomId)
    case CancelBookingLocked(row) => Owner(s.roomLock, row.roomId)
    case Sweeping(_, _, todo, _) => if |todo| > 0 then Owner(s.bookingLock, todo[0]) else None
    case _ => None
  }

  ghost predicate CanStep(s: State, tx: TxId)
    requires tx in s.txs
  {
    exists pick, order :: Advance(s, tx, pick, order).Some?
  }

  // ---------- waiting is the only obstacle ----------

  lemma FreshKey(keys: set<int>) returns (k: int)
    ensures k !in keys
  {
    k := Above(keys);
  }

  lemma Above(keys: set<int>) returns (k: int)
    ensures forall x :: x in keys ==> x < k
  {
    if |keys| == 0 {
      k := 0;
    } else {
      var x := Pick(keys);
      var rest := Above(keys - {x});
      k := if x < rest then rest else x + 1;
      assert forall y :: y in keys ==> y == x || y in keys - {x};
    }
  }

  lemma Enumerate(ids: set<BookingId>) returns (order: seq<BookingId>)
    ensures forall id :: id in order <==> id in ids
    ensures forall i, j :: 0 <= i < j < |order| ==> order[i] != order[j]
  {
    if |ids| == 0 {
      order := [];
    } else {
      var x := Pick(ids);
      var rest := Enumerate(ids - {x});
      order := [x] + rest;
    }
  }

  lemma NotWaitingCanStep(s: State, tx: TxId)
    requires tx in s.txs && !s.txs[tx].Over() && Knows(s.db, s.clock, s.txs[tx])
    requires WaitsFor(s, s.txs[tx]).None?
    ensures CanStep(s, tx)
  {
    var newBooking := FreshKey(s.db.bookings.Keys);
    var newRoom := FreshKey(s.db.rooms.Keys);
    var t := s.txs[tx];
    match t.req
    case AddRoomReq(_) => assert Advance(s, tx, newRoom, []).Some?;
    case CompleteReq =>
      if t.pc.SweepClockRead? {
        var order := Enumerate(set id | id in s.db.bookings && Finished(s.db.bookings[id], t.pc.readAt));
        assert VisitOrder(s.db, t.pc.readAt, order);
        assert Advance(s, tx, 0, order).Some?;
      } else {
        assert Advance(s, tx, 0, []).Some?;
      }
    case _ => assert Advance(s, tx, newBooking, []).Some?;
  }

  lemma WaitingCannotStep(s: State, tx: TxId)
    requires tx in s.txs && WaitsFor(s, s.txs[tx]).Some?
    ensures !CanStep(s, tx)
  {
  }

  // ---------- no cycles ----------

  ghost predicate AtMostOneSweep(s: State) {
    forall a, b :: a in s.txs && b in s.txs && s.txs[a].pc.Sweeping? && s.txs[b].pc.Sweeping? ==> a == b
  }

  /** Every wait goes up: sweep, then holders of a booking, then holders of a room, who never wait. */
  function Rank(t: Tx): nat {
    if RoomHeld(t).Some? then 3
    else if t.pc.Sweeping? then 1
    else if BookingsHeld(t) != {} then 2
    else 0
  }

  /** With any number of sweeps, only a wait of one sweep for another stays level. */
  lemma WaitsGoUpOrSweep(s: State, a: TxId, b: TxId)
    requires Inv(s) && a in s.txs && WaitsFor(s, s.txs[a]) == Some(b)
    ensures b in s.txs && !s.txs[b].Over() && Rank(s.txs[b]) <= 3
    ensures Rank(s.txs[a]) < Rank(s.txs[b]) || (a != b && s.txs[a].pc.Sweeping? && s.txs[b].pc.Sweeping?)
  {
    assert TxFine(s, a);
    var t := s.txs[a];
    match t.pc
    case Start =>
      match t.req {
        case UpdateReq(id, _, _) => assert BookingLockFine(s, id);
        case CancelReq(id, _, _) => assert BookingLockFine(s, id);
        case ChangeRoomReq(room, _) => assert RoomLockFine(s, room);
        case ArchiveReq(room) => assert RoomLockFine(s, room);
        case _ =>
      }
    case PeriodChecked(_) => assert RoomLockFine(s, t.req.room);
    case UpdateBookingLocked(row) => assert RoomLockFine(s, row.roomId);
    case CancelBookingLocked(row) => assert RoomLockFine(s, row.roomId);
    case Sweeping(_, _, todo, marked) =>
      assert BookingLockFine(s, todo[0]);
      assert todo[0] !in marked;
      assert b != a;
    case _ =>
  }

  lemma WaitsGoUp(s: State, a: TxId, b: TxId)
    requires Inv(s) && AtMostOneSweep(s)
    requires a in s.txs && WaitsFor(s, s.txs[a]) == Some(b)
    ensures b in s.txs && !s.txs[b].Over() && Rank(s.txs[a]) < Rank(s.txs[b]) <= 3
  {
    WaitsGoUpOrSweep(s, a, b);
  }

  /** A chain of waits: each one needs a lock of the next. */
  ghost predicate WaitChain(s: State, chain: seq<TxId>) {
    && (forall i :: 0 <= i < |chain| ==> chain[i] in s.txs)
    && (forall i :: 0 <= i < |chain| - 1 ==> WaitsFor(s, s.txs[chain[i]]) == Some(chain[i + 1]))
  }

  lemma {:induction false} ChainsClimb(s: State, chain: seq<TxId>)
    requires Inv(s) && AtMostOneSweep(s) && WaitChain(s, chain) && |chain| > 0
    ensures Rank(s.txs[chain[|chain| - 1]]) >= Rank(s.txs[chain[0]]) + |chain| - 1
  {
    if |chain| > 1 {
      var n := |chain| - 1;
      assert forall i :: 0 <= i < |chain[..n]| ==> chain[..n][i] == chain[i];
      ChainsClimb(s, chain[..n]);
      WaitsGoUp(s, chain[n - 1], chain[n]);
    }
  }

  /** No transaction waits, directly or through others, for itself; chains have at most four members. */
  lemma NoDeadlock(s: State, chain: seq<TxId>)
    requires Reachable(s) && AtMostOneSweep(s) && WaitChain(s, chain) && |chain| > 1
    ensures chain[0] != chain[|chain| - 1]
    ensures |chain| <= 4
  {
    ReachableInv(s);
    ChainsClimb(s, chain);
  }

  lemma {:induction false} ChainsNeverFall(s: State, chain: seq<TxId>, i: nat, j: nat)
    requires Inv(s) && WaitChain(s, chain) && i <= j < |chain|
    ensures Rank(s.txs[chain[i]]) <= Rank(s.txs[chain[j]])
    decreases j
  {
    if i < j {
      ChainsNeverFall(s, chain, i, j - 1);
      WaitsGoUpOrSweep(s, chain[j - 1], chain[j]);
    }
  }

  /** However many sweeps run, whoever waits in a cycle is a sweep: user requests never deadlock each other. */
  lemma OnlySweepsDeadlock(s: State, chain: seq<TxId>, i: nat)
    requires Reachable(s) && WaitChain(s, chain) && |chain| > 1 && chain[0] == chain[|chain| - 1]
    requires i < |chain|
    ensures s.txs[chain[i]].pc.Sweeping?
  {
    ReachableInv(s);
    var n := |chain| - 1;
    if i < n {
      ChainsNeverFall(s, chain, 0, i);
      ChainsNeverFall(s, chain, i + 1, n);
      WaitsGoUpOrSweep(s, chain[i], chain[i + 1]);
    } else {
      OnlySweepsDeadlock(s, chain, 0);
    }
  }

  lemma {:induction false} FollowTheWaits(s: State, tx: TxId) returns (ready: TxId)
    requires Inv(s) && AtMostOneSweep(s) && tx in s.txs && !s.txs[tx].Over()
    ensures ready in s.txs && !s.txs[ready].Over() && CanStep(s, ready)
    decreases 3 - Rank(s.txs[tx])
  {
    if WaitsFor(s, s.txs[tx]).None? {
      assert TxFine(s, tx);
      NotWaitingCanStep(s, tx);
      ready := tx;
    } else {
      var next := WaitsFor(s, s.txs[tx]).value;
      WaitsGoUp(s, tx, next);
      ready := FollowTheWaits(s, next);
    }
  }

  /** As long as a transaction is unfinished, some unfinished transaction can take a step. */
  lemma SomebodyCanStep(s: State, tx: TxId)
    requires Reachable(s) && AtMostOneSweep(s) && tx in s.txs && !s.txs[tx].Over()
    ensures exists ready :: ready in s.txs && !s.txs[ready].Over() && CanStep(s, ready)
  {
    ReachableInv(s);
    var ready := FollowTheWaits(s, tx);
  }
}
