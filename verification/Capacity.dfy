/** Capacity over whole histories of operations. */
module Capacity {
  import opened Bookings
  import opened Operations
  import opened Lifecycle
  import Units

  /** Entry i took units away from the room. */
  ghost predicate IsReduction(log: History, i: nat, room: RoomId)
    requires i < |log|
  {
    var op, before := log[i].op, Replay(log[..i]);
    && op.ChangeRoom? && op.room == room && log[i].outcome.RoomChanged?
    && room in before.rooms && op.units.Some? && op.units.value < before.rooms[room].totalUnits
  }

  /** The clock reading of the last operation that took units away from the room. */
  ghost function LastReduction(log: History, room: RoomId): Option<Instant> {
    if |log| == 0 then None
    else if IsReduction(log, |log| - 1, room) then Some(log[|log| - 1].op.readAt)
    else LastReduction(log[..|log| - 1], room)
  }

  lemma PrefixReduction(log: History, n: nat, i: nat, room: RoomId)
    requires i < n <= |log|
    ensures IsReduction(log[..n], i, room) <==> IsReduction(log, i, room)
  {
    assert log[..n][..i] == log[..i];
  }

  ghost predicate IsLastReduction(log: History, i: nat, room: RoomId)
    requires i < |log|
  {
    IsReduction(log, i, room) && forall j :: i < j < |log| ==> !IsReduction(log, j, room)
  }

  lemma {:induction false} LastReductionIsLast(log: History, room: RoomId)
    ensures LastReduction(log, room).None? ==> forall i :: 0 <= i < |log| ==> !IsReduction(log, i, room)
    ensures LastReduction(log, room).Some? ==>
              exists i :: 0 <= i < |log| && IsLastReduction(log, i, room) &&
                LastReduction(log, room).value == log[i].op.readAt
  {
    if |log| > 0 {
      var n := |log| - 1;
      if IsReduction(log, n, room) {
        assert IsLastReduction(log, n, room);
      } else {
        LastReductionIsLast(log[..n], room);
        forall i | 0 <= i < n
          ensures IsReduction(log[..n], i, room) <==> IsReduction(log, i, room)
        {
          PrefixReduction(log, n, i, room);
        }
        if i :| 0 <= i < n && IsLastReduction(log[..n], i, room) &&
                LastReduction(log[..n], room) == Some(log[i].op.readAt) {
          assert IsLastReduction(log, i, room);
        }
      }
    }
  }

  /** Active bookings of the room that end after the mark. */
  predicate Counted(b: Booking, room: RoomId, mark: Option<Instant>) {
    b.roomId == room && b.status.Active? && (mark.Some? ==> mark.value < b.period.end)
  }

  function CountedRows(db: Db, room: RoomId, mark: Option<Instant>): map<BookingId, Booking> {
    map id | id in db.bookings && Counted(db.bookings[id], room, mark) :: db.bookings[id]
  }

  ghost predicate RoomWithinCapacity(db: Db, room: RoomId, mark: Option<Instant>) {
    room in db.rooms ==> Units.WithinCapacity(CountedRows(db, room, mark), db.rooms[room].totalUnits)
  }

  /** Fewer counted bookings, at least as many units. */
  lemma ReliefKeepsCapacity(a: Db, b: Db, room: RoomId, mark: Option<Instant>)
    requires RoomWithinCapacity(a, room, mark)
    requires room in a.rooms && room in b.rooms && a.rooms[room].totalUnits <= b.rooms[room].totalUnits
    requires forall id :: id in b.bookings && Counted(b.bookings[id], room, mark) ==>
               id in a.bookings && a.bookings[id] == b.bookings[id]
    ensures RoomWithinCapacity(b, room, mark)
  {
    forall t
      ensures |Covering(CountedRows(b, room, mark), t)| <= b.rooms[room].totalUnits
    {
      CoveringGrows(CountedRows(b, room, mark), CountedRows(a, room, mark), {}, t);
    }
  }

  /** Writing one booking after its check passed. Without the written row the room's capacity held before. */
  lemma AdmittedBookingFits(db: Db, room: RoomId, mark: Option<Instant>, id: BookingId, row: Booking)
    requires RoomWithinCapacity(db, room, mark) && room in db.rooms
    requires row.roomId == room && row.status.Active?
    requires RoomAvailable(db, room, db.rooms[room].totalUnits, row.period, Some(id))
    ensures RoomWithinCapacity(WithBooking(db, id, row), room, mark)
  {
    var after := WithBooking(db, id, row);
    var rows := OverlapRows(db, room, row.period, Some(id));
    forall t
      ensures |Covering(CountedRows(after, room, mark), t)| <= db.rooms[room].totalUnits
    {
      if row.period.Contains(t) {
        CoveringGrows(CountedRows(after, room, mark), rows, {id}, t);
      } else {
        CoveringGrows(CountedRows(after, room, mark), CountedRows(db, room, mark), {}, t);
      }
    }
  }

  lemma OtherRoomUntouched(db: Db, id: BookingId, row: Booking, room: RoomId, mark: Option<Instant>)
    requires RoomWithinCapacity(db, room, mark)
    requires row.roomId != room
    ensures RoomWithinCapacity(WithBooking(db, id, row), room, mark)
  {
    if room in db.rooms {
      ReliefKeepsCapacity(db, WithBooking(db, id, row), room, mark);
    }
  }

  /** The mark moves only when the room has no unfinished booking, so nothing is counted then. */
  lemma ReductionCountsNothing(db: Db, room: RoomId, units: Option<nat>, readAt: Instant)
    requires room in db.rooms && !HasUnfinished(db, room, readAt)
    ensures RoomWithinCapacity(WithRoom(db, room, Resized(db.rooms[room], units)), room, Some(readAt))
  {
    var after := WithRoom(db, room, Resized(db.rooms[room], units));
    forall id | id in after.bookings
      ensures !Counted(after.bookings[id], room, Some(readAt))
    {
      assert !Unfinished(db.bookings[id], room, readAt);
    }
    forall t
      ensures |Covering(CountedRows(after, room, Some(readAt)), t)| <= after.rooms[room].totalUnits
    {
      assert Covering(CountedRows(after, room, Some(readAt)), t) == {};
    }
  }

  lemma FreshIdExcludesNothing(db: Db, room: RoomId, p: Period, id: BookingId)
    requires id !in db.bookings
    ensures OverlapRows(db, room, p, Some(id)) == OverlapRows(db, room, p, None)
  {
  }

  /** One operation keeps the room within capacity, whatever it is and whatever it answers. */
  lemma PerformKeepsCapacity(db: Db, op: Op, room: RoomId, mark: Option<Instant>)
    requires WellFormed(db) && RoomWithinCapacity(db, room, mark)
    requires Perform(db, op).1.Created? || Perform(db, op).1.RoomAdded? ==> Fresh(db, op)
    requires op.ChangeRoom? && op.room == room && room in db.rooms && Perform(db, op).1.RoomChanged? ==>
               !Reduces(db.rooms[room], op.units)
    ensures RoomWithinCapacity(Perform(db, op).0, room, mark)
  {
    var after := Perform(db, op).0;
    if op.Create? && Perform(db, op).1.Created? {
      FreshIdExcludesNothing(db, op.room, op.period, op.newId);
      var row := Booking(op.room, op.user, op.period, Active);
      if op.room == room {
        AdmittedBookingFits(db, room, mark, op.newId, row);
      } else {
        OtherRoomUntouched(db, op.newId, row, room, mark);
      }
    } else if op.Update? && Perform(db, op).1.Updated? {
      var stored := db.bookings[op.booking];
      var row := stored.(period := EffectivePeriod(stored.period, op.newStart, op.newEnd));
      if row.roomId == room {
        AdmittedBookingFits(db, room, mark, op.booking, row);
      } else {
        OtherRoomUntouched(db, op.booking, row, room, mark);
      }
    } else if op.AddRoom? && op.newRoom == room {
      forall t
        ensures |Covering(CountedRows(after, room, mark), t)| <= after.rooms[room].totalUnits
      {
        CoveringGrows(CountedRows(after, room, mark), map[], {}, t);
      }
    } else if room in db.rooms {
      ReliefKeepsCapacity(db, after, room, mark);
    }
  }

  /**
   Capacity: in every history, for every room and every instant, the active bookings that end after the
   room's last reduction and contain the instant number at most its units.
   */
  lemma {:induction false} HistoryWithinCapacity(log: History, room: RoomId)
    requires Legal(log)
    ensures RoomWithinCapacity(Replay(log), room, LastReduction(log, room))
  {
    if |log| > 0 {
      var prefix, last := log[..|log| - 1], log[|log| - 1];
      var before := Replay(prefix);
      HistoryWithinCapacity(prefix, room);
      HistoryWellFormed(prefix);
      if IsReduction(log, |log| - 1, room) {
        ReductionCountsNothing(before, room, last.op.units, last.op.readAt);
      } else {
        PerformKeepsCapacity(before, last.op, room, LastReduction(prefix, room));
      }
    }
  }

  // ---------- consequences ----------

  /** The room's active bookings in use at t, finished or not. */
  function ActiveRows(db: Db, room: RoomId): map<BookingId, Booking> {
    CountedRows(db, room, None)
  }

  /** From the last reduction on, no instant is overbooked. */
  lemma NotOverbookedSinceReduction(log: History, room: RoomId, t: Instant)
    requires Legal(log) && room in Replay(log).rooms
    requires LastReduction(log, room).Some? ==> LastReduction(log, room).value <= t
    ensures |Covering(ActiveRows(Replay(log), room), t)| <= Replay(log).rooms[room].totalUnits
  {
    HistoryWithinCapacity(log, room);
    var counted := CountedRows(Replay(log), room, LastReduction(log, room));
    CoveringGrows(ActiveRows(Replay(log), room), counted, {}, t);
  }

  /** Every booking that ends after the last reduction can keep one unit of its room for its whole stay. */
  lemma UnitsCanBeHandedOut(log: History, room: RoomId)
    requires Legal(log) && room in Replay(log).rooms
    ensures exists unit :: Units.Assigns(CountedRows(Replay(log), room, LastReduction(log, room)),
                                         Replay(log).rooms[room].totalUnits, unit)
  {
    HistoryWithinCapacity(log, room);
    HistoryWellFormed(log);
    Units.AssignableIffWithinCapacity(CountedRows(Replay(log), room, LastReduction(log, room)),
                                      Replay(log).rooms[room].totalUnits);
  }

  /** A stay inside one's own booking is never refused for lack of units. */
  lemma OwnPeriodIsFree(log: History, id: BookingId, q: Period, now: Instant)
    requires Legal(log) && id in Replay(log).bookings && Replay(log).bookings[id].status.Active?
    requires var b := Replay(log).bookings[id]; b.period.start <= q.start && q.end <= b.period.end
    requires ValidPeriod(q, now)
    requires var mark := LastReduction(log, Replay(log).bookings[id].roomId); mark.Some? ==> mark.value <= now
    ensures var room := Replay(log).bookings[id].roomId;
            room in Replay(log).rooms &&
            RoomAvailable(Replay(log), room, Replay(log).rooms[room].totalUnits, q, Some(id))
  {
    var db := Replay(log);
    var room := db.bookings[id].roomId;
    var rows := OverlapRows(db, room, q, Some(id));
    HistoryWellFormed(log);
    forall t | q.Contains(t)
      ensures |Covering(rows, t)| < db.rooms[room].totalUnits
    {
      NotOverbookedSinceReduction(log, room, t);
      assert id !in Covering(rows, t) && id in Covering(ActiveRows(db, room), t);
      forall k | k in Covering(rows, t)
        ensures k in Covering(ActiveRows(db, room), t)
      {
        assert k in rows;
      }
      SubsetSize(Covering(rows, t) + {id}, Covering(ActiveRows(db, room), t));
    }
    assert q.Contains(q.start);
    assert |Covering(rows, q.start)| < db.rooms[room].totalUnits;
  }

  /** Narrowing an active booking of an open room to a valid sub-period always succeeds. */
  lemma NarrowingSucceeds(log: History, id: BookingId, q: Period, now: Instant)
    requires Legal(log) && id in Replay(log).bookings && Replay(log).bookings[id].status.Active?
    requires var b := Replay(log).bookings[id]; b.period.start <= q.start && q.end <= b.period.end
    requires var room := Replay(log).bookings[id].roomId; room in Replay(log).rooms ==> Replay(log).rooms[room].isActive
    requires ValidPeriod(q, now)
    requires var mark := LastReduction(log, Replay(log).bookings[id].roomId); mark.Some? ==> mark.value <= now
    ensures Perform(Replay(log), Update(id, Some(q.start), Some(q.end), now)) ==
            (WithBooking(Replay(log), id, Replay(log).bookings[id].(period := q)), Updated)
  {
    OwnPeriodIsFree(log, id, q, now);
    assert EffectivePeriod(Replay(log).bookings[id].period, Some(q.start), Some(q.end)) == q;
  }

  /** Right after a cancel, anybody can book any valid part of the period it gave back. */
  lemma RebookingSucceeds(log: History, id: BookingId, requester: UserId, privileged: bool,
                          user: UserId, q: Period, now: Instant, newId: BookingId)
    requires Legal(log) && id in Replay(log).bookings
    requires Perform(Replay(log), Cancel(id, requester, privileged)).1 == CancelDone(true)
    requires var b := Replay(log).bookings[id]; b.period.start <= q.start && q.end <= b.period.end
    requires var room := Replay(log).bookings[id].roomId; room in Replay(log).rooms ==> Replay(log).rooms[room].isActive
    requires ValidPeriod(q, now)
    requires var mark := LastReduction(log, Replay(log).bookings[id].roomId); mark.Some? ==> mark.value <= now
    ensures var cancelled := Perform(Replay(log), Cancel(id, requester, privileged)).0;
            var room := Replay(log).bookings[id].roomId;
            Perform(cancelled, Create(room, user, q, now, newId)) ==
            (WithBooking(cancelled, newId, Booking(room, user, q, Active)), Created(newId))
  {
    var db := Replay(log);
    var cancelled := Perform(db, Cancel(id, requester, privileged)).0;
    var room := db.bookings[id].roomId;
    OwnPeriodIsFree(log, id, q, now);
    FewerRowsStayAvailable(OverlapRows(cancelled, room, q, None), OverlapRows(db, room, q, Some(id)),
                           db.rooms[room].totalUnits, q);
  }
}
