/**
 What every booking and room request answers and writes, in terms of the rows alone: for each answer the exact
 condition under which it is given.
 */
module Answers {
  import opened Bookings
  import opened Operations
  import Lifecycle

  /** The room's active bookings, one left out perhaps, that are in use at t. */
  function InUse(db: Db, room: RoomId, t: Instant, exclude: Option<BookingId>): set<BookingId> {
    set id | id in db.bookings && db.bookings[id].roomId == room && db.bookings[id].status == Active
             && db.bookings[id].period.start <= t < db.bookings[id].period.end && exclude != Some(id)
  }

  /** At every instant of the stay a unit is left. */
  ghost predicate UnitFree(db: Db, room: RoomId, start: Instant, end: Instant, exclude: Option<BookingId>)
    requires room in db.rooms
  {
    forall t :: start <= t < end ==> |InUse(db, room, t, exclude)| < db.rooms[room].totalUnits
  }

  predicate Open(db: Db, room: RoomId) {
    room in db.rooms && db.rooms[room].isActive
  }

  /** Inside the period the overlap filter loses nothing. */
  lemma OverlapRowsInUse(db: Db, room: RoomId, p: Period, exclude: Option<BookingId>, t: Instant)
    requires p.start <= t < p.end
    ensures Covering(OverlapRows(db, room, p, exclude), t) == InUse(db, room, t, exclude)
  {
    forall id
      ensures id in Covering(OverlapRows(db, room, p, exclude), t) <==> id in InUse(db, room, t, exclude)
    {
    }
  }

  /** The capacity check decides whether a unit is free, for a period that is not empty. */
  lemma UnitFreeIsChecked(db: Db, room: RoomId, p: Period, exclude: Option<BookingId>)
    requires room in db.rooms && p.start < p.end
    ensures RoomAvailable(db, room, db.rooms[room].totalUnits, p, exclude) <==>
            UnitFree(db, room, p.start, p.end, exclude)
  {
    forall t | p.start <= t < p.end
      ensures Covering(OverlapRows(db, room, p, exclude), t) == InUse(db, room, t, exclude)
    {
      OverlapRowsInUse(db, room, p, exclude, t);
    }
    if UnitFree(db, room, p.start, p.end, exclude) {
      assert |InUse(db, room, p.start, exclude)| < db.rooms[room].totalUnits;
    }
    if RoomAvailable(db, room, db.rooms[room].totalUnits, p, exclude) {
      forall t | p.start <= t < p.end
        ensures |InUse(db, room, t, exclude)| < db.rooms[room].totalUnits
      {
        assert p.Contains(t);
      }
    }
  }

  // ---------- the exact answers ----------

  ghost predicate CreateExact(op: Op, outcome: Outcome, before: Db, after: Db)
    requires op.Create?
  {
    var start, end := op.period.start, op.period.end;
    && (outcome.InvalidPeriod? <==> end <= start || start < op.readAt)
    && (outcome.NotFound? <==> start < end && op.readAt <= start && !Open(before, op.room))
    && (outcome.Conflict? <==>
          start < end && op.readAt <= start && Open(before, op.room) && !UnitFree(before, op.room, start, end, None))
    && (outcome == Created(op.newId) <==>
          start < end && op.readAt <= start && Open(before, op.room) && UnitFree(before, op.room, start, end, None))
    && after == if outcome.Created?
                then
                  var row := Booking(op.room, op.user, Period(start, end), Active);
                  before.(bookings := before.bookings[op.newId := row])
                else before
  }

  ghost predicate UpdateExact(op: Op, outcome: Outcome, before: Db, after: Db)
    requires op.Update?
  {
    if op.booking !in before.bookings then outcome.NotFound? && after == before
    else
      var row := before.bookings[op.booking];
      var start := if op.newStart.Some? then op.newStart.value else row.period.start;
      var end := if op.newEnd.Some? then op.newEnd.value else row.period.end;
      var movable := row.status == Active && Open(before, row.roomId);
      && (outcome.NotFound? <==> row.status == Active && !Open(before, row.roomId))
      && (outcome.InvalidPeriod? <==> movable && (end <= start || start < op.readAt))
      && (outcome.Conflict? <==>
            row.status != Active ||
            (movable && start < end && op.readAt <= start &&
             !UnitFree(before, row.roomId, start, end, Some(op.booking))))
      && (outcome.Updated? <==>
            movable && start < end && op.readAt <= start &&
            UnitFree(before, row.roomId, start, end, Some(op.booking)))
      && after == if outcome.Updated?
                  then before.(bookings := before.bookings[op.booking := row.(period := Period(start, end))])
                  else before
  }

  predicate CancelExact(op: Op, outcome: Outcome, before: Db, after: Db)
    requires op.Cancel?
  {
    if op.booking !in before.bookings then outcome.NotFound? && after == before
    else
      var row := before.bookings[op.booking];
      var entitled := row.userId == op.requester || op.privileged;
      && (outcome.Forbidden? <==> !entitled)
      && (outcome.Conflict? <==> entitled && row.status == Status.Completed)
      && (outcome == CancelDone(false) <==> entitled && row.status == Cancelled)
      && (outcome == CancelDone(true) <==> entitled && row.status == Active)
      && after == if outcome == CancelDone(true)
                  then before.(bookings := before.bookings[op.booking := row.(status := Cancelled)])
                  else before
  }

  ghost predicate ChangeRoomExact(op: Op, outcome: Outcome, before: Db, after: Db)
    requires op.ChangeRoom?
  {
    if op.room !in before.rooms then outcome.NotFound? && after == before
    else
      var row := before.rooms[op.room];
      var blocked := op.units.Some? && op.units.value < row.totalUnits &&
                     exists id :: id in before.bookings && before.bookings[id].roomId == op.room &&
                       before.bookings[id].status == Active && op.readAt < before.bookings[id].period.end;
      && (outcome.Conflict? <==> blocked)
      && (outcome.RoomChanged? <==> !blocked)
      && after == if outcome.RoomChanged? && op.units.Some?
                  then before.(rooms := before.rooms[op.room := Room(op.units.value, row.isActive)])
                  else before
  }

  predicate ArchiveExact(op: Op, outcome: Outcome, before: Db, after: Db)
    requires op.Archive?
  {
    if op.room !in before.rooms then outcome.NotFound? && after == before
    else
      outcome.RoomArchived? &&
      after == before.(rooms := before.rooms[op.room := Room(before.rooms[op.room].totalUnits, false)])
  }

  predicate AddRoomExact(op: Op, outcome: Outcome, before: Db, after: Db)
    requires op.AddRoom?
  {
    && outcome == RoomAdded(op.newRoom)
    && after == before.(rooms := before.rooms[op.newRoom := Room(op.initialUnits, true)])
  }

  /** Of the rows named, those that are active and over become completed; nothing else changes. */
  ghost predicate CompleteExact(op: Op, outcome: Outcome, before: Db, after: Db)
    requires op.Complete?
  {
    var over := set id | id in op.ids && id in before.bookings && before.bookings[id].status == Active &&
                         before.bookings[id].period.end < op.readAt;
    && outcome == Swept(|over|) && after.rooms == before.rooms && after.bookings.Keys == before.bookings.Keys
    && forall id :: id in before.bookings ==>
         var row := before.bookings[id];
         after.bookings[id] ==
           if id in over then Booking(row.roomId, row.userId, row.period, Status.Completed) else row
  }

  ghost predicate Exact(op: Op, outcome: Outcome, before: Db, after: Db) {
    match op
    case Create(_, _, _, _, _) => CreateExact(op, outcome, before, after)
    case Update(_, _, _, _) => UpdateExact(op, outcome, before, after)
    case Cancel(_, _, _) => CancelExact(op, outcome, before, after)
    case ChangeRoom(_, _, _) => ChangeRoomExact(op, outcome, before, after)
    case Archive(_) => ArchiveExact(op, outcome, before, after)
    case AddRoom(_, _) => AddRoomExact(op, outcome, before, after)
    case Complete(_, _) => CompleteExact(op, outcome, before, after)
  }

  lemma CreateAnswersExactly(db: Db, op: Op)
    requires op.Create?
    ensures CreateExact(op, Perform(db, op).1, db, Perform(db, op).0)
  {
    if op.room in db.rooms && op.period.start < op.period.end {
      UnitFreeIsChecked(db, op.room, op.period, None);
    }
  }

  lemma UpdateAnswersExactly(db: Db, op: Op)
    requires op.Update?
    ensures UpdateExact(op, Perform(db, op).1, db, Perform(db, op).0)
  {
    if op.booking in db.bookings {
      var row := db.bookings[op.booking];
      var p := EffectivePeriod(row.period, op.newStart, op.newEnd);
      if row.roomId in db.rooms && p.start < p.end {
        UnitFreeIsChecked(db, row.roomId, p, Some(op.booking));
      }
    }
  }

  lemma ChangeRoomAnswersExactly(db: Db, op: Op)
    requires op.ChangeRoom?
    ensures ChangeRoomExact(op, Perform(db, op).1, db, Perform(db, op).0)
  {
    if op.room in db.rooms {
      assert db.rooms[op.room := db.rooms[op.room]] == db.rooms;
      if id :| id in db.bookings && Unfinished(db.bookings[id], op.room, op.readAt) {
        assert db.bookings[id].roomId == op.room && db.bookings[id].status == Active;
      }
      if id :| id in db.bookings && db.bookings[id].roomId == op.room && db.bookings[id].status == Active &&
               op.readAt < db.bookings[id].period.end {
        assert Unfinished(db.bookings[id], op.room, op.readAt);
      }
    }
  }

  lemma CompleteAnswersExactly(db: Db, op: Op)
    requires op.Complete?
    ensures CompleteExact(op, Perform(db, op).1, db, Perform(db, op).0)
  {
    var over := set id | id in op.ids && id in db.bookings && db.bookings[id].status == Active &&
                         db.bookings[id].period.end < op.readAt;
    assert forall id :: id in over <==> id in FinishedRows(db, op.readAt) * op.ids;
    assert over == FinishedRows(db, op.readAt) * op.ids;
  }

  /** Every operation, run alone on a database that keeps the schema's constraints. */
  lemma AnswersExactly(db: Db, op: Op)
    requires WellFormed(db)
    ensures Exact(op, Perform(db, op).1, db, Perform(db, op).0)
  {
    match op
    case Create(_, _, _, _, _) => CreateAnswersExactly(db, op);
    case Update(_, _, _, _) => UpdateAnswersExactly(db, op);
    case ChangeRoom(_, _, _) => ChangeRoomAnswersExactly(db, op);
    case Complete(_, _) => CompleteAnswersExactly(db, op);
    case _ =>
  }

  /** Every entry of every history. */
  lemma HistoryAnswersExactly(log: History, i: nat)
    requires Legal(log) && i < |log|
    ensures Exact(log[i].op, log[i].outcome, Replay(log[..i]), Replay(log[..i + 1]))
  {
    EntryAt(log, i);
    Lifecycle.HistoryWellFormed(log[..i]);
    AnswersExactly(Replay(log[..i]), log[i].op);
  }

  // ---------- archiving ----------

  /** The entry books the room, or moves a booking of it. */
  ghost predicate BooksRoom(log: History, j: nat, room: RoomId)
    requires j < |log|
  {
    var op, rows := log[j].op, Replay(log[..j]).bookings;
    || (op.Create? && op.room == room && log[j].outcome.Created?)
    || (op.Update? && op.booking in rows && rows[op.booking].roomId == room && log[j].outcome.Updated?)
  }

  /** Archiving closes the room and keeps its units; after it no booking is made in the room or moved, ever. */
  lemma ArchivedForGood(log: History, i: nat, j: nat, room: RoomId)
    requires Legal(log) && i < j < |log| && log[i].op == Archive(room) && log[i].outcome.RoomArchived?
    ensures room in Replay(log[..i]).rooms && room in Replay(log[..i + 1]).rooms
    ensures Replay(log[..i + 1]).rooms[room] == Room(Replay(log[..i]).rooms[room].totalUnits, false)
    ensures !Open(Replay(log[..j]), room) && !BooksRoom(log, j, room)
  {
    HistoryAnswersExactly(log, i);
    Lifecycle.HistoryEvolves(log, i + 1, j);
    HistoryAnswersExactly(log, j);
  }
}
