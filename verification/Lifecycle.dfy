/** What no history of operations can undo. */
module Lifecycle {
  import opened Bookings
  import opened Operations

  /** How a database may look later on. */
  ghost predicate Evolves(a: Db, b: Db) {
    // bookings stay, with their room and owner; a terminal status freezes the whole row
    && (forall id :: id in a.bookings ==>
          && id in b.bookings
          && b.bookings[id].roomId == a.bookings[id].roomId
          && b.bookings[id].userId == a.bookings[id].userId
          && (!a.bookings[id].status.Active? ==> b.bookings[id] == a.bookings[id]))
    // rooms stay, and no archived room comes back
    && (forall r :: r in a.rooms ==> r in b.rooms && (!a.rooms[r].isActive ==> !b.rooms[r].isActive))
    // an archived room gains no active booking, and those it has keep their period
    && (forall id :: id in b.bookings && b.bookings[id].status.Active? && Archived(a, b.bookings[id].roomId) ==>
          id in a.bookings && a.bookings[id] == b.bookings[id])
  }

  predicate Archived(db: Db, room: RoomId) {
    room in db.rooms && !db.rooms[room].isActive
  }

  lemma EvolvesTransitive(a: Db, b: Db, c: Db)
    requires Evolves(a, b) && Evolves(b, c)
    ensures Evolves(a, c)
  {
    forall id | id in a.bookings
      ensures id in c.bookings && c.bookings[id].roomId == a.bookings[id].roomId
      ensures c.bookings[id].userId == a.bookings[id].userId
      ensures !a.bookings[id].status.Active? ==> c.bookings[id] == a.bookings[id]
    {
      assert id in b.bookings;
    }
  }

  lemma PerformEvolves(db: Db, op: Op)
    requires Perform(db, op).1.Created? || Perform(db, op).1.RoomAdded? ==> Fresh(db, op)
    ensures Evolves(db, Perform(db, op).0)
  {
  }

  lemma PerformWellFormed(db: Db, op: Op)
    requires WellFormed(db)
    ensures WellFormed(Perform(db, op).0)
  {
  }

  lemma {:induction false} HistoryWellFormed(log: History)
    ensures WellFormed(Replay(log))
  {
    if |log| > 0 {
      HistoryWellFormed(log[..|log| - 1]);
      PerformWellFormed(Replay(log[..|log| - 1]), log[|log| - 1].op);
    }
  }

  /** Between any two points of any history only permitted changes happen. */
  lemma {:induction false} HistoryEvolves(log: History, i: nat, j: nat)
    requires Legal(log) && i <= j <= |log|
    ensures Evolves(Replay(log[..i]), Replay(log[..j]))
    decreases j
  {
    if i < j {
      HistoryEvolves(log, i, j - 1);
      EntryAt(log, j - 1);
      PerformEvolves(Replay(log[..j - 1]), log[j - 1].op);
      EvolvesTransitive(Replay(log[..i]), Replay(log[..j - 1]), Replay(log[..j]));
    }
  }

  /** Does this entry move the booking out of ACTIVE? */
  ghost predicate Ends(log: History, i: nat, id: BookingId)
    requires i < |log|
  {
    var before, after := Replay(log[..i]), Replay(log[..i + 1]);
    id in before.bookings && before.bookings[id].status.Active? &&
    id in after.bookings && !after.bookings[id].status.Active?
  }

  /** Racing cancels, updates and sweeps end a booking at most once. */
  lemma EndsAtMostOnce(log: History, i: nat, j: nat, id: BookingId)
    requires Legal(log) && i < j < |log|
    requires Ends(log, i, id)
    ensures !Ends(log, j, id)
  {
    HistoryEvolves(log, i + 1, j);
  }

  /** Of all cancel calls for one booking, at most one is told that it changed something. */
  lemma CancelChangesAtMostOnce(log: History, i: nat, j: nat, id: BookingId)
    requires Legal(log) && i < |log| && j < |log|
    requires log[i].op.Cancel? && log[i].op.booking == id && log[i].outcome == CancelDone(true)
    requires log[j].op.Cancel? && log[j].op.booking == id && log[j].outcome == CancelDone(true)
    ensures i == j
  {
    EntryAt(log, i);
    EntryAt(log, j);
    if i < j {
      EndsAtMostOnce(log, i, j, id);
    } else if j < i {
      EndsAtMostOnce(log, j, i, id);
    }
  }

  /**
   Why a booking ended: it was cancelled by its owner or by staff, in a call that was told so, or it was
   completed by a sweep whose clock reading was after its end.
   */
  ghost predicate Explains(op: Op, outcome: Outcome, id: BookingId, before: Booking, after: Status) {
    && (after.Cancelled? ==>
          && op.Cancel? && op.booking == id && outcome == CancelDone(true)
          && (op.requester == before.userId || op.privileged))
    && (after.Completed? ==> op.Complete? && id in op.ids && before.period.end < op.readAt)
  }

  lemma OperationExplains(db: Db, op: Op, id: BookingId)
    requires id in db.bookings && db.bookings[id].status.Active?
    requires Perform(db, op).1.Created? || Perform(db, op).1.RoomAdded? ==> Fresh(db, op)
    ensures var (after, outcome) := Perform(db, op);
            id in after.bookings && Explains(op, outcome, id, db.bookings[id], after.bookings[id].status)
  {
  }

  lemma WhyItEnded(log: History, i: nat, id: BookingId)
    requires Legal(log) && i < |log| && Ends(log, i, id)
    ensures var before, after := Replay(log[..i]).bookings[id], Replay(log[..i + 1]).bookings[id];
            Explains(log[i].op, log[i].outcome, id, before, after.status)
  {
    EntryAt(log, i);
    OperationExplains(Replay(log[..i]), log[i].op, id);
  }

  /** In an archived room cancellation by an entitled caller and completion keep working. */
  lemma ArchivedRoomsStillDrain(db: Db, id: BookingId, requester: UserId, privileged: bool, now: Instant)
    requires WellFormed(db) && id in db.bookings && db.bookings[id].status.Active?
    requires Archived(db, db.bookings[id].roomId) && MayCancel(db.bookings[id], requester, privileged)
    ensures var (after, outcome) := Perform(db, Cancel(id, requester, privileged));
            outcome == CancelDone(true) && id in after.bookings && after.bookings[id].status.Cancelled?
    ensures var after := Perform(db, Complete(now, {id})).0;
            id in after.bookings &&
            (after.bookings[id].status.Completed? <==> db.bookings[id].period.end < now)
  {
  }

  /**
   What a granted request wrote. Every period was proper and not in the past of the clock reading it was
   checked against; an update keeps the ends it was not given; a room keeps what it was not told to change.
   */
  ghost predicate Wrote(op: Op, outcome: Outcome, before: Db, after: Db) {
    && (outcome.Created? ==>
          op.Create? && op.newId in after.bookings && after.bookings[op.newId].status.Active? &&
          after.bookings[op.newId].roomId == op.room && after.bookings[op.newId].userId == op.user &&
          after.bookings[op.newId].period == op.period && ValidPeriod(op.period, op.readAt))
    && (outcome.Updated? ==>
          op.Update? && op.booking in before.bookings && op.booking in after.bookings &&
          after.bookings[op.booking].status.Active? &&
          KeptOrGiven(before.bookings[op.booking].period.start, after.bookings[op.booking].period.start, op.newStart) &&
          KeptOrGiven(before.bookings[op.booking].period.end, after.bookings[op.booking].period.end, op.newEnd) &&
          ValidPeriod(after.bookings[op.booking].period, op.readAt))
    && (outcome.RoomChanged? ==>
          op.ChangeRoom? && op.room in before.rooms && op.room in after.rooms &&
          KeptOrGiven(before.rooms[op.room].totalUnits, after.rooms[op.room].totalUnits, op.units) &&
          after.rooms[op.room].isActive == before.rooms[op.room].isActive)
  }

  predicate KeptOrGiven(before: int, after: int, given: Option<int>) {
    if given.Some? then after == given.value else after == before
  }

  lemma OperationWrites(db: Db, op: Op)
    ensures Wrote(op, Perform(db, op).1, db, Perform(db, op).0)
  {
  }

  lemma GrantedRequestsWrite(log: History, i: nat)
    requires Legal(log) && i < |log|
    ensures Wrote(log[i].op, log[i].outcome, Replay(log[..i]), Replay(log[..i + 1]))
  {
    EntryAt(log, i);
    OperationWrites(Replay(log[..i]), log[i].op);
  }

  predicate Refused(outcome: Outcome) {
    outcome.NotFound? || outcome.Forbidden? || outcome.Conflict? || outcome.InvalidPeriod? ||
    outcome == CancelDone(false)
  }

  predicate NamesBooking(op: Op, id: BookingId) {
    match op
    case Create(_, _, _, _, newId) => newId == id
    case Update(booking, _, _, _) => booking == id
    case Cancel(booking, _, _) => booking == id
    case Complete(_, ids) => id in ids
    case _ => false
  }

  predicate NamesRoom(op: Op, room: RoomId) {
    match op
    case ChangeRoom(r, _, _) => r == room
    case Archive(r) => r == room
    case AddRoom(r, _) => r == room
    case _ => false
  }

  /** A refused request changes nothing, a granted one nothing but the rows it names. */
  ghost predicate TouchesOnly(op: Op, outcome: Outcome, before: Db, after: Db) {
    && (Refused(outcome) ==> after == before)
    && (forall id :: !NamesBooking(op, id) ==>
          (id in after.bookings <==> id in before.bookings) &&
          (id in before.bookings ==> id in after.bookings && after.bookings[id] == before.bookings[id]))
    && (forall room :: !NamesRoom(op, room) ==>
          (room in after.rooms <==> room in before.rooms) &&
          (room in before.rooms ==> room in after.rooms && after.rooms[room] == before.rooms[room]))
  }

  lemma OperationTouches(db: Db, op: Op)
    ensures TouchesOnly(op, Perform(db, op).1, db, Perform(db, op).0)
  {
  }

  lemma OthersUntouched(log: History, i: nat)
    requires Legal(log) && i < |log|
    ensures TouchesOnly(log[i].op, log[i].outcome, Replay(log[..i]), Replay(log[..i + 1]))
  {
    EntryAt(log, i);
    OperationTouches(Replay(log[..i]), log[i].op);
  }
}
