/**
 What each booking and room transaction does when it runs alone, and histories of them.
 Clock readings and generated ids are arguments; `readAt` is the reading the code compared with.
 */
module Operations {
  import opened Bookings

  type TxId = int

  datatype Op =
    | Create(room: RoomId, user: UserId, period: Period, readAt: Instant, newId: BookingId)
    | Update(booking: BookingId, newStart: Option<Instant>, newEnd: Option<Instant>, readAt: Instant)
    | Cancel(booking: BookingId, requester: UserId, privileged: bool)
    | ChangeRoom(room: RoomId, units: Option<nat>, readAt: Instant)
    | Archive(room: RoomId)
    | AddRoom(newRoom: RoomId, initialUnits: nat)
    | Complete(readAt: Instant, ids: set<BookingId>)

  datatype Outcome =
    | Created(id: BookingId)
    | Updated
    | CancelDone(changed: bool)
    | RoomChanged
    | RoomArchived
    | RoomAdded(room: RoomId)
    | Swept(count: nat)
    | NotFound
    | Forbidden
    | Conflict
    | InvalidPeriod

  // ---------- the pieces both the serial code and the protocol use ----------

  function WithBooking(db: Db, id: BookingId, row: Booking): Db {
    db.(bookings := db.bookings[id := row])
  }

  function WithRoom(db: Db, id: RoomId, row: Room): Db {
    db.(rooms := db.rooms[id := row])
  }

  /** The period after an update: fields left out keep their stored value. */
  function EffectivePeriod(stored: Period, newStart: Option<Instant>, newEnd: Option<Instant>): Period {
    Period(if newStart.Some? then newStart.value else stored.start, if newEnd.Some? then newEnd.value else stored.end)
  }

  predicate MayCancel(b: Booking, requester: UserId, privileged: bool) {
    b.userId == requester || privileged
  }

  /** The filter of the completion sweep. */
  predicate Finished(b: Booking, now: Instant) {
    b.period.end < now && b.status.Active?
  }

  function FinishedRows(db: Db, now: Instant): set<BookingId> {
    set id | id in db.bookings && Finished(db.bookings[id], now)
  }

  function CompleteRows(db: Db, ids: set<BookingId>): Db {
    db.(bookings := map id | id in db.bookings ::
      if id in ids then db.bookings[id].(status := Completed) else db.bookings[id])
  }

  predicate Reduces(room: Room, units: Option<nat>) {
    units.Some? && units.value < room.totalUnits
  }

  /** What the reduction guard looks for. */
  ghost predicate HasUnfinished(db: Db, room: RoomId, now: Instant) {
    exists id :: id in db.bookings && Unfinished(db.bookings[id], room, now)
  }

  predicate Unfinished(b: Booking, room: RoomId, now: Instant) {
    b.roomId == room && b.status.Active? && now < b.period.end
  }

  function Resized(room: Room, units: Option<nat>): Room {
    if units.Some? then room.(totalUnits := units.value) else room
  }

  // ---------- whole transactions, run alone ----------

  ghost function PerformCreate(db: Db, op: Op): (Db, Outcome)
    requires op.Create?
  {
    if !ValidPeriod(op.period, op.readAt) then (db, InvalidPeriod)
    else if op.room !in db.rooms || !db.rooms[op.room].isActive then (db, NotFound)
    else if !RoomAvailable(db, op.room, db.rooms[op.room].totalUnits, op.period, None) then (db, Conflict)
    else (WithBooking(db, op.newId, Booking(op.room, op.user, op.period, Active)), Created(op.newId))
  }

  ghost function PerformUpdate(db: Db, op: Op): (Db, Outcome)
    requires op.Update?
  {
    if op.booking !in db.bookings then (db, NotFound)
    else
      var row := db.bookings[op.booking];
      if !row.status.Active? then (db, Conflict)
      else if row.roomId !in db.rooms || !db.rooms[row.roomId].isActive then (db, NotFound)
      else
        var period := EffectivePeriod(row.period, op.newStart, op.newEnd);
        if !ValidPeriod(period, op.readAt) then (db, InvalidPeriod)
        else if !RoomAvailable(db, row.roomId, db.rooms[row.roomId].totalUnits, period, Some(op.booking))
        then (db, Conflict)
        else (WithBooking(db, op.booking, row.(period := period)), Updated)
  }

  function PerformCancel(db: Db, op: Op): (Db, Outcome)
    requires op.Cancel?
  {
    if op.booking !in db.bookings then (db, NotFound)
    else
      var row := db.bookings[op.booking];
      if !MayCancel(row, op.requester, op.privileged) then (db, Forbidden)
      else if row.status.Completed? then (db, Conflict)
      else if row.status.Cancelled? then (db, CancelDone(false))
      else if row.roomId !in db.rooms then (db, NotFound)
      else (WithBooking(db, op.booking, row.(status := Cancelled)), CancelDone(true))
  }

  ghost function PerformChangeRoom(db: Db, op: Op): (Db, Outcome)
    requires op.ChangeRoom?
  {
    if op.room !in db.rooms then (db, NotFound)
    else if Reduces(db.rooms[op.room], op.units) && HasUnfinished(db, op.room, op.readAt) then (db, Conflict)
    else (WithRoom(db, op.room, Resized(db.rooms[op.room], op.units)), RoomChanged)
  }

  ghost function Perform(db: Db, op: Op): (Db, Outcome) {
    match op
    case Create(_, _, _, _, _) => PerformCreate(db, op)
    case Update(_, _, _, _) => PerformUpdate(db, op)
    case Cancel(_, _, _) => PerformCancel(db, op)
    case ChangeRoom(_, _, _) => PerformChangeRoom(db, op)
    case Archive(room) =>
      if room !in db.rooms then (db, NotFound)
      else (WithRoom(db, room, db.rooms[room].(isActive := false)), RoomArchived)
    case AddRoom(room, units) =>
      (WithRoom(db, room, Room(units, true)), RoomAdded(room))
    case Complete(readAt, ids) =>
      var hit := FinishedRows(db, readAt) * ids;
      (CompleteRows(db, hit), Swept(|hit|))
  }

  // ---------- histories ----------

  /** A transaction that ran to its end, with what it answered. */
  datatype Entry = Entry(tx: TxId, op: Op, outcome: Outcome)

  type History = seq<Entry>

  /** Generated ids have not been used before. */
  predicate Fresh(db: Db, op: Op) {
    match op
    case Create(_, _, _, _, id) => id !in db.bookings
    case AddRoom(id, _) => id !in db.rooms
    case _ => true
  }

  /** The database after performing the operations one at a time, from nothing. */
  ghost function Replay(log: History): Db {
    if |log| == 0 then EMPTY_DB else Perform(Replay(log[..|log| - 1]), log[|log| - 1].op).0
  }

  /** Every answer is the one the operation gives when run alone at that point. */
  ghost predicate Legal(log: History) {
    |log| > 0 ==>
      var before := Replay(log[..|log| - 1]);
      var last := log[|log| - 1];
      && Legal(log[..|log| - 1])
      && Perform(before, last.op).1 == last.outcome
      && (last.outcome.Created? || last.outcome.RoomAdded? ==> Fresh(before, last.op))
  }

  lemma AppendEntry(log: History, e: Entry)
    requires Legal(log)
    requires Perform(Replay(log), e.op).1 == e.outcome
    requires e.outcome.Created? || e.outcome.RoomAdded? ==> Fresh(Replay(log), e.op)
    ensures Legal(log + [e])
    ensures Replay(log + [e]) == Perform(Replay(log), e.op).0
  {
    assert (log + [e])[..|log|] == log;
  }

  lemma {:induction false} PrefixLegal(log: History, i: nat)
    requires Legal(log) && i <= |log|
    ensures Legal(log[..i])
  {
    if i < |log| {
      PrefixLegal(log[..|log| - 1], i);
      assert log[..|log| - 1][..i] == log[..i];
    } else {
      assert log[..i] == log;
    }
  }

  /** One entry of a legal history, seen from the state just before it. */
  lemma EntryAt(log: History, i: nat)
    requires Legal(log) && i < |log|
    ensures Perform(Replay(log[..i]), log[i].op) == (Replay(log[..i + 1]), log[i].outcome)
    ensures log[i].outcome.Created? || log[i].outcome.RoomAdded? ==> Fresh(Replay(log[..i]), log[i].op)
  {
    PrefixLegal(log, i + 1);
    assert log[..i + 1][..i] == log[..i];
  }
}
