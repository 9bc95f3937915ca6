/**
 The interleaved protocol: transactions that take row locks, read, decide, write and commit step by step.
 Statements see the last committed rows; a lock that somebody else holds blocks until it is released, and
 the row is read again once it is granted. Writes become visible, and locks are released, on commit.
 */
module Protocol {
  import opened Bookings
  import opened Operations

  datatype Request =
    | CreateReq(room: RoomId, user: UserId, period: Period)
    | UpdateReq(booking: BookingId, newStart: Option<Instant>, newEnd: Option<Instant>)
    | CancelReq(booking: BookingId, requester: UserId, privileged: bool)
    | ChangeRoomReq(room: RoomId, units: Option<nat>)
    | ArchiveReq(room: RoomId)
    | AddRoomReq(initialUnits: nat)
    | CompleteReq

  /** Where a transaction is, with the rows it has locked and read and the snapshot it has taken. */
  datatype Pc =
    | Start
    // create
    | PeriodChecked(readAt: Instant)
    | CreateRoomLocked(readAt: Instant, room: Room)
    | CreateAdmitted(readAt: Instant, room: Room, snapshot: map<BookingId, Booking>)
    // update
    | UpdateBookingLocked(row: Booking)
    | UpdateRoomLocked(row: Booking, room: Room)
    | UpdatePeriodChecked(row: Booking, room: Room, readAt: Instant)
    | UpdateAdmitted(row: Booking, room: Room, readAt: Instant, snapshot: map<BookingId, Booking>)
    // cancel
    | CancelBookingLocked(row: Booking)
    | CancelRoomLocked(row: Booking)
    // change and archive a room
    | ChangeRoomLocked(room: Room)
    | ReductionClockRead(room: Room, readAt: Instant)
    | ChangeAllowed(room: Room, readAt: Instant)
    | ArchiveRoomLocked(room: Room)
    // complete finished bookings
    | SweepClockRead(readAt: Instant)
    | Sweeping(readAt: Instant, found: set<BookingId>, todo: seq<BookingId>, marked: set<BookingId>)
    // over
    | Done(outcome: Outcome)
    | RolledBack

  datatype Tx = Tx(req: Request, pc: Pc) {
    predicate Over() {
      pc.Done? || pc.RolledBack?
    }
  }

  datatype State = State(
    db: Db,
    clock: Instant,
    roomLock: map<RoomId, TxId>,
    bookingLock: map<BookingId, TxId>,
    txs: map<TxId, Tx>,
    log: History)

  /** `pick` is a generated id, `order` the order in which the sweep's statement visits its rows. */
  datatype Action =
    | Tick(elapsed: nat)
    | Begin(tx: TxId, req: Request)
    | Step(tx: TxId, pick: int, order: seq<BookingId>)
    | Fail(tx: TxId)

  function Init(clock: Instant): State {
    State(EMPTY_DB, clock, map[], map[], map[], [])
  }

  // ---------- what a step can do to the state ----------

  /** Move on, lock a row and move on, or answer: commit `db` (or give up with the database as it was). */
  datatype Effect =
    | Goto(pc: Pc)
    | LockRoom(room: RoomId, pc: Pc)
    | LockBooking(booking: BookingId, pc: Pc)
    | Answer(op: Op, outcome: Outcome, db: Db)

  function SetPc(s: State, tx: TxId, pc: Pc): State
    requires tx in s.txs
  {
    s.(txs := s.txs[tx := s.txs[tx].(pc := pc)])
  }

  function Released(locks: map<int, TxId>, tx: TxId): map<int, TxId> {
    map k | k in locks && locks[k] != tx :: locks[k]
  }

  /** The transaction is over and its locks are gone. */
  function Leave(s: State, tx: TxId, pc: Pc): State
    requires tx in s.txs
  {
    SetPc(s.(roomLock := Released(s.roomLock, tx), bookingLock := Released(s.bookingLock, tx)), tx, pc)
  }

  function Apply(s: State, tx: TxId, e: Effect): State
    requires tx in s.txs
  {
    match e
    case Goto(pc) => SetPc(s, tx, pc)
    case LockRoom(room, pc) => SetPc(s.(roomLock := s.roomLock[room := tx]), tx, pc)
    case LockBooking(id, pc) => SetPc(s.(bookingLock := s.bookingLock[id := tx]), tx, pc)
    case Answer(op, outcome, db) =>
      Leave(s, tx, Done(outcome)).(db := db, log := s.log + [Entry(tx, op, outcome)])
  }

  // ---------- one step of each kind of transaction; None when it has to wait ----------

  ghost function StepCreate(s: State, tx: TxId, room: RoomId, user: UserId, p: Period, pick: int): Option<Effect>
    requires tx in s.txs
  {
    match s.txs[tx].pc
    case Start =>
      if !ValidPeriod(p, s.clock) then Some(Answer(Create(room, user, p, s.clock, pick), InvalidPeriod, s.db))
      else Some(Goto(PeriodChecked(s.clock)))
    case PeriodChecked(readAt) =>
      if room in s.roomLock then None
      else if room !in s.db.rooms || !s.db.rooms[room].isActive then
        Some(Answer(Create(room, user, p, readAt, pick), NotFound, s.db))
      else Some(LockRoom(room, CreateRoomLocked(readAt, s.db.rooms[room])))
    case CreateRoomLocked(readAt, row) =>
      var snapshot := OverlapRows(s.db, room, p, None);
      if RowsAvailable(snapshot, row.totalUnits, p) then Some(Goto(CreateAdmitted(readAt, row, snapshot)))
      else Some(Answer(Create(room, user, p, readAt, pick), Conflict, s.db))
    case CreateAdmitted(readAt, _, _) =>
      if pick in s.db.bookings then None
      else
        var db := WithBooking(s.db, pick, Booking(room, user, p, Active));
        Some(Answer(Create(room, user, p, readAt, pick), Created(pick), db))
    case _ => None
  }

  ghost function StepUpdate(s: State, tx: TxId, id: BookingId, newStart: Option<Instant>, newEnd: Option<Instant>)
    : Option<Effect>
    requires tx in s.txs
  {
    match s.txs[tx].pc
    case Start =>
      if id in s.bookingLock then None
      else if id !in s.db.bookings then Some(Answer(Update(id, newStart, newEnd, s.clock), NotFound, s.db))
      else if !s.db.bookings[id].status.Active? then
        Some(Answer(Update(id, newStart, newEnd, s.clock), Conflict, s.db))
      else Some(LockBooking(id, UpdateBookingLocked(s.db.bookings[id])))
    case UpdateBookingLocked(row) =>
      if row.roomId in s.roomLock then None
      else if row.roomId !in s.db.rooms || !s.db.rooms[row.roomId].isActive then
        Some(Answer(Update(id, newStart, newEnd, s.clock), NotFound, s.db))
      else Some(LockRoom(row.roomId, UpdateRoomLocked(row, s.db.rooms[row.roomId])))
    case UpdateRoomLocked(row, room) =>
      if !ValidPeriod(EffectivePeriod(row.period, newStart, newEnd), s.clock) then
        Some(Answer(Update(id, newStart, newEnd, s.clock), InvalidPeriod, s.db))
      else Some(Goto(UpdatePeriodChecked(row, room, s.clock)))
    case UpdatePeriodChecked(row, room, readAt) =>
      var p := EffectivePeriod(row.period, newStart, newEnd);
      var snapshot := OverlapRows(s.db, row.roomId, p, Some(id));
      if RowsAvailable(snapshot, room.totalUnits, p) then Some(Goto(UpdateAdmitted(row, room, readAt, snapshot)))
      else Some(Answer(Update(id, newStart, newEnd, readAt), Conflict, s.db))
    case UpdateAdmitted(row, _, readAt, _) =>
      var db := WithBooking(s.db, id, row.(period := EffectivePeriod(row.period, newStart, newEnd)));
      Some(Answer(Update(id, newStart, newEnd, readAt), Updated, db))
    case _ => None
  }

  function StepCancel(s: State, tx: TxId, id: BookingId, requester: UserId, privileged: bool): Option<Effect>
    requires tx in s.txs
  {
    var op := Cancel(id, requester, privileged);
    match s.txs[tx].pc
    case Start =>
      if id in s.bookingLock then None
      else if id !in s.db.bookings then Some(Answer(op, NotFound, s.db))
      else
        var row := s.db.bookings[id];
        if !MayCancel(row, requester, privileged) then Some(Answer(op, Forbidden, s.db))
        else if row.status.Completed? then Some(Answer(op, Conflict, s.db))
        else if row.status.Cancelled? then Some(Answer(op, CancelDone(false), s.db))
        else Some(LockBooking(id, CancelBookingLocked(row)))
    case CancelBookingLocked(row) =>
      if row.roomId in s.roomLock then None
      else if row.roomId !in s.db.rooms then Some(Answer(op, NotFound, s.db))
      else Some(LockRoom(row.roomId, CancelRoomLocked(row)))
    case CancelRoomLocked(row) =>
      Some(Answer(op, CancelDone(true), WithBooking(s.db, id, row.(status := Cancelled))))
    case _ => None
  }

  ghost function StepChangeRoom(s: State, tx: TxId, room: RoomId, units: Option<nat>): Option<Effect>
    requires tx in s.txs
  {
    match s.txs[tx].pc
    case Start =>
      if room in s.roomLock then None
      else if room !in s.db.rooms then Some(Answer(ChangeRoom(room, units, s.clock), NotFound, s.db))
      else Some(LockRoom(room, ChangeRoomLocked(s.db.rooms[room])))
    case ChangeRoomLocked(row) =>
      if Reduces(row, units) then Some(Goto(ReductionClockRead(row, s.clock)))
      else Some(Goto(ChangeAllowed(row, s.clock)))
    case ReductionClockRead(row, readAt) =>
      if HasUnfinished(s.db, room, readAt) then Some(Answer(ChangeRoom(room, units, readAt), Conflict, s.db))
      else Some(Goto(ChangeAllowed(row, readAt)))
    case ChangeAllowed(row, readAt) =>
      Some(Answer(ChangeRoom(room, units, readAt), RoomChanged, WithRoom(s.db, room, Resized(row, units))))
    case _ => None
  }

  function StepArchive(s: State, tx: TxId, room: RoomId): Option<Effect>
    requires tx in s.txs
  {
    match s.txs[tx].pc
    case Start =>
      if room in s.roomLock then None
      else if room !in s.db.rooms then Some(Answer(Archive(room), NotFound, s.db))
      else Some(LockRoom(room, ArchiveRoomLocked(s.db.rooms[room])))
    case ArchiveRoomLocked(row) =>
      Some(Answer(Archive(room), RoomArchived, WithRoom(s.db, room, row.(isActive := false))))
    case _ => None
  }

  function StepAddRoom(s: State, tx: TxId, units: nat, pick: int): Option<Effect>
    requires tx in s.txs
  {
    match s.txs[tx].pc
    case Start =>
      if pick in s.db.rooms then None
      else Some(Answer(AddRoom(pick, units), RoomAdded(pick), WithRoom(s.db, pick, Room(units, true))))
    case _ => None
  }

  /** The rows the sweep's statement finds when it starts, each once, in the order it will visit them. */
  ghost predicate VisitOrder(db: Db, readAt: Instant, order: seq<BookingId>) {
    && (forall id :: id in order <==> id in db.bookings && Finished(db.bookings[id], readAt))
    && (forall i, j :: 0 <= i < j < |order| ==> order[i] != order[j])
  }

  ghost function StepComplete(s: State, tx: TxId, order: seq<BookingId>): Option<Effect>
    requires tx in s.txs
  {
    match s.txs[tx].pc
    case Start => Some(Goto(SweepClockRead(s.clock)))
    case SweepClockRead(readAt) =>
      if VisitOrder(s.db, readAt, order) then
        Some(Goto(Sweeping(readAt, FinishedRows(s.db, readAt), order, {})))
      else None
    case Sweeping(readAt, found, todo, marked) =>
      if |todo| == 0 then Some(Answer(Complete(readAt, marked), Swept(|marked|), CompleteRows(s.db, marked)))
      else
        var id := todo[0];
        if id in s.bookingLock then None
        else if id in s.db.bookings && Finished(s.db.bookings[id], readAt) then
          Some(LockBooking(id, Sweeping(readAt, found, todo[1..], marked + {id})))
        else Some(Goto(Sweeping(readAt, found, todo[1..], marked)))
    case _ => None
  }

  ghost function Advance(s: State, tx: TxId, pick: int, order: seq<BookingId>): Option<Effect>
    requires tx in s.txs
  {
    match s.txs[tx].req
    case CreateReq(room, user, period) => StepCreate(s, tx, room, user, period, pick)
    case UpdateReq(id, newStart, newEnd) => StepUpdate(s, tx, id, newStart, newEnd)
    case CancelReq(id, requester, privileged) => StepCancel(s, tx, id, requester, privileged)
    case ChangeRoomReq(room, units) => StepChangeRoom(s, tx, room, units)
    case ArchiveReq(room) => StepArchive(s, tx, room)
    case AddRoomReq(units) => StepAddRoom(s, tx, units, pick)
    case CompleteReq => StepComplete(s, tx, order)
  }

  ghost function Next(s: State, a: Action): Option<State> {
    match a
    case Tick(elapsed) => Some(s.(clock := s.clock + elapsed))
    case Begin(tx, req) => if tx in s.txs then None else Some(s.(txs := s.txs[tx := Tx(req, Start)]))
    case Step(tx, pick, order) =>
      if tx in s.txs && Advance(s, tx, pick, order).Some? then Some(Apply(s, tx, Advance(s, tx, pick, order).value))
      else None
    case Fail(tx) =>
      if tx in s.txs && !s.txs[tx].Over() then Some(Leave(s, tx, RolledBack)) else None
  }

  // ---------- runs ----------

  ghost function Run(s: State, actions: seq<Action>): Option<State> {
    if |actions| == 0 then Some(s)
    else
      var before := Run(s, actions[..|actions| - 1]);
      if before.None? then None else Next(before.value, actions[|actions| - 1])
  }

  /** b can follow a, by some run. */
  ghost predicate Leads(a: State, b: State) {
    exists actions :: Run(a, actions) == Some(b)
  }

  ghost predicate Reachable(s: State) {
    exists clock :: Leads(Init(clock), s)
  }

  lemma {:induction false} RunAppend(a: State, first: seq<Action>, second: seq<Action>)
    requires Run(a, first).Some?
    ensures Run(a, first + second) == Run(Run(a, first).value, second)
  {
    if |second| == 0 {
      assert first + second == first;
    } else {
      var n := |second| - 1;
      RunAppend(a, first, second[..n]);
      assert (first + second)[..|first + second| - 1] == first + second[..n];
    }
  }

  lemma LeadsTransitive(a: State, b: State, c: State)
    requires Leads(a, b) && Leads(b, c)
    ensures Leads(a, c)
  {
    var first :| Run(a, first) == Some(b);
    var second :| Run(b, second) == Some(c);
    RunAppend(a, first, second);
    assert Run(a, first + second) == Some(c);
  }

  lemma OneStep(a: State, action: Action)
    requires Next(a, action).Some?
    ensures Leads(a, Next(a, action).value)
  {
    assert [action][..0] == [];
    assert Run(a, [action][..0]) == Some(a);
    assert Run(a, [action]) == Next(a, action);
  }

  /** Take one more step of a run. */
  lemma Extend(start: State, s: State, tx: TxId, pick: int, order: seq<BookingId>, e: Effect)
    requires Leads(start, s) && tx in s.txs && Advance(s, tx, pick, order) == Some(e)
    ensures Leads(start, Apply(s, tx, e))
  {
    OneStep(s, Step(tx, pick, order));
    LeadsTransitive(start, s, Apply(s, tx, e));
  }
}
