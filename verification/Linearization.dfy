/**
 The protocol is linearizable: every interleaving has exactly the history of the transactions performed one at
 a time, each at the step at which it decides its answer.
 */
module Linearization {
  import opened Bookings
  import opened Operations
  import opened Protocol

  // ---------- what each transaction holds ----------

  function RoomHeld(t: Tx): Option<RoomId> {
    match t.pc
    case CreateRoomLocked(_, _) => if t.req.CreateReq? then Some(t.req.room) else None
    case CreateAdmitted(_, _, _) => if t.req.CreateReq? then Some(t.req.room) else None
    case UpdateRoomLocked(row, _) => Some(row.roomId)
    case UpdatePeriodChecked(row, _, _) => Some(row.roomId)
    case UpdateAdmitted(row, _, _, _) => Some(row.roomId)
    case CancelRoomLocked(row) => Some(row.roomId)
    case ChangeRoomLocked(_) => if t.req.ChangeRoomReq? then Some(t.req.room) else None
    case ReductionClockRead(_, _) => if t.req.ChangeRoomReq? then Some(t.req.room) else None
    case ChangeAllowed(_, _) => if t.req.ChangeRoomReq? then Some(t.req.room) else None
    case ArchiveRoomLocked(_) => if t.req.ArchiveReq? then Some(t.req.room) else None
    case _ => None
  }

  function BookingsHeld(t: Tx): set<BookingId> {
    match t.pc
    case UpdateBookingLocked(_) => if t.req.UpdateReq? then {t.req.booking} else {}
    case UpdateRoomLocked(_, _) => if t.req.UpdateReq? then {t.req.booking} else {}
    case UpdatePeriodChecked(_, _, _) => if t.req.UpdateReq? then {t.req.booking} else {}
    case UpdateAdmitted(_, _, _, _) => if t.req.UpdateReq? then {t.req.booking} else {}
    case CancelBookingLocked(_) => if t.req.CancelReq? then {t.req.booking} else {}
    case CancelRoomLocked(_) => if t.req.CancelReq? then {t.req.booking} else {}
    case Sweeping(_, _, _, marked) => marked
    case _ => {}
  }

  // ---------- what each transaction knows ----------

  ghost predicate RoomRead(db: Db, room: RoomId, row: Room) {
    room in db.rooms && db.rooms[room] == row
  }

  ghost predicate ActiveRowRead(db: Db, id: BookingId, row: Booking) {
    id in db.bookings && db.bookings[id] == row && row.status.Active?
  }

  /** The snapshot shows everything that overlaps now: it can only over-count. */
  ghost predicate StillCovers(snapshot: map<BookingId, Booking>, db: Db, room: RoomId, p: Period,
                              exclude: Option<BookingId>) {
    var rows := OverlapRows(db, room, p, exclude);
    forall id :: id in rows ==> id in snapshot && snapshot[id] == rows[id]
  }

  ghost predicate Knows(db: Db, clock: Instant, t: Tx) {
    match t.req
    case CreateReq(room, user, p) => KnowsCreate(db, clock, room, p, t.pc)
    case UpdateReq(id, newStart, newEnd) => KnowsUpdate(db, clock, id, newStart, newEnd, t.pc)
    case CancelReq(id, requester, privileged) => KnowsCancel(db, id, requester, privileged, t.pc)
    case ChangeRoomReq(room, units) => KnowsChangeRoom(db, clock, room, units, t.pc)
    case ArchiveReq(room) => t.pc.Start? || t.Over() || (t.pc.ArchiveRoomLocked? && RoomRead(db, room, t.pc.room))
    case AddRoomReq(_) => t.pc.Start? || t.Over()
    case CompleteReq => KnowsComplete(db, clock, t.pc)
  }

  ghost predicate KnowsCreate(db: Db, clock: Instant, room: RoomId, p: Period, pc: Pc) {
    match pc
    case Start => true
    case PeriodChecked(readAt) => ValidPeriod(p, readAt) && readAt <= clock
    case CreateRoomLocked(readAt, row) =>
      ValidPeriod(p, readAt) && readAt <= clock && RoomRead(db, room, row) && row.isActive
    case CreateAdmitted(readAt, row, snapshot) =>
      && ValidPeriod(p, readAt) && readAt <= clock && RoomRead(db, room, row) && row.isActive
      && RowsAvailable(snapshot, row.totalUnits, p) && StillCovers(snapshot, db, room, p, None)
    case Done(_) => true
    case RolledBack => true
    case _ => false
  }

  ghost predicate KnowsUpdate(db: Db, clock: Instant, id: BookingId, newStart: Option<Instant>, newEnd: Option<Instant>,
                              pc: Pc) {
    match pc
    case Start => true
    case UpdateBookingLocked(row) => ActiveRowRead(db, id, row)
    case UpdateRoomLocked(row, room) => ActiveRowRead(db, id, row) && RoomRead(db, row.roomId, room) && room.isActive
    case UpdatePeriodChecked(row, room, readAt) =>
      && ActiveRowRead(db, id, row) && RoomRead(db, row.roomId, room) && room.isActive
      && ValidPeriod(EffectivePeriod(row.period, newStart, newEnd), readAt) && readAt <= clock
    case UpdateAdmitted(row, room, readAt, snapshot) =>
      var p := EffectivePeriod(row.period, newStart, newEnd);
      && ActiveRowRead(db, id, row) && RoomRead(db, row.roomId, room) && room.isActive
      && ValidPeriod(p, readAt) && readAt <= clock
      && RowsAvailable(snapshot, room.totalUnits, p) && StillCovers(snapshot, db, row.roomId, p, Some(id))
    case Done(_) => true
    case RolledBack => true
    case _ => false
  }

  ghost predicate KnowsCancel(db: Db, id: BookingId, requester: UserId, privileged: bool, pc: Pc) {
    match pc
    case Start => true
    case CancelBookingLocked(row) => ActiveRowRead(db, id, row) && MayCancel(row, requester, privileged)
    case CancelRoomLocked(row) =>
      ActiveRowRead(db, id, row) && MayCancel(row, requester, privileged) && row.roomId in db.rooms
    case Done(_) => true
    case RolledBack => true
    case _ => false
  }

  ghost predicate KnowsChangeRoom(db: Db, clock: Instant, room: RoomId, units: Option<nat>, pc: Pc) {
    match pc
    case Start => true
    case ChangeRoomLocked(row) => RoomRead(db, room, row)
    case ReductionClockRead(row, readAt) => RoomRead(db, room, row) && Reduces(row, units) && readAt <= clock
    case ChangeAllowed(row, readAt) =>
      RoomRead(db, room, row) && readAt <= clock && (Reduces(row, units) ==> !HasUnfinished(db, room, readAt))
    case Done(_) => true
    case RolledBack => true
    case _ => false
  }

  ghost predicate KnowsComplete(db: Db, clock: Instant, pc: Pc) {
    match pc
    case Start => true
    case SweepClockRead(readAt) => readAt <= clock
    case Sweeping(readAt, _, todo, marked) =>
      && readAt <= clock
      && (forall id :: id in marked ==> id in db.bookings && Finished(db.bookings[id], readAt))
      && (forall id :: id in todo ==> id !in marked)
      && (forall i, j :: 0 <= i < j < |todo| ==> todo[i] != todo[j])
    case Done(_) => true
    case RolledBack => true
    case _ => false
  }

  // ---------- interference ----------

  /** What a step may do to the database, given what the stepping transaction holds. */
  ghost predicate WritesOnlyHeld(a: Db, b: Db, room: Option<RoomId>, held: set<BookingId>) {
    && (forall r :: r in a.rooms ==> r in b.rooms && (room != Some(r) ==> b.rooms[r] == a.rooms[r]))
    && (forall id :: id in a.bookings ==> id in b.bookings && (id !in held ==> b.bookings[id] == a.bookings[id]))
    && (forall id :: id in b.bookings && b.bookings[id].status.Active? && room != Some(b.bookings[id].roomId) ==>
          id in a.bookings && a.bookings[id] == b.bookings[id])
  }

  /** What a transaction that holds these locks can count on while others step. */
  ghost predicate Undisturbed(a: Db, b: Db, room: Option<RoomId>, held: set<BookingId>) {
    && (forall r :: r in a.rooms ==> r in b.rooms && (room == Some(r) ==> b.rooms[r] == a.rooms[r]))
    && (forall id :: id in a.bookings && id in held ==> id in b.bookings && b.bookings[id] == a.bookings[id])
    && (forall id :: id in b.bookings && b.bookings[id].status.Active? && room == Some(b.bookings[id].roomId) ==>
          id in a.bookings && a.bookings[id] == b.bookings[id])
  }

  lemma SnapshotStaysGood(snapshot: map<BookingId, Booking>, a: Db, b: Db, room: RoomId, held: set<BookingId>,
                          p: Period, exclude: Option<BookingId>)
    requires StillCovers(snapshot, a, room, p, exclude)
    requires Undisturbed(a, b, Some(room), held)
    ensures StillCovers(snapshot, b, room, p, exclude)
  {
    var earlier, now := OverlapRows(a, room, p, exclude), OverlapRows(b, room, p, exclude);
    forall id | id in now
      ensures id in snapshot && snapshot[id] == now[id]
    {
      assert id in earlier;
    }
  }

  lemma KnowledgeIsStable(a: Db, b: Db, early: Instant, late: Instant, t: Tx)
    requires Knows(a, early, t) && early <= late
    requires Undisturbed(a, b, RoomHeld(t), BookingsHeld(t))
    ensures Knows(b, late, t)
  {
    match t.pc
    case CreateAdmitted(_, _, snapshot) =>
      SnapshotStaysGood(snapshot, a, b, t.req.room, {}, t.req.period, None);
    case UpdateAdmitted(row, _, _, snapshot) =>
      var p := EffectivePeriod(row.period, t.req.newStart, t.req.newEnd);
      SnapshotStaysGood(snapshot, a, b, row.roomId, {t.req.booking}, p, Some(t.req.booking));
    case _ =>
  }

  // ---------- the invariant ----------

  /** The operation in the log is the one the transaction was asked for. */
  predicate Asks(req: Request, op: Op) {
    match req
    case CreateReq(room, user, period) => op.Create? && op.room == room && op.user == user && op.period == period
    case UpdateReq(id, newStart, newEnd) =>
      op.Update? && op.booking == id && op.newStart == newStart && op.newEnd == newEnd
    case CancelReq(id, requester, privileged) => op == Cancel(id, requester, privileged)
    case ChangeRoomReq(room, units) => op.ChangeRoom? && op.room == room && op.units == units
    case ArchiveReq(room) => op == Archive(room)
    case AddRoomReq(units) => op.AddRoom? && op.initialUnits == units
    case CompleteReq => op.Complete?
  }

  predicate ReadBy(op: Op, clock: Instant) {
    match op
    case Create(_, _, _, readAt, _) => readAt <= clock
    case Update(_, _, _, readAt) => readAt <= clock
    case ChangeRoom(_, _, readAt) => readAt <= clock
    case Complete(readAt, _) => readAt <= clock
    case _ => true
  }

  // The invariant, one transaction, lock and log entry at a time.

  /** What a transaction holds is booked in the lock tables, and what it has read still stands. */
  ghost predicate TxFine(s: State, tx: TxId) {
    tx in s.txs ==>
      && Knows(s.db, s.clock, s.txs[tx])
      && (RoomHeld(s.txs[tx]).Some? ==>
            RoomHeld(s.txs[tx]).value in s.roomLock && s.roomLock[RoomHeld(s.txs[tx]).value] == tx)
      && (forall b :: b in BookingsHeld(s.txs[tx]) ==> b in s.bookingLock && s.bookingLock[b] == tx)
  }

  ghost predicate RoomLockFine(s: State, r: RoomId) {
    r in s.roomLock ==> s.roomLock[r] in s.txs && RoomHeld(s.txs[s.roomLock[r]]) == Some(r)
  }

  ghost predicate BookingLockFine(s: State, b: BookingId) {
    b in s.bookingLock ==> s.bookingLock[b] in s.txs && b in BookingsHeld(s.txs[s.bookingLock[b]])
  }

  /** An entry belongs to a transaction that ran to its end with that answer. */
  ghost predicate EntryFine(s: State, i: int) {
    0 <= i < |s.log| ==>
      && s.log[i].tx in s.txs
      && s.txs[s.log[i].tx].pc == Done(s.log[i].outcome)
      && Asks(s.txs[s.log[i].tx].req, s.log[i].op)
      && ReadBy(s.log[i].op, s.clock)
  }

  ghost predicate Logged(log: History, tx: TxId) {
    exists i :: 0 <= i < |log| && log[i].tx == tx
  }

  /** Exactly one entry for a transaction that ran to its end. */
  ghost predicate AnswerFine(s: State, tx: TxId) {
    && (tx in s.txs && s.txs[tx].pc.Done? ==> Logged(s.log, tx))
    && (forall i, j :: 0 <= i < j < |s.log| && s.log[i].tx == tx ==> s.log[j].tx != tx)
  }

  ghost predicate Locks(s: State) {
    && (forall r {:trigger RoomLockFine(s, r)} :: RoomLockFine(s, r))
    && (forall b {:trigger BookingLockFine(s, b)} :: BookingLockFine(s, b))
  }

  /** The log is the sequential history of the database. */
  ghost predicate LogFine(s: State) {
    && (forall i {:trigger EntryFine(s, i)} :: EntryFine(s, i))
    && (forall tx {:trigger AnswerFine(s, tx)} :: AnswerFine(s, tx))
    && Legal(s.log) && s.db == Replay(s.log)
  }

  ghost predicate Inv(s: State) {
    && (forall tx {:trigger TxFine(s, tx)} :: TxFine(s, tx))
    && Locks(s)
    && LogFine(s)
  }

  lemma InitInv(clock: Instant)
    ensures Inv(Init(clock))
  {
  }

  // ---------- which effects keep it ----------

  /** An effect that fits what the transaction knows and what the lock tables allow. */
  ghost predicate Sound(s: State, tx: TxId, e: Effect)
    requires tx in s.txs
  {
    var t := s.txs[tx];
    && !t.Over()
    && match e
       case Goto(pc) =>
         && !pc.Done? && Knows(s.db, s.clock, t.(pc := pc))
         && RoomHeld(t.(pc := pc)) == RoomHeld(t) && BookingsHeld(t.(pc := pc)) == BookingsHeld(t)
       case LockRoom(room, pc) =>
         && !pc.Done? && Knows(s.db, s.clock, t.(pc := pc)) && room !in s.roomLock
         && RoomHeld(t).None? && RoomHeld(t.(pc := pc)) == Some(room) && BookingsHeld(t.(pc := pc)) == BookingsHeld(t)
       case LockBooking(id, pc) =>
         && !pc.Done? && Knows(s.db, s.clock, t.(pc := pc)) && id !in s.bookingLock
         && RoomHeld(t.(pc := pc)) == RoomHeld(t) && BookingsHeld(t.(pc := pc)) == BookingsHeld(t) + {id}
       case Answer(op, outcome, db) =>
         && WritesOnlyHeld(s.db, db, RoomHeld(t), BookingsHeld(t))
         && Perform(s.db, op) == (db, outcome) && Asks(t.req, op) && ReadBy(op, s.clock)
         && (outcome.Created? || outcome.RoomAdded? ==> Fresh(s.db, op))
  }

  /** Locks are exclusive: what one transaction may write, nobody else counts on. */
  lemma OthersUndisturbed(s: State, db: Db, tx: TxId, other: TxId)
    requires tx in s.txs && other in s.txs && tx != other && TxFine(s, tx) && TxFine(s, other)
    requires WritesOnlyHeld(s.db, db, RoomHeld(s.txs[tx]), BookingsHeld(s.txs[tx]))
    ensures Undisturbed(s.db, db, RoomHeld(s.txs[other]), BookingsHeld(s.txs[other]))
  {
  }

  lemma OverIsFine(s: State, tx: TxId)
    requires tx in s.txs && s.txs[tx].Over()
    ensures TxFine(s, tx)
  {
  }

  /** The stepping transaction itself. */
  lemma SoundKeepsOwn(s: State, tx: TxId, e: Effect)
    requires tx in s.txs && TxFine(s, tx) && Sound(s, tx, e)
    ensures TxFine(Apply(s, tx, e), tx)
  {
    if e.Answer? {
      OverIsFine(Apply(s, tx, e), tx);
    }
  }

  /** Everybody else. */
  lemma SoundKeepsOther(s: State, tx: TxId, e: Effect, other: TxId)
    requires tx in s.txs && TxFine(s, tx) && TxFine(s, other) && tx != other && Sound(s, tx, e)
    ensures TxFine(Apply(s, tx, e), other)
  {
    if other in s.txs && e.Answer? {
      OthersUndisturbed(s, e.db, tx, other);
      KnowledgeIsStable(s.db, e.db, s.clock, s.clock, s.txs[other]);
    }
  }

  lemma SoundKeepsRoomLock(s: State, tx: TxId, e: Effect, r: RoomId)
    requires tx in s.txs && TxFine(s, tx) && RoomLockFine(s, r) && Sound(s, tx, e)
    ensures RoomLockFine(Apply(s, tx, e), r)
  {
  }

  lemma SoundKeepsBookingLock(s: State, tx: TxId, e: Effect, b: BookingId)
    requires tx in s.txs && TxFine(s, tx) && BookingLockFine(s, b) && Sound(s, tx, e)
    ensures BookingLockFine(Apply(s, tx, e), b)
  {
  }

  lemma SoundKeepsEntry(s: State, tx: TxId, e: Effect, i: int)
    requires tx in s.txs && EntryFine(s, i) && Sound(s, tx, e)
    ensures EntryFine(Apply(s, tx, e), i)
  {
  }

  lemma SoundKeepsAnswer(s: State, tx: TxId, e: Effect, other: TxId)
    requires tx in s.txs && AnswerFine(s, other) && Sound(s, tx, e)
    requires forall i {:trigger EntryFine(s, i)} :: EntryFine(s, i)
    ensures AnswerFine(Apply(s, tx, e), other)
  {
    if e.Answer? {
      var after := Apply(s, tx, e);
      assert after.log[|s.log|].tx == tx;
      forall i | 0 <= i < |s.log|
        ensures after.log[i] == s.log[i] && s.log[i].tx != tx
      {
        assert EntryFine(s, i);
      }
      if other != tx && other in s.txs && s.txs[other].pc.Done? {
        var i :| 0 <= i < |s.log| && s.log[i].tx == other;
        assert after.log[i].tx == other;
      }
    }
  }

  lemma SoundKeepsHistory(s: State, tx: TxId, e: Effect)
    requires Legal(s.log) && s.db == Replay(s.log) && tx in s.txs && Sound(s, tx, e)
    ensures var after := Apply(s, tx, e); Legal(after.log) && after.db == Replay(after.log)
  {
    if e.Answer? {
      AppendEntry(s.log, Entry(tx, e.op, e.outcome));
    }
  }

  lemma SoundKeepsTransactions(s: State, tx: TxId, e: Effect)
    requires forall t {:trigger TxFine(s, t)} :: TxFine(s, t)
    requires tx in s.txs && Sound(s, tx, e)
    ensures forall t {:trigger TxFine(Apply(s, tx, e), t)} :: TxFine(Apply(s, tx, e), t)
  {
    assert TxFine(s, tx);
    SoundKeepsOwn(s, tx, e);
    forall other
      ensures TxFine(Apply(s, tx, e), other)
    {
      assert TxFine(s, other);
      if other != tx {
        SoundKeepsOther(s, tx, e, other);
      }
    }
  }

  lemma SoundKeepsLocks(s: State, tx: TxId, e: Effect)
    requires Locks(s) && tx in s.txs && TxFine(s, tx) && Sound(s, tx, e)
    ensures Locks(Apply(s, tx, e))
  {
    forall r
      ensures RoomLockFine(Apply(s, tx, e), r)
    {
      assert RoomLockFine(s, r);
      SoundKeepsRoomLock(s, tx, e, r);
    }
    forall b
      ensures BookingLockFine(Apply(s, tx, e), b)
    {
      assert BookingLockFine(s, b);
      SoundKeepsBookingLock(s, tx, e, b);
    }
  }

  lemma SoundKeepsLog(s: State, tx: TxId, e: Effect)
    requires LogFine(s) && tx in s.txs && Sound(s, tx, e)
    ensures LogFine(Apply(s, tx, e))
  {
    forall i
      ensures EntryFine(Apply(s, tx, e), i)
    {
      assert EntryFine(s, i);
      SoundKeepsEntry(s, tx, e, i);
    }
    forall other
      ensures AnswerFine(Apply(s, tx, e), other)
    {
      assert AnswerFine(s, other);
      SoundKeepsAnswer(s, tx, e, other);
    }
    SoundKeepsHistory(s, tx, e);
  }

  lemma SoundKeeps(s: State, tx: TxId, e: Effect)
    requires Inv(s) && tx in s.txs && Sound(s, tx, e)
    ensures Inv(Apply(s, tx, e))
  {
    assert TxFine(s, tx);
    SoundKeepsTransactions(s, tx, e);
    SoundKeepsLocks(s, tx, e);
    SoundKeepsLog(s, tx, e);
  }

  // ---------- every step has a sound effect ----------

  lemma CreateIsSound(s: State, tx: TxId, pick: int)
    requires tx in s.txs && s.txs[tx].req.CreateReq? && Knows(s.db, s.clock, s.txs[tx])
    requires var r := s.txs[tx].req; StepCreate(s, tx, r.room, r.user, r.period, pick).Some?
    ensures var r := s.txs[tx].req; Sound(s, tx, StepCreate(s, tx, r.room, r.user, r.period, pick).value)
  {
    var r := s.txs[tx].req;
    match s.txs[tx].pc
    case CreateAdmitted(readAt, row, snapshot) =>
      FewerRowsStayAvailable(OverlapRows(s.db, r.room, r.period, None), snapshot, row.totalUnits, r.period);
    case _ =>
  }

  lemma UpdateIsSound(s: State, tx: TxId)
    requires tx in s.txs && s.txs[tx].req.UpdateReq? && Knows(s.db, s.clock, s.txs[tx])
    requires var r := s.txs[tx].req; StepUpdate(s, tx, r.booking, r.newStart, r.newEnd).Some?
    ensures var r := s.txs[tx].req; Sound(s, tx, StepUpdate(s, tx, r.booking, r.newStart, r.newEnd).value)
  {
    var r := s.txs[tx].req;
    match s.txs[tx].pc
    case UpdateAdmitted(row, room, readAt, snapshot) =>
      var p := EffectivePeriod(row.period, r.newStart, r.newEnd);
      FewerRowsStayAvailable(OverlapRows(s.db, row.roomId, p, Some(r.booking)), snapshot, room.totalUnits, p);
    case _ =>
  }

  lemma CancelStartIsSound(s: State, tx: TxId)
    requires tx in s.txs && s.txs[tx].req.CancelReq? && s.txs[tx].pc.Start?
    requires var r := s.txs[tx].req; StepCancel(s, tx, r.booking, r.requester, r.privileged).Some?
    ensures var r := s.txs[tx].req; Sound(s, tx, StepCancel(s, tx, r.booking, r.requester, r.privileged).value)
  {
  }

  lemma CancelLockedIsSound(s: State, tx: TxId)
    requires tx in s.txs && s.txs[tx].req.CancelReq? && Knows(s.db, s.clock, s.txs[tx]) && !s.txs[tx].pc.Start?
    requires var r := s.txs[tx].req; StepCancel(s, tx, r.booking, r.requester, r.privileged).Some?
    ensures var r := s.txs[tx].req; Sound(s, tx, StepCancel(s, tx, r.booking, r.requester, r.privileged).value)
  {
  }

  lemma ChangeRoomIsSound(s: State, tx: TxId)
    requires tx in s.txs && s.txs[tx].req.ChangeRoomReq? && Knows(s.db, s.clock, s.txs[tx])
    requires StepChangeRoom(s, tx, s.txs[tx].req.room, s.txs[tx].req.units).Some?
    ensures Sound(s, tx, StepChangeRoom(s, tx, s.txs[tx].req.room, s.txs[tx].req.units).value)
  {
  }

  lemma ArchiveIsSound(s: State, tx: TxId)
    requires tx in s.txs && s.txs[tx].req.ArchiveReq? && Knows(s.db, s.clock, s.txs[tx])
    requires StepArchive(s, tx, s.txs[tx].req.room).Some?
    ensures Sound(s, tx, StepArchive(s, tx, s.txs[tx].req.room).value)
  {
  }

  lemma AddRoomIsSound(s: State, tx: TxId, pick: int)
    requires tx in s.txs && s.txs[tx].req.AddRoomReq? && Knows(s.db, s.clock, s.txs[tx])
    requires StepAddRoom(s, tx, s.txs[tx].req.initialUnits, pick).Some?
    ensures Sound(s, tx, StepAddRoom(s, tx, s.txs[tx].req.initialUnits, pick).value)
  {
  }

  lemma CompleteIsSound(s: State, tx: TxId, order: seq<BookingId>)
    requires tx in s.txs && s.txs[tx].req.CompleteReq? && Knows(s.db, s.clock, s.txs[tx])
    requires StepComplete(s, tx, order).Some?
    ensures Sound(s, tx, StepComplete(s, tx, order).value)
  {
    match s.txs[tx].pc
    case Sweeping(readAt, _, todo, marked) =>
      if |todo| == 0 {
        SweepCommits(s.db, readAt, marked);
      } else {
        assert forall id :: id in todo[1..] ==> id in todo && id != todo[0];
      }
    case _ =>
  }

  lemma SweepCommits(db: Db, readAt: Instant, marked: set<BookingId>)
    requires forall id :: id in marked ==> id in db.bookings && Finished(db.bookings[id], readAt)
    ensures Perform(db, Complete(readAt, marked)) == (CompleteRows(db, marked), Swept(|marked|))
  {
    assert forall id :: id in marked ==> id in FinishedRows(db, readAt);
    assert FinishedRows(db, readAt) * marked == marked;
  }

  lemma AdvanceIsSound(s: State, tx: TxId, pick: int, order: seq<BookingId>)
    requires tx in s.txs && Knows(s.db, s.clock, s.txs[tx])
    requires Advance(s, tx, pick, order).Some?
    ensures Sound(s, tx, Advance(s, tx, pick, order).value)
  {
    match s.txs[tx].req
    case CreateReq(_, _, _) => CreateIsSound(s, tx, pick);
    case UpdateReq(_, _, _) => UpdateIsSound(s, tx);
    case CancelReq(_, _, _) =>
      if s.txs[tx].pc.Start? {
        CancelStartIsSound(s, tx);
      } else {
        CancelLockedIsSound(s, tx);
      }
    case ChangeRoomReq(_, _) => ChangeRoomIsSound(s, tx);
    case ArchiveReq(_) => ArchiveIsSound(s, tx);
    case AddRoomReq(_) => AddRoomIsSound(s, tx, pick);
    case CompleteReq => CompleteIsSound(s, tx, order);
  }

  lemma TickKeeps(s: State, elapsed: nat)
    requires Inv(s)
    ensures Inv(s.(clock := s.clock + elapsed))
  {
    var after := s.(clock := s.clock + elapsed);
    forall tx
      ensures TxFine(after, tx)
    {
      assert TxFine(s, tx);
      if tx in s.txs {
        KnowledgeIsStable(s.db, s.db, s.clock, after.clock, s.txs[tx]);
      }
    }
    assert forall r :: RoomLockFine(s, r) ==> RoomLockFine(after, r);
    assert forall b :: BookingLockFine(s, b) ==> BookingLockFine(after, b);
    assert forall i :: EntryFine(s, i) ==> EntryFine(after, i);
    assert forall tx :: AnswerFine(s, tx) ==> AnswerFine(after, tx);
  }

  lemma BeginKeeps(s: State, tx: TxId, req: Request)
    requires Inv(s) && tx !in s.txs
    ensures Inv(s.(txs := s.txs[tx := Tx(req, Start)]))
  {
    var after := s.(txs := s.txs[tx := Tx(req, Start)]);
    assert forall other :: TxFine(s, other) ==> TxFine(after, other);
    assert forall r :: RoomLockFine(s, r) ==> RoomLockFine(after, r);
    assert forall b :: BookingLockFine(s, b) ==> BookingLockFine(after, b);
    assert forall i :: EntryFine(s, i) ==> EntryFine(after, i);
    assert forall other :: AnswerFine(s, other) ==> AnswerFine(after, other);
  }

  lemma FailKeeps(s: State, tx: TxId)
    requires Inv(s) && tx in s.txs && !s.txs[tx].Over()
    ensures Inv(Leave(s, tx, RolledBack))
  {
    var after := Leave(s, tx, RolledBack);
    assert TxFine(s, tx);
    OverIsFine(after, tx);
    forall other
      ensures TxFine(after, other)
    {
      assert TxFine(s, other);
    }
    assert forall r :: RoomLockFine(s, r) ==> RoomLockFine(after, r);
    assert forall b :: BookingLockFine(s, b) ==> BookingLockFine(after, b);
    assert forall i :: EntryFine(s, i) ==> EntryFine(after, i);
    assert forall other :: AnswerFine(s, other) ==> AnswerFine(after, other);
  }

  lemma NextKeeps(s: State, a: Action)
    requires Inv(s) && Next(s, a).Some?
    ensures Inv(Next(s, a).value)
  {
    match a
    case Tick(elapsed) => TickKeeps(s, elapsed);
    case Begin(tx, req) => BeginKeeps(s, tx, req);
    case Fail(tx) => FailKeeps(s, tx);
    case Step(tx, pick, order) =>
      assert TxFine(s, tx);
      AdvanceIsSound(s, tx, pick, order);
      SoundKeeps(s, tx, Advance(s, tx, pick, order).value);
  }

  // ---------- over whole runs ----------

  lemma LogsGrow(a: History, b: History, c: History)
    requires a <= b && b <= c
    ensures a <= c
  {
  }

  /** One more step of a run. */
  lemma NextGrows(s: State, a: Action)
    requires Inv(s) && Next(s, a).Some?
    ensures Inv(Next(s, a).value)
    ensures s.log <= Next(s, a).value.log && s.clock <= Next(s, a).value.clock
  {
    NextKeeps(s, a);
  }

  lemma {:induction false} RunKeeps(s: State, actions: seq<Action>)
    requires Inv(s) && Run(s, actions).Some?
    ensures Inv(Run(s, actions).value)
    ensures s.log <= Run(s, actions).value.log && s.clock <= Run(s, actions).value.clock
  {
    if |actions| > 0 {
      var prefix := actions[..|actions| - 1];
      RunKeeps(s, prefix);
      var before := Run(s, prefix).value;
      NextGrows(before, actions[|actions| - 1]);
      LogsGrow(s.log, before.log, Next(before, actions[|actions| - 1]).value.log);
    }
  }

  lemma ReachableInv(s: State)
    requires Reachable(s)
    ensures Inv(s)
  {
    var clock :| Leads(Init(clock), s);
    var actions :| Run(Init(clock), actions) == Some(s);
    InitInv(clock);
    RunKeeps(Init(clock), actions);
  }
}
