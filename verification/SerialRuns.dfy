/** Concrete runs of the protocol, which show that its guarantees cannot be stretched. */
module SerialRuns {
  import opened Bookings
  import opened Operations
  import opened Protocol
  import opened Linearization
  import opened Theorems
  import opened Progress
  import Answers
  import Capacity

  predicate Idle(s: State) {
    s.roomLock == map[] && s.bookingLock == map[]
  }

  lemma BeginTx(s: State, tx: TxId, req: Request) returns (after: State)
    requires tx !in s.txs
    ensures Leads(s, after) && after == s.(txs := s.txs[tx := Tx(req, Start)])
  {
    OneStep(s, Begin(tx, req));
    after := s.(txs := s.txs[tx := Tx(req, Start)]);
  }

  /** The state in which a transaction that ran alone leaves the system. */
  ghost predicate RanAlone(s: State, tx: TxId, op: Op, outcome: Outcome, db: Db, after: State) {
    && Leads(s, after) && Idle(after) && after.db == db && after.clock == s.clock
    && after.log == s.log + [Entry(tx, op, outcome)]
    && tx in after.txs && after.txs == s.txs[tx := after.txs[tx]] && after.txs[tx].Over()
  }

  lemma AddRoomAlone(s: State, tx: TxId, room: RoomId, units: nat) returns (after: State)
    requires Idle(s) && tx !in s.txs && room !in s.db.rooms
    ensures RanAlone(s, tx, AddRoom(room, units), RoomAdded(room), WithRoom(s.db, room, Room(units, true)), after)
  {
    var s1 := BeginTx(s, tx, AddRoomReq(units));
    var e := Answer(AddRoom(room, units), RoomAdded(room), WithRoom(s.db, room, Room(units, true)));
    Extend(s, s1, tx, room, [], e);
    after := Apply(s1, tx, e);
  }

  lemma CreateAlone(s: State, tx: TxId, room: RoomId, user: UserId, p: Period, id: BookingId) returns (after: State)
    requires Idle(s) && tx !in s.txs && id !in s.db.bookings
    requires ValidPeriod(p, s.clock) && room in s.db.rooms && s.db.rooms[room].isActive
    requires RoomAvailable(s.db, room, s.db.rooms[room].totalUnits, p, None)
    ensures RanAlone(s, tx, Create(room, user, p, s.clock, id), Created(id),
                     WithBooking(s.db, id, Booking(room, user, p, Active)), after)
  {
    var s1 := BeginTx(s, tx, CreateReq(room, user, p));
    var e1 := Goto(PeriodChecked(s.clock));
    Extend(s, s1, tx, 0, [], e1);
    var s2 := Apply(s1, tx, e1);
    var e2 := LockRoom(room, CreateRoomLocked(s.clock, s.db.rooms[room]));
    Extend(s, s2, tx, 0, [], e2);
    after := CreateFromLock(s, Apply(s2, tx, e2), tx, room, user, p, id);
  }

  lemma CreateFromLock(start: State, s: State, tx: TxId, room: RoomId, user: UserId, p: Period, id: BookingId)
    returns (after: State)
    requires Leads(start, s) && tx in s.txs && room in s.db.rooms && id !in s.db.bookings
    requires s.txs[tx] == Tx(CreateReq(room, user, p), CreateRoomLocked(s.clock, s.db.rooms[room]))
    requires RoomAvailable(s.db, room, s.db.rooms[room].totalUnits, p, None)
    requires s.roomLock == map[room := tx] && s.bookingLock == map[]
    ensures Leads(start, after) && Idle(after) && after.clock == s.clock
    ensures after.db == WithBooking(s.db, id, Booking(room, user, p, Active))
    ensures after.log == s.log + [Entry(tx, Create(room, user, p, s.clock, id), Created(id))]
    ensures after.txs == s.txs[tx := Tx(CreateReq(room, user, p), Done(Created(id)))]
  {
    var row := s.db.rooms[room];
    var e1 := Goto(CreateAdmitted(s.clock, row, OverlapRows(s.db, room, p, None)));
    Extend(start, s, tx, 0, [], e1);
    var s1 := Apply(s, tx, e1);
    var db := WithBooking(s.db, id, Booking(room, user, p, Active));
    var e2 := Answer(Create(room, user, p, s.clock, id), Created(id), db);
    Extend(start, s1, tx, id, [], e2);
    after := Apply(s1, tx, e2);
  }

  lemma ReduceAlone(s: State, tx: TxId, room: RoomId, units: nat) returns (after: State)
    requires Idle(s) && tx !in s.txs && room in s.db.rooms && units < s.db.rooms[room].totalUnits
    requires !HasUnfinished(s.db, room, s.clock)
    ensures RanAlone(s, tx, ChangeRoom(room, Some(units), s.clock), RoomChanged,
                     WithRoom(s.db, room, s.db.rooms[room].(totalUnits := units)), after)
  {
    var s1 := BeginTx(s, tx, ChangeRoomReq(room, Some(units)));
    var row := s.db.rooms[room];
    var e1 := LockRoom(room, ChangeRoomLocked(row));
    Extend(s, s1, tx, 0, [], e1);
    var s2 := Apply(s1, tx, e1);
    var e2 := Goto(ReductionClockRead(row, s.clock));
    Extend(s, s2, tx, 0, [], e2);
    after := ReduceFromClock(s, Apply(s2, tx, e2), tx, room, units);
  }

  lemma ReduceFromClock(start: State, s: State, tx: TxId, room: RoomId, units: nat) returns (after: State)
    requires Leads(start, s) && tx in s.txs && room in s.db.rooms
    requires s.txs[tx] == Tx(ChangeRoomReq(room, Some(units)), ReductionClockRead(s.db.rooms[room], s.clock))
    requires !HasUnfinished(s.db, room, s.clock)
    requires s.roomLock == map[room := tx] && s.bookingLock == map[]
    ensures Leads(start, after) && Idle(after) && after.clock == s.clock
    ensures after.db == WithRoom(s.db, room, s.db.rooms[room].(totalUnits := units))
    ensures after.log == s.log + [Entry(tx, ChangeRoom(room, Some(units), s.clock), RoomChanged)]
    ensures after.txs == s.txs[tx := Tx(ChangeRoomReq(room, Some(units)), Done(RoomChanged))]
  {
    var row := s.db.rooms[room];
    var e1 := Goto(ChangeAllowed(row, s.clock));
    Extend(start, s, tx, 0, [], e1);
    var s1 := Apply(s, tx, e1);
    var db := WithRoom(s.db, room, Resized(row, Some(units)));
    var e2 := Answer(ChangeRoom(room, Some(units), s.clock), RoomChanged, db);
    Extend(start, s1, tx, 0, [], e2);
    after := Apply(s1, tx, e2);
  }

  lemma Wait(start: State, s: State, elapsed: nat) returns (after: State)
    requires Leads(start, s)
    ensures Leads(start, after) && after == s.(clock := s.clock + elapsed)
  {
    OneStep(s, Tick(elapsed));
    after := s.(clock := s.clock + elapsed);
    LeadsTransitive(start, s, after);
  }

  // ---------- the capacity guarantee starts exactly at the last reduction ----------

  /** A one-unit room with one booking. */
  function OneBookingDb(room: RoomId, p: Period): Db {
    Db(map[room := Room(1, true)], map[0 := Booking(room, 0, p, Active)])
  }

  lemma OneBooking(room: RoomId, p: Period, t: Instant) returns (s: State)
    requires ValidPeriod(p, t)
    ensures Leads(Init(t), s) && Idle(s) && s.clock == t && s.txs.Keys == {0, 1} && |s.log| == 2
    ensures s.db == OneBookingDb(room, p)
  {
    var s1 := AddRoomAlone(Init(t), 0, room, 1);
    var rows := OverlapRows(s1.db, room, p, None);
    assert rows == map[];
    assert forall u :: Covering(map[], u) == {};
    s := CreateAlone(s1, 1, room, 0, p, 0);
    LeadsTransitive(Init(t), s1, s);
  }

  /** A booking that is over but not yet swept is ignored when units are taken away. */
  lemma PastCanBeOverbooked(room: RoomId, t: Instant, mark: Instant) returns (s: State)
    requires t < mark
    ensures Reachable(s) && room in s.db.rooms
    ensures Capacity.LastReduction(s.log, room) == Some(mark)
    ensures |Answers.InUse(s.db, room, t, None)| > s.db.rooms[room].totalUnits
  {
    var s1 := OneBooking(room, Period(t, t + 1), t);
    var s2 := Wait(Init(t), s1, mark - t);
    s := ReduceAlone(s2, 2, room, 0);
    LeadsTransitive(Init(t), s2, s);
    ReachableInv(s2);
    assert s.log[..|s.log| - 1] == s2.log;
    assert 0 in Answers.InUse(s.db, room, t, None);
  }

  /**
   The guarantee of no overbooking at t, given the time of the last reduction, is exact: it holds in every
   reachable state if and only if t is not before the reduction.
   */
  lemma GuaranteeIsExact(room: RoomId, t: Instant, mark: Instant)
    ensures (forall s :: Reachable(s) && room in s.db.rooms && Capacity.LastReduction(s.log, room) == Some(mark) ==>
               |Answers.InUse(s.db, room, t, None)| <= s.db.rooms[room].totalUnits)
            <==> mark <= t
  {
    if mark <= t {
      forall s | Reachable(s) && room in s.db.rooms && Capacity.LastReduction(s.log, room) == Some(mark)
        ensures |Answers.InUse(s.db, room, t, None)| <= s.db.rooms[room].totalUnits
      {
        NeverOverbooked(s, room, t);
      }
    } else {
      var s := PastCanBeOverbooked(room, t, mark);
    }
  }

  // ---------- the period check looks at the clock before the locks are taken ----------

  /** A create that waits for `delay` between its check and its lock commits a booking that has already started. */
  lemma LateCommitStartsInPast(room: RoomId, t: Instant, delay: nat) returns (s: State)
    ensures Reachable(s) && |s.log| > 0 && s.log[|s.log| - 1].outcome == Created(0)
    ensures 0 in s.db.bookings && s.db.bookings[0].status.Active?
    ensures s.clock == s.db.bookings[0].period.start + delay
  {
    var p := Period(t, t + 1);
    var s1 := AddRoomAlone(Init(t), 0, room, 1);
    var s2 := BeginTx(s1, 1, CreateReq(room, 0, p));
    LeadsTransitive(Init(t), s1, s2);
    Extend(Init(t), s2, 1, 0, [], Goto(PeriodChecked(t)));
    var s3 := Wait(Init(t), Apply(s2, 1, Goto(PeriodChecked(t))), delay);
    s := CommitLate(Init(t), s3, room, p, t);
  }

  lemma CommitLate(start: State, s: State, room: RoomId, p: Period, readAt: Instant) returns (after: State)
    requires Leads(start, s) && 1 in s.txs && s.txs[1] == Tx(CreateReq(room, 0, p), PeriodChecked(readAt))
    requires s.db == Db(map[room := Room(1, true)], map[]) && Idle(s)
    ensures Leads(start, after) && after.clock == s.clock && |after.log| > 0
    ensures after.log[|after.log| - 1].outcome == Created(0)
    ensures after.db.bookings == map[0 := Booking(room, 0, p, Active)]
  {
    var e1 := LockRoom(room, CreateRoomLocked(readAt, Room(1, true)));
    Extend(start, s, 1, 0, [], e1);
    var s1 := Apply(s, 1, e1);
    assert OverlapRows(s1.db, room, p, None) == map[];
    assert forall u :: Covering(map[], u) == {};
    var e2 := Goto(CreateAdmitted(readAt, Room(1, true), map[]));
    Extend(start, s1, 1, 0, [], e2);
    var s2 := Apply(s1, 1, e2);
    var e3 := Answer(Create(room, 0, p, readAt, 0), Created(0), WithBooking(s.db, 0, Booking(room, 0, p, Active)));
    Extend(start, s2, 1, 0, [], e3);
    after := Apply(s2, 1, e3);
  }

  // ---------- one sweep at a time is what excludes deadlock ----------

  /** A sweep that has read the clock and found its rows just now. */
  function SweepTx(s: State, todo: seq<BookingId>, marked: set<BookingId>): Tx {
    Tx(CompleteReq, Sweeping(s.clock, FinishedRows(s.db, s.clock), todo, marked))
  }

  /** A sweep starts, reads the clock, finds its rows and locks the first one. */
  lemma StartSweep(start: State, s: State, tx: TxId, order: seq<BookingId>) returns (after: State)
    requires Leads(start, s) && tx !in s.txs && VisitOrder(s.db, s.clock, order)
    requires |order| > 0 && order[0] !in s.bookingLock
    ensures Leads(start, after)
    ensures after == s.(txs := s.txs[tx := SweepTx(s, order[1..], {order[0]})],
                        bookingLock := s.bookingLock[order[0] := tx])
  {
    var s1 := BeginTx(s, tx, CompleteReq);
    LeadsTransitive(start, s, s1);
    var s2 := ReadSweepClock(start, s1, tx);
    var s3 := FindRows(start, s2, tx, order);
    FirstIsFinished(s.db, s.clock, order);
    after := VisitFirst(start, s3, tx, order);
  }

  lemma FirstIsFinished(db: Db, readAt: Instant, order: seq<BookingId>)
    requires VisitOrder(db, readAt, order) && |order| > 0
    ensures order[0] in db.bookings && Finished(db.bookings[order[0]], readAt)
  {
    var first := order[0];
    assert first in order;
  }

  lemma ReadSweepClock(start: State, s: State, tx: TxId) returns (after: State)
    requires Leads(start, s) && tx in s.txs && s.txs[tx] == Tx(CompleteReq, Start)
    ensures Leads(start, after)
    ensures after == s.(txs := s.txs[tx := Tx(CompleteReq, SweepClockRead(s.clock))])
  {
    var e := Goto(SweepClockRead(s.clock));
    Extend(start, s, tx, 0, [], e);
    after := Apply(s, tx, e);
  }

  lemma FindRows(start: State, s: State, tx: TxId, order: seq<BookingId>) returns (after: State)
    requires Leads(start, s) && tx in s.txs && s.txs[tx] == Tx(CompleteReq, SweepClockRead(s.clock))
    requires VisitOrder(s.db, s.clock, order)
    ensures Leads(start, after)
    ensures after == s.(txs := s.txs[tx := SweepTx(s, order, {})])
  {
    var e := Goto(Sweeping(s.clock, FinishedRows(s.db, s.clock), order, {}));
    Extend(start, s, tx, 0, order, e);
    after := Apply(s, tx, e);
  }

  lemma VisitFirst(start: State, s: State, tx: TxId, order: seq<BookingId>) returns (after: State)
    requires Leads(start, s) && tx in s.txs && s.txs[tx] == SweepTx(s, order, {})
    requires |order| > 0 && order[0] !in s.bookingLock
    requires order[0] in s.db.bookings && Finished(s.db.bookings[order[0]], s.clock)
    ensures Leads(start, after)
    ensures after == s.(txs := s.txs[tx := SweepTx(s, order[1..], {order[0]})],
                        bookingLock := s.bookingLock[order[0] := tx])
  {
    assert {} + {order[0]} == {order[0]};
    var e := LockBooking(order[0], Sweeping(s.clock, FinishedRows(s.db, s.clock), order[1..], {order[0]}));
    Extend(start, s, tx, 0, [], e);
    after := Apply(s, tx, e);
  }

  /** Two bookings one after the other, both over. */
  function TwoBookings(room: RoomId, t: Instant): Db {
    Db(map[room := Room(1, true)],
       map[0 := Booking(room, 0, Period(t, t + 1), Active), 1 := Booking(room, 0, Period(t + 1, t + 2), Active)])
  }

  lemma TwoFinishedBookings(room: RoomId, t: Instant) returns (s: State)
    ensures Leads(Init(t), s) && Idle(s) && s.clock == t + 3 && s.txs.Keys == {0, 1, 2}
    ensures s.db == TwoBookings(room, t)
  {
    var s1 := OneBooking(room, Period(t, t + 1), t);
    var later := Period(t + 1, t + 2);
    assert OverlapRows(s1.db, room, later, None) == map[];
    assert forall u :: Covering(map[], u) == {};
    var s2 := CreateAlone(s1, 2, room, 0, later, 1);
    LeadsTransitive(Init(t), s1, s2);
    s := Wait(Init(t), s2, 3);
  }

  lemma EitherOrder(room: RoomId, t: Instant)
    ensures VisitOrder(TwoBookings(room, t), t + 3, [0, 1])
    ensures VisitOrder(TwoBookings(room, t), t + 3, [1, 0])
  {
  }

  /** Two sweeps that visit their rows in opposite orders can wait for each other: neither steps until one fails. */
  lemma TwoSweepsCanDeadlock(room: RoomId, t: Instant) returns (s: State)
    ensures Reachable(s) && 3 in s.txs && 4 in s.txs && !AtMostOneSweep(s)
    ensures WaitChain(s, [3, 4, 3])
    ensures !CanStep(s, 3) && !CanStep(s, 4)
  {
    var s3 := TwoFinishedBookings(room, t);
    EitherOrder(room, t);
    var s4 := StartSweep(Init(t), s3, 3, [0, 1]);
    s := StartSweep(Init(t), s4, 4, [1, 0]);
    OppositeSweepsWait(s);
  }

  lemma OppositeSweepsWait(s: State)
    requires 3 in s.txs && s.txs[3].pc.Sweeping? && s.txs[3].pc.todo == [1]
    requires 4 in s.txs && s.txs[4].pc.Sweeping? && s.txs[4].pc.todo == [0]
    requires s.bookingLock == map[0 := 3, 1 := 4]
    ensures !AtMostOneSweep(s) && WaitChain(s, [3, 4, 3]) && !CanStep(s, 3) && !CanStep(s, 4)
  {
    WaitingCannotStep(s, 3);
    WaitingCannotStep(s, 4);
  }
}
