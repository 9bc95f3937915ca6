/**
 What the time between reading the clock and committing costs: when a granted booking is still in time at its
 commit, and what a completion sweep can miss.
 */
module Lateness {
  import opened Bookings
  import opened Operations
  import opened Protocol
  import opened Linearization
  import opened Theorems
  import opened SerialRuns
  import Retirement

  // ---------- granting requests ----------

  /** The next step of a create for this period, checked at this clock reading, commits it. */
  ghost predicate GrantsCreate(s: State, tx: TxId, room: RoomId, user: UserId, p: Period, readAt: Instant) {
    && tx in s.txs && s.txs[tx].req == CreateReq(room, user, p)
    && exists pick :: Grants(Advance(s, tx, pick, []), readAt)
  }

  /** The next step of an update of this booking commits this period, checked at this clock reading. */
  ghost predicate GrantsUpdate(s: State, tx: TxId, id: BookingId, p: Period, readAt: Instant) {
    && tx in s.txs && s.txs[tx].req.UpdateReq? && s.txs[tx].req.booking == id
    && Grants(Advance(s, tx, 0, []), readAt)
    && id in Advance(s, tx, 0, []).value.db.bookings && Advance(s, tx, 0, []).value.db.bookings[id].period == p
  }

  predicate Grants(e: Option<Effect>, readAt: Instant) {
    && e.Some? && e.value.Answer?
    && ((e.value.outcome.Created? && e.value.op.Create? && e.value.op.readAt == readAt) ||
        (e.value.outcome.Updated? && e.value.op.Update? && e.value.op.readAt == readAt))
  }

  // ---------- runs up to a late commit ----------

  /** A create in an empty one-unit room that has read the clock at t, waited, and is about to commit. */
  lemma AdmittedCreate(room: RoomId, user: UserId, p: Period, t: Instant, delay: nat) returns (s: State)
    requires ValidPeriod(p, t)
    ensures Reachable(s) && s.clock == t + delay && GrantsCreate(s, 1, room, user, p, t)
  {
    var start := Init(t);
    var s1 := AddRoomAlone(start, 0, room, 1);
    var s2 := BeginTx(s1, 1, CreateReq(room, user, p));
    LeadsTransitive(start, s1, s2);
    Extend(start, s2, 1, 0, [], Goto(PeriodChecked(t)));
    s := AdmitCreate(start, Apply(s2, 1, Goto(PeriodChecked(t))), room, user, p, t);
    s := Wait(start, s, delay);
    assert Grants(Advance(s, 1, 0, []), t);
  }

  lemma AdmitCreate(start: State, s: State, room: RoomId, user: UserId, p: Period, readAt: Instant)
    returns (after: State)
    requires Leads(start, s) && 1 in s.txs && s.txs[1] == Tx(CreateReq(room, user, p), PeriodChecked(readAt))
    requires s.db == Db(map[room := Room(1, true)], map[]) && Idle(s)
    ensures Leads(start, after) && after.clock == s.clock && after.db == s.db
    ensures 1 in after.txs
    ensures after.txs[1] == Tx(CreateReq(room, user, p), CreateAdmitted(readAt, Room(1, true), map[]))
  {
    var e1 := LockRoom(room, CreateRoomLocked(readAt, Room(1, true)));
    Extend(start, s, 1, 0, [], e1);
    var s1 := Apply(s, 1, e1);
    assert OverlapRows(s1.db, room, p, None) == map[];
    assert forall u :: Covering(map[], u) == {};
    var e2 := Goto(CreateAdmitted(readAt, Room(1, true), map[]));
    Extend(start, s1, 1, 0, [], e2);
    after := Apply(s1, 1, e2);
  }

  /** The only transaction in flight: an update of booking 0 to end at `newEnd`, checked at t, about to commit. */
  ghost predicate UpdateWaits(s: State, room: RoomId, stored: Period, newEnd: Instant, t: Instant) {
    && Leads(Init(t), s) && s.db == OneBookingDb(room, stored) && s.txs.Keys == {0, 1, 2} && |s.log| == 2
    && s.txs[2] == Tx(UpdateReq(0, None, Some(newEnd)),
                      UpdateAdmitted(StoredRow(room, stored), Room(1, true), t, map[]))
    && s.roomLock == map[room := 2] && s.bookingLock == map[0 := 2]
  }

  function StoredRow(room: RoomId, stored: Period): Booking {
    Booking(room, 0, stored, Active)
  }

  lemma AdmittedUpdate(room: RoomId, stored: Period, newEnd: Instant, t: Instant) returns (s: State)
    requires ValidPeriod(stored, t) && stored.start < newEnd
    ensures UpdateWaits(s, room, stored, newEnd, t) && s.clock == t
  {
    var start := Init(t);
    var row, unit := StoredRow(room, stored), Room(1, true);
    var s1 := OneBooking(room, stored, t);
    var s2 := BeginTx(s1, 2, UpdateReq(0, None, Some(newEnd)));
    LeadsTransitive(start, s1, s2);
    var e1 := LockBooking(0, UpdateBookingLocked(row));
    Extend(start, s2, 2, 0, [], e1);
    var s3 := Apply(s2, 2, e1);
    var e2 := LockRoom(room, UpdateRoomLocked(row, unit));
    Extend(start, s3, 2, 0, [], e2);
    s := AdmitUpdate(start, Apply(s3, 2, e2), room, stored, newEnd);
  }

  lemma AdmitUpdate(start: State, s: State, room: RoomId, stored: Period, newEnd: Instant) returns (after: State)
    requires Leads(start, s) && s.db == OneBookingDb(room, stored) && 2 in s.txs
    requires s.txs[2] == Tx(UpdateReq(0, None, Some(newEnd)), UpdateRoomLocked(StoredRow(room, stored), Room(1, true)))
    requires ValidPeriod(Period(stored.start, newEnd), s.clock)
    ensures Leads(start, after)
    ensures var pc := UpdateAdmitted(StoredRow(room, stored), Room(1, true), s.clock, map[]);
            after == s.(txs := s.txs[2 := s.txs[2].(pc := pc)])
  {
    var row, unit, p := StoredRow(room, stored), Room(1, true), Period(stored.start, newEnd);
    var e1 := Goto(UpdatePeriodChecked(row, unit, s.clock));
    Extend(start, s, 2, 0, [], e1);
    var s1 := Apply(s, 2, e1);
    assert OverlapRows(s1.db, room, p, Some(0)) == map[];
    assert forall u :: Covering(map[], u) == {};
    var e2 := Goto(UpdateAdmitted(row, unit, s.clock, map[]));
    Extend(start, s1, 2, 0, [], e2);
    after := Apply(s1, 2, e2);
  }

  // ---------- not starting in the past, at the commit ----------

  /**
   A create whose period was valid at its clock reading and which commits within `wait` of it starts no earlier
   than its commit, in every run, if and only if the period leaves that much time.
   */
  lemma CreateInTimeIff(room: RoomId, user: UserId, p: Period, readAt: Instant, wait: nat)
    requires ValidPeriod(p, readAt)
    ensures (forall s, tx ::
               Reachable(s) && GrantsCreate(s, tx, room, user, p, readAt) && s.clock <= readAt + wait ==>
                 s.clock <= p.start)
            <==> readAt + wait <= p.start
  {
    if p.start < readAt + wait {
      var s := AdmittedCreate(room, user, p, readAt, wait);
    }
  }

  /** The same for an update: it reads the clock under its locks, but still before it commits. */
  lemma UpdateInTimeIff(room: RoomId, p: Period, readAt: Instant, wait: nat)
    requires ValidPeriod(p, readAt)
    ensures (forall s, tx, id ::
               Reachable(s) && GrantsUpdate(s, tx, id, p, readAt) && s.clock <= readAt + wait ==>
                 s.clock <= p.start)
            <==> readAt + wait <= p.start
  {
    if p.start < readAt + wait {
      var s1 := AdmittedUpdate(room, p, p.end, readAt);
      var s := Wait(Init(readAt), s1, wait);
      assert Reachable(s);
      assert GrantsUpdate(s, 2, 0, p, readAt);
    }
  }

  // ---------- what a sweep can miss ----------

  /**
   An update that was checked before the sweep read the clock, and commits after the sweep found its rows, ends a
   booking too late for the sweep: it completes nothing, while a sweep run alone at its commit would complete it.
   */
  lemma SweepCanMissARow(room: RoomId, t: Instant) returns (s: State)
    ensures Reachable(s) && |s.log| == 4 && s.log[3].op.Complete? && s.log[3].outcome == Swept(0)
    ensures FinishedRows(s.db, s.log[3].op.readAt) == {0}
    ensures !Retirement.SweepsAllAtCommit(s.log, 3)
  {
    var start := Init(t);
    var s1 := AdmittedUpdate(room, Period(t, t + 10), t + 1, t);
    var s2 := Wait(start, s1, 5);
    var s3 := EmptySweep(start, s2, 3);
    s := UpdateThenSweep(start, s3, room, t);
    ReachableInv(s);
    MissedRow(s.log, room, t);
  }

  lemma MissedRow(log: History, room: RoomId, t: Instant)
    requires Legal(log) && |log| == 4 && Replay(log) == OneBookingDb(room, Period(t, t + 1))
    requires log[3] == Entry(3, Complete(t + 5, {}), Swept(0))
    ensures FinishedRows(Replay(log), t + 5) == {0} && !Retirement.SweepsAllAtCommit(log, 3)
  {
    EntryAt(log, 3);
    assert log[..4] == log;
    var before := Replay(log[..3]);
    assert FinishedRows(before, t + 5) * {} == {};
    assert CompleteRows(before, {}) == before;
    assert 0 in FinishedRows(before, t + 5);
  }

  lemma UpdateThenSweep(start: State, s: State, room: RoomId, t: Instant) returns (after: State)
    requires Leads(start, s) && s.clock == t + 5 && |s.log| == 2 && s.db == OneBookingDb(room, Period(t, t + 10))
    requires 2 in s.txs && 3 in s.txs && s.txs[3] == Tx(CompleteReq, Sweeping(t + 5, {}, [], {}))
    requires s.txs[2] == Tx(UpdateReq(0, None, Some(t + 1)),
                            UpdateAdmitted(StoredRow(room, Period(t, t + 10)), Room(1, true), t, map[]))
    ensures Leads(start, after) && |after.log| == 4 && after.db == OneBookingDb(room, Period(t, t + 1))
    ensures after.log[3] == Entry(3, Complete(t + 5, {}), Swept(0))
  {
    var db := OneBookingDb(room, Period(t, t + 1));
    assert WithBooking(s.db, 0, StoredRow(room, Period(t, t + 1))) == db;
    var e1 := Answer(Update(0, None, Some(t + 1), t), Updated, db);
    Extend(start, s, 2, 0, [], e1);
    var s1 := Apply(s, 2, e1);
    assert CompleteRows(db, {}) == db;
    var e2 := Answer(Complete(t + 5, {}), Swept(0), db);
    Extend(start, s1, 3, 0, [], e2);
    after := Apply(s1, 3, e2);
  }

  /** A sweep reads the clock and finds nothing to do. */
  lemma EmptySweep(start: State, s: State, tx: TxId) returns (after: State)
    requires Leads(start, s) && tx !in s.txs && FinishedRows(s.db, s.clock) == {}
    ensures Leads(start, after)
    ensures after == s.(txs := s.txs[tx := Tx(CompleteReq, Sweeping(s.clock, {}, [], {}))])
  {
    var s1 := BeginTx(s, tx, CompleteReq);
    LeadsTransitive(start, s, s1);
    var s2 := ReadSweepClock(start, s1, tx);
    assert forall id :: id in s2.db.bookings && Finished(s2.db.bookings[id], s2.clock) ==>
        id in FinishedRows(s2.db, s2.clock);
    after := FindRows(start, s2, tx, []);
  }
}
