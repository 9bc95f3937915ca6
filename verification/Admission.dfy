/** How many of a crowd of identical requests get a booking. */
module Admission {
  import opened Bookings
  import opened Operations
  import Lifecycle

  /** The highest occupancy inside a period. */
  function Peak(rows: map<BookingId, Booking>, p: Period): nat
    requires p.start < p.end
    decreases p.end - p.start
  {
    var last := |Covering(rows, p.end - 1)|;
    if p.start + 1 == p.end then last else Max(Peak(rows, Period(p.start, p.end - 1)), last)
  }

  lemma {:induction false} PeakIsHighest(rows: map<BookingId, Booking>, p: Period)
    requires p.start < p.end
    ensures forall t :: p.Contains(t) ==> |Covering(rows, t)| <= Peak(rows, p)
    ensures exists t :: p.Contains(t) && |Covering(rows, t)| == Peak(rows, p)
    decreases p.end - p.start
  {
    assert p.Contains(p.end - 1);
    if p.start + 1 < p.end {
      var shorter := Period(p.start, p.end - 1);
      PeakIsHighest(rows, shorter);
      assert forall t :: p.Contains(t) ==> shorter.Contains(t) || t == p.end - 1;
      var t :| shorter.Contains(t) && |Covering(rows, t)| == Peak(rows, shorter);
      assert p.Contains(t);
    }
  }

  function RoomPeak(db: Db, room: RoomId, p: Period): nat
    requires p.start < p.end
  {
    Peak(OverlapRows(db, room, p, None), p)
  }

  /** The check compares the peak with the number of units. */
  lemma AvailableIffBelowPeak(db: Db, room: RoomId, units: nat, p: Period)
    requires p.start < p.end
    ensures RoomAvailable(db, room, units, p, None) <==> RoomPeak(db, room, p) < units
  {
    PeakIsHighest(OverlapRows(db, room, p, None), p);
  }

  lemma {:induction false} PeakRises(before: map<BookingId, Booking>, after: map<BookingId, Booking>, p: Period)
    requires p.start < p.end
    requires forall t :: p.Contains(t) ==> |Covering(after, t)| == |Covering(before, t)| + 1
    ensures Peak(after, p) == Peak(before, p) + 1
    decreases p.end - p.start
  {
    assert p.Contains(p.end - 1);
    if p.start + 1 < p.end {
      var shorter := Period(p.start, p.end - 1);
      assert forall t :: shorter.Contains(t) ==> p.Contains(t);
      PeakRises(before, after, shorter);
    }
  }

  lemma OneMoreRow(db: Db, room: RoomId, row: Booking, id: BookingId)
    requires id !in db.bookings && Blocks(row, room, row.period)
    ensures OverlapRows(WithBooking(db, id, row), room, row.period, None) ==
            OverlapRows(db, room, row.period, None)[id := row]
  {
  }

  lemma OneMoreCovering(rows: map<BookingId, Booking>, id: BookingId, row: Booking, t: Instant)
    requires id !in rows && row.period.Contains(t)
    ensures |Covering(rows[id := row], t)| == |Covering(rows, t)| + 1
  {
    assert Covering(rows[id := row], t) == Covering(rows, t) + {id};
  }

  /** A booking of the whole period raises its peak by one. */
  lemma AdmissionRaisesPeak(db: Db, room: RoomId, user: UserId, p: Period, id: BookingId)
    requires p.start < p.end && id !in db.bookings
    ensures RoomPeak(WithBooking(db, id, Booking(room, user, p, Active)), room, p) == RoomPeak(db, room, p) + 1
  {
    var row := Booking(room, user, p, Active);
    var before := OverlapRows(db, room, p, None);
    OneMoreRow(db, room, row, id);
    forall t | p.Contains(t)
      ensures |Covering(before[id := row], t)| == |Covering(before, t)| + 1
    {
      OneMoreCovering(before, id, row, t);
    }
    PeakRises(before, before[id := row], p);
  }

  // ---------- a crowd of identical requests ----------

  /** A request for this room and this period that passed the period check. */
  predicate IsAttempt(op: Op, room: RoomId, p: Period) {
    op.Create? && op.room == room && op.period == p && ValidPeriod(p, op.readAt)
  }

  /** An operation that neither reads nor writes this room or its bookings in a way that matters. */
  predicate Elsewhere(db: Db, op: Op, room: RoomId) {
    match op
    case Create(r, _, _, _, _) => r != room
    case Update(id, _, _, _) => BookedElsewhere(db, id, room)
    case Cancel(id, _, _) => BookedElsewhere(db, id, room)
    case ChangeRoom(r, _, _) => r != room
    case Archive(r) => r != room
    case AddRoom(r, _) => r != room
    case Complete(_, ids) => forall id :: id in ids ==> BookedElsewhere(db, id, room)
  }

  predicate BookedElsewhere(db: Db, id: BookingId, room: RoomId) {
    id in db.bookings ==> db.bookings[id].roomId != room
  }

  /** Refused, or elsewhere. */
  predicate Harmless(db: Db, entry: Entry, room: RoomId) {
    Lifecycle.Refused(entry.outcome) || Elsewhere(db, entry.op, room)
  }

  /** From point n on, the room sees only the crowd, apart from requests that are refused. */
  ghost predicate OnlyCrowd(log: History, n: nat, room: RoomId, p: Period) {
    forall i :: n <= i < |log| ==> IsAttempt(log[i].op, room, p) || Harmless(Replay(log[..i]), log[i], room)
  }

  function Attempts(log: History, n: nat, room: RoomId, p: Period): nat
    decreases |log|
  {
    if |log| <= n then 0
    else Attempts(log[..|log| - 1], n, room, p) + if IsAttempt(log[|log| - 1].op, room, p) then 1 else 0
  }

  function Admitted(log: History, n: nat, room: RoomId, p: Period): nat
    decreases |log|
  {
    if |log| <= n then 0
    else
      Admitted(log[..|log| - 1], n, room, p) +
      if IsAttempt(log[|log| - 1].op, room, p) && log[|log| - 1].outcome.Created? then 1 else 0
  }

  lemma ElsewhereKeepsRoom(db: Db, op: Op, room: RoomId, p: Period)
    requires Elsewhere(db, op, room) && room in db.rooms
    requires Perform(db, op).1.Created? ==> Fresh(db, op)
    ensures room in Perform(db, op).0.rooms && Perform(db, op).0.rooms[room] == db.rooms[room]
    ensures OverlapRows(Perform(db, op).0, room, p, None) == OverlapRows(db, room, p, None)
  {
    var after := Perform(db, op).0;
    forall id
      ensures id in after.bookings && after.bookings[id].roomId == room ==>
              id in db.bookings && db.bookings[id].roomId == room
      ensures id in db.bookings && db.bookings[id].roomId == room ==> id in after.bookings
      ensures id in db.bookings && db.bookings[id].roomId == room ==> after.bookings[id] == db.bookings[id]
    {
    }
    SameRowsSameOverlap(db, after, room, p);
  }

  lemma HarmlessKeepsRoom(db: Db, entry: Entry, room: RoomId, p: Period)
    requires Harmless(db, entry, room) && room in db.rooms
    requires Perform(db, entry.op).1 == entry.outcome && (entry.outcome.Created? ==> Fresh(db, entry.op))
    ensures var after := Perform(db, entry.op).0;
            && room in after.rooms && after.rooms[room] == db.rooms[room]
            && OverlapRows(after, room, p, None) == OverlapRows(db, room, p, None)
  {
    if Elsewhere(db, entry.op, room) {
      ElsewhereKeepsRoom(db, entry.op, room, p);
    } else {
      Lifecycle.OperationTouches(db, entry.op);
    }
  }

  lemma SameRowsSameOverlap(a: Db, b: Db, room: RoomId, p: Period)
    requires forall id :: id in a.bookings && a.bookings[id].roomId == room ==>
               id in b.bookings && b.bookings[id] == a.bookings[id]
    requires forall id :: id in b.bookings && b.bookings[id].roomId == room ==>
               id in a.bookings && a.bookings[id].roomId == room
    ensures OverlapRows(a, room, p, None) == OverlapRows(b, room, p, None)
  {
    var left, right := OverlapRows(a, room, p, None), OverlapRows(b, room, p, None);
    assert forall id :: id in left ==> id in a.bookings && id in right && right[id] == left[id];
    assert forall id :: id in right ==> id in b.bookings && id in left;
  }

  /** One entry more: the room's peak and the number admitted move together. */
  lemma OneMoreRequest(before: Db, entry: Entry, after: Db, room: RoomId, p: Period)
    requires p.start < p.end && room in before.rooms && before.rooms[room].isActive
    requires Perform(before, entry.op) == (after, entry.outcome)
    requires entry.outcome.Created? ==> Fresh(before, entry.op)
    requires IsAttempt(entry.op, room, p) || Harmless(before, entry, room)
    ensures room in after.rooms && after.rooms[room] == before.rooms[room]
    ensures IsAttempt(entry.op, room, p) ==>
              (entry.outcome.Created? <==> RoomPeak(before, room, p) < before.rooms[room].totalUnits)
    ensures RoomPeak(after, room, p) ==
              RoomPeak(before, room, p) + if IsAttempt(entry.op, room, p) && entry.outcome.Created? then 1 else 0
  {
    if IsAttempt(entry.op, room, p) {
      AvailableIffBelowPeak(before, room, before.rooms[room].totalUnits, p);
      if entry.outcome.Created? {
        AdmissionRaisesPeak(before, room, entry.op.user, p, entry.op.newId);
      }
    } else {
      HarmlessKeepsRoom(before, entry, room, p);
    }
  }

  lemma LastRequest(log: History, room: RoomId, p: Period)
    requires Legal(log) && |log| > 0 && p.start < p.end
    requires var before := Replay(log[..|log| - 1]);
             && room in before.rooms && before.rooms[room].isActive
             && (IsAttempt(log[|log| - 1].op, room, p) || Harmless(before, log[|log| - 1], room))
    ensures var before, last := Replay(log[..|log| - 1]), log[|log| - 1];
            && room in Replay(log).rooms && Replay(log).rooms[room] == before.rooms[room]
            && (IsAttempt(last.op, room, p) ==>
                  (last.outcome.Created? <==> RoomPeak(before, room, p) < before.rooms[room].totalUnits))
            && RoomPeak(Replay(log), room, p) ==
               RoomPeak(before, room, p) + if IsAttempt(last.op, room, p) && last.outcome.Created? then 1 else 0
  {
    var k := |log| - 1;
    EntryAt(log, k);
    assert log[..k + 1] == log;
    OneMoreRequest(Replay(log[..k]), log[k], Replay(log), room, p);
  }

  lemma CrowdPrefix(log: History, n: nat, room: RoomId, p: Period)
    requires n < |log| && OnlyCrowd(log, n, room, p)
    ensures OnlyCrowd(log[..|log| - 1], n, room, p)
    ensures log[..|log| - 1][..n] == log[..n]
  {
    var prefix := log[..|log| - 1];
    forall i | n <= i < |prefix|
      ensures IsAttempt(prefix[i].op, room, p) || Harmless(Replay(prefix[..i]), prefix[i], room)
    {
      assert prefix[..i] == log[..i];
    }
  }

  /** As many of the crowd after point n are admitted as the room had units left at its peak. */
  ghost predicate ExactlyServed(before: Db, log: History, n: nat, room: RoomId, p: Period)
    requires room in before.rooms && p.start < p.end
  {
    var free := Max(0, before.rooms[room].totalUnits - RoomPeak(before, room, p));
    Admitted(log, n, room, p) == Min(Attempts(log, n, room, p), free)
  }

  /** Of k attempts on a room whose peak leaves f units, exactly min(k, f) are admitted. */
  lemma {:induction false} ExactAdmission(log: History, n: nat, room: RoomId, p: Period)
    requires Legal(log) && n <= |log| && p.start < p.end
    requires room in Replay(log[..n]).rooms && Replay(log[..n]).rooms[room].isActive
    requires OnlyCrowd(log, n, room, p)
    ensures room in Replay(log).rooms && Replay(log).rooms[room] == Replay(log[..n]).rooms[room]
    ensures RoomPeak(Replay(log), room, p) == RoomPeak(Replay(log[..n]), room, p) + Admitted(log, n, room, p)
    ensures ExactlyServed(Replay(log[..n]), log, n, room, p)
    decreases |log|
  {
    if |log| == n {
      assert log[..n] == log;
    } else {
      var k := |log| - 1;
      CrowdPrefix(log, n, room, p);
      ExactAdmission(log[..k], n, room, p);
      LastRequest(log, room, p);
    }
  }
}
