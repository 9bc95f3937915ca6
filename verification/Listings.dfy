/** The two room listings, and how they relate to each other and to booking. */
module Listings {
  import opened Bookings
  import opened Operations
  import Answers

  const ONE_DAY := 24 * 60 * 60 * 1_000_000

  /** A missing start is now, a missing end is one day later; None where the request is refused. */
  function ResolvePeriod(start: Option<Instant>, end: Option<Instant>, now: Instant): Option<Period> {
    var from := if start.Some? then start.value else now;
    var to := if end.Some? then end.value else from + ONE_DAY;
    if from >= to then None else Some(Period(from, to))
  }

  /** Whatever is given is taken as it is; a request is refused only for a start that is not before its end. */
  lemma PeriodIsResolved(start: Option<Instant>, end: Option<Instant>, now: Instant)
    ensures start.Some? && end.Some? ==>
              ResolvePeriod(start, end, now) ==
              if start.value < end.value then Some(Period(start.value, end.value)) else None
    ensures start.Some? && end.None? ==>
              ResolvePeriod(start, end, now) == Some(Period(start.value, start.value + 86_400_000_000))
    ensures start.None? && end.Some? ==>
              ResolvePeriod(start, end, now) == if now < end.value then Some(Period(now, end.value)) else None
    ensures start.None? && end.None? ==> ResolvePeriod(start, end, now) == Some(Period(now, now + 86_400_000_000))
  {
  }

  /** What the search is to return; Service.BookingService.FindAvailableRooms returns exactly these. */
  ghost predicate ListedAvailable(db: Db, room: RoomId, p: Period) {
    room in db.rooms && db.rooms[room].isActive && RoomAvailable(db, room, db.rooms[room].totalUnits, p, None)
  }

  /** The join behind the booked listing; it does not ask whether the room is active. */
  ghost predicate ListedBooked(db: Db, room: RoomId, p: Period) {
    room in db.rooms && exists id :: id in db.bookings && Blocks(db.bookings[id], room, p)
  }

  /** Whatever overlaps a proper period is in use at some instant of it. */
  lemma OverlapMeans(b: Booking, room: RoomId, p: Period) returns (t: Instant)
    requires Blocks(b, room, p) && b.period.start < b.period.end && p.start < p.end
    ensures p.Contains(t) && b.period.Contains(t)
  {
    t := Max(b.period.start, p.start);
  }

  /** For a proper period: an active room is listed as available if a unit is left at every instant. */
  lemma AvailableMeansUnitFree(db: Db, room: RoomId, p: Period)
    requires p.start < p.end
    ensures ListedAvailable(db, room, p) <==> Answers.Open(db, room) && Answers.UnitFree(db, room, p.start, p.end, None)
  {
    if room in db.rooms {
      Answers.UnitFreeIsChecked(db, room, p, None);
    }
  }

  /** For a proper period: a room is listed as booked if it is in use at some instant. */
  lemma BookedMeansInUse(db: Db, room: RoomId, p: Period)
    requires WellFormed(db) && p.start < p.end && room in db.rooms
    ensures ListedBooked(db, room, p) <==> exists t :: p.start <= t < p.end && Answers.InUse(db, room, t, None) != {}
  {
    if id :| id in db.bookings && Blocks(db.bookings[id], room, p) {
      var t := OverlapMeans(db.bookings[id], room, p);
      assert id in Answers.InUse(db, room, t, None);
    }
    if t :| p.start <= t < p.end && Answers.InUse(db, room, t, None) != {} {
      var id := Pick(Answers.InUse(db, room, t, None));
      assert Blocks(db.bookings[id], room, p);
    }
  }

  /** An unavailable active room with units is booked; with one unit it is in exactly one of the two lists. */
  lemma BookedOrAvailable(db: Db, room: RoomId, start: Option<Instant>, end: Option<Instant>, now: Instant)
    requires WellFormed(db) && room in db.rooms && db.rooms[room].isActive && db.rooms[room].totalUnits >= 1
    requires ResolvePeriod(start, end, now).Some?
    ensures var p := ResolvePeriod(start, end, now).value;
            && (ListedAvailable(db, room, p) || ListedBooked(db, room, p))
            && (db.rooms[room].totalUnits == 1 ==> !(ListedAvailable(db, room, p) && ListedBooked(db, room, p)))
  {
    var p := ResolvePeriod(start, end, now).value;
    var rows := OverlapRows(db, room, p, None);
    if !ListedAvailable(db, room, p) {
      var t :| p.Contains(t) && |Covering(rows, t)| >= db.rooms[room].totalUnits;
      var id := Pick(Covering(rows, t));
      assert id in rows;
    }
    if db.rooms[room].totalUnits == 1 && ListedBooked(db, room, p) {
      var id :| id in db.bookings && Blocks(db.bookings[id], room, p);
      var t := OverlapMeans(db.bookings[id], room, p);
      assert id in rows;
      assert id in Covering(rows, t);
    }
  }

  /** A room is found for a period exactly when a booking of it, made now, would succeed. */
  lemma SearchAgreesWithBooking(db: Db, room: RoomId, p: Period, user: UserId, now: Instant, newId: BookingId)
    requires ValidPeriod(p, now)
    ensures ListedAvailable(db, room, p) <==> Perform(db, Create(room, user, p, now, newId)).1 == Created(newId)
  {
  }
}
