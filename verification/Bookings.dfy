/** The rows the booking system keeps, and the queries its capacity check is made of. */
module Bookings {

  /** Microseconds in UTC. */
  type Instant = int
  type RoomId = int
  type BookingId = int
  type UserId = int

  datatype Option<+T> = None | Some(value: T)

  datatype Status = Active | Cancelled | Completed

  /** A half-open stretch of time; nothing here says that it is not empty or inverted. */
  datatype Period = Period(start: Instant, end: Instant) {
    predicate Contains(t: Instant) {
      start <= t < end
    }
  }

  datatype Room = Room(totalUnits: nat, isActive: bool)

  datatype Booking = Booking(roomId: RoomId, userId: UserId, period: Period, status: Status)

  datatype Db = Db(rooms: map<RoomId, Room>, bookings: map<BookingId, Booking>)

  const EMPTY_DB := Db(map[], map[])

  function Max(a: int, b: int): int {
    if a < b then b else a
  }

  function Min(a: int, b: int): int {
    if a < b then a else b
  }

  /** What the schema's constraints keep: bookings point to rooms and have proper periods. */
  ghost predicate WellFormed(db: Db) {
    forall id :: id in db.bookings ==>
      db.bookings[id].roomId in db.rooms && db.bookings[id].period.start < db.bookings[id].period.end
  }

  /** The service's period check: proper, and not starting before the clock reading. */
  predicate ValidPeriod(p: Period, now: Instant) {
    p.start < p.end && now <= p.start
  }

  /** The overlap filter of the capacity query. */
  predicate Blocks(b: Booking, room: RoomId, p: Period) {
    b.roomId == room && b.status.Active? && b.period.start < p.end && p.start < b.period.end
  }

  /** The rows the capacity query returns. */
  function OverlapRows(db: Db, room: RoomId, p: Period, exclude: Option<BookingId>): map<BookingId, Booking> {
    map id | id in db.bookings && Blocks(db.bookings[id], room, p) && exclude != Some(id) :: db.bookings[id]
  }

  /** The rows in use at one instant. */
  function Covering(rows: map<BookingId, Booking>, t: Instant): set<BookingId> {
    set id | id in rows && rows[id].period.Contains(t)
  }

  /** What the capacity check is for: at every requested instant a unit is left. */
  ghost predicate RowsAvailable(rows: map<BookingId, Booking>, units: int, p: Period) {
    units > 0 && forall t :: p.Contains(t) ==> |Covering(rows, t)| < units
  }

  ghost predicate RoomAvailable(db: Db, room: RoomId, units: int, p: Period, exclude: Option<BookingId>) {
    RowsAvailable(OverlapRows(db, room, p, exclude), units, p)
  }

  lemma SubsetSize<T>(a: set<T>, b: set<T>)
    requires a <= b
    ensures |a| <= |b|
  {
    assert b == a + (b - a);
  }

  lemma Pick<T>(s: set<T>) returns (x: T)
    requires |s| > 0
    ensures x in s
  {
    x :| x in s;
  }

  /** Rows that are all among others, apart from some listed extras, cover an instant no more often. */
  lemma CoveringGrows(few: map<BookingId, Booking>, many: map<BookingId, Booking>, extras: set<BookingId>, t: Instant)
    requires forall id :: id in few && few[id].period.Contains(t) && id !in extras ==> id in many && many[id] == few[id]
    ensures |Covering(few, t)| <= |Covering(many, t) + extras|
    ensures extras == {} ==> |Covering(few, t)| <= |Covering(many, t)|
  {
    forall id | id in Covering(few, t) && id !in extras
      ensures id in Covering(many, t)
    {
      assert id in few;
    }
    SubsetSize(Covering(few, t), Covering(many, t) + extras);
    if extras == {} {
      SubsetSize(Covering(few, t), Covering(many, t));
    }
  }

  /** Fewer rows never turn a passed check into a failed one. */
  lemma FewerRowsStayAvailable(few: map<BookingId, Booking>, many: map<BookingId, Booking>, units: int, p: Period)
    requires forall id :: id in few ==> id in many && many[id] == few[id]
    requires RowsAvailable(many, units, p)
    ensures RowsAvailable(few, units, p)
  {
    forall t | p.Contains(t)
      ensures |Covering(few, t)| < units
    {
      CoveringGrows(few, many, {}, t);
    }
  }
}
