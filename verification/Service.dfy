/** The service and the room endpoints as they run, statement by statement, on one database session. */
module Service {
  import opened Bookings
  import opened Operations
  import Sweep
  import Listings

  function IntervalsOf(byRoom: map<RoomId, seq<Period>>, room: RoomId): seq<Period> {
    if room in byRoom then byRoom[room] else []
  }

  /** The rows of one room among those loaded so far. */
  function Loaded(bookings: map<BookingId, Booking>, ids: set<BookingId>, room: RoomId): map<BookingId, Booking> {
    map id | id in bookings && id in ids && bookings[id].roomId == room :: bookings[id]
  }

  /** Appending one row's interval to its room's list keeps every list's occupancy right. */
  lemma LoadOneMore(bookings: map<BookingId, Booking>, ids: set<BookingId>, id: BookingId,
                    byRoom: map<RoomId, seq<Period>>, room: RoomId, t: Instant)
    requires id in bookings && id !in ids
    requires Sweep.Cover(IntervalsOf(byRoom, room), t) == |Covering(Loaded(bookings, ids, room), t)|
    ensures var b := bookings[id];
            var more := byRoom[b.roomId := IntervalsOf(byRoom, b.roomId) + [b.period]];
            Sweep.Cover(IntervalsOf(more, room), t) == |Covering(Loaded(bookings, ids + {id}, room), t)|
  {
    var b := bookings[id];
    var before, after := Loaded(bookings, ids, room), Loaded(bookings, ids + {id}, room);
    if b.roomId == room {
      assert (IntervalsOf(byRoom, room) + [b.period])[..|IntervalsOf(byRoom, room)|] == IntervalsOf(byRoom, room);
      assert after == before[id := b];
      if b.period.Contains(t) {
        assert Covering(after, t) == Covering(before, t) + {id};
      } else {
        assert Covering(after, t) == Covering(before, t);
      }
    } else {
      assert after == before;
    }
  }

  /** Every room's list has the occupancy of the rows loaded so far. */
  ghost predicate Grouped(bookings: map<BookingId, Booking>, ids: set<BookingId>, byRoom: map<RoomId, seq<Period>>) {
    forall room, t :: Sweep.Cover(IntervalsOf(byRoom, room), t) == |Covering(Loaded(bookings, ids, room), t)|
  }

  lemma GroupOneMore(bookings: map<BookingId, Booking>, ids: set<BookingId>, id: BookingId,
                     byRoom: map<RoomId, seq<Period>>)
    requires id in bookings && id !in ids && Grouped(bookings, ids, byRoom)
    ensures var b := bookings[id];
            Grouped(bookings, ids + {id}, byRoom[b.roomId := IntervalsOf(byRoom, b.roomId) + [b.period]])
  {
    var b := bookings[id];
    forall room, t
      ensures Sweep.Cover(IntervalsOf(byRoom[b.roomId := IntervalsOf(byRoom, b.roomId) + [b.period]], room), t)
              == |Covering(Loaded(bookings, ids + {id}, room), t)|
    {
      LoadOneMore(bookings, ids, id, byRoom, room, t);
    }
  }

  /** The rows of one batched query, seen room by room. */
  function BatchRows(db: Db, roomIds: seq<RoomId>, p: Period, exclude: Option<BookingId>): set<BookingId> {
    set id | id in db.bookings && db.bookings[id].roomId in roomIds &&
             Blocks(db.bookings[id], db.bookings[id].roomId, p) && exclude != Some(id)
  }

  lemma BatchIsPerRoom(db: Db, roomIds: seq<RoomId>, p: Period, exclude: Option<BookingId>, room: RoomId)
    requires room in roomIds
    ensures Loaded(db.bookings, BatchRows(db, roomIds, p, exclude), room) == OverlapRows(db, room, p, exclude)
  {
    var loaded := Loaded(db.bookings, BatchRows(db, roomIds, p, exclude), room);
    var wanted := OverlapRows(db, room, p, exclude);
    assert forall id :: id in loaded ==> id in wanted;
    assert forall id :: id in wanted ==> id in loaded;
  }

  lemma GroupedBatch(db: Db, roomIds: seq<RoomId>, p: Period, exclude: Option<BookingId>,
                     byRoom: map<RoomId, seq<Period>>)
    requires Grouped(db.bookings, BatchRows(db, roomIds, p, exclude), byRoom)
    ensures forall room, t :: room in roomIds ==>
              Sweep.Cover(IntervalsOf(byRoom, room), t) == |Covering(OverlapRows(db, room, p, exclude), t)|
  {
    forall room, t | room in roomIds
      ensures Sweep.Cover(IntervalsOf(byRoom, room), t) == |Covering(OverlapRows(db, room, p, exclude), t)|
    {
      BatchIsPerRoom(db, roomIds, p, exclude, room);
    }
  }

  /** The interval list and the rows it was loaded from are interchangeable for the sweep. */
  lemma SameAnswer(intervals: seq<Period>, rows: map<BookingId, Booking>, units: int, p: Period)
    requires forall t :: Sweep.Cover(intervals, t) == |Covering(rows, t)|
    ensures Sweep.Available(intervals, units, p) <==> RowsAvailable(rows, units, p)
  {
    if Sweep.Available(intervals, units, p) {
      assert forall t :: p.Contains(t) ==> |Covering(rows, t)| == Sweep.Cover(intervals, t) < units;
    }
    if RowsAvailable(rows, units, p) {
      assert forall t :: p.Contains(t) ==> Sweep.Cover(intervals, t) == |Covering(rows, t)| < units;
    }
  }

  ghost predicate Ascending(ids: seq<int>) {
    forall i, j :: 0 <= i < j < |ids| ==> ids[i] < ids[j]
  }

  lemma AppendAscending(ids: seq<int>, last: int)
    requires Ascending(ids) && forall x :: x in ids ==> x < last
    ensures Ascending(ids + [last])
  {
    assert forall i :: 0 <= i < |ids| ==> ids[i] in ids;
  }

  method Smallest(ids: set<int>) returns (least: int)
    requires |ids| > 0
    ensures least in ids && forall x :: x in ids ==> least <= x
  {
    ghost var first := Pick(ids);
    var x :| x in ids;
    least := x;
    var rest := ids - {x};
    while |rest| > 0
      invariant rest <= ids && least in ids
      invariant forall y :: y in ids && y !in rest ==> least <= y
      decreases rest
    {
      ghost var next := Pick(rest);
      var y :| y in rest;
      if y < least {
        least := y;
      }
      rest := rest - {y};
    }
  }

  /** ORDER BY id. */
  method InOrder(ids: set<int>) returns (ordered: seq<int>)
    ensures Ascending(ordered)
    ensures forall x :: x in ordered <==> x in ids
  {
    ordered := [];
    var rest := ids;
    while |rest| > 0
      invariant rest <= ids && Ascending(ordered)
      invariant forall x :: x in ordered <==> x in ids && x !in rest
      invariant forall x, y :: x in ordered && y in rest ==> x < y
      decreases rest
    {
      var next := Smallest(rest);
      assert forall x :: x in ordered + [next] <==> x in ordered || x == next;
      AppendAscending(ordered, next);
      ordered := ordered + [next];
      rest := rest - {next};
    }
  }

  class BookingService {
    var rooms: map<RoomId, Room>
    var bookings: map<BookingId, Booking>

    function Database(): Db
      reads this
    {
      Db(rooms, bookings)
    }

    constructor ()
      ensures Database() == EMPTY_DB
    {
      rooms, bookings := map[], map[];
    }

    /** One query for all rooms; rows arrive in any order and are grouped by room. */
    method LoadOverlappingIntervals(roomIds: seq<RoomId>, p: Period, exclude: Option<BookingId>)
      returns (byRoom: map<RoomId, seq<Period>>)
      ensures forall room, t :: room in roomIds ==>
                Sweep.Cover(IntervalsOf(byRoom, room), t) == |Covering(OverlapRows(Database(), room, p, exclude), t)|
    {
      var rows := BatchRows(Database(), roomIds, p, exclude);
      byRoom := map[];
      var todo := rows;
      ghost var done: set<BookingId> := {};
      while |todo| > 0
        invariant done + todo == rows && done !! todo
        invariant Grouped(bookings, done, byRoom)
        decreases todo
      {
        ghost var next := Pick(todo);
        var id :| id in todo;
        var b := bookings[id];
        GroupOneMore(bookings, done, id, byRoom);
        byRoom := byRoom[b.roomId := IntervalsOf(byRoom, b.roomId) + [b.period]];
        todo := todo - {id};
        done := done + {id};
      }
      assert done == rows;
      GroupedBatch(Database(), roomIds, p, exclude, byRoom);
    }

    /** False where the code raises ConflictError. */
    method EnsureRoomAvailable(roomId: RoomId, room: Room, p: Period, exclude: Option<BookingId>) returns (ok: bool)
      ensures ok <==> RoomAvailable(Database(), roomId, room.totalUnits, p, exclude)
    {
      var byRoom := LoadOverlappingIntervals([roomId], p, exclude);
      ok := Sweep.HasAvailableUnit(IntervalsOf(byRoom, roomId), room.totalUnits, p);
      SameAnswer(IntervalsOf(byRoom, roomId), OverlapRows(Database(), roomId, p, exclude), room.totalUnits, p);
    }

    /** The search: exactly the active rooms whose own check would pass, ascending by id, each once. */
    method FindAvailableRooms(p: Period, only: Option<RoomId>) returns (found: seq<RoomId>)
      ensures Ascending(found)
      ensures forall room :: room in found <==>
                Listings.ListedAvailable(Database(), room, p) && (only.Some? ==> room == only.value)
    {
      var candidates := InOrder(set room | room in rooms && rooms[room].isActive && (only.None? || room == only.value));
      found := [];
      if |candidates| == 0 {
        return;
      }
      assert forall room :: room in candidates ==> room in rooms;
      var byRoom := LoadOverlappingIntervals(candidates, p, None);
      for i := 0 to |candidates|
        invariant Ascending(found)
        invariant forall room :: room in found <==>
                    room in candidates[..i] && room in rooms &&
                    RoomAvailable(Database(), room, rooms[room].totalUnits, p, None)
        invariant forall room :: room in found && i < |candidates| ==> room < candidates[i]
      {
        var room := candidates[i];
        assert candidates[..i + 1] == candidates[..i] + [room];
        assert room in candidates;
        var ok := Sweep.HasAvailableUnit(IntervalsOf(byRoom, room), rooms[room].totalUnits, p);
        SameAnswer(IntervalsOf(byRoom, room), OverlapRows(Database(), room, p, None), rooms[room].totalUnits, p);
        if ok {
          AppendAscending(found, room);
          found := found + [room];
        }
      }
      assert candidates[..|candidates|] == candidates;
    }

    method Create(roomId: RoomId, userId: UserId, p: Period, now: Instant, newId: BookingId) returns (outcome: Outcome)
      requires newId !in bookings
      modifies this
      ensures (Database(), outcome) == Perform(old(Database()), Op.Create(roomId, userId, p, now, newId))
    {
      if p.start >= p.end || p.start < now {
        return InvalidPeriod;
      }
      if roomId !in rooms || !rooms[roomId].isActive {
        return NotFound;
      }
      var room := rooms[roomId];
      var ok := EnsureRoomAvailable(roomId, room, p, None);
      if !ok {
        return Conflict;
      }
      bookings := bookings[newId := Booking(roomId, userId, p, Active)];
      return Created(newId);
    }

    method Update(id: BookingId, newStart: Option<Instant>, newEnd: Option<Instant>, now: Instant)
      returns (outcome: Outcome)
      modifies this
      ensures (Database(), outcome) == Perform(old(Database()), Op.Update(id, newStart, newEnd, now))
    {
      if id !in bookings {
        return NotFound;
      }
      var booking := bookings[id];
      if booking.status != Active {
        return Conflict;
      }
      if booking.roomId !in rooms || !rooms[booking.roomId].isActive {
        return NotFound;
      }
      var room := rooms[booking.roomId];
      var start := if newStart.Some? then newStart.value else booking.period.start;
      var end := if newEnd.Some? then newEnd.value else booking.period.end;
      if start >= end || start < now {
        return InvalidPeriod;
      }
      var ok := EnsureRoomAvailable(booking.roomId, room, Period(start, end), Some(id));
      if !ok {
        return Conflict;
      }
      booking := booking.(period := Period(start, end));
      bookings := bookings[id := booking];
      return Updated;
    }

    method Cancel(id: BookingId, requester: UserId, privileged: bool) returns (outcome: Outcome)
      modifies this
      ensures (Database(), outcome) == Perform(old(Database()), Op.Cancel(id, requester, privileged))
    {
      if id !in bookings {
        return NotFound;
      }
      var booking := bookings[id];
      if booking.userId != requester && !privileged {
        return Forbidden;
      }
      if booking.status == Status.Completed {
        return Conflict;
      }
      if booking.status == Cancelled {
        return CancelDone(false);
      }
      if booking.roomId !in rooms {
        return NotFound;
      }
      bookings := bookings[id := booking.(status := Cancelled)];
      return CancelDone(true);
    }

    method AddRoom(newId: RoomId, totalUnits: nat) returns (outcome: Outcome)
      requires newId !in rooms
      modifies this
      ensures (Database(), outcome) == Perform(old(Database()), Op.AddRoom(newId, totalUnits))
    {
      rooms := rooms[newId := Room(totalUnits, true)];
      return RoomAdded(newId);
    }

    method ChangeRoom(roomId: RoomId, newUnits: Option<nat>, now: Instant) returns (outcome: Outcome)
      modifies this
      ensures (Database(), outcome) == Perform(old(Database()), Op.ChangeRoom(roomId, newUnits, now))
    {
      if roomId !in rooms {
        return NotFound;
      }
      var room := rooms[roomId];
      if newUnits.Some? && newUnits.value < room.totalUnits {
        var unfinished := set id | id in bookings && Unfinished(bookings[id], roomId, now);
        if |unfinished| > 0 {
          assert HasUnfinished(Database(), roomId, now) by {
            var id := Pick(unfinished);
          }
          return Conflict;
        }
        assert forall id :: id in bookings ==> id !in unfinished;
      }
      if newUnits.Some? {
        room := room.(totalUnits := newUnits.value);
      }
      rooms := rooms[roomId := room];
      return RoomChanged;
    }

    method DeleteRoomById(roomId: RoomId) returns (outcome: Outcome)
      modifies this
      ensures (Database(), outcome) == Perform(old(Database()), Op.Archive(roomId))
    {
      if roomId !in rooms {
        return NotFound;
      }
      rooms := rooms[roomId := rooms[roomId].(isActive := false)];
      return RoomArchived;
    }

    /** The sweep alone finds every finished booking. */
    method CompleteFinishedBookings(now: Instant) returns (outcome: Outcome)
      modifies this
      ensures (Database(), outcome) == Perform(old(Database()), Op.Complete(now, old(bookings).Keys))
      ensures forall id :: id in bookings ==> !Finished(bookings[id], now)
    {
      var hit := set id | id in bookings && bookings[id].period.end < now && bookings[id].status == Active;
      assert forall id :: id in hit <==> id in FinishedRows(Database(), now);
      assert hit == FinishedRows(Database(), now) * bookings.Keys;
      bookings := map id | id in bookings ::
        if id in hit then bookings[id].(status := Status.Completed) else bookings[id];
      return Swept(|hit|);
    }
  }
}
