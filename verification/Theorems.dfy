/** What holds in every reachable state of the interleaved protocol. */
module Theorems {
  import opened Bookings
  import opened Operations
  import opened Protocol
  import opened Linearization
  import Lifecycle
  import Capacity
  import Admission
  import Answers
  import Readings
  import Retirement
  import Units

  lemma ContinueRun(a: State, b: State)
    requires Reachable(a) && Leads(a, b)
    ensures Reachable(b) && Inv(a) && Inv(b)
    ensures a.log <= b.log && a.clock <= b.clock
  {
    var clock :| Leads(Init(clock), a);
    LeadsTransitive(Init(clock), a, b);
    ReachableInv(a);
    ReachableInv(b);
    var actions :| Run(a, actions) == Some(b);
    RunKeeps(a, actions);
  }

  lemma HistoryContinues(a: State, b: State)
    requires Reachable(a) && Leads(a, b)
    ensures |a.log| <= |b.log| && Legal(b.log)
    ensures Replay(b.log[..|a.log|]) == a.db && Replay(b.log) == b.db
  {
    ContinueRun(a, b);
    assert b.log[..|a.log|] == a.log;
  }

  /** If entry i is a sweep's, it found its rows on the way to s and is logged with those still finished. */
  ghost predicate SweptWhatItFound(s: State, i: nat)
    requires i < |s.log|
  {
    s.log[i].op.Complete? ==>
      var readAt := s.log[i].op.readAt;
      exists f, g :: Reachable(f) && Retirement.Finds(f, g, s.log[i].tx, readAt) && Leads(g, s) && |f.log| <= i &&
        Retirement.SweepExact(s.log, i, FinishedRows(f.db, readAt), readAt)
  }

  /**
   Linearizability. The committed database and every answer, successful or not, are those of the finished
   transactions performed one at a time in the order of the log; each is logged exactly once, as it was asked.
   A sweep is logged with the rows that were finished when its statement found them and still are.
   */
  lemma EveryRunIsSequential(s: State, tx: TxId)
    requires Reachable(s)
    ensures Legal(s.log) && s.db == Replay(s.log)
    ensures tx in s.txs && s.txs[tx].pc.Done? <==> Logged(s.log, tx)
    ensures forall i :: 0 <= i < |s.log| && s.log[i].tx == tx ==>
              tx in s.txs && s.txs[tx].pc == Done(s.log[i].outcome) && Asks(s.txs[tx].req, s.log[i].op) &&
              ReadBy(s.log[i].op, s.clock) && SweptWhatItFound(s, i) &&
              (forall j :: 0 <= j < |s.log| && s.log[j].tx == tx ==> j == i)
  {
    ReachableInv(s);
    assert AnswerFine(s, tx);
    var clock :| Leads(Init(clock), s);
    InitInv(clock);
    forall i | 0 <= i < |s.log| && s.log[i].tx == tx && s.log[i].op.Complete?
      ensures SweptWhatItFound(s, i)
    {
      var f, g := Retirement.SweepsFindTheirRows(Init(clock), s, tx, i);
      assert Reachable(f);
      ReachableInv(f);
      Retirement.SweepsAreExact(f, g, s, tx, i, s.log[i].op.readAt);
    }
    forall i | 0 <= i < |s.log| && s.log[i].tx == tx
      ensures tx in s.txs && s.txs[tx].pc == Done(s.log[i].outcome) && Asks(s.txs[tx].req, s.log[i].op)
      ensures ReadBy(s.log[i].op, s.clock) && forall j :: 0 <= j < |s.log| && s.log[j].tx == tx ==> j == i
    {
      assert EntryFine(s, i);
    }
  }

  /** The sequential order respects real time: who starts later is logged after everybody already finished. */
  lemma OrderRespectsRealTime(a: State, b: State, late: TxId, i: nat)
    requires Reachable(a) && Leads(a, b) && late !in a.txs
    requires i < |b.log| && b.log[i].tx == late
    ensures |a.log| <= i
  {
    ContinueRun(a, b);
    assert EntryFine(a, i);
  }

  /** Nobody acts on a clock reading from before its request, and no granted booking starts before it. */
  lemma ReadingsAreRecent(a: State, b: State, late: TxId, i: nat)
    requires Reachable(a) && Leads(a, b) && late !in a.txs
    requires i < |b.log| && b.log[i].tx == late
    ensures Readings.NoEarlier(Readings.OpReading(b.log[i].op), a.clock)
    ensures b.log[i].op.Create? && b.log[i].outcome.Created? ==> a.clock <= b.log[i].op.period.start
    ensures b.log[i].op.Update? && b.log[i].outcome.Updated? ==>
              var rows := Replay(b.log[..i + 1]).bookings;
              b.log[i].op.booking in rows && a.clock <= rows[b.log[i].op.booking].period.start
  {
    ContinueRun(a, b);
    Readings.BeginsThenReads(a, b, late, i);
    Lifecycle.GrantedRequestsWrite(b.log, i);
  }

  // ---------- the completion sweep ----------

  /**
   Whatever run a sweep is part of: if it finds its rows with the step from f to g, then it commits later exactly
   those that were finished in f, at its clock reading, and still are, changes nothing else and answers with
   their number.
   */
  lemma SweepRetires(f: State, g: State, b: State, tx: TxId, i: nat, readAt: Instant)
    requires Reachable(f) && Retirement.Finds(f, g, tx, readAt) && Leads(g, b)
    requires i < |b.log| && b.log[i].tx == tx
    ensures |f.log| <= i
    ensures var hit := FinishedRows(f.db, readAt) * FinishedRows(Replay(b.log[..i]), readAt);
            && b.log[i].op == Complete(readAt, hit) && b.log[i].outcome == Swept(|hit|)
            && Replay(b.log[..i + 1]) == CompleteRows(Replay(b.log[..i]), hit)
  {
    ReachableInv(f);
    Retirement.FoundSweepFine(f, g, tx, readAt);
    LeadsTransitive(f, g, b);
    ContinueRun(f, b);
    Retirement.SweepsAreExact(f, g, b, tx, i, readAt);
    EntryAt(b.log, i);
    SweepCommits(Replay(b.log[..i]), readAt, b.log[i].op.ids);
  }

  /** Every sweep that commits has taken such a step, after it began and after it read the clock. */
  lemma SweepsLookFirst(a: State, b: State, late: TxId, i: nat) returns (f: State, g: State)
    requires Reachable(a) && Leads(a, b) && late !in a.txs
    requires i < |b.log| && b.log[i].tx == late && b.log[i].op.Complete?
    ensures Retirement.Found(a, f, g, b, late, b.log[i].op.readAt)
    ensures |a.log| <= |f.log| <= i && a.clock <= b.log[i].op.readAt <= f.clock
  {
    var readAt := b.log[i].op.readAt;
    ReachableInv(a);
    f, g := Retirement.SweepsFindTheirRows(a, b, late, i);
    ContinueRun(a, f);
    Retirement.FoundSweepFine(f, g, late, readAt);
    Retirement.SweepsAreExact(f, g, b, late, i, readAt);
    Readings.BeginsThenReads(a, b, late, i);
  }

  /**
   A sweep that finds its rows in f amounts to one that runs alone at its commit if and only if everything that
   is finished then, at its clock reading, was finished in f. So it does in every run in which no create or
   update in flight in f had read the clock before the sweep.
   */
  lemma SweepIsSerialIff(f: State, g: State, b: State, tx: TxId, i: nat, readAt: Instant)
    requires Reachable(f) && Retirement.Finds(f, g, tx, readAt) && Leads(g, b)
    requires i < |b.log| && b.log[i].tx == tx
    ensures b.log[i].op.Complete?
    ensures Retirement.SweepsAllAtCommit(b.log, i) <==>
            FinishedRows(Replay(b.log[..i]), readAt) <= FinishedRows(f.db, readAt)
    ensures Readings.NoEarlyWriter(f, readAt) ==> Retirement.SweepsAllAtCommit(b.log, i)
  {
    SweepRetires(f, g, b, tx, i, readAt);
    ReachableInv(f);
    Retirement.FoundSweepFine(f, g, tx, readAt);
    LeadsTransitive(f, g, b);
    HistoryContinues(f, b);
    Retirement.SweepsAllIff(b.log, i, FinishedRows(f.db, readAt), readAt);
    if Readings.NoEarlyWriter(f, readAt) {
      NothingFinishesLate(f, b, i, readAt);
    }
  }

  lemma NothingFinishesLate(f: State, b: State, i: nat, readAt: Instant)
    requires Reachable(f) && Leads(f, b) && |f.log| <= i <= |b.log|
    requires Readings.NoEarlyWriter(f, readAt) && readAt <= f.clock
    ensures FinishedRows(Replay(b.log[..i]), readAt) <= FinishedRows(f.db, readAt)
  {
    ContinueRun(f, b);
    HistoryContinues(f, b);
    forall k | |f.log| <= k < i
      ensures Retirement.LateWriter(b.log[k], readAt)
    {
      Readings.LaterEntriesAreLate(f, b, readAt, k);
    }
    Retirement.LateWritersFinishNothing(b.log, |f.log|, i, readAt);
  }

  // ---------- exact answers ----------

  /** In every run every request is answered, and writes, exactly as the rows just before its entry determine. */
  lemma EveryAnswerIsExact(s: State, i: nat)
    requires Reachable(s) && i < |s.log|
    ensures Answers.Exact(s.log[i].op, s.log[i].outcome, Replay(s.log[..i]), Replay(s.log[..i + 1]))
  {
    ReachableInv(s);
    Answers.HistoryAnswersExactly(s.log, i);
  }

  /** In every run an archived room stays closed: no later booking is made in it or moved. */
  lemma ArchivedStaysClosed(s: State, i: nat, room: RoomId)
    requires Reachable(s) && i < |s.log| && s.log[i].op == Archive(room) && s.log[i].outcome.RoomArchived?
    ensures room in s.db.rooms && !s.db.rooms[room].isActive
    ensures forall j: nat :: i < j < |s.log| ==> !Answers.BooksRoom(s.log, j, room)
  {
    ReachableInv(s);
    EveryAnswerIsExact(s, i);
    Lifecycle.HistoryEvolves(s.log, i + 1, |s.log|);
    assert s.log[..|s.log|] == s.log;
    forall j: nat | i < j < |s.log|
      ensures !Answers.BooksRoom(s.log, j, room)
    {
      Answers.ArchivedForGood(s.log, i, j, room);
    }
  }

  // ---------- capacity ----------

  lemma InUseIsActive(db: Db, room: RoomId, t: Instant)
    ensures Answers.InUse(db, room, t, None) == Covering(Capacity.ActiveRows(db, room), t)
  {
    forall id
      ensures id in Answers.InUse(db, room, t, None) <==> id in Covering(Capacity.ActiveRows(db, room), t)
    {
    }
  }

  /** No interleaving overbooks a room at any instant from its last reduction on. */
  lemma NeverOverbooked(s: State, room: RoomId, t: Instant)
    requires Reachable(s) && room in s.db.rooms
    requires var mark := Capacity.LastReduction(s.log, room); mark.Some? ==> mark.value <= t
    ensures |Answers.InUse(s.db, room, t, None)| <= s.db.rooms[room].totalUnits
  {
    ReachableInv(s);
    InUseIsActive(s.db, room, t);
    Capacity.NotOverbookedSinceReduction(s.log, room, t);
  }

  /** Bookings ending after the last reduction fit at every instant, past ones included. */
  lemma CountedBookingsFit(s: State, room: RoomId, t: Instant)
    requires Reachable(s) && room in s.db.rooms
    ensures var mark := Capacity.LastReduction(s.log, room);
            var counted := set id | id in Answers.InUse(s.db, room, t, None) &&
                                    (mark.Some? ==> mark.value < s.db.bookings[id].period.end);
            |counted| <= s.db.rooms[room].totalUnits
  {
    ReachableInv(s);
    Capacity.HistoryWithinCapacity(s.log, room);
    var mark := Capacity.LastReduction(s.log, room);
    var counted := set id | id in Answers.InUse(s.db, room, t, None) &&
                            (mark.Some? ==> mark.value < s.db.bookings[id].period.end);
    var rows := Capacity.CountedRows(s.db, room, mark);
    forall id | id in counted
      ensures id in Covering(rows, t)
    {
      assert id in rows;
    }
    SubsetSize(counted, Covering(rows, t));
  }

  /** Each such booking can be given one unit of the room that it keeps and shares with no overlapping booking. */
  lemma UnitsForEverybody(s: State, room: RoomId)
    requires Reachable(s) && room in s.db.rooms
    ensures exists unit :: Units.Assigns(Capacity.CountedRows(s.db, room, Capacity.LastReduction(s.log, room)),
                                         s.db.rooms[room].totalUnits, unit)
  {
    ReachableInv(s);
    Capacity.UnitsCanBeHandedOut(s.log, room);
  }

  /** The mark is a clock reading of the past. */
  lemma {:induction false} ReductionIsPast(log: History, room: RoomId, clock: Instant)
    requires forall i :: 0 <= i < |log| ==> ReadBy(log[i].op, clock)
    ensures var mark := Capacity.LastReduction(log, room); mark.Some? ==> mark.value <= clock
  {
    if |log| > 0 {
      assert ReadBy(log[|log| - 1].op, clock);
      ReductionIsPast(log[..|log| - 1], room, clock);
    }
  }

  lemma ReductionBeforeNow(s: State, room: RoomId)
    requires Inv(s)
    ensures var mark := Capacity.LastReduction(s.log, room); mark.Some? ==> mark.value <= s.clock
  {
    forall i | 0 <= i < |s.log|
      ensures ReadBy(s.log[i].op, s.clock)
    {
      assert EntryFine(s, i);
    }
    ReductionIsPast(s.log, room, s.clock);
  }

  /** In every reachable state an active booking of an open room can be narrowed. */
  lemma CanAlwaysNarrow(s: State, id: BookingId, q: Period)
    requires Reachable(s) && id in s.db.bookings && s.db.bookings[id].status.Active?
    requires var b := s.db.bookings[id];
             b.period.start <= q.start && q.end <= b.period.end && !Lifecycle.Archived(s.db, b.roomId)
    requires ValidPeriod(q, s.clock)
    ensures Perform(s.db, Update(id, Some(q.start), Some(q.end), s.clock)) ==
            (WithBooking(s.db, id, s.db.bookings[id].(period := q)), Updated)
  {
    ReachableInv(s);
    ReductionBeforeNow(s, s.db.bookings[id].roomId);
    Capacity.NarrowingSucceeds(s.log, id, q, s.clock);
  }

  /** What a cancel gives back can be booked again at once. */
  lemma CanAlwaysRebook(s: State, id: BookingId, requester: UserId, privileged: bool,
                        user: UserId, q: Period, newId: BookingId)
    requires Reachable(s) && id in s.db.bookings
    requires Perform(s.db, Cancel(id, requester, privileged)).1 == CancelDone(true)
    requires var b := s.db.bookings[id];
             b.period.start <= q.start && q.end <= b.period.end && !Lifecycle.Archived(s.db, b.roomId)
    requires ValidPeriod(q, s.clock)
    ensures var cancelled := Perform(s.db, Cancel(id, requester, privileged)).0;
            var room := s.db.bookings[id].roomId;
            Perform(cancelled, Create(room, user, q, s.clock, newId)) ==
            (WithBooking(cancelled, newId, Booking(room, user, q, Active)), Created(newId))
  {
    ReachableInv(s);
    ReductionBeforeNow(s, s.db.bookings[id].roomId);
    Capacity.RebookingSucceeds(s.log, id, requester, privileged, user, q, s.clock, newId);
  }

  /**
   A crowd of identical valid requests, however interleaved with each other and with work elsewhere, gets
   exactly as many bookings as there were units left at the peak.
   */
  lemma CrowdGetsExactlyWhatIsLeft(a: State, b: State, room: RoomId, p: Period)
    requires Reachable(a) && Leads(a, b) && p.start < p.end
    requires room in a.db.rooms && a.db.rooms[room].isActive
    requires Admission.OnlyCrowd(b.log, |a.log|, room, p)
    ensures Admission.ExactlyServed(a.db, b.log, |a.log|, room, p)
  {
    HistoryContinues(a, b);
    Admission.ExactAdmission(b.log, |a.log|, room, p);
  }

  // ---------- lifecycle ----------

  /** Along every run: bookings, owners and rooms stay, terminal bookings are frozen, archived rooms only drain. */
  lemma RunsOnlyEvolve(a: State, b: State)
    requires Reachable(a) && Leads(a, b)
    ensures Lifecycle.Evolves(a.db, b.db)
  {
    HistoryContinues(a, b);
    Lifecycle.HistoryEvolves(b.log, |a.log|, |b.log|);
    assert b.log[..|b.log|] == b.log;
  }

  /** Two cancel calls for one booking are never both told that they changed it. */
  lemma OneCancelWins(s: State, first: TxId, second: TxId)
    requires Reachable(s) && first in s.txs && second in s.txs
    requires s.txs[first].req.CancelReq? && s.txs[second].req.CancelReq?
    requires s.txs[first].req.booking == s.txs[second].req.booking
    requires s.txs[first].pc == Done(CancelDone(true)) && s.txs[second].pc == Done(CancelDone(true))
    ensures first == second
  {
    EveryRunIsSequential(s, first);
    EveryRunIsSequential(s, second);
    var i :| 0 <= i < |s.log| && s.log[i].tx == first;
    var j :| 0 <= j < |s.log| && s.log[j].tx == second;
    Lifecycle.CancelChangesAtMostOnce(s.log, i, j, s.txs[first].req.booking);
  }

  /** No booking is completed before its end has passed on the clock. */
  lemma CompletedMeansOver(s: State, i: nat, id: BookingId)
    requires Reachable(s) && i < |s.log| && Lifecycle.Ends(s.log, i, id)
    requires Replay(s.log[..i + 1]).bookings[id].status.Completed?
    ensures Replay(s.log[..i]).bookings[id].period.end < s.clock
  {
    ReachableInv(s);
    Lifecycle.WhyItEnded(s.log, i, id);
    assert EntryFine(s, i);
  }
}
