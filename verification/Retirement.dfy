/**
 Which bookings an interleaved completion sweep completes: exactly those that were finished when its statement
 found its rows and still are when it commits.
 */
module Retirement {
  import opened Bookings
  import opened Operations
  import opened Protocol
  import opened Linearization

  // ---------- a row the sweep passes over stays unfinished for good ----------

  /** If the transaction is about to write a period, it read the clock no earlier than the sweep did. */
  predicate ReadLater(t: Tx, readAt: Instant) {
    t.pc.UpdatePeriodChecked? || t.pc.UpdateAdmitted? ==> readAt <= t.pc.readAt
  }

  /** Not finished, and nobody who holds the row can make it so. */
  ghost predicate Passed(s: State, id: BookingId, readAt: Instant) {
    && id in s.db.bookings && !Finished(s.db.bookings[id], readAt)
    && (id in s.bookingLock ==> s.bookingLock[id] in s.txs && ReadLater(s.txs[s.bookingLock[id]], readAt))
  }

  /** Updates that lock a passed row later read the clock later, so the period they write ends later. */
  lemma UpdateKeepsPassed(s: State, tx: TxId, id: BookingId, readAt: Instant)
    requires tx in s.txs && s.txs[tx].req.UpdateReq? && TxFine(s, tx) && BookingLockFine(s, id)
    requires Passed(s, id, readAt) && readAt <= s.clock
    requires var r := s.txs[tx].req; StepUpdate(s, tx, r.booking, r.newStart, r.newEnd).Some?
    ensures var r := s.txs[tx].req;
            Passed(Apply(s, tx, StepUpdate(s, tx, r.booking, r.newStart, r.newEnd).value), id, readAt)
  {
  }

  lemma SweepKeepsPassed(s: State, tx: TxId, order: seq<BookingId>, id: BookingId, readAt: Instant)
    requires tx in s.txs && s.txs[tx].req.CompleteReq? && TxFine(s, tx) && BookingLockFine(s, id)
    requires Passed(s, id, readAt) && StepComplete(s, tx, order).Some?
    ensures Passed(Apply(s, tx, StepComplete(s, tx, order).value), id, readAt)
  {
  }

  lemma OtherStepKeepsPassed(s: State, tx: TxId, pick: int, order: seq<BookingId>, id: BookingId, readAt: Instant)
    requires tx in s.txs && !s.txs[tx].req.UpdateReq? && !s.txs[tx].req.CompleteReq?
    requires TxFine(s, tx) && BookingLockFine(s, id)
    requires Passed(s, id, readAt) && Advance(s, tx, pick, order).Some?
    ensures Passed(Apply(s, tx, Advance(s, tx, pick, order).value), id, readAt)
  {
  }

  lemma PassedForGood(s: State, a: Action, id: BookingId, readAt: Instant)
    requires Inv(s) && Next(s, a).Some? && Passed(s, id, readAt) && readAt <= s.clock
    ensures Passed(Next(s, a).value, id, readAt)
  {
    assert BookingLockFine(s, id);
    if a.Step? {
      assert TxFine(s, a.tx);
      if s.txs[a.tx].req.UpdateReq? {
        UpdateKeepsPassed(s, a.tx, id, readAt);
      } else if s.txs[a.tx].req.CompleteReq? {
        SweepKeepsPassed(s, a.tx, a.order, id, readAt);
      } else {
        OtherStepKeepsPassed(s, a.tx, a.pick, a.order, id, readAt);
      }
    }
  }

  // ---------- a sweep in flight, and its entry ----------

  /** In f the sweep has read the clock, and with its next step, which leads to g, its statement finds its rows. */
  ghost predicate Finds(f: State, g: State, tx: TxId, readAt: Instant) {
    && tx in f.txs && f.txs[tx] == Tx(CompleteReq, SweepClockRead(readAt))
    && exists order :: VisitOrder(f.db, readAt, order) &&
         g == SetPc(f, tx, Sweeping(readAt, FinishedRows(f.db, readAt), order, {}))
  }

  /** Each row found is yet to be visited, marked, or passed over. */
  ghost predicate RowFine(s: State, pc: Pc, id: BookingId)
    requires pc.Sweeping?
  {
    && (id in pc.found ==> id in s.db.bookings && (id in pc.todo || id in pc.marked || Passed(s, id, pc.readAt)))
    && (id in pc.todo || id in pc.marked ==> id in pc.found)
  }

  /** A sweep with this clock reading that has found these rows, or is over. */
  ghost predicate SweepFine(s: State, pc: Pc, found: set<BookingId>, readAt: Instant) {
    && (pc.Sweeping? || pc.Done? || pc.RolledBack?)
    && (pc.Sweeping? ==>
          && pc.readAt == readAt && pc.found == found
          && forall id {:trigger RowFine(s, pc, id)} :: RowFine(s, pc, id))
  }

  /** The entry of a sweep that completed those of the rows found that were still finished at its commit. */
  ghost predicate SweepExact(log: History, i: nat, found: set<BookingId>, readAt: Instant)
    requires i < |log|
  {
    log[i].op == Complete(readAt, found * FinishedRows(Replay(log[..i]), readAt))
  }

  ghost predicate SweepInv(s: State, tx: TxId, found: set<BookingId>, readAt: Instant) {
    && tx in s.txs && s.txs[tx].req.CompleteReq? && SweepFine(s, s.txs[tx].pc, found, readAt)
    && (forall i: nat :: i < |s.log| && s.log[i].tx == tx ==> SweepExact(s.log, i, found, readAt))
  }

  /** A sweep that somebody else's step does not move. */
  lemma WaitingSweepStaysFine(s: State, a: Action, pc: Pc, found: set<BookingId>, readAt: Instant)
    requires Inv(s) && Next(s, a).Some? && SweepFine(s, pc, found, readAt) && (pc.Sweeping? ==> readAt <= s.clock)
    requires forall id :: id in s.db.bookings ==> id in Next(s, a).value.db.bookings
    ensures SweepFine(Next(s, a).value, pc, found, readAt)
  {
    var after := Next(s, a).value;
    if pc.Sweeping? {
      forall id
        ensures RowFine(after, pc, id)
      {
        assert RowFine(s, pc, id);
        if Passed(s, id, pc.readAt) {
          PassedForGood(s, a, id, pc.readAt);
        }
      }
    }
  }

  /** A visit of the sweep. */
  lemma SweepStepStaysFine(s: State, tx: TxId, order: seq<BookingId>, found: set<BookingId>, readAt: Instant)
    requires Inv(s) && SweepInv(s, tx, found, readAt)
    requires StepComplete(s, tx, order).Some? && !StepComplete(s, tx, order).value.Answer?
    ensures var after := Apply(s, tx, StepComplete(s, tx, order).value);
            SweepFine(after, after.txs[tx].pc, found, readAt)
  {
    var after := Apply(s, tx, StepComplete(s, tx, order).value);
    var pc, next := s.txs[tx].pc, after.txs[tx].pc;
    forall id
      ensures RowFine(after, next, id)
    {
      assert RowFine(s, pc, id) && RowFine(s, pc, pc.todo[0]);
      RowVisited(s, tx, order, id);
    }
  }

  /** The first row is marked, or passed over because it is free and not finished. */
  lemma RowVisited(s: State, tx: TxId, order: seq<BookingId>, id: BookingId)
    requires tx in s.txs && s.txs[tx].pc.Sweeping? && |s.txs[tx].pc.todo| > 0
    requires RowFine(s, s.txs[tx].pc, id) && RowFine(s, s.txs[tx].pc, s.txs[tx].pc.todo[0])
    requires StepComplete(s, tx, order).Some? && BookingLockFine(s, id)
    ensures var after := Apply(s, tx, StepComplete(s, tx, order).value); RowFine(after, after.txs[tx].pc, id)
  {
    var todo := s.txs[tx].pc.todo;
    assert forall k :: k in todo <==> k == todo[0] || k in todo[1..];
  }

  /** The commit writes exactly the rows found that are still finished. */
  lemma SweepCommitExact(s: State, tx: TxId, order: seq<BookingId>, found: set<BookingId>, readAt: Instant)
    requires Inv(s) && SweepInv(s, tx, found, readAt)
    requires StepComplete(s, tx, order).Some? && StepComplete(s, tx, order).value.Answer?
    ensures SweepExact(Apply(s, tx, StepComplete(s, tx, order).value).log, |s.log|, found, readAt)
  {
    var pc := s.txs[tx].pc;
    var log := Apply(s, tx, StepComplete(s, tx, order).value).log;
    assert TxFine(s, tx);
    assert log[..|s.log|] == s.log;
    var still := FinishedRows(s.db, readAt);
    forall id
      ensures id in pc.marked <==> id in found && id in still
    {
      assert RowFine(s, pc, id);
    }
    assert pc.marked == found * still;
  }

  /** What one step does to the log, the clock and the set of bookings. */
  lemma NextExtends(s: State, a: Action)
    requires Inv(s) && Next(s, a).Some?
    ensures var after := Next(s, a).value;
            && s.log <= after.log && |after.log| <= |s.log| + 1 && s.clock <= after.clock
            && (forall id :: id in s.db.bookings ==> id in after.db.bookings)
            && (forall tx :: tx in s.txs ==> tx in after.txs && after.txs[tx].req == s.txs[tx].req)
            && (|s.log| < |after.log| ==>
                  a.Step? && after.log[|s.log|].tx == a.tx && Asks(s.txs[a.tx].req, after.log[|s.log|].op))
  {
    if a.Step? {
      assert TxFine(s, a.tx);
      AdvanceIsSound(s, a.tx, a.pick, a.order);
    }
  }

  lemma OwnStepKeepsSweep(s: State, a: Action, found: set<BookingId>, readAt: Instant)
    requires Inv(s) && a.Step? && a.tx in s.txs && Next(s, a).Some? && SweepInv(s, a.tx, found, readAt)
    ensures var after := Next(s, a).value;
            && a.tx in after.txs && SweepFine(after, after.txs[a.tx].pc, found, readAt)
            && (|s.log| < |after.log| ==> SweepExact(after.log, |s.log|, found, readAt))
  {
    if StepComplete(s, a.tx, a.order).value.Answer? {
      SweepCommitExact(s, a.tx, a.order, found, readAt);
    } else {
      SweepStepStaysFine(s, a.tx, a.order, found, readAt);
    }
  }

  lemma OtherStepKeepsSweep(s: State, a: Action, tx: TxId, found: set<BookingId>, readAt: Instant)
    requires Inv(s) && Next(s, a).Some? && SweepInv(s, tx, found, readAt) && !(a.Step? && a.tx == tx)
    ensures var after := Next(s, a).value; tx in after.txs && SweepFine(after, after.txs[tx].pc, found, readAt)
  {
    var after := Next(s, a).value;
    NextExtends(s, a);
    if after.txs[tx] == s.txs[tx] {
      assert TxFine(s, tx);
      WaitingSweepStaysFine(s, a, s.txs[tx].pc, found, readAt);
    }
  }

  lemma NextKeepsSweep(s: State, a: Action, tx: TxId, found: set<BookingId>, readAt: Instant)
    requires Inv(s) && Next(s, a).Some? && SweepInv(s, tx, found, readAt)
    ensures SweepInv(Next(s, a).value, tx, found, readAt)
  {
    var after := Next(s, a).value;
    NextExtends(s, a);
    if a.Step? && a.tx == tx {
      OwnStepKeepsSweep(s, a, found, readAt);
    } else {
      OtherStepKeepsSweep(s, a, tx, found, readAt);
    }
    forall i: nat | i < |after.log| && after.log[i].tx == tx
      ensures SweepExact(after.log, i, found, readAt)
    {
      if i < |s.log| {
        assert after.log[i] == s.log[i] && after.log[..i] == s.log[..i];
        assert SweepExact(s.log, i, found, readAt);
      }
    }
  }

  lemma {:induction false} RunKeepsSweep(s: State, actions: seq<Action>, tx: TxId,
                                         found: set<BookingId>, readAt: Instant)
    requires Inv(s) && Run(s, actions).Some? && SweepInv(s, tx, found, readAt)
    ensures SweepInv(Run(s, actions).value, tx, found, readAt)
  {
    if |actions| > 0 {
      var prefix := actions[..|actions| - 1];
      RunKeepsSweep(s, prefix, tx, found, readAt);
      RunKeeps(s, prefix);
      NextKeepsSweep(Run(s, prefix).value, actions[|actions| - 1], tx, found, readAt);
    }
  }

  lemma FoundSweepFine(f: State, g: State, tx: TxId, readAt: Instant)
    requires Inv(f) && Finds(f, g, tx, readAt)
    ensures Inv(g) && SweepInv(g, tx, FinishedRows(f.db, readAt), readAt) && Leads(f, g)
    ensures readAt <= f.clock && g.log == f.log && g.db == f.db
  {
    var order :| VisitOrder(f.db, readAt, order) &&
      g == SetPc(f, tx, Sweeping(readAt, FinishedRows(f.db, readAt), order, {}));
    assert TxFine(f, tx);
    assert Next(f, Step(tx, 0, order)) == Some(g);
    NextKeeps(f, Step(tx, 0, order));
    OneStep(f, Step(tx, 0, order));
    forall i | 0 <= i < |f.log|
      ensures f.log[i].tx != tx
    {
      assert EntryFine(f, i);
    }
  }

  /** Once its statement has found its rows, a sweep can only commit those of them that are still finished. */
  lemma SweepsAreExact(f: State, g: State, b: State, tx: TxId, i: nat, readAt: Instant)
    requires Inv(f) && Finds(f, g, tx, readAt) && Leads(g, b)
    requires i < |b.log| && b.log[i].tx == tx
    ensures |f.log| <= i && SweepExact(b.log, i, FinishedRows(f.db, readAt), readAt)
  {
    FoundSweepFine(f, g, tx, readAt);
    var actions :| Run(g, actions) == Some(b);
    RunKeeps(g, actions);
    RunKeepsSweep(g, actions, tx, FinishedRows(f.db, readAt), readAt);
    assert i < |f.log| ==> EntryFine(f, i);
  }

  // ---------- every sweep has found its rows somewhere in its run ----------

  ghost predicate Found(start: State, f: State, g: State, s: State, tx: TxId, readAt: Instant) {
    Leads(start, f) && Finds(f, g, tx, readAt) && Leads(g, s)
  }

  ghost predicate HasFound(start: State, s: State, tx: TxId, readAt: Instant) {
    exists f, g :: Found(start, f, g, s, tx, readAt)
  }

  ghost predicate Traced(start: State, s: State, tx: TxId) {
    && (tx in s.txs && s.txs[tx].pc.Sweeping? ==> HasFound(start, s, tx, s.txs[tx].pc.readAt))
    && (forall i: nat :: i < |s.log| && s.log[i].tx == tx && s.log[i].op.Complete? ==>
          HasFound(start, s, tx, s.log[i].op.readAt))
  }

  lemma FoundEarlier(start: State, s: State, a: Action, tx: TxId, readAt: Instant)
    requires HasFound(start, s, tx, readAt) && Next(s, a).Some?
    ensures HasFound(start, Next(s, a).value, tx, readAt)
  {
    var f, g :| Found(start, f, g, s, tx, readAt);
    OneStep(s, a);
    LeadsTransitive(g, s, Next(s, a).value);
    assert Found(start, f, g, Next(s, a).value, tx, readAt);
  }

  /** A step after which a transaction is sweeping finds its rows, or it has been sweeping before. */
  lemma SweepingBegins(start: State, s: State, a: Action, tx: TxId)
    requires Inv(s) && Leads(start, s) && Traced(start, s, tx) && Next(s, a).Some?
    ensures var after := Next(s, a).value;
            tx in after.txs && after.txs[tx].pc.Sweeping? ==> HasFound(start, after, tx, after.txs[tx].pc.readAt)
  {
    var after := Next(s, a).value;
    if tx in after.txs && after.txs[tx].pc.Sweeping? {
      var readAt := after.txs[tx].pc.readAt;
      if a.Step? && a.tx == tx {
        assert TxFine(s, tx);
        SweepStep(s, tx, a.pick, a.order);
      }
      if tx in s.txs && s.txs[tx].pc.Sweeping? {
        FoundEarlier(start, s, a, tx, readAt);
      } else {
        assert Run(after, []) == Some(after);
        assert Found(start, s, after, after, tx, readAt);
      }
    }
  }

  lemma SweepStep(s: State, tx: TxId, pick: int, order: seq<BookingId>)
    requires tx in s.txs && Advance(s, tx, pick, order).Some? && Knows(s.db, s.clock, s.txs[tx])
    ensures var e := Advance(s, tx, pick, order).value;
            var after := Apply(s, tx, e);
            && (after.txs[tx].pc.Sweeping? && !s.txs[tx].pc.Sweeping? ==> Finds(s, after, tx, after.txs[tx].pc.readAt))
            && (after.txs[tx].pc.Sweeping? && s.txs[tx].pc.Sweeping? ==> after.txs[tx].pc.readAt == s.txs[tx].pc.readAt)
            && (e.Answer? && e.op.Complete? ==> s.txs[tx].pc.Sweeping? && s.txs[tx].pc.readAt == e.op.readAt)
  {
  }

  lemma SweepingCommits(start: State, s: State, a: Action, tx: TxId)
    requires Inv(s) && Traced(start, s, tx) && Next(s, a).Some? && a.Step? && a.tx == tx
    requires |s.log| < |Next(s, a).value.log| && Next(s, a).value.log[|s.log|].op.Complete?
    ensures HasFound(start, Next(s, a).value, tx, Next(s, a).value.log[|s.log|].op.readAt)
  {
    assert TxFine(s, tx);
    SweepStep(s, tx, a.pick, a.order);
    FoundEarlier(start, s, a, tx, s.txs[tx].pc.readAt);
  }

  lemma NextKeepsTrace(start: State, s: State, a: Action, tx: TxId)
    requires Inv(s) && Leads(start, s) && Traced(start, s, tx) && Next(s, a).Some?
    ensures Traced(start, Next(s, a).value, tx)
  {
    var after := Next(s, a).value;
    NextExtends(s, a);
    SweepingBegins(start, s, a, tx);
    forall i: nat | i < |after.log| && after.log[i].tx == tx && after.log[i].op.Complete?
      ensures HasFound(start, after, tx, after.log[i].op.readAt)
    {
      if i < |s.log| {
        assert after.log[i] == s.log[i];
        FoundEarlier(start, s, a, tx, s.log[i].op.readAt);
      } else {
        SweepingCommits(start, s, a, tx);
      }
    }
  }

  lemma {:induction false} RunKeepsTrace(start: State, actions: seq<Action>, tx: TxId)
    requires Inv(start) && Run(start, actions).Some? && tx !in start.txs
    ensures Traced(start, Run(start, actions).value, tx)
  {
    if |actions| > 0 {
      var prefix := actions[..|actions| - 1];
      RunKeepsTrace(start, prefix, tx);
      RunKeeps(start, prefix);
      assert Leads(start, Run(start, prefix).value);
      NextKeepsTrace(start, Run(start, prefix).value, actions[|actions| - 1], tx);
    } else {
      forall i | 0 <= i < |start.log|
        ensures start.log[i].tx != tx
      {
        assert EntryFine(start, i);
      }
    }
  }

  /** A sweep that starts after state a and is logged has found its rows in between. */
  lemma SweepsFindTheirRows(a: State, b: State, tx: TxId, i: nat) returns (f: State, g: State)
    requires Inv(a) && Leads(a, b) && tx !in a.txs
    requires i < |b.log| && b.log[i].tx == tx && b.log[i].op.Complete?
    ensures Found(a, f, g, b, tx, b.log[i].op.readAt)
  {
    var actions :| Run(a, actions) == Some(b);
    RunKeepsTrace(a, actions, tx);
    f, g :| Found(a, f, g, b, tx, b.log[i].op.readAt);
  }

  // ---------- against a sweep that runs alone at the commit ----------

  /** The sweep does what it would do alone at its commit: complete every row that is finished then. */
  ghost predicate SweepsAllAtCommit(log: History, i: nat)
    requires i < |log| && log[i].op.Complete?
  {
    var before := Replay(log[..i]);
    Perform(before, Complete(log[i].op.readAt, before.bookings.Keys)) == (Replay(log[..i + 1]), log[i].outcome)
  }

  /** It does so exactly when everything finished at its commit is among the rows it found. */
  lemma SweepsAllIff(log: History, i: nat, found: set<BookingId>, readAt: Instant)
    requires Legal(log) && i < |log| && SweepExact(log, i, found, readAt)
    ensures SweepsAllAtCommit(log, i) <==> FinishedRows(Replay(log[..i]), readAt) <= found
  {
    var before, ids := Replay(log[..i]), log[i].op.ids;
    var all := FinishedRows(before, readAt);
    EntryAt(log, i);
    assert all * before.bookings.Keys == all && all * ids == ids;
    if all <= found {
      assert ids == all;
    }
    if SweepsAllAtCommit(log, i) {
      assert CompleteRows(before, all) == CompleteRows(before, ids);
      forall id | id in all
        ensures id in ids
      {
        assert CompleteRows(before, all).bookings[id].status.Completed?;
        assert CompleteRows(before, ids).bookings[id].status.Completed?;
      }
    }
  }

  /** A booking or update that read the clock no earlier than the sweep. */
  predicate LateWriter(e: Entry, readAt: Instant) {
    && (e.outcome.Created? && e.op.Create? ==> readAt <= e.op.readAt)
    && (e.outcome.Updated? && e.op.Update? ==> readAt <= e.op.readAt)
  }

  lemma LateWriterFinishesNothing(db: Db, e: Entry, readAt: Instant)
    requires LateWriter(e, readAt) && Perform(db, e.op).1 == e.outcome
    ensures FinishedRows(Perform(db, e.op).0, readAt) <= FinishedRows(db, readAt)
  {
    var before, after := FinishedRows(db, readAt), FinishedRows(Perform(db, e.op).0, readAt);
    assert forall id :: id in after ==> id in before;
  }

  lemma {:induction false} LateWritersFinishNothing(log: History, n: nat, i: nat, readAt: Instant)
    requires Legal(log) && n <= i <= |log| && forall k :: n <= k < i ==> LateWriter(log[k], readAt)
    ensures FinishedRows(Replay(log[..i]), readAt) <= FinishedRows(Replay(log[..n]), readAt)
    decreases i
  {
    if n < i {
      LateWritersFinishNothing(log, n, i - 1, readAt);
      EntryAt(log, i - 1);
      LateWriterFinishesNothing(Replay(log[..i - 1]), log[i - 1], readAt);
    }
  }
}
