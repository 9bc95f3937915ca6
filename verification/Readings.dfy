/** When transactions read the clock: never before they begin. */
module Readings {
  import opened Bookings
  import opened Operations
  import opened Protocol
  import opened Linearization
  import Lifecycle
  import Retirement

  /** The clock reading a transaction in flight carries. */
  function Reading(t: Tx): Option<Instant> {
    match t.pc
    case PeriodChecked(readAt) => Some(readAt)
    case CreateRoomLocked(readAt, _) => Some(readAt)
    case CreateAdmitted(readAt, _, _) => Some(readAt)
    case UpdatePeriodChecked(_, _, readAt) => Some(readAt)
    case UpdateAdmitted(_, _, readAt, _) => Some(readAt)
    case ReductionClockRead(_, readAt) => Some(readAt)
    case ChangeAllowed(_, readAt) => Some(readAt)
    case SweepClockRead(readAt) => Some(readAt)
    case Sweeping(readAt, _, _, _) => Some(readAt)
    case _ => None
  }

  function OpReading(op: Op): Option<Instant> {
    match op
    case Create(_, _, _, readAt, _) => Some(readAt)
    case Update(_, _, _, readAt) => Some(readAt)
    case ChangeRoom(_, _, readAt) => Some(readAt)
    case Complete(readAt, _) => Some(readAt)
    case _ => None
  }

  predicate NoEarlier(reading: Option<Instant>, since: Instant) {
    reading.Some? ==> since <= reading.value
  }

  /** A step reads the clock now, or keeps what it has. */
  lemma StepReads(s: State, tx: TxId, pick: int, order: seq<BookingId>, since: Instant)
    requires tx in s.txs && Advance(s, tx, pick, order).Some?
    requires since <= s.clock && NoEarlier(Reading(s.txs[tx]), since)
    ensures var e := Advance(s, tx, pick, order).value;
            if e.Answer? then NoEarlier(OpReading(e.op), since) else NoEarlier(Reading(s.txs[tx].(pc := e.pc)), since)
  {
  }

  /** What the transaction carries, and what it has logged after the first n entries, was read since then. */
  ghost predicate ReadsSince(s: State, tx: TxId, n: nat, since: Instant) {
    && since <= s.clock && (tx in s.txs ==> NoEarlier(Reading(s.txs[tx]), since))
    && (forall i :: n <= i < |s.log| && s.log[i].tx == tx ==> NoEarlier(OpReading(s.log[i].op), since))
  }

  lemma NextReads(s: State, a: Action, tx: TxId, n: nat, since: Instant)
    requires Next(s, a).Some? && ReadsSince(s, tx, n, since)
    ensures ReadsSince(Next(s, a).value, tx, n, since)
  {
    if a.Step? && a.tx == tx {
      StepReads(s, tx, a.pick, a.order, since);
    }
  }

  lemma {:induction false} RunReads(s: State, actions: seq<Action>, tx: TxId, n: nat, since: Instant)
    requires Inv(s) && Run(s, actions).Some? && ReadsSince(s, tx, n, since)
    ensures ReadsSince(Run(s, actions).value, tx, n, since)
    ensures tx in s.txs ==>
              tx in Run(s, actions).value.txs && Run(s, actions).value.txs[tx].req == s.txs[tx].req
  {
    if |actions| > 0 {
      var prefix := actions[..|actions| - 1];
      RunReads(s, prefix, tx, n, since);
      RunKeeps(s, prefix);
      Retirement.NextExtends(Run(s, prefix).value, actions[|actions| - 1]);
      NextReads(Run(s, prefix).value, actions[|actions| - 1], tx, n, since);
    }
  }

  /** A transaction that begins after state a reads the clock after a. */
  lemma BeginsThenReads(a: State, b: State, late: TxId, i: nat)
    requires Inv(a) && Leads(a, b) && late !in a.txs && i < |b.log| && b.log[i].tx == late
    ensures NoEarlier(OpReading(b.log[i].op), a.clock)
  {
    forall k | 0 <= k < |a.log|
      ensures a.log[k].tx != late
    {
      assert EntryFine(a, k);
    }
    var actions :| Run(a, actions) == Some(b);
    RunReads(a, actions, late, 0, a.clock);
  }

  /** No create or update in flight has read the clock before the given instant. */
  ghost predicate NoEarlyWriter(s: State, t: Instant) {
    forall tx :: tx in s.txs && (s.txs[tx].req.CreateReq? || s.txs[tx].req.UpdateReq?) ==>
      NoEarlier(Reading(s.txs[tx]), t)
  }

  /** Then none will be granted that has. */
  lemma LaterEntriesAreLate(s: State, b: State, t: Instant, k: nat)
    requires Inv(s) && Inv(b) && Leads(s, b) && NoEarlyWriter(s, t) && t <= s.clock && |s.log| <= k < |b.log|
    ensures Retirement.LateWriter(b.log[k], t)
  {
    var tx := b.log[k].tx;
    assert EntryFine(b, k);
    if tx !in s.txs || s.txs[tx].req.CreateReq? || s.txs[tx].req.UpdateReq? {
      var actions :| Run(s, actions) == Some(b);
      RunReads(s, actions, tx, |s.log|, t);
    } else {
      SameRequest(s, b, tx);
    }
  }

  lemma SameRequest(s: State, b: State, tx: TxId)
    requires Inv(s) && Leads(s, b) && tx in s.txs
    ensures tx in b.txs && b.txs[tx].req == s.txs[tx].req
  {
    var actions :| Run(s, actions) == Some(b);
    var reading := Reading(s.txs[tx]);
    var since := if reading.Some? then Min(reading.value, s.clock) else s.clock;
    RunReads(s, actions, tx, |s.log|, since);
  }
}
