/** The event sweep behind every availability answer, and the algebra of what it decides. */
module Sweep {
  import opened Bookings

  datatype Event = Event(time: Instant, change: int)

  /** The sort key: by time, and at equal times releases before claims. */
  predicate NotAfter(a: Event, b: Event) {
    a.time < b.time || (a.time == b.time && a.change <= b.change)
  }

  ghost predicate Sorted(events: seq<Event>) {
    forall i, j :: 0 <= i < j < |events| ==> NotAfter(events[i], events[j])
  }

  /** How many of the intervals contain t, however they are ordered or repeated. */
  function Cover(intervals: seq<Period>, t: Instant): nat {
    if |intervals| == 0 then 0
    else Cover(intervals[..|intervals| - 1], t) + if intervals[|intervals| - 1].Contains(t) then 1 else 0
  }

  /** The plain meaning of availability that the sweep computes quickly. */
  ghost predicate Available(intervals: seq<Period>, totalUnits: int, p: Period) {
    totalUnits > 0 && forall t :: p.Contains(t) ==> Cover(intervals, t) < totalUnits
  }

  function Clip(i: Period, p: Period): Period {
    Period(Max(i.start, p.start), Min(i.end, p.end))
  }

  function EventsOf(i: Period, p: Period): seq<Event> {
    var c := Clip(i, p);
    if c.start < c.end then [Event(c.start, 1), Event(c.end, -1)] else []
  }

  function ClippedEvents(intervals: seq<Period>, p: Period): seq<Event> {
    if |intervals| == 0 then []
    else ClippedEvents(intervals[..|intervals| - 1], p) + EventsOf(intervals[|intervals| - 1], p)
  }

  // ---------- weighted sums over events ----------

  function Total(events: seq<Event>, weight: Event -> int): int {
    if |events| == 0 then 0
    else Total(events[..|events| - 1], weight) + weight(events[|events| - 1])
  }

  /** The change itself: totals of prefixes are the running sum of the sweep. */
  function Change(): Event -> int {
    (e: Event) => e.change
  }

  /** Changes that have happened by time t. */
  function UpTo(t: Instant): Event -> int {
    (e: Event) => if e.time <= t then e.change else 0
  }

  /** Claims strictly before t, releases up to and including t. */
  function JustBefore(t: Instant): Event -> int {
    (e: Event) => if e.time < t || (e.time == t && e.change < 0) then e.change else 0
  }

  lemma {:induction false} TotalConcat(a: seq<Event>, b: seq<Event>, weight: Event -> int)
    ensures Total(a + b, weight) == Total(a, weight) + Total(b, weight)
  {
    if |b| == 0 {
      assert a + b == a;
    } else {
      TotalConcat(a, b[..|b| - 1], weight);
      assert (a + b)[..|a + b| - 1] == a + b[..|b| - 1];
    }
  }

  lemma {:induction false} TotalPermutation(a: seq<Event>, b: seq<Event>, weight: Event -> int)
    requires multiset(a) == multiset(b)
    ensures Total(a, weight) == Total(b, weight)
  {
    if |a| == 0 {
      assert |multiset(b)| == 0;
    } else {
      var last := a[|a| - 1];
      assert a == a[..|a| - 1] + [last];
      assert last in multiset(b);
      var j :| 0 <= j < |b| && b[j] == last;
      var rest := TotalWithout(b, j, weight);
      assert multiset(a) == multiset(a[..|a| - 1]) + multiset{last};
      assert multiset(a[..|a| - 1]) == multiset(a) - multiset{last} == multiset(rest);
      TotalPermutation(a[..|a| - 1], rest, weight);
    }
  }

  lemma TotalWithout(b: seq<Event>, j: nat, weight: Event -> int) returns (rest: seq<Event>)
    requires j < |b|
    ensures multiset(b) == multiset(rest) + multiset{b[j]}
    ensures Total(b, weight) == Total(rest, weight) + weight(b[j])
  {
    rest := b[..j] + b[j + 1..];
    assert b == b[..j] + ([b[j]] + b[j + 1..]);
    TotalConcat(b[..j], [b[j]] + b[j + 1..], weight);
    TotalConcat([b[j]], b[j + 1..], weight);
    TotalConcat(b[..j], b[j + 1..], weight);
    assert [b[j]][..0] == [];
  }

  lemma {:induction false} TotalSame(events: seq<Event>, v: Event -> int, w: Event -> int)
    requires forall e :: e in events ==> v(e) == w(e)
    ensures Total(events, v) == Total(events, w)
  {
    if |events| > 0 {
      TotalSame(events[..|events| - 1], v, w);
    }
  }

  lemma {:induction false} TotalAtLeast(events: seq<Event>, v: Event -> int, w: Event -> int)
    requires forall e :: e in events ==> v(e) >= w(e)
    ensures Total(events, v) >= Total(events, w)
  {
    if |events| > 0 {
      TotalAtLeast(events[..|events| - 1], v, w);
    }
  }

  lemma {:induction false} TotalSign(events: seq<Event>, w: Event -> int)
    ensures (forall e :: e in events ==> w(e) >= 0) ==> Total(events, w) >= 0
    ensures (forall e :: e in events ==> w(e) <= 0) ==> Total(events, w) <= 0
  {
    if |events| > 0 {
      TotalSign(events[..|events| - 1], w);
    }
  }

  // ---------- what the events say about the intervals ----------

  lemma TwoEventTotal(a: Event, b: Event, w: Event -> int)
    ensures Total([a, b], w) == w(a) + w(b)
  {
    assert [a, b][..1] == [a] && [a][..0] == [];
    assert Total([a], w) == w(a);
  }

  /** Inside the period, changes up to t count the intervals that contain t. */
  lemma {:induction false} EventsCountCover(intervals: seq<Period>, p: Period, t: Instant)
    requires p.Contains(t)
    ensures Total(ClippedEvents(intervals, p), UpTo(t)) == Cover(intervals, t)
  {
    if |intervals| > 0 {
      var n := |intervals| - 1;
      EventsCountCover(intervals[..n], p, t);
      TotalConcat(ClippedEvents(intervals[..n], p), EventsOf(intervals[n], p), UpTo(t));
      var c := Clip(intervals[n], p);
      TwoEventTotal(Event(c.start, 1), Event(c.end, -1), UpTo(t));
    }
  }

  /** Claims lie inside the period; changes are claims or releases. */
  lemma {:induction false} EventsInPeriod(intervals: seq<Period>, p: Period)
    ensures forall e :: e in ClippedEvents(intervals, p) ==>
              (e.change == 1 && p.Contains(e.time)) || (e.change == -1 && p.start < e.time <= p.end)
  {
    if |intervals| > 0 {
      EventsInPeriod(intervals[..|intervals| - 1], p);
    }
  }

  lemma {:induction false} EventsBalance(intervals: seq<Period>, p: Period, t: Instant)
    ensures Total(ClippedEvents(intervals, p), Change()) == 0
    ensures Total(ClippedEvents(intervals, p), JustBefore(t)) >= 0
  {
    if |intervals| > 0 {
      var n := |intervals| - 1;
      EventsBalance(intervals[..n], p, t);
      var head, tail := ClippedEvents(intervals[..n], p), EventsOf(intervals[n], p);
      TotalConcat(head, tail, Change());
      TotalConcat(head, tail, JustBefore(t));
      var c := Clip(intervals[n], p);
      TwoEventTotal(Event(c.start, 1), Event(c.end, -1), Change());
      TwoEventTotal(Event(c.start, 1), Event(c.end, -1), JustBefore(t));
    }
  }

  // ---------- the running sum of a sorted list ----------

  /** Splitting a sorted list at t: the running sum there is everything that happened by t. */
  lemma RunningSumAt(events: seq<Event>, k: nat, t: Instant)
    requires k <= |events|
    requires forall i :: 0 <= i < k ==> events[i].time <= t
    requires forall i :: k <= i < |events| ==> events[i].time > t
    ensures Total(events[..k], Change()) == Total(events, UpTo(t))
  {
    TotalConcat(events[..k], events[k..], UpTo(t));
    assert events == events[..k] + events[k..];
    TotalSame(events[..k], Change(), UpTo(t));
    TotalSign(events[k..], UpTo(t));
  }

  /** How far a sorted list has got by time t. */
  lemma SplitPoint(events: seq<Event>, t: Instant) returns (k: nat)
    requires Sorted(events)
    ensures k <= |events|
    ensures forall i :: 0 <= i < k ==> events[i].time <= t
    ensures forall i :: k <= i < |events| ==> events[i].time > t
  {
    k := 0;
    while k < |events| && events[k].time <= t
      invariant k <= |events|
      invariant forall i :: 0 <= i < k ==> events[i].time <= t
    {
      k := k + 1;
    }
  }

  /** Cutting a list in two: the total of the head, plus whatever the tail adds. */
  lemma TotalSplit(events: seq<Event>, k: nat, w: Event -> int)
    requires k <= |events|
    ensures Total(events, w) == Total(events[..k], w) + Total(events[k..], w)
  {
    assert events == events[..k] + events[k..];
    TotalConcat(events[..k], events[k..], w);
  }

  ghost predicate SweepOrder(events: seq<Event>, intervals: seq<Period>, p: Period) {
    Sorted(events) && multiset(events) == multiset(ClippedEvents(intervals, p))
  }

  lemma SweptEventsInPeriod(intervals: seq<Period>, p: Period, events: seq<Event>)
    requires SweepOrder(events, intervals, p)
    ensures forall i :: 0 <= i < |events| ==>
              (events[i].change == 1 && p.Contains(events[i].time)) || events[i].change == -1
  {
    EventsInPeriod(intervals, p);
    forall i | 0 <= i < |events|
      ensures (events[i].change == 1 && p.Contains(events[i].time)) || events[i].change == -1
    {
      assert events[i] in multiset(events);
      assert events[i] in ClippedEvents(intervals, p);
    }
  }

  /** A claim that brings the running sum to n means that at least n intervals contain its instant. */
  lemma ClaimIsCover(intervals: seq<Period>, p: Period, events: seq<Event>, k: nat)
    requires SweepOrder(events, intervals, p)
    requires k < |events| && events[k].change > 0
    ensures p.Contains(events[k].time)
    ensures Cover(intervals, events[k].time) >= Total(events[..k + 1], Change())
  {
    var t := events[k].time;
    SweptEventsInPeriod(intervals, p, events);
    EventsCountCover(intervals, p, t);
    TotalPermutation(events, ClippedEvents(intervals, p), UpTo(t));
    TotalSplit(events, k + 1, UpTo(t));
    TotalSame(events[..k + 1], Change(), UpTo(t));
    LaterClaimsOnly(events, k);
  }

  lemma LaterClaimsOnly(events: seq<Event>, k: nat)
    requires Sorted(events) && k < |events| && events[k].change > 0
    ensures Total(events[k + 1..], UpTo(events[k].time)) >= 0
  {
    forall e | e in events[k + 1..]
      ensures UpTo(events[k].time)(e) >= 0
    {
      assert NotAfter(events[k], e);
    }
    TotalSign(events[k + 1..], UpTo(events[k].time));
  }

  /** The running sum is never negative and comes back to zero. */
  lemma RunningSumBounds(intervals: seq<Period>, p: Period, events: seq<Event>, k: nat)
    requires SweepOrder(events, intervals, p)
    requires k <= |events|
    ensures Total(events[..k], Change()) >= 0
    ensures Total(events, Change()) == 0
  {
    TotalPermutation(events, ClippedEvents(intervals, p), Change());
    if k == 0 {
      EventsBalance(intervals, p, 0);
    } else {
      var t := events[k - 1].time;
      EventsBalance(intervals, p, t);
      TotalPermutation(events, ClippedEvents(intervals, p), JustBefore(t));
      TotalSplit(events, k, JustBefore(t));
      SweptEventsInPeriod(intervals, p, events);
      HeadAheadOfTail(events, k, t);
    }
  }

  lemma HeadAheadOfTail(events: seq<Event>, k: nat, t: Instant)
    requires Sorted(events) && 0 < k <= |events| && t == events[k - 1].time
    requires forall i :: 0 <= i < |events| ==> events[i].change == 1 || events[i].change == -1
    ensures Total(events[..k], Change()) >= Total(events[..k], JustBefore(t))
    ensures Total(events[k..], JustBefore(t)) <= 0
  {
    forall e | e in events[..k]
      ensures e.change >= JustBefore(t)(e)
    {
      var i :| 0 <= i < k && events[i] == e;
      assert i < k - 1 ==> NotAfter(events[i], events[k - 1]);
    }
    TotalAtLeast(events[..k], Change(), JustBefore(t));
    forall e | e in events[k..]
      ensures JustBefore(t)(e) <= 0
    {
      assert NotAfter(events[k - 1], e);
    }
    TotalSign(events[k..], JustBefore(t));
  }

  // ---------- the code ----------

  /** Where a new event goes in a sorted list. */
  lemma InsertionKeepsOrder(sorted: seq<Event>, k: nat, e: Event)
    requires Sorted(sorted) && k <= |sorted|
    requires k > 0 ==> NotAfter(sorted[k - 1], e)
    requires forall j :: k <= j < |sorted| ==> NotAfter(e, sorted[j])
    ensures Sorted(sorted[..k] + [e] + sorted[k..])
  {
    var after := sorted[..k] + [e] + sorted[k..];
    assert after[k] == e;
    assert forall i :: 0 <= i < k ==> after[i] == sorted[i];
    assert forall i :: k < i < |after| ==> after[i] == sorted[i - 1];
    forall i, j | 0 <= i < j < |after|
      ensures NotAfter(after[i], after[j])
    {
      if j == k && i < k - 1 {
        assert NotAfter(sorted[i], sorted[k - 1]);
      }
    }
  }

  method SortEvents(events: seq<Event>) returns (sorted: seq<Event>)
    ensures Sorted(sorted)
    ensures multiset(sorted) == multiset(events)
  {
    sorted := [];
    for i := 0 to |events|
      invariant Sorted(sorted)
      invariant multiset(sorted) == multiset(events[..i])
    {
      var k := |sorted|;
      while k > 0 && !NotAfter(sorted[k - 1], events[i])
        invariant 0 <= k <= |sorted|
        invariant forall j :: k <= j < |sorted| ==> NotAfter(events[i], sorted[j])
      {
        k := k - 1;
      }
      InsertionKeepsOrder(sorted, k, events[i]);
      assert sorted == sorted[..k] + sorted[k..];
      assert events[..i + 1] == events[..i] + [events[i]];
      sorted := sorted[..k] + [events[i]] + sorted[k..];
    }
    assert events[..|events|] == events;
  }

  method HasAvailableUnit(intervals: seq<Period>, totalUnits: int, p: Period) returns (available: bool)
    ensures available <==> Available(intervals, totalUnits, p)
  {
    if totalUnits <= 0 {
      return false;
    }
    var events := [];
    for i := 0 to |intervals|
      invariant events == ClippedEvents(intervals[..i], p)
    {
      var overlap := Clip(intervals[i], p);
      if overlap.start < overlap.end {
        events := events + [Event(overlap.start, 1)];
        events := events + [Event(overlap.end, -1)];
      }
      assert intervals[..i + 1][..i] == intervals[..i];
    }
    assert intervals[..|intervals|] == intervals;
    ghost var unsorted := events;
    events := SortEvents(events);

    var occupancy := 0;
    for i := 0 to |events|
      invariant occupancy == Total(events[..i], Change())
      invariant forall k :: 0 <= k <= i ==> Total(events[..k], Change()) < totalUnits
    {
      assert events[..i + 1][..i] == events[..i];
      occupancy := occupancy + events[i].change;
      if occupancy >= totalUnits {
        ClaimIsCover(intervals, p, events, i);
        return false;
      }
    }
    forall t | p.Contains(t)
      ensures Cover(intervals, t) < totalUnits
    {
      var k := SplitPoint(events, t);
      RunningSumAt(events, k, t);
      TotalPermutation(events, unsorted, UpTo(t));
      EventsCountCover(intervals, p, t);
    }
    return true;
  }
}
