/** Laws of what the sweep decides, for all interval lists. */
module Availability {
  import opened Bookings
  import opened Sweep

  lemma {:induction false} CoverConcat(a: seq<Period>, b: seq<Period>, t: Instant)
    ensures Cover(a + b, t) == Cover(a, t) + Cover(b, t)
  {
    if |b| == 0 {
      assert a + b == a;
    } else {
      CoverConcat(a, b[..|b| - 1], t);
      assert (a + b)[..|a + b| - 1] == a + b[..|b| - 1];
    }
  }

  lemma CoverWithout(many: seq<Period>, j: nat, t: Instant) returns (rest: seq<Period>)
    requires j < |many|
    ensures multiset(many) == multiset(rest) + multiset{many[j]}
    ensures Cover(many, t) == Cover(rest, t) + if many[j].Contains(t) then 1 else 0
  {
    rest := many[..j] + many[j + 1..];
    assert many == many[..j] + ([many[j]] + many[j + 1..]);
    CoverConcat(many[..j], [many[j]] + many[j + 1..], t);
    CoverConcat([many[j]], many[j + 1..], t);
    CoverConcat(many[..j], many[j + 1..], t);
    assert [many[j]][..0] == [];
  }

  /** Dropping bookings, in any order, never raises the occupancy of an instant. */
  lemma {:induction false} CoverMonotone(few: seq<Period>, many: seq<Period>, t: Instant)
    requires multiset(few) <= multiset(many)
    ensures Cover(few, t) <= Cover(many, t)
  {
    if |few| > 0 {
      var last := few[|few| - 1];
      assert few == few[..|few| - 1] + [last];
      assert last in multiset(few);
      assert last in multiset(many);
      var j :| 0 <= j < |many| && many[j] == last;
      var rest := CoverWithout(many, j, t);
      assert multiset(few) == multiset(few[..|few| - 1]) + multiset{last};
      assert multiset(few[..|few| - 1]) == multiset(few) - multiset{last};
      assert multiset(rest) == multiset(many) - multiset{last};
      CoverMonotone(few[..|few| - 1], rest, t);
    }
  }

  lemma OrderIrrelevant(a: seq<Period>, b: seq<Period>, totalUnits: int, p: Period)
    requires multiset(a) == multiset(b)
    ensures Available(a, totalUnits, p) <==> Available(b, totalUnits, p)
  {
    forall t
      ensures Cover(a, t) == Cover(b, t)
    {
      CoverMonotone(a, b, t);
      CoverMonotone(b, a, t);
    }
  }

  /** A period is available exactly when both of its halves are. */
  lemma SplitsAtAnyPoint(intervals: seq<Period>, totalUnits: int, p: Period, mid: Instant)
    requires p.start <= mid <= p.end
    ensures Available(intervals, totalUnits, p) <==>
            && Available(intervals, totalUnits, Period(p.start, mid))
            && Available(intervals, totalUnits, Period(mid, p.end))
  {
    var head, tail := Period(p.start, mid), Period(mid, p.end);
    if Available(intervals, totalUnits, head) && Available(intervals, totalUnits, tail) {
      forall t | p.Contains(t)
        ensures Cover(intervals, t) < totalUnits
      {
        assert Period(p.start, mid).Contains(t) || Period(mid, p.end).Contains(t);
      }
    }
    if Available(intervals, totalUnits, p) {
      assert forall t :: Period(p.start, mid).Contains(t) ==> p.Contains(t);
      assert forall t :: Period(mid, p.end).Contains(t) ==> p.Contains(t);
    }
  }

  /** Fewer bookings, more units and a shorter stay each keep a period available. */
  lemma KeptByRelief(few: seq<Period>, many: seq<Period>, units: int, more: int, p: Period, q: Period)
    requires Available(many, units, p)
    requires multiset(few) <= multiset(many) && units <= more && p.start <= q.start && q.end <= p.end
    ensures Available(few, more, q)
  {
    forall t | q.Contains(t)
      ensures Cover(few, t) < more
    {
      CoverMonotone(few, many, t);
      assert p.Contains(t);
    }
  }
}
