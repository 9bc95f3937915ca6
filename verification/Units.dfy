/** Handing out units: a pointwise capacity bound is exactly what lets every booking keep one unit. */
module Units {
  import opened Bookings

  predicate Overlap(p: Period, q: Period) {
    p.start < q.end && q.start < p.end
  }

  /** Every booking has one of n units, and bookings on one unit never overlap. */
  ghost predicate Assigns(rows: map<BookingId, Booking>, n: nat, unit: map<BookingId, nat>) {
    && unit.Keys == rows.Keys
    && (forall id :: id in rows ==> unit[id] < n)
    && (forall a, b :: a in rows && b in rows && a != b && Overlap(rows[a].period, rows[b].period) ==>
          unit[a] != unit[b])
  }

  ghost predicate ProperPeriods(rows: map<BookingId, Booking>) {
    forall id :: id in rows ==> rows[id].period.start < rows[id].period.end
  }

  ghost predicate WithinCapacity(rows: map<BookingId, Booking>, n: nat) {
    forall t :: |Covering(rows, t)| <= n
  }

  function Without(rows: map<BookingId, Booking>, id: BookingId): map<BookingId, Booking> {
    map k | k in rows && k != id :: rows[k]
  }

  lemma LatestStart(rows: map<BookingId, Booking>) returns (x: BookingId)
    requires |rows| > 0
    ensures x in rows
    ensures forall k :: k in rows ==> rows[k].period.start <= rows[x].period.start
    decreases |rows|
  {
    x := Pick(rows.Keys);
    var rest := Without(rows, x);
    assert rest.Keys == rows.Keys - {x};
    if |rest| > 0 {
      var other := LatestStart(rest);
      assert forall k :: k in rows ==> k == x || k in rest;
      if rows[x].period.start < rows[other].period.start {
        x := other;
      }
    }
  }

  /** Fewer than n units in use leave one free. */
  lemma FreeUnit(used: set<nat>, n: nat) returns (u: nat)
    requires |used| < n
    ensures u < n && u !in used
  {
    if n - 1 !in used {
      u := n - 1;
    } else {
      u := FreeUnit(used - {n - 1}, n - 1);
    }
  }

  lemma {:induction false} ImageSize(ids: set<BookingId>, unit: map<BookingId, nat>)
    requires ids <= unit.Keys
    ensures |set id | id in ids :: unit[id]| <= |ids|
  {
    if |ids| > 0 {
      var id := Pick(ids);
      ImageSize(ids - {id}, unit);
      assert (set k | k in ids :: unit[k]) == (set k | k in ids - {id} :: unit[k]) + {unit[id]};
    }
  }

  /** Bookings on different units below n number at most n. */
  lemma {:induction false} InjectiveSize(ids: set<BookingId>, unit: map<BookingId, nat>, n: nat)
    requires ids <= unit.Keys
    requires forall id :: id in ids ==> unit[id] < n
    requires forall a, b :: a in ids && b in ids && a != b ==> unit[a] != unit[b]
    ensures |ids| <= n
    decreases |ids|
  {
    if |ids| > 0 {
      var last := Pick(ids);
      if exists id :: id in ids && unit[id] == n - 1 {
        last :| last in ids && unit[last] == n - 1;
      }
      // give the picked booking's unit to whoever has the highest one
      var rest := ids - {last};
      var swapped := map id | id in unit :: if unit[id] == n - 1 then unit[last] else unit[id];
      InjectiveSize(rest, swapped, n - 1);
    }
  }

  /** Assigning the latest starter last: whoever overlaps it is in use at the moment it starts. */
  lemma {:induction false} AssignUnits(rows: map<BookingId, Booking>, n: nat) returns (unit: map<BookingId, nat>)
    requires ProperPeriods(rows) && WithinCapacity(rows, n)
    ensures Assigns(rows, n, unit)
    decreases |rows|
  {
    if |rows| == 0 {
      unit := map[];
    } else {
      var x := LatestStart(rows);
      var rest := Without(rows, x);
      assert rest.Keys == rows.Keys - {x};
      WithoutKeepsCapacity(rows, x, n);
      var inner := AssignUnits(rest, n);
      var near := set id | id in rest && Overlap(rest[id].period, rows[x].period);
      NeighboursLeaveRoom(rows, x, near, n);
      ImageSize(near, inner);
      var used := set id | id in near :: inner[id];
      var u := FreeUnit(used, n);
      unit := inner[x := u];
      ExtendAssignment(rows, x, n, inner, u, near, used);
    }
  }

  lemma WithoutKeepsCapacity(rows: map<BookingId, Booking>, x: BookingId, n: nat)
    requires WithinCapacity(rows, n)
    ensures WithinCapacity(Without(rows, x), n)
  {
    forall t
      ensures |Covering(Without(rows, x), t)| <= n
    {
      SubsetSize(Covering(Without(rows, x), t), Covering(rows, t));
    }
  }

  lemma ExtendAssignment(rows: map<BookingId, Booking>, x: BookingId, n: nat, inner: map<BookingId, nat>,
                         u: nat, near: set<BookingId>, used: set<nat>)
    requires x in rows && Assigns(Without(rows, x), n, inner) && u < n
    requires near == set id | id in Without(rows, x) && Overlap(rows[id].period, rows[x].period)
    requires used == (set id | id in near :: inner[id]) && u !in used
    ensures Assigns(rows, n, inner[x := u])
  {
    var unit := inner[x := u];
    assert unit.Keys == rows.Keys;
    forall a, b | a in rows && b in rows && a != b && Overlap(rows[a].period, rows[b].period)
      ensures unit[a] != unit[b]
    {
      if a == x {
        assert b in near && inner[b] in used;
      } else if b == x {
        assert a in near && inner[a] in used;
      }
    }
  }

  lemma NeighboursLeaveRoom(rows: map<BookingId, Booking>, x: BookingId, near: set<BookingId>, n: nat)
    requires ProperPeriods(rows) && WithinCapacity(rows, n)
    requires x in rows && forall k :: k in rows ==> rows[k].period.start <= rows[x].period.start
    requires near == set id | id in Without(rows, x) && Overlap(rows[id].period, rows[x].period)
    ensures |near| < n
  {
    var t := rows[x].period.start;
    assert near + {x} <= Covering(rows, t);
    SubsetSize(near + {x}, Covering(rows, t));
  }

  /** Units can be handed out if and only if no instant is over capacity. */
  lemma AssignableIffWithinCapacity(rows: map<BookingId, Booking>, n: nat)
    requires ProperPeriods(rows)
    ensures WithinCapacity(rows, n) <==> exists unit :: Assigns(rows, n, unit)
  {
    if WithinCapacity(rows, n) {
      var unit := AssignUnits(rows, n);
    }
    if unit :| Assigns(rows, n, unit) {
      forall t
        ensures |Covering(rows, t)| <= n
      {
        InjectiveSize(Covering(rows, t), unit, n);
      }
    }
  }
}
