/**
 The fixed-window rate limiter: the script on the counter store, the decision, and bounds over request histories.
 Time is in milliseconds. A counter is still there at its deadline and gone a millisecond later; a remaining time
 is reported rounded to the nearest second.
 */
module RateLimit {
  import opened Bookings

  type Millis = int

  /** The key is an injective function of bucket and identifier. */
  datatype Key = Key(bucket: string, identifier: string)

  /** A stored number; it would live forever without a deadline. */
  datatype Counter = Counter(count: nat, deadline: Option<Millis>)

  type Store = map<Key, Counter>

  datatype Decision = Admitted | Limited(retryAfter: int)

  const RATE_LIMIT_WINDOW_SECONDS := 60

  predicate Live(store: Store, key: Key, now: Millis) {
    key in store && (store[key].deadline.Some? ==> now <= store[key].deadline.value)
  }

  /** INCR: a missing or expired key starts over, without a deadline. */
  function Incr(store: Store, key: Key, now: Millis): Store {
    if Live(store, key, now) then store[key := store[key].(count := store[key].count + 1)]
    else store[key := Counter(1, None)]
  }

  /** TTL: whole seconds, -1 for a key without a deadline, -2 for no key. */
  function Ttl(store: Store, key: Key, now: Millis): int {
    if !Live(store, key, now) then -2
    else if store[key].deadline.None? then -1
    else (store[key].deadline.value - now + 500) / 1000
  }

  /** The store after the script ran. */
  function Script(store: Store, key: Key, windowSeconds: int, now: Millis): Store {
    var counted := Incr(store, key, now);
    if counted[key].count == 1 then counted[key := Counter(1, Some(now + 1000 * windowSeconds))] else counted
  }

  function Decide(store: Store, key: Key, now: Millis, limit: int): Decision
    requires key in store
  {
    if store[key].count > limit then Limited(Max(Ttl(store, key, now), 1)) else Admitted
  }

  class RateLimiter {
    var counters: Store

    constructor ()
      ensures counters == map[]
    {
      counters := map[];
    }

    /** The script, command by command. */
    method Increment(key: Key, windowSeconds: int, now: Millis) returns (count: nat, ttl: int)
      requires windowSeconds >= 1
      modifies this
      ensures counters == Script(old(counters), key, windowSeconds, now)
      ensures count == counters[key].count && ttl == Ttl(counters, key, now)
    {
      if Live(counters, key, now) {
        counters := counters[key := counters[key].(count := counters[key].count + 1)];
      } else {
        counters := counters[key := Counter(1, None)];
      }
      count := counters[key].count;
      if count == 1 {
        counters := counters[key := counters[key].(deadline := Some(now + 1000 * windowSeconds))];
      }
      ttl := if counters[key].deadline.None? then -1 else (counters[key].deadline.value - now + 500) / 1000;
    }

    method EnforceRateLimit(bucket: string, identifier: string, limit: int, now: Millis,
                            windowSeconds: int := RATE_LIMIT_WINDOW_SECONDS)
      returns (decision: Decision)
      requires windowSeconds >= 1
      modifies this
      ensures counters == Script(old(counters), Key(bucket, identifier), windowSeconds, now)
      ensures decision == Decide(counters, Key(bucket, identifier), now, limit)
    {
      var count, ttl := Increment(Key(bucket, identifier), windowSeconds, now);
      if count > limit {
        return Limited(Max(ttl, 1));
      }
      return Admitted;
    }
  }

  // ---------- histories ----------

  datatype Hit = Hit(key: Key, at: Millis)

  predicate InOrder(hits: seq<Hit>) {
    forall i, j :: 0 <= i < j < |hits| ==> hits[i].at <= hits[j].at
  }

  /** The store after the first n hits. */
  function After(hits: seq<Hit>, n: nat, windowSeconds: int): Store
    requires n <= |hits|
  {
    if n == 0 then map[] else Script(After(hits, n - 1, windowSeconds), hits[n - 1].key, windowSeconds, hits[n - 1].at)
  }

  predicate IsAdmitted(hits: seq<Hit>, i: nat, limit: int, windowSeconds: int)
    requires i < |hits|
  {
    Decide(After(hits, i + 1, windowSeconds), hits[i].key, hits[i].at, limit).Admitted?
  }

  /** Hit i creates its counter. */
  predicate Opens(hits: seq<Hit>, i: nat, windowSeconds: int)
    requires i < |hits|
  {
    !Live(After(hits, i, windowSeconds), hits[i].key, hits[i].at)
  }

  function HitsIn(hits: seq<Hit>, key: Key, from: nat, to: nat): nat
    requires from <= to <= |hits|
  {
    if from == to then 0 else HitsIn(hits, key, from, to - 1) + if hits[to - 1].key == key then 1 else 0
  }

  function AdmittedIn(hits: seq<Hit>, key: Key, from: nat, to: nat, limit: int, windowSeconds: int): nat
    requires from <= to <= |hits|
  {
    if from == to then 0
    else
      AdmittedIn(hits, key, from, to - 1, limit, windowSeconds) +
      if hits[to - 1].key == key && IsAdmitted(hits, to - 1, limit, windowSeconds) then 1 else 0
  }

  /** In the window that hit j opened, the counter counts and keeps its deadline. */
  ghost predicate Quiet(hits: seq<Hit>, key: Key, j: nat, n: nat, windowSeconds: int)
    requires n <= |hits|
  {
    forall i :: j < i < n && hits[i].key == key ==> !Opens(hits, i, windowSeconds)
  }

  lemma {:induction false} CounterCounts(hits: seq<Hit>, j: nat, n: nat, windowSeconds: int)
    requires j < n <= |hits| && windowSeconds >= 1
    requires Opens(hits, j, windowSeconds) && Quiet(hits, hits[j].key, j, n, windowSeconds)
    ensures hits[j].key in After(hits, n, windowSeconds)
    ensures After(hits, n, windowSeconds)[hits[j].key] ==
            Counter(HitsIn(hits, hits[j].key, j, n), Some(hits[j].at + 1000 * windowSeconds))
  {
    if n == j + 1 {
      assert HitsIn(hits, hits[j].key, j, j) == 0;
    } else {
      CounterCounts(hits, j, n - 1, windowSeconds);
      HitsAtLeastOne(hits, j, n - 1);
      assert hits[n - 1].key == hits[j].key ==> !Opens(hits, n - 1, windowSeconds);
    }
  }

  lemma {:induction false} HitsAtLeastOne(hits: seq<Hit>, j: nat, n: nat)
    requires j < n <= |hits|
    ensures HitsIn(hits, hits[j].key, j, n) >= 1
  {
    if n > j + 1 {
      HitsAtLeastOne(hits, j, n - 1);
    }
  }

  /** Windows of one key do not overlap. */
  lemma WindowsAreApart(hits: seq<Hit>, i: nat, j: nat, windowSeconds: int)
    requires InOrder(hits) && i < j < |hits| && hits[i].key == hits[j].key && windowSeconds >= 1
    requires Opens(hits, i, windowSeconds) && Opens(hits, j, windowSeconds)
    ensures hits[i].at + 1000 * windowSeconds < hits[j].at
    decreases j - i
  {
    if k :| i < k < j && hits[k].key == hits[i].key && Opens(hits, k, windowSeconds) {
      WindowsAreApart(hits, i, k, windowSeconds);
    } else {
      CounterCounts(hits, i, j, windowSeconds);
    }
  }

  /** Of the requests of one window exactly the first `limit` are admitted. */
  lemma {:induction false} WindowAdmitsExactly(hits: seq<Hit>, j: nat, n: nat, limit: int, windowSeconds: int)
    requires j < n <= |hits| && windowSeconds >= 1
    requires Opens(hits, j, windowSeconds) && Quiet(hits, hits[j].key, j, n, windowSeconds)
    ensures AdmittedIn(hits, hits[j].key, j, n, limit, windowSeconds) ==
            Min(HitsIn(hits, hits[j].key, j, n), Max(0, limit))
  {
    CounterCounts(hits, j, n, windowSeconds);
    if n == j + 1 {
      assert HitsIn(hits, hits[j].key, j, j) == 0;
      assert AdmittedIn(hits, hits[j].key, j, j, limit, windowSeconds) == 0;
    } else {
      WindowAdmitsExactly(hits, j, n - 1, limit, windowSeconds);
    }
  }

  /** Between a counter's creation and its deadline at most `limit` requests of its key are admitted. */
  lemma AtMostLimitUntilDeadline(hits: seq<Hit>, j: nat, n: nat, limit: int, windowSeconds: int)
    requires InOrder(hits) && j < n <= |hits| && windowSeconds >= 1 && Opens(hits, j, windowSeconds)
    requires hits[n - 1].at <= hits[j].at + 1000 * windowSeconds
    ensures AdmittedIn(hits, hits[j].key, j, n, limit, windowSeconds) ==
            Min(HitsIn(hits, hits[j].key, j, n), Max(0, limit))
  {
    forall i | j < i < n && hits[i].key == hits[j].key
      ensures !Opens(hits, i, windowSeconds)
    {
      if Opens(hits, i, windowSeconds) {
        WindowsAreApart(hits, j, i, windowSeconds);
      }
    }
    WindowAdmitsExactly(hits, j, n, limit, windowSeconds);
  }

  // ---------- any span as long as a window ----------

  lemma {:induction false} AdmittedSplits(hits: seq<Hit>, key: Key, a: nat, b: nat, c: nat,
                                          limit: int, windowSeconds: int)
    requires a <= b <= c <= |hits|
    ensures AdmittedIn(hits, key, a, c, limit, windowSeconds) ==
            AdmittedIn(hits, key, a, b, limit, windowSeconds) + AdmittedIn(hits, key, b, c, limit, windowSeconds)
    decreases c
  {
    if b < c {
      AdmittedSplits(hits, key, a, b, c - 1, limit, windowSeconds);
    }
  }

  /** A key without a counter has not been hit. */
  lemma {:induction false} NoHitNoCounter(hits: seq<Hit>, key: Key, n: nat, windowSeconds: int)
    requires n <= |hits| && forall i :: 0 <= i < n ==> hits[i].key != key
    ensures key !in After(hits, n, windowSeconds)
  {
    if n > 0 {
      NoHitNoCounter(hits, key, n - 1, windowSeconds);
    }
  }

  /** A stretch in which no window of the key opens belongs to one window: at most `limit` admissions. */
  lemma {:induction false} QuietStretch(hits: seq<Hit>, key: Key, a: nat, b: nat, limit: int, windowSeconds: int)
    requires a <= b <= |hits| && windowSeconds >= 1
    requires forall i :: a <= i < b && hits[i].key == key ==> !Opens(hits, i, windowSeconds)
    ensures AdmittedIn(hits, key, a, b, limit, windowSeconds) <= Max(0, limit)
    decreases a
  {
    if a == 0 {
      NoneAdmittedBeforeFirst(hits, key, b, limit, windowSeconds);
    } else if hits[a - 1].key == key && Opens(hits, a - 1, windowSeconds) {
      WindowAdmitsExactly(hits, a - 1, b, limit, windowSeconds);
      AdmittedSplits(hits, key, a - 1, a, b, limit, windowSeconds);
    } else {
      QuietStretch(hits, key, a - 1, b, limit, windowSeconds);
      AdmittedSplits(hits, key, a - 1, a, b, limit, windowSeconds);
    }
  }

  lemma {:induction false} NoneAdmittedBeforeFirst(hits: seq<Hit>, key: Key, b: nat, limit: int, windowSeconds: int)
    requires b <= |hits|
    requires forall i :: 0 <= i < b && hits[i].key == key ==> !Opens(hits, i, windowSeconds)
    ensures AdmittedIn(hits, key, 0, b, limit, windowSeconds) == 0
    ensures forall i :: 0 <= i < b ==> hits[i].key != key
  {
    if b > 0 {
      NoneAdmittedBeforeFirst(hits, key, b - 1, limit, windowSeconds);
      NoHitNoCounter(hits, key, b - 1, windowSeconds);
    }
  }

  /** Any span as long as a window, both of its ends included, contains at most 2 * limit admitted requests of a key. */
  lemma SpanAdmitsAtMostTwice(hits: seq<Hit>, key: Key, a: nat, b: nat, from: Millis, limit: int, windowSeconds: int)
    requires InOrder(hits) && a <= b <= |hits| && windowSeconds >= 1
    requires forall i :: a <= i < b ==> from <= hits[i].at <= from + 1000 * windowSeconds
    ensures AdmittedIn(hits, key, a, b, limit, windowSeconds) <= 2 * Max(0, limit)
  {
    if c :| a <= c < b && hits[c].key == key && Opens(hits, c, windowSeconds) {
      forall i | a <= i < b && i != c && hits[i].key == key
        ensures !Opens(hits, i, windowSeconds)
      {
        if Opens(hits, i, windowSeconds) {
          WindowsAreApart(hits, if i < c then i else c, if i < c then c else i, windowSeconds);
        }
      }
      QuietStretch(hits, key, a, c, limit, windowSeconds);
      WindowAdmitsExactly(hits, c, b, limit, windowSeconds);
      AdmittedSplits(hits, key, a, c, b, limit, windowSeconds);
    } else {
      QuietStretch(hits, key, a, b, limit, windowSeconds);
    }
  }

  // ---------- deadlines ----------

  /** No counter is immortal: each has a deadline at most one window after the last hit. */
  lemma {:induction false} EveryCounterExpires(hits: seq<Hit>, n: nat, key: Key, windowSeconds: int)
    requires InOrder(hits) && n <= |hits| && windowSeconds >= 1
    requires key in After(hits, n, windowSeconds)
    ensures n > 0
    ensures After(hits, n, windowSeconds)[key].count >= 1
    ensures After(hits, n, windowSeconds)[key].deadline.Some?
    ensures After(hits, n, windowSeconds)[key].deadline.value <= hits[n - 1].at + 1000 * windowSeconds
  {
    if key in After(hits, n - 1, windowSeconds) {
      EveryCounterExpires(hits, n - 1, key, windowSeconds);
    }
  }

  /**
   A request on a live counter, admitted or not, never moves its deadline; with a positive limit a rejected
   request always finds its counter live, so rejections do not extend the window.
   */
  lemma LiveDeadlineStays(hits: seq<Hit>, i: nat, limit: int, windowSeconds: int)
    requires InOrder(hits) && i < |hits| && windowSeconds >= 1
    ensures !IsAdmitted(hits, i, limit, windowSeconds) && limit >= 1 ==> !Opens(hits, i, windowSeconds)
    ensures !Opens(hits, i, windowSeconds) ==>
              var key := hits[i].key;
              && key in After(hits, i, windowSeconds) && key in After(hits, i + 1, windowSeconds)
              && After(hits, i + 1, windowSeconds)[key].deadline == After(hits, i, windowSeconds)[key].deadline
  {
    if hits[i].key in After(hits, i, windowSeconds) {
      EveryCounterExpires(hits, i, hits[i].key, windowSeconds);
    }
  }

  function Remaining(hits: seq<Hit>, i: nat, windowSeconds: int): int
    requires i < |hits|
  {
    var c := After(hits, i + 1, windowSeconds)[hits[i].key];
    if c.deadline.Some? then c.deadline.value - hits[i].at else 0
  }

  /** Retry-After is between one second and one window, and it is the remaining time to the nearest second. */
  lemma RetryAfterInRange(hits: seq<Hit>, i: nat, limit: int, windowSeconds: int)
    requires InOrder(hits) && i < |hits| && windowSeconds >= 1
    requires !IsAdmitted(hits, i, limit, windowSeconds)
    ensures var d := Decide(After(hits, i + 1, windowSeconds), hits[i].key, hits[i].at, limit);
            && d.Limited? && 1 <= d.retryAfter <= windowSeconds
            && 0 <= Remaining(hits, i, windowSeconds) <= 1000 * windowSeconds
            && d.retryAfter == Max((Remaining(hits, i, windowSeconds) + 500) / 1000, 1)
  {
    EveryCounterExpires(hits, i + 1, hits[i].key, windowSeconds);
    if hits[i].key in After(hits, i, windowSeconds) {
      EveryCounterExpires(hits, i, hits[i].key, windowSeconds);
    }
  }

  /** From the given time on, that time excluded, the counter is gone. */
  ghost predicate GoneAfter(store: Store, key: Key, waited: Millis) {
    forall t :: waited < t ==> !Live(store, key, t)
  }

  lemma GoneAfterDeadlineIff(store: Store, key: Key, waited: Millis)
    requires key in store && store[key].deadline.Some?
    ensures GoneAfter(store, key, waited) <==> store[key].deadline.value <= waited
  {
    if GoneAfter(store, key, waited) {
      assert waited < store[key].deadline.value ==> Live(store, key, store[key].deadline.value);
    }
  }

  /**
   Waiting longer than Retry-After says outlasts the window that rejected the request exactly when the remaining
   time is at most a second or does not round down. Waiting exactly that long is enough when it rounds up.
   */
  lemma RetryAfterOutlastsWindowIff(hits: seq<Hit>, i: nat, limit: int, windowSeconds: int)
    requires InOrder(hits) && i < |hits| && windowSeconds >= 1
    requires !IsAdmitted(hits, i, limit, windowSeconds)
    ensures var store := After(hits, i + 1, windowSeconds);
            var d := Decide(store, hits[i].key, hits[i].at, limit);
            var left := Remaining(hits, i, windowSeconds);
            && d.Limited?
            && (GoneAfter(store, hits[i].key, hits[i].at + 1000 * d.retryAfter) <==>
                  left <= 1000 || left % 1000 == 0 || left % 1000 >= 500)
            && (!Live(store, hits[i].key, hits[i].at + 1000 * d.retryAfter) <==> left < 1000 || left % 1000 >= 500)
  {
    RetryAfterInRange(hits, i, limit, windowSeconds);
    EveryCounterExpires(hits, i + 1, hits[i].key, windowSeconds);
    var store := After(hits, i + 1, windowSeconds);
    var d := Decide(store, hits[i].key, hits[i].at, limit);
    GoneAfterDeadlineIff(store, hits[i].key, hits[i].at + 1000 * d.retryAfter);
  }

  /** With a limit of one, a second request 600 ms after the first is sent away for 400 ms too short a time. */
  lemma RetryAfterCanFallShort(key: Key, at: Millis, windowSeconds: int)
    requires windowSeconds >= 2
    ensures var hits := [Hit(key, at), Hit(key, at + 600)];
            && InOrder(hits) && Decide(After(hits, 2, windowSeconds), key, at + 600, 1) == Limited(windowSeconds - 1)
            && Live(After(hits, 2, windowSeconds), key, at + 600 + 1000 * (windowSeconds - 1) + 400)
  {
    var hits := [Hit(key, at), Hit(key, at + 600)];
    assert After(hits, 0, windowSeconds) == map[];
    assert After(hits, 1, windowSeconds) == map[key := Counter(1, Some(at + 1000 * windowSeconds))];
    assert After(hits, 2, windowSeconds) == map[key := Counter(2, Some(at + 1000 * windowSeconds))];
  }

  lemma {:induction false} WholeSecondDeadlines(hits: seq<Hit>, n: nat, key: Key, windowSeconds: int)
    requires n <= |hits| && forall i :: 0 <= i < |hits| ==> hits[i].at % 1000 == 0
    requires key in After(hits, n, windowSeconds) && After(hits, n, windowSeconds)[key].deadline.Some?
    ensures After(hits, n, windowSeconds)[key].deadline.value % 1000 == 0
  {
    if key in After(hits, n - 1, windowSeconds) && After(hits, n - 1, windowSeconds)[key].deadline.Some? {
      WholeSecondDeadlines(hits, n - 1, key, windowSeconds);
    }
  }

  /** On a whole-second clock waiting longer than Retry-After always outlasts the window. */
  lemma WholeSecondRetrySuffices(hits: seq<Hit>, i: nat, limit: int, windowSeconds: int)
    requires InOrder(hits) && i < |hits| && windowSeconds >= 1
    requires forall k :: 0 <= k < |hits| ==> hits[k].at % 1000 == 0
    requires !IsAdmitted(hits, i, limit, windowSeconds)
    ensures var store := After(hits, i + 1, windowSeconds);
            var d := Decide(store, hits[i].key, hits[i].at, limit);
            d.Limited? && GoneAfter(store, hits[i].key, hits[i].at + 1000 * d.retryAfter)
  {
    EveryCounterExpires(hits, i + 1, hits[i].key, windowSeconds);
    WholeSecondDeadlines(hits, i + 1, hits[i].key, windowSeconds);
    RetryAfterOutlastsWindowIff(hits, i, limit, windowSeconds);
  }
}
