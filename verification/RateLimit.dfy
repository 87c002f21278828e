/** The per-key request limit: fixed windows that open on the first request after the last one closed. */
module RateLimit {
  import opened Wrappers

  type Key = string

  datatype Bucket = Bucket(windowStart: int, count: nat, max: nat, windowMs: nat)

  type Buckets = map<Key, Bucket>

  datatype Decision = Decision(allowed: bool, remaining: nat, resetAt: int, limit: nat, windowMs: nat)

  /** A request with an API key, under the limit that the key has at that time. */
  datatype Call = Call(key: Key, now: int, windowMs: nat, max: nat)

  /** The bucket that a request is counted in, itself included. */
  function Counted(bs: Buckets, call: Call): Bucket {
    if call.key !in bs || call.now - bs[call.key].windowStart >= call.windowMs
    then Bucket(call.now, 1, call.max, call.windowMs)
    else Bucket(bs[call.key].windowStart, bs[call.key].count + 1, call.max, call.windowMs)
  }

  function Step(bs: Buckets, call: Call): Buckets {
    bs[call.key := Counted(bs, call)]
  }

  predicate Allowed(bs: Buckets, call: Call) {
    Counted(bs, call).count <= call.max
  }

  // ----- Runs -----

  /** The allowed requests of a key with a time in [from, to). */
  function AllowedIn(bs: Buckets, calls: seq<Call>, key: Key, from: int, to: int): nat
    decreases |calls|
  {
    if calls == [] then 0
    else (if calls[0].key == key && from <= calls[0].now < to && Allowed(bs, calls[0]) then 1 else 0)
         + AllowedIn(Step(bs, calls[0]), calls[1..], key, from, to)
  }

  /** The requests of a key counted in the window that opened at `start`: all of them, and those allowed. */
  function InWindow(bs: Buckets, calls: seq<Call>, key: Key, start: int): (n: (nat, nat))
    decreases |calls|
  {
    if calls == [] then (0, 0)
    else
      var rest := InWindow(Step(bs, calls[0]), calls[1..], key, start);
      if calls[0].key == key && Counted(bs, calls[0]).windowStart == start
      then (rest.0 + 1, rest.1 + if Allowed(bs, calls[0]) then 1 else 0)
      else rest
  }

  /** The moments at which windows of a key open. */
  function Openings(bs: Buckets, calls: seq<Call>, key: Key): seq<int>
    decreases |calls|
  {
    if calls == [] then []
    else (if calls[0].key == key && Counted(bs, calls[0]).count == 1 then [calls[0].now] else [])
         + Openings(Step(bs, calls[0]), calls[1..], key)
  }

  /** Requests in the order of a clock that does not run back, the limits of `key` allowing at most `max` in a
      window of at least `windowMs`; limits may change from one request to the next. They are never zero, as
      zero falls back to the default of the key's tier. */
  ghost predicate Bounded(calls: seq<Call>, key: Key, clock: int, windowMs: nat, max: nat)
    decreases |calls|
  {
    calls == [] ||
    (clock <= calls[0].now && (calls[0].key == key ==> calls[0].windowMs >= windowMs && calls[0].max <= max)
     && Bounded(calls[1..], key, calls[0].now, windowMs, max))
  }

  /** The same with one limit for the key throughout. */
  ghost predicate Steady(calls: seq<Call>, key: Key, clock: int, windowMs: nat, max: nat)
    decreases |calls|
  {
    calls == [] ||
    (clock <= calls[0].now && (calls[0].key == key ==> calls[0].windowMs == windowMs && calls[0].max == max)
     && Steady(calls[1..], key, calls[0].now, windowMs, max))
  }

  lemma {:induction false} SteadyIsBounded(calls: seq<Call>, key: Key, clock: int, windowMs: nat, max: nat)
    requires Steady(calls, key, clock, windowMs, max)
    ensures Bounded(calls, key, clock, windowMs, max)
    decreases |calls|
  {
    if calls != [] {
      SteadyIsBounded(calls[1..], key, calls[0].now, windowMs, max);
    }
  }

  ghost predicate Sound(bs: Buckets, key: Key, clock: int) {
    key in bs ==> bs[key].windowStart <= clock && bs[key].count >= 1
  }

  /** What a key can still be allowed in [t, t + windowMs). */
  ghost function Room(bs: Buckets, key: Key, clock: int, windowMs: nat, max: nat, t: int): nat
    requires max > 0
  {
    if key !in bs || (clock < t && bs[key].windowStart < t) then 2 * max - 1
    else
      var left := max - Min(bs[key].count, max);
      if bs[key].windowStart < t then left + max
      else if bs[key].windowStart < t + windowMs then left
      else 0
  }

  lemma {:induction false} RoomBounds(bs: Buckets, calls: seq<Call>, key: Key, clock: int, windowMs: nat, max: nat,
                                      t: int)
    requires windowMs > 0 && max > 0 && Bounded(calls, key, clock, windowMs, max) && Sound(bs, key, clock)
    ensures AllowedIn(bs, calls, key, t, t + windowMs) <= Room(bs, key, clock, windowMs, max, t)
    decreases |calls|
  {
    if calls != [] {
      RoomBounds(Step(bs, calls[0]), calls[1..], key, calls[0].now, windowMs, max, t);
    }
  }

  /** In any interval as long as the shortest window, wherever it starts, a key is allowed fewer than twice its
      largest limit of requests. */
  lemma RateBound(calls: seq<Call>, key: Key, clock: int, windowMs: nat, max: nat, t: int)
    requires windowMs > 0 && max > 0 && Bounded(calls, key, clock, windowMs, max)
    ensures AllowedIn(map[], calls, key, t, t + windowMs) <= 2 * max - 1
  {
    RoomBounds(map[], calls, key, clock, windowMs, max, t);
  }

  /** With a window of one millisecond, what is left at the moment t, or the limit itself before it. */
  lemma {:induction false} OneMillisecond(bs: Buckets, calls: seq<Call>, key: Key, clock: int, max: nat, t: int)
    requires Steady(calls, key, clock, 1, max) && Sound(bs, key, clock)
    ensures AllowedIn(bs, calls, key, t, t + 1)
            <= if clock > t then 0
               else if key in bs && bs[key].windowStart == t then max - Min(bs[key].count, max)
               else max
    decreases |calls|
  {
    if calls != [] {
      OneMillisecond(Step(bs, calls[0]), calls[1..], key, calls[0].now, max, t);
    }
  }

  /** Of the requests counted in one window, exactly the first `max` are allowed. */
  lemma {:induction false} FirstMaxOfWindow(bs: Buckets, calls: seq<Call>, key: Key, clock: int, windowMs: nat,
                                            max: nat, start: int)
    requires windowMs > 0 && Steady(calls, key, clock, windowMs, max) && Sound(bs, key, clock)
    ensures var n := InWindow(bs, calls, key, start);
            var before := if key in bs && bs[key].windowStart == start then bs[key].count else 0;
            && n.1 == Min(before + n.0, max) - Min(before, max)
            && (key in bs && start < bs[key].windowStart ==> n.0 == 0)
    decreases |calls|
  {
    if calls != [] {
      FirstMaxOfWindow(Step(bs, calls[0]), calls[1..], key, calls[0].now, windowMs, max, start);
    }
  }

  ghost predicate Apart(starts: seq<int>, windowMs: nat) {
    forall i :: 0 < i < |starts| ==> starts[i] >= starts[i - 1] + windowMs
  }

  /** Windows open at least the length of the shortest apart. */
  lemma {:induction false} WindowsApart(bs: Buckets, calls: seq<Call>, key: Key, clock: int, windowMs: nat, max: nat)
    requires windowMs > 0 && Bounded(calls, key, clock, windowMs, max) && Sound(bs, key, clock)
    ensures var starts := Openings(bs, calls, key);
            Apart(starts, windowMs) && (key in bs && starts != [] ==> starts[0] >= bs[key].windowStart + windowMs)
    decreases |calls|
  {
    if calls != [] {
      WindowsApart(Step(bs, calls[0]), calls[1..], key, calls[0].now, windowMs, max);
    }
  }

  // ----- The bound is met: the window does not slide -----

  function Burst(key: Key, now: int, windowMs: nat, max: nat, n: nat): seq<Call> {
    if n == 0 then [] else [Call(key, now, windowMs, max)] + Burst(key, now, windowMs, max, n - 1)
  }

  /** One request to open the window, the rest of the allowance just before it closes, a full one just after. */
  function Straddle(key: Key, windowMs: nat, max: nat): seq<Call>
    requires max > 0
  {
    [Call(key, 0, windowMs, max)] + (Burst(key, windowMs - 1, windowMs, max, max - 1)
      + Burst(key, windowMs, windowMs, max, max))
  }

  /** A burst inside a window, or one that opens a window, then more requests. */
  lemma {:induction false} BurstAllowed(bs: Buckets, key: Key, now: int, windowMs: nat, max: nat, n: nat,
                                        more: seq<Call>, from: int, to: int)
    requires key in bs && bs[key].windowStart <= now < bs[key].windowStart + windowMs && bs[key].count + n <= max &&
             from <= now < to
    requires bs[key].max == max && bs[key].windowMs == windowMs
    ensures AllowedIn(bs, Burst(key, now, windowMs, max, n) + more, key, from, to)
            == n + AllowedIn(bs[key := bs[key].(count := bs[key].count + n)], more, key, from, to)
  {
    var all := Burst(key, now, windowMs, max, n) + more;
    if n == 0 {
      assert all == more && bs[key := bs[key].(count := bs[key].count + n)] == bs;
    } else {
      var next := Step(bs, all[0]);
      BurstAllowed(next, key, now, windowMs, max, n - 1, more, from, to);
      assert all[1..] == Burst(key, now, windowMs, max, n - 1) + more;
      assert next[key := next[key].(count := next[key].count + (n - 1))]
             == bs[key := bs[key].(count := bs[key].count + n)];
    }
  }

  lemma {:induction false} BurstIsSteady(key: Key, now: int, windowMs: nat, max: nat, n: nat, more: seq<Call>,
                                         clock: int)
    requires clock <= now && Steady(more, key, now, windowMs, max)
    ensures Steady(Burst(key, now, windowMs, max, n) + more, key, clock, windowMs, max)
  {
    var all := Burst(key, now, windowMs, max, n) + more;
    if n == 0 {
      assert all == more;
    } else {
      BurstIsSteady(key, now, windowMs, max, n - 1, more, now);
      assert all[1..] == Burst(key, now, windowMs, max, n - 1) + more;
    }
  }

  /** A burst at a time at which a new window opens. */
  lemma FullBurstAllowed(bs: Buckets, key: Key, now: int, windowMs: nat, max: nat, from: int, to: int)
    requires windowMs > 0 && max > 0 && from <= now < to
    requires key in bs ==> now - bs[key].windowStart >= windowMs
    ensures AllowedIn(bs, Burst(key, now, windowMs, max, max), key, from, to) == max
  {
    var all := Burst(key, now, windowMs, max, max);
    var rest := Burst(key, now, windowMs, max, max - 1);
    assert all[1..] == rest == rest + [];
    BurstAllowed(Step(bs, all[0]), key, now, windowMs, max, max - 1, [], from, to);
  }

  /** The bound is reached for every limit, so a window of this length that slid would be overrun whenever `max`
      is more than one. */
  lemma BoundIsReached(key: Key, windowMs: nat, max: nat)
    requires windowMs > 1 && max > 0
    ensures Steady(Straddle(key, windowMs, max), key, 0, windowMs, max)
    ensures AllowedIn(map[], Straddle(key, windowMs, max), key, windowMs - 1, windowMs - 1 + windowMs) == 2 * max - 1
  {
    var late, full := Burst(key, windowMs - 1, windowMs, max, max - 1), Burst(key, windowMs, windowMs, max, max);
    var all := Straddle(key, windowMs, max);
    assert full + [] == full;
    BurstIsSteady(key, windowMs, windowMs, max, max, [], windowMs - 1);
    BurstIsSteady(key, windowMs - 1, windowMs, max, max - 1, full, 0);
    assert all[1..] == late + full;
    hide Burst;
    var bs: Buckets := map[key := Bucket(0, 1, max, windowMs)];
    assert Step(map[], all[0]) == bs;
    hide Steady;
    BurstAllowed(bs, key, windowMs - 1, windowMs, max, max - 1, full, windowMs - 1, windowMs - 1 + windowMs);
    FullBurstAllowed(bs[key := bs[key].(count := max)], key, windowMs, windowMs, max, windowMs - 1,
      windowMs - 1 + windowMs);
  }

  /** The run is allowed no more than `max` requests in this interval of the window's length. */
  ghost predicate WithinLimit(calls: seq<Call>, key: Key, clock: int, windowMs: nat, max: nat, t: int) {
    Steady(calls, key, clock, windowMs, max) ==> AllowedIn(map[], calls, key, t, t + windowMs) <= max
  }

  /** The limit is a sliding one, in every run and every interval, exactly if the window is a millisecond or
      a single request is allowed in it. */
  lemma SlidesExactly(key: Key, windowMs: nat, max: nat)
    requires windowMs > 0 && max > 0
    ensures (forall calls, clock, t :: WithinLimit(calls, key, clock, windowMs, max, t)) <==> windowMs == 1 || max == 1
  {
    if windowMs == 1 || max == 1 {
      forall calls, clock, t ensures WithinLimit(calls, key, clock, windowMs, max, t) {
        if Steady(calls, key, clock, windowMs, max) {
          SteadyIsBounded(calls, key, clock, windowMs, max);
          RateBound(calls, key, clock, windowMs, max, t);
          if windowMs == 1 {
            OneMillisecond(map[], calls, key, clock, max, t);
          }
        }
      }
    } else {
      BoundIsReached(key, windowMs, max);
      assert !WithinLimit(Straddle(key, windowMs, max), key, 0, windowMs, max, windowMs - 1);
    }
  }

  // ----- The middleware's counters -----

  class RateLimiter {
    var rateLimitBuckets: Buckets

    constructor ()
      ensures rateLimitBuckets == map[]
    {
      rateLimitBuckets := map[];
    }

    method ConsumeRateLimit(call: Call) returns (d: Decision)
      modifies this
      ensures rateLimitBuckets == Step(old(rateLimitBuckets), call)
      ensures forall k :: k != call.key ==>
                (k in rateLimitBuckets <==> k in old(rateLimitBuckets))
                && (k in rateLimitBuckets ==> rateLimitBuckets[k] == old(rateLimitBuckets)[k])
      ensures var b := rateLimitBuckets[call.key];
              d.allowed == Allowed(old(rateLimitBuckets), call) && d.remaining == call.max - Min(b.count, call.max)
              && d.resetAt == b.windowStart + call.windowMs && d.limit == call.max && d.windowMs == call.windowMs
    {
      var bucket: Bucket;
      if call.key !in rateLimitBuckets || call.now - rateLimitBuckets[call.key].windowStart >= call.windowMs {
        bucket := Bucket(call.now, 0, call.max, call.windowMs);
      } else {
        bucket := rateLimitBuckets[call.key].(max := call.max, windowMs := call.windowMs);
      }
      bucket := bucket.(count := bucket.count + 1);
      rateLimitBuckets := rateLimitBuckets[call.key := bucket];
      var remaining := if bucket.max > bucket.count then bucket.max - bucket.count else 0;
      return Decision(bucket.count <= bucket.max, remaining, bucket.windowStart + bucket.windowMs,
        bucket.max, call.windowMs);
    }
  }
}
