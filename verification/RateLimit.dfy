/** The sliding-window rate limiter (security.py), against a plain log of everything it ever accepted. */
module RateLimit {
  import opened Ordering

  /** Accepted instants per key, oldest first: what an unbounded limiter would remember. */
  type Log = map<string, seq<real>>

  function Times(log: Log, key: string): seq<real> {
    if key in log then log[key] else []
  }

  ghost predicate Sorted(q: seq<real>) {
    forall i, j | 0 <= i < j < |q| :: q[i] <= q[j]
  }

  /** How many instants lie after the cutoff. */
  ghost function CountAfter(q: seq<real>, cutoff: real): nat {
    if q == [] then 0 else CountAfter(q[..|q| - 1], cutoff) + if q[|q| - 1] > cutoff then 1 else 0
  }

  ghost function LiveKeys(log: Log, cutoff: real): set<string> {
    set k | k in log && CountAfter(log[k], cutoff) > 0
  }

  function AtLeastOne(n: int): (r: int)
    ensures r >= 1 && (n >= 1 ==> r == n)
    ensures n < 1 ==> r == 1
  {
    if n < 1 then 1 else n
  }

  /** The plain decision: room in the window, and a live key or room in the table. */
  ghost predicate Admits(log: Log, maxKeys: nat, key: string, limit: int, cutoff: real) {
    && CountAfter(Times(log, key), cutoff) < AtLeastOne(limit)
    && (key in LiveKeys(log, cutoff) || |LiveKeys(log, cutoff)| < maxKeys)
  }

  /** The positions of the instants after the cutoff. */
  ghost function After(q: seq<real>, cutoff: real): set<int> {
    set i | 0 <= i < |q| && cutoff < q[i]
  }

  lemma {:induction false} CountsAfter(q: seq<real>, cutoff: real)
    ensures CountAfter(q, cutoff) == |After(q, cutoff)|
  {
    if q == [] {
      assert After(q, cutoff) == {};
    } else {
      var n := |q| - 1;
      CountsAfter(q[..n], cutoff);
      assert After(q, cutoff) == After(q[..n], cutoff) + if cutoff < q[n] then {n} else {};
    }
  }

  /**
   * The decision, counted: fewer accepts than the limit after the cutoff, and either one of them or fewer than
   * maxKeys keys that have one.
   */
  lemma AdmitsExactly(log: Log, maxKeys: nat, key: string, limit: int, cutoff: real)
    requires 1 <= limit
    ensures var mine := if key in log then After(log[key], cutoff) else {};
            Admits(log, maxKeys, key, limit, cutoff)
            <==> |mine| < limit && (mine != {} || |set k | k in log && After(log[k], cutoff) != {}| < maxKeys)
  {
    hide After, CountAfter;
    forall k | k in log ensures CountAfter(log[k], cutoff) == |After(log[k], cutoff)| {
      CountsAfter(log[k], cutoff);
    }
    CountsAfter([], cutoff);
    NoneAfterNothing(cutoff);
    assert LiveKeys(log, cutoff) == set k | k in log && After(log[k], cutoff) != {};
  }

  lemma NoneAfterNothing(cutoff: real)
    ensures After([], cutoff) == {}
  {
  }

  // ----- buckets

  /** _prune_bucket: instants up to the cutoff leave on the left. */
  function Pruned(bucket: seq<real>, cutoff: real): seq<real> {
    if bucket != [] && bucket[0] <= cutoff then Pruned(bucket[1..], cutoff) else bucket
  }

  method PruneBucket(bucket: seq<real>, cutoff: real) returns (left: seq<real>)
    ensures left == Pruned(bucket, cutoff)
  {
    left := bucket;
    while left != [] && left[0] <= cutoff
      invariant Pruned(left, cutoff) == Pruned(bucket, cutoff)
    {
      left := left[1..];
    }
  }

  /** The bucket is the end of the log, and everything missing from it is past the cutoff. */
  ghost predicate Tracks(bucket: seq<real>, times: seq<real>, cutoff: real) {
    && Sorted(times)
    && |bucket| <= |times| && bucket == times[|times| - |bucket|..]
    && forall i | 0 <= i < |times| - |bucket| :: times[i] <= cutoff
  }

  lemma {:induction false} PruningTracks(bucket: seq<real>, times: seq<real>, older: real, cutoff: real)
    requires Tracks(bucket, times, older) && older <= cutoff
    ensures Tracks(Pruned(bucket, cutoff), times, cutoff)
    ensures forall i | 0 <= i < |Pruned(bucket, cutoff)| :: Pruned(bucket, cutoff)[i] > cutoff
    decreases |bucket|
  {
    if bucket != [] && bucket[0] <= cutoff {
      var first := |times| - |bucket|;
      assert bucket[0] == times[first];
      assert bucket[1..] == times[first + 1..];
      PruningTracks(bucket[1..], times, cutoff, cutoff);
    } else if bucket != [] {
      forall i | 0 <= i < |bucket| ensures bucket[i] > cutoff {
        assert bucket[i] == times[|times| - |bucket| + i] && bucket[0] == times[|times| - |bucket|];
      }
    }
  }

  lemma {:induction false} CountSplit(q: seq<real>, n: nat, cutoff: real)
    requires n <= |q|
    requires forall i | 0 <= i < n :: q[i] <= cutoff
    requires forall i | n <= i < |q| :: q[i] > cutoff
    ensures CountAfter(q, cutoff) == |q| - n
  {
    if |q| > 0 {
      var front := q[..|q| - 1];
      CountSplit(front, if n < |q| then n else n - 1, cutoff);
    }
  }

  /** A pruned bucket counts the window. */
  lemma PrunedCounts(bucket: seq<real>, times: seq<real>, cutoff: real)
    requires Tracks(bucket, times, cutoff) && forall i | 0 <= i < |bucket| :: bucket[i] > cutoff
    ensures CountAfter(times, cutoff) == |bucket|
  {
    var n := |times| - |bucket|;
    forall i | n <= i < |times| ensures times[i] > cutoff {
      assert times[i] == bucket[i - n];
    }
    CountSplit(times, n, cutoff);
  }

  // ----- the limiter

  type Buckets = map<string, seq<real>>

  function BucketOf(buckets: Buckets, key: string): seq<real> {
    if key in buckets then buckets[key] else []
  }

  ghost predicate Mirrors(buckets: Buckets, log: Log, cutoff: real) {
    && buckets.Keys <= log.Keys
    && (forall k | k in buckets :: buckets[k] != [])
    && (forall k | k in log :: Tracks(BucketOf(buckets, k), log[k], cutoff))
  }

  /** The table after the sweep that spares the caller's bucket. */
  function Swept(buckets: Buckets, key: string, cutoff: real): Buckets {
    map k | k in buckets && (k == key || Pruned(buckets[k], cutoff) != []) ::
      if k == key then buckets[k] else Pruned(buckets[k], cutoff)
  }

  /** Every remaining bucket holds live instants only. */
  ghost predicate AllLive(buckets: Buckets, cutoff: real) {
    forall k, i | k in buckets && 0 <= i < |buckets[k]| :: buckets[k][i] > cutoff
  }

  /** Once swept, the table holds exactly the live keys. */
  lemma SweptKeys(buckets: Buckets, log: Log, cutoff: real)
    requires Mirrors(buckets, log, cutoff) && AllLive(buckets, cutoff)
    ensures buckets.Keys == LiveKeys(log, cutoff)
  {
    forall k | k in log ensures k in buckets <==> CountAfter(log[k], cutoff) > 0 {
      PrunedCounts(BucketOf(buckets, k), log[k], cutoff);
    }
  }

  lemma LiveKeysStored(buckets: Buckets, log: Log, cutoff: real, later: real)
    requires Mirrors(buckets, log, cutoff) && cutoff <= later
    ensures LiveKeys(log, later) <= buckets.Keys
  {
    forall k | k in log && k !in buckets ensures CountAfter(log[k], later) == 0 {
      CountSplit(log[k], |log[k]|, later);
    }
  }

  /** The table agrees with the log after the cutoff, and the caller's bucket is exactly its window. */
  ghost predicate OwnReady(buckets: Buckets, log: Log, key: string, own: seq<real>, cutoff: real) {
    && Mirrors(buckets, log, cutoff)
    && own == BucketOf(buckets, key)
    && (forall i | 0 <= i < |own| :: own[i] > cutoff)
    && CountAfter(Times(log, key), cutoff) == |own|
  }

  lemma OwnPruned(buckets: Buckets, log: Log, key: string, older: real, cutoff: real)
    requires Mirrors(buckets, log, older) && older <= cutoff
    ensures var own := Pruned(BucketOf(buckets, key), cutoff);
            && (key !in buckets ==> own == [] && OwnReady(buckets, log, key, [], cutoff))
            && (key in buckets ==>
                  OwnReady(if own == [] then buckets - {key} else buckets[key := own], log, key, own, cutoff))
  {
    hide Tracks, CountAfter, Pruned;
    forall k | k in log ensures Tracks(BucketOf(buckets, k), log[k], cutoff) {
      TracksLater(BucketOf(buckets, k), log[k], older, cutoff);
    }
    NothingLogged(cutoff);
    if key in log {
      PruningTracks(BucketOf(buckets, key), log[key], older, cutoff);
      PrunedCounts(Pruned(BucketOf(buckets, key), cutoff), log[key], cutoff);
    }
  }

  lemma NothingLogged(cutoff: real)
    ensures CountAfter([], cutoff) == 0 && Pruned([], cutoff) == []
  {
  }

  lemma TracksLater(bucket: seq<real>, times: seq<real>, older: real, cutoff: real)
    requires Tracks(bucket, times, older) && older <= cutoff
    ensures Tracks(bucket, times, cutoff)
  {
  }

  lemma TracksAppended(bucket: seq<real>, times: seq<real>, cutoff: real, now: real)
    requires Tracks(bucket, times, cutoff) && forall i | 0 <= i < |times| :: times[i] <= now
    ensures Tracks(bucket + [now], times + [now], cutoff)
  {
  }

  lemma SweepKeepsReady(buckets: Buckets, log: Log, key: string, own: seq<real>, cutoff: real)
    requires OwnReady(buckets, log, key, own, cutoff)
    ensures OwnReady(Swept(buckets, key, cutoff), log, key, own, cutoff)
    ensures Swept(buckets, key, cutoff).Keys == LiveKeys(log, cutoff) && |Swept(buckets, key, cutoff)| <= |buckets|
  {
    hide Tracks, CountAfter;
    var swept := Swept(buckets, key, cutoff);
    forall k | k in log
      ensures Tracks(BucketOf(swept, k), log[k], cutoff)
      ensures k in swept ==> forall i | 0 <= i < |swept[k]| :: swept[k][i] > cutoff
    {
      PruningTracks(BucketOf(buckets, k), log[k], cutoff, cutoff);
    }
    SweptKeys(swept, log, cutoff);
    SubsetSize(swept.Keys, buckets.Keys);
  }

  /** The tests on the table decide as the log does, provided a full table was swept first. */
  lemma TableDecides(buckets: Buckets, log: Log, key: string, own: seq<real>, limit: int, maxKeys: nat, cutoff: real)
    requires OwnReady(buckets, log, key, own, cutoff)
    requires own == [] && |buckets| >= maxKeys ==> buckets.Keys == LiveKeys(log, cutoff)
    ensures Admits(log, maxKeys, key, limit, cutoff)
            <==> !(own == [] && |buckets| >= maxKeys) && |own| < AtLeastOne(limit)
  {
    LiveKeysStored(buckets, log, cutoff, cutoff);
    SubsetSize(LiveKeys(log, cutoff), buckets.Keys);
    assert key in LiveKeys(log, cutoff) <==> own != [];
  }

  ghost predicate NoneAfter(log: Log, clock: real) {
    forall k, i | k in log && 0 <= i < |log[k]| :: log[k][i] <= clock
  }

  lemma AcceptKeepsReady(buckets: Buckets, log: Log, key: string, own: seq<real>, cutoff: real, now: real)
    requires OwnReady(buckets, log, key, own, cutoff)
    requires forall i | 0 <= i < |Times(log, key)| :: Times(log, key)[i] <= now
    ensures Mirrors(buckets[key := own + [now]], log[key := Times(log, key) + [now]], cutoff)
  {
    hide Tracks, CountAfter;
    TracksAppended(own, Times(log, key), cutoff, now);
  }

  lemma AcceptIsLast(log: Log, key: string, now: real)
    requires NoneAfter(log, now)
    ensures NoneAfter(log[key := Times(log, key) + [now]], now)
  {
  }

  lemma ReadyParts(buckets: Buckets, log: Log, key: string, own: seq<real>, clock: real, cutoff: real, now: real)
    requires OwnReady(buckets, log, key, own, cutoff) && NoneAfter(log, clock) && clock <= now
    ensures Mirrors(buckets, log, cutoff) && NoneAfter(log, now)
    ensures forall i | 0 <= i < |Times(log, key)| :: Times(log, key)[i] <= now
    ensures own != [] <==> key in buckets
  {
  }

  class SlidingWindowLimiter {
    const maxKeys: nat
    const cleanupInterval: real
    const windowSeconds: int
    var buckets: Buckets
    var lastCleanup: real
    ghost var log: Log
    ghost var clock: real

    constructor (maxKeys: nat, cleanupInterval: real, windowSeconds: int)
      ensures Valid() && log == map[] && clock == 0.0 && 128 <= this.maxKeys
      ensures this.windowSeconds == (if windowSeconds < 1 then 1 else windowSeconds)
      ensures this.maxKeys == if maxKeys < 128 then 128 else maxKeys
    {
      this.maxKeys := if maxKeys < 128 then 128 else maxKeys;
      this.cleanupInterval :=
        if cleanupInterval < 1.0 then 1.0 else if cleanupInterval > 60.0 then 60.0 else cleanupInterval;
      this.windowSeconds := AtLeastOne(windowSeconds);
      buckets, lastCleanup, log, clock := map[], 0.0, map[], 0.0;
    }

    ghost predicate Valid()
      reads this
    {
      && 1 <= windowSeconds && 128 <= maxKeys
      && Mirrors(buckets, log, clock - windowSeconds as real)
      && NoneAfter(log, clock)
      && |buckets| <= maxKeys
    }

    /** Decides as the plain log would, whatever has or has not been swept. */
    method Allow(key: string, limit: int, now: real) returns (allowed: bool)
      requires Valid() && clock <= now
      modifies this
      ensures Valid() && clock == now
      ensures allowed <==> Admits(old(log), maxKeys, key, limit, now - windowSeconds as real)
      ensures log == if allowed then old(log)[key := Times(old(log), key) + [now]] else old(log)
    {
      hide Mirrors, OwnReady, NoneAfter, Admits, Swept, LiveKeys, Pruned, Tracks, CountAfter, BucketOf;
      var cutoff := now - windowSeconds as real;
      var own := OwnBucket(key, cutoff);
      var cleanupDue := now - lastCleanup >= cleanupInterval;
      var capacityPressure := own == [] && |buckets| >= maxKeys;
      if cleanupDue || capacityPressure {
        SweepKeepsReady(buckets, log, key, own, cutoff);
        Sweep(key, cutoff);
        lastCleanup := now;
      }
      TableDecides(buckets, log, key, own, limit, maxKeys, cutoff);
      ReadyParts(buckets, log, key, own, clock, cutoff, now);
      clock := now;
      if own == [] && |buckets| >= maxKeys {
        return false;
      }
      if |own| >= AtLeastOne(limit) {
        return false;
      }
      AcceptKeepsReady(buckets, log, key, own, cutoff, now);
      AcceptIsLast(log, key, now);
      buckets := buckets[key := own + [now]];
      log := log[key := Times(log, key) + [now]];
      return true;
    }

    /** The caller's bucket without its expired instants; an emptied bucket leaves the table. */
    method OwnBucket(key: string, cutoff: real) returns (own: seq<real>)
      requires Valid() && clock - windowSeconds as real <= cutoff
      modifies `buckets
      ensures OwnReady(buckets, log, key, own, cutoff) && |buckets| <= |old(buckets)|
    {
      hide Mirrors, OwnReady, NoneAfter, Pruned, Tracks, CountAfter;
      OwnPruned(buckets, log, key, clock - windowSeconds as real, cutoff);
      own := [];
      if key in buckets {
        own := PruneBucket(buckets[key], cutoff);
        buckets := if own == [] then buckets - {key} else buckets[key := own];
      }
    }

    /** Prunes every other bucket, then drops the ones left empty. */
    method Sweep(key: string, cutoff: real)
      modifies `buckets
      ensures buckets == Swept(old(buckets), key, cutoff)
    {
      var pending := buckets.Keys - {key};
      var stale: set<string> := {};
      while pending != {}
        invariant pending <= buckets.Keys - {key} && buckets.Keys == old(buckets.Keys)
        invariant forall k | k in buckets ::
                    buckets[k] == if k == key || k in pending then old(buckets)[k] else Pruned(old(buckets)[k], cutoff)
        invariant forall k :: k in stale <==> k in buckets && k != key && k !in pending && buckets[k] == []
        decreases pending
      {
        var existing :| existing in pending;
        var left := PruneBucket(buckets[existing], cutoff);
        buckets := buckets[existing := left];
        if left == [] {
          stale := stale + {existing};
        }
        pending := pending - {existing};
      }
      buckets := buckets - stale;
    }
  }

  // ----- what the decisions guarantee over a whole run

  datatype Call = Call(key: string, limit: int, now: real)

  /** Everything accepted by a run of calls. */
  ghost function Accepted(maxKeys: nat, window: real, calls: seq<Call>): Log {
    if calls == [] then
      map[]
    else
      var log, c := Accepted(maxKeys, window, calls[..|calls| - 1]), calls[|calls| - 1];
      if Admits(log, maxKeys, c.key, c.limit, c.now - window) then log[c.key := Times(log, c.key) + [c.now]] else log
  }

  /** How many instants lie in (after, upTo]. */
  ghost function CountIn(q: seq<real>, after: real, upTo: real): nat {
    if q == [] then 0 else CountIn(q[..|q| - 1], after, upTo) + if after < q[|q| - 1] <= upTo then 1 else 0
  }

  ghost function InWindow(q: seq<real>, window: real, end: real): nat {
    CountIn(q, end - window, end)
  }

  lemma {:induction false} CountInBelow(q: seq<real>, after: real, earlier: real, upTo: real)
    requires earlier <= after
    ensures CountIn(q, after, upTo) <= CountAfter(q, after) <= CountAfter(q, earlier)
  {
    if q != [] {
      CountInBelow(q[..|q| - 1], after, earlier, upTo);
    }
  }

  /** No window of the given length holds more than limit instants, wherever it ends. */
  ghost predicate WindowBounded(q: seq<real>, window: real, limit: int) {
    forall end :: InWindow(q, window, end) <= limit
  }

  lemma AcceptKeepsBound(q: seq<real>, window: real, limit: int, now: real)
    requires 0.0 < window && WindowBounded(q, window, limit) && CountAfter(q, now - window) < limit
    ensures WindowBounded(q + [now], window, limit)
  {
    var more := q + [now];
    assert more[..|q|] == q;
    forall end ensures InWindow(more, window, end) <= limit {
      assert InWindow(q, window, end) <= limit;
      if now <= end {
        CountInBelow(more, end - window, now - window, end);
      }
    }
  }

  /** Over every run with one limit per key, no window ever holds more accepts of a key than its limit. */
  lemma {:induction false} NoWindowOverLimit(maxKeys: nat, window: real, calls: seq<Call>, key: string, limit: int)
    requires 0.0 < window
    requires forall i | 0 <= i < |calls| && calls[i].key == key :: calls[i].limit == limit
    ensures WindowBounded(Times(Accepted(maxKeys, window, calls), key), window, AtLeastOne(limit))
  {
    if calls != [] {
      var front, c := calls[..|calls| - 1], calls[|calls| - 1];
      NoWindowOverLimit(maxKeys, window, front, key, limit);
      var log := Accepted(maxKeys, window, front);
      if c.key == key && Admits(log, maxKeys, key, c.limit, c.now - window) {
        AcceptKeepsBound(Times(log, key), window, AtLeastOne(limit), c.now);
      }
    }
  }
}
