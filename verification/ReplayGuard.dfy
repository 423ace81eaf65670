/** Freshness and replay protection of signed requests (security.py, store.py). */
module ReplayGuard {
  import opened Ordering
  import opened Wrappers

  function Clamp(value: int, low: int, high: int): int {
    var v := if value < high then value else high;
    if v > low then v else low
  }

  /** Both the skew and the reservation window are held between one second and one hour. */
  function Window(seconds: int): (w: int)
    ensures 1 <= w <= 3600 && (1 <= seconds <= 3600 ==> w == seconds)
    ensures seconds < 1 ==> w == 1
    ensures seconds > 3600 ==> w == 3600
  {
    Clamp(seconds, 1, 3600)
  }

  function Capacity(perSensor: int): (c: int)
    ensures 1 <= c <= 100_000 && (1 <= perSensor <= 100_000 ==> c == perSensor)
    ensures perSensor < 1 ==> c == 1
    ensures perSensor > 100_000 ==> c == 100_000
  {
    Clamp(perSensor, 1, 100_000)
  }

  /** The parts of verify_signed_payload that do not depend on the clock: key, digits, nonce form and HMAC. */
  datatype Request = Request(
    sensorId: string,
    nonce: string,
    timestamp: Option<int>,
    wellFormed: bool,
    signatureMatches: bool)

  predicate VerifySignedPayload(now: int, r: Request, maxSkewSeconds: int) {
    && r.wellFormed
    && r.timestamp.Some?
    && -Window(maxSkewSeconds) <= now - r.timestamp.value <= Window(maxSkewSeconds)
    && r.signatureMatches
  }

  /** Accepted are the well-formed requests with a matching signature, dated within the skew on either side of now. */
  lemma VerifiedExactly(now: int, r: Request, maxSkewSeconds: int)
    requires 1 <= maxSkewSeconds <= 3600
    ensures VerifySignedPayload(now, r, maxSkewSeconds)
            <==> && r.wellFormed && r.signatureMatches && r.timestamp.Some?
                 && r.timestamp.value <= now + maxSkewSeconds && now <= r.timestamp.value + maxSkewSeconds
    ensures r.timestamp.Some? && (r.timestamp.value > now + 3600 || r.timestamp.value < now - 3600) ==>
              forall skew :: !VerifySignedPayload(now, r, skew)
  {
  }

  datatype NonceKey = NonceKey(sensorId: string, nonce: string)

  /** sensor_replay_nonces: the expiry of every reserved nonce. */
  type Nonces = map<NonceKey, int>

  function Live(t: Nonces, now: int): Nonces {
    map k | k in t && t[k] > now :: t[k]
  }

  function OfSensor(t: Nonces, sensorId: string): set<NonceKey> {
    set k | k in t && k.sensorId == sensorId
  }

  datatype Call = Call(now: int, key: NonceKey, window: int, capacity: int)

  ghost predicate Reserves(t: Nonces, c: Call) {
    c.key !in Live(t, c.now) && |OfSensor(Live(t, c.now), c.key.sensorId)| < Capacity(c.capacity)
  }

  /** A nonce is reserved when its own reservation, if any, is over, and the sensor has not used up its capacity. */
  lemma ReservesExactly(t: Nonces, c: Call)
    requires 1 <= c.capacity <= 100_000
    ensures Reserves(t, c)
            <==> && (c.key in t ==> t[c.key] <= c.now)
                 && |set k | k in t && k.sensorId == c.key.sensorId && c.now < t[k]| < c.capacity
  {
    assert OfSensor(Live(t, c.now), c.key.sensorId)
        == set k | k in t && k.sensorId == c.key.sensorId && c.now < t[k];
  }

  /** The table after one call. */
  ghost function After(t: Nonces, c: Call): Nonces {
    if Reserves(t, c) then Live(t, c.now)[c.key := c.now + Window(c.window)] else Live(t, c.now)
  }

  class NonceStore {
    var nonces: Nonces

    constructor ()
      ensures nonces == map[]
    {
      nonces := map[];
    }

    /** One BEGIN IMMEDIATE transaction; refusing for lack of room still commits the expiry sweep. */
    method ReserveSensorNonce(now: int, sensorId: string, nonce: string, windowSeconds: int, maxNoncesPerSensor: int)
      returns (reserved: bool)
      modifies this
      ensures var call := Call(now, NonceKey(sensorId, nonce), windowSeconds, maxNoncesPerSensor);
              (reserved <==> Reserves(old(nonces), call)) && nonces == After(old(nonces), call)
    {
      var expiresAt := now + Window(windowSeconds);
      var capacity := Capacity(maxNoncesPerSensor);
      nonces := Live(nonces, now);
      var count := |OfSensor(nonces, sensorId)|;
      if count >= capacity {
        return false;
      }
      if NonceKey(sensorId, nonce) in nonces {
        return false;
      }
      nonces := nonces[NonceKey(sensorId, nonce) := expiresAt];
      return true;
    }
  }

  // ----- whole histories of reservations

  ghost function Table(calls: seq<Call>): Nonces {
    if calls == [] then map[] else After(Table(calls[..|calls| - 1]), calls[|calls| - 1])
  }

  ghost predicate Reserved(calls: seq<Call>, i: nat)
    requires i < |calls|
  {
    Reserves(Table(calls[..i]), calls[i])
  }

  ghost predicate ClockForward(calls: seq<Call>) {
    forall i, j | 0 <= i < j < |calls| :: calls[i].now <= calls[j].now
  }

  /** A reservation stays in the table until its window has passed. */
  lemma {:induction false} ReservationHeld(calls: seq<Call>, i: nat)
    requires ClockForward(calls) && i < |calls| && Reserved(calls, i)
    requires calls[|calls| - 1].now < calls[i].now + Window(calls[i].window)
    ensures calls[i].key in Table(calls) && Table(calls)[calls[i].key] == calls[i].now + Window(calls[i].window)
    decreases |calls|
  {
    var front, last := calls[..|calls| - 1], calls[|calls| - 1];
    if i < |front| {
      assert front[..i] == calls[..i] && front[i] == calls[i];
      assert front[|front| - 1].now <= last.now;
      ReservationHeld(front, i);
    }
  }

  /** Under a forward clock nothing reserved is reserved again before its window has passed. */
  lemma NoEarlyReuse(calls: seq<Call>, i: nat, j: nat)
    requires ClockForward(calls) && i < j < |calls|
    requires Reserved(calls, i) && Reserved(calls, j) && calls[i].key == calls[j].key
    ensures calls[j].now >= calls[i].now + Window(calls[i].window)
  {
    if calls[j].now < calls[i].now + Window(calls[i].window) {
      var front := calls[..j];
      assert front[..i] == calls[..i] && front[i] == calls[i];
      assert front[|front| - 1].now <= calls[j].now;
      ReservationHeld(front, i);
    }
  }

  /** With one capacity in force no sensor ever holds more nonces than that. */
  lemma {:induction false} CapacityKept(calls: seq<Call>, sensorId: string, capacity: int)
    requires forall i | 0 <= i < |calls| :: calls[i].capacity == capacity
    ensures |OfSensor(Table(calls), sensorId)| <= Capacity(capacity)
  {
    if calls == [] {
      assert OfSensor(map[], sensorId) == {};
    } else {
      var front, c := calls[..|calls| - 1], calls[|calls| - 1];
      CapacityKept(front, sensorId, capacity);
      var before, live := OfSensor(Table(front), sensorId), OfSensor(Live(Table(front), c.now), sensorId);
      assert live <= before;
      SubsetSize(live, before);
      if Reserves(Table(front), c) && c.key.sensorId == sensorId {
        assert OfSensor(Table(calls), sensorId) == live + {c.key};
      } else {
        assert OfSensor(Table(calls), sensorId) == live;
      }
    }
  }

  ghost predicate OneWindow(calls: seq<Call>, window: int) {
    forall i | 0 <= i < |calls| :: calls[i].window == window
  }

  function KeyOf(r: Request): NonceKey {
    NonceKey(r.sensorId, r.nonce)
  }

  /**
   * A signed request is accepted at most once when it is dated before the second of its acceptance, by more than
   * the time a later attempt spends between the check and the reservation.
   */
  lemma AcceptedAtMostOnce(calls: seq<Call>, i: nat, j: nat, r: Request, skew: int, checkedAt: int)
    requires ClockForward(calls) && OneWindow(calls, skew) && i < j < |calls|
    requires calls[i].key == calls[j].key == KeyOf(r)
    requires checkedAt <= calls[j].now && VerifySignedPayload(checkedAt, r, skew)
    requires r.timestamp.value + (calls[j].now - checkedAt) < calls[i].now
    ensures !(Reserved(calls, i) && Reserved(calls, j))
  {
    if Reserved(calls, i) && Reserved(calls, j) {
      NoEarlyReuse(calls, i, j);
    }
  }

  lemma {:induction false} ExpiresWithinWindow(calls: seq<Call>, window: int, k: NonceKey)
    requires ClockForward(calls) && OneWindow(calls, window) && k in Table(calls)
    ensures calls != [] && Table(calls)[k] <= calls[|calls| - 1].now + Window(window)
  {
    if calls != [] {
      var front, c := calls[..|calls| - 1], calls[|calls| - 1];
      if !(Reserves(Table(front), c) && k == c.key) {
        ExpiresWithinWindow(front, window, k);
        assert front[|front| - 1].now <= c.now;
      }
    }
  }

  /** A second attempt at the request, checked at one instant and reserved at most delay later, is let through. */
  ghost predicate AcceptedAgain(calls: seq<Call>, r: Request, skew: int, capacity: int, delay: nat, checkedAt: int,
                                again: int)
  {
    && again - delay <= checkedAt <= again && |calls| > 0 && calls[|calls| - 1].now <= again
    && VerifySignedPayload(checkedAt, r, skew)
    && Reserved(calls + [Call(again, KeyOf(r), skew, capacity)], |calls|)
  }

  /**
   * An accepted request can be accepted again, by an attempt that takes at most delay seconds from check to
   * reservation, exactly when its timestamp plus that delay is not before the second of its reservation.
   */
  lemma ReplayableExactly(calls: seq<Call>, r: Request, skew: int, capacity: int, firstChecked: int, delay: nat)
    requires calls != [] && ClockForward(calls) && OneWindow(calls, skew)
    requires calls[|calls| - 1].key == KeyOf(r) && Reserved(calls, |calls| - 1)
    requires firstChecked <= calls[|calls| - 1].now && VerifySignedPayload(firstChecked, r, skew)
    ensures (exists checkedAt, again :: AcceptedAgain(calls, r, skew, capacity, delay, checkedAt, again))
            <==> r.timestamp.value + delay >= calls[|calls| - 1].now
  {
    hide Reserves;
    var accepted := calls[|calls| - 1].now;
    forall checkedAt, again | AcceptedAgain(calls, r, skew, capacity, delay, checkedAt, again)
      ensures r.timestamp.value + delay >= accepted
    {
      ReservedLater(calls, Call(again, KeyOf(r), skew, capacity));
    }
    if r.timestamp.value + delay >= accepted {
      var again := accepted + Window(skew);
      var latest := r.timestamp.value + Window(skew);
      var checkedAt := if latest < again then latest else again;
      ReservableAtTheEnd(calls, KeyOf(r), skew, capacity);
      assert AcceptedAgain(calls, r, skew, capacity, delay, checkedAt, again);
    }
  }

  lemma ReservedLater(calls: seq<Call>, next: Call)
    requires calls != [] && ClockForward(calls) && Reserved(calls, |calls| - 1)
    requires next.key == calls[|calls| - 1].key && next.now >= calls[|calls| - 1].now
    requires Reserved(calls + [next], |calls|)
    ensures next.now >= calls[|calls| - 1].now + Window(calls[|calls| - 1].window)
  {
    hide Reserves;
    var more := calls + [next];
    assert forall i | 0 <= i < |calls| :: more[i] == calls[i];
    assert more[..|calls| - 1] == calls[..|calls| - 1];
    assert forall i | 0 <= i < |calls| :: calls[i].now <= calls[|calls| - 1].now;
    NoEarlyReuse(more, |calls| - 1, |calls|);
  }

  /** When the window of the last call has passed, nothing is live and any nonce can be reserved. */
  lemma ReservableAtTheEnd(calls: seq<Call>, key: NonceKey, window: int, capacity: int)
    requires calls != [] && ClockForward(calls) && OneWindow(calls, window)
    ensures Reserved(calls + [Call(calls[|calls| - 1].now + Window(window), key, window, capacity)], |calls|)
  {
    var again := calls[|calls| - 1].now + Window(window);
    var more := calls + [Call(again, key, window, capacity)];
    assert more[..|calls|] == calls;
    forall k | k in Table(calls) ensures Table(calls)[k] <= again {
      ExpiresWithinWindow(calls, window, k);
    }
    assert Live(Table(calls), again) == map[];
    assert OfSensor(map[], key.sensorId) == {};
  }

  /**
   * A request dated a second before its acceptance is accepted twice when the second attempt straddles a second
   * between check and reservation.
   */
  lemma StraddlingReplay(sensorId: string, nonce: string)
    ensures var r := Request(sensorId, nonce, Some(1000), true, true);
            && Reserved([Call(1001, KeyOf(r), 300, 4096)], 0) && VerifySignedPayload(1001, r, 300)
            && AcceptedAgain([Call(1001, KeyOf(r), 300, 4096)], r, 300, 4096, 1, 1300, 1301)
  {
    var r := Request(sensorId, nonce, Some(1000), true, true);
    var calls := [Call(1001, KeyOf(r), 300, 4096)];
    assert calls[..0] == [] && OfSensor(map[], sensorId) == {};
    assert Live(map[], 1001) == map[];
    ReservableAtTheEnd(calls, KeyOf(r), 300, 4096);
  }
}
