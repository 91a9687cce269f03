/** Nonce timestamps (anonpay/nonce.go) and the delay before an early nonce is released
    (anonpay/blind_signing.go). Clocks are in nanoseconds since the epoch. */
module Nonces {

  const HOUR := 3600 // NonceTimeQuantizationSeconds
  const SAFE_TIME := 30 // NonceMinimumSafeTimeSeconds
  const LIFESPAN := 24 * HOUR + 2 * HOUR // NonceLifespanSeconds
  const SKEW := 30 // NonceMaxClockSkewSeconds
  const SECOND := 1_000_000_000

  /** time.Time.Unix: whole seconds, rounded down. */
  function Unix(clock: int): (t: int)
    ensures t * SECOND <= clock < (t + 1) * SECOND
  {
    clock / SECOND
  }

  /** Integer division in Go drops the fraction, towards zero. */
  function RoundDown(t: int): (r: int)
  {
    if t >= 0 then t / HOUR * HOUR else -(-t / HOUR * HOUR)
  }

  predicate IsExpiredAt(timestamp: int, clock: int)
  {
    || timestamp < RoundDown(Unix(clock - SKEW * SECOND))
    || timestamp > RoundDown(Unix(clock + (LIFESPAN + SKEW) * SECOND))
  }

  function SafeNonceTimestamp(t: int, randomFactor: real): (r: (int, bool))
  {
    var rounded := RoundDown(t);
    var nonQuantized := t - rounded;
    if 1.0 - nonQuantized as real / HOUR as real < randomFactor
    then (rounded + HOUR, nonQuantized < SAFE_TIME)
    else (rounded, false)
  }

  lemma RoundDownToHour(t: int, k: int)
    requires t >= 0
    ensures k * HOUR <= RoundDown(t) <==> k * HOUR <= t
    ensures RoundDown(t) <= t < RoundDown(t) + HOUR
  {
  }

  lemma RoundDownBeforeEpoch(t: int, k: int)
    requires t < 0
    ensures RoundDown(t) <= k * HOUR <==> t <= k * HOUR
    ensures k * HOUR <= RoundDown(t) <==> k * HOUR - HOUR < t
  {
  }

  lemma RoundDownIsAligned(t: int, k: int)
    requires t >= 0
    ensures k * HOUR < RoundDown(t) <==> (k + 1) * HOUR <= RoundDown(t)
  {
  }

  /** The first and last second, in seconds before and after a stamp, of the time it is accepted
      in. Before the epoch dividing drops the fraction upwards, which makes both ends differ. */
  function Opens(t: int, clock: int): (from: int)
  {
    if clock >= -93630 * SECOND then t - 93630 else t - 97229
  }

  function Closes(t: int, clock: int): (to: int)
  {
    if clock >= SKEW * SECOND then t + 3630 else t + 31
  }

  lemma NotTooEarly(k: int, clock: int)
    ensures k * HOUR <= RoundDown(Unix(clock + (LIFESPAN + SKEW) * SECOND)) <==>
            Opens(k * HOUR, clock) * SECOND <= clock
  {
    var max := Unix(clock + (LIFESPAN + SKEW) * SECOND);
    if max >= 0 { RoundDownToHour(max, k); } else { RoundDownBeforeEpoch(max, k); }
  }

  lemma NotTooLate(k: int, clock: int)
    ensures RoundDown(Unix(clock - SKEW * SECOND)) <= k * HOUR <==> clock < Closes(k * HOUR, clock) * SECOND
  {
    var min := Unix(clock - SKEW * SECOND);
    if min >= 0 {
      RoundDownToHour(min, k + 1);
      RoundDownIsAligned(min, k);
    } else {
      RoundDownBeforeEpoch(min, k);
    }
  }

  /** A nonce stamped with a full hour is accepted exactly from 26 hours and 30 seconds before it
      until one hour and 30 seconds after it; other bounds hold for clocks before the epoch. */
  lemma UnexpiredWindow(k: int, clock: int)
    ensures var t := k * HOUR;
            !IsExpiredAt(t, clock) <==> Opens(t, clock) * SECOND <= clock < Closes(t, clock) * SECOND
  {
    NotTooEarly(k, clock);
    NotTooLate(k, clock);
  }

  /** What random sources draw is at most 1; from the epoch on nothing depends on that. */
  predicate Drawable(t: int, randomFactor: real)
  {
    t >= 0 || randomFactor <= 1.0
  }

  /** Before the epoch dividing gives the hour to come, which is then stamped. */
  lemma StampBeforeEpoch(t: int, randomFactor: real)
    requires t < 0 && randomFactor <= 1.0
    ensures SafeNonceTimestamp(t, randomFactor) == (RoundDown(t), false)
    ensures t <= RoundDown(t) < t + HOUR
  {
    RoundDownBeforeEpoch(t, 0);
    assert (t - RoundDown(t)) as real / HOUR as real <= 0.0;
  }

  /** A nonce is stamped with a full hour, the one it is made in or the next. */
  lemma StampIsFullHour(t: int, randomFactor: real) returns (k: int)
    requires Drawable(t, randomFactor)
    ensures SafeNonceTimestamp(t, randomFactor).0 == k * HOUR && t - HOUR < k * HOUR <= t + HOUR
    ensures t < 0 ==> t <= k * HOUR < t + HOUR
  {
    if t < 0 {
      StampBeforeEpoch(t, randomFactor);
      k := -(-t / HOUR);
    } else {
      k := t / HOUR;
      if SafeNonceTimestamp(t, randomFactor).0 != k * HOUR { k := k + 1; }
    }
  }

  /** A verifier whose clock is within 30 seconds of the maker's accepts a fresh nonce. */
  lemma FreshNonceIsAccepted(created: int, randomFactor: real, verifier: int)
    requires Drawable(Unix(created), randomFactor)
    requires created - SKEW * SECOND <= verifier <= created + SKEW * SECOND
    ensures !IsExpiredAt(SafeNonceTimestamp(Unix(created), randomFactor).0, verifier)
  {
    var k := StampIsFullHour(Unix(created), randomFactor);
    UnexpiredWindow(k, verifier);
  }

  /** The rollover is smeared: with the part p of the hour gone by, the next hour is stamped exactly
      for factors above 1 - p, and the mean of the two stamps weighted by 1 - p and p is the time
      itself. That is without bias exactly if p is a probability: from the epoch on, and on full
      hours. */
  lemma RolloverIsFair(t: int, randomFactor: real) returns (p: real)
    ensures -1.0 < p < 1.0 && (p >= 0.0 <==> t >= 0 || RoundDown(t) == t)
    ensures SafeNonceTimestamp(t, randomFactor).0 == RoundDown(t) + if randomFactor > 1.0 - p then HOUR else 0
    ensures RoundDown(t) as real * (1.0 - p) + (RoundDown(t) + HOUR) as real * p == t as real
  {
    if t >= 0 { RoundDownToHour(t, 0); } else { RoundDownBeforeEpoch(t, 0); }
    p := (t - RoundDown(t)) as real / HOUR as real;
    assert p * HOUR as real == (t - RoundDown(t)) as real;
  }

  /** When finalize hands a credit out at the earliest: an early nonce waits until 30 seconds
      into the hour finalize is called in. */
  function ReleaseTime(unsafeIncrement: bool, now: int): (t: int)
  {
    var safeTime := (RoundDown(Unix(now)) + SAFE_TIME) * SECOND;
    if unsafeIncrement && safeTime > now then safeTime else now
  }

  /** A nonce stamped early is never released in the first 30 seconds of the hour it was made
      in, however finalize is scheduled. */
  lemma EarlyNonceIsHeldBack(created: int, randomFactor: real, now: int, released: int)
    requires created <= now && Drawable(Unix(created), randomFactor)
    requires SafeNonceTimestamp(Unix(created), randomFactor).1
    requires released >= ReleaseTime(true, now)
    ensures RoundDown(Unix(released)) == RoundDown(Unix(created)) ==>
              Unix(released) - RoundDown(Unix(released)) >= SAFE_TIME
  {
    var c, n, r := Unix(created), Unix(now), Unix(released);
    assert c <= n <= r;
    if c < 0 {
      StampBeforeEpoch(c, randomFactor);
      assert false;
    }
    RoundDownToHour(c, RoundDown(c) / HOUR);
    RoundDownToHour(n, RoundDown(c) / HOUR);
    RoundDownToHour(r, RoundDown(n) / HOUR);
  }

  /** A credit waits no longer than it has to, from the epoch on: not at all unless it is early, and in
      the first 30 seconds of an hour until the end of them, whenever finalize is called: when it is
      released says nothing about when in those seconds it was asked for. */
  lemma WaitsOutTheCutoff(unsafeIncrement: bool, k: nat, now: int)
    requires k * HOUR * SECOND <= now < (k + 1) * HOUR * SECOND
    ensures var cutoff := (k * HOUR + 30) * SECOND;
            ReleaseTime(unsafeIncrement, now) == if unsafeIncrement && now < cutoff then cutoff else now
  {
    var n := Unix(now);
    RoundDownToHour(n, k);
    RoundDownToHour(n, k + 1);
    RoundDownIsAligned(n, k);
  }

  /** The furthest ahead of the clock that a nonce may be stamped when it is seen: an hour less the
      30 seconds in which hardly anybody else has such a stamp. */
  const FURTHEST_AHEAD := HOUR - SAFE_TIME

  /** Exactly the nonces stamped further ahead than that are marked, for clocks from the epoch on and
      for those before it that are not that far from the hour to come. */
  lemma MarkedIfTooFarAhead(t: int, randomFactor: real)
    requires Drawable(t, randomFactor)
    ensures var (stamp, marked) := SafeNonceTimestamp(t, randomFactor);
            (marked <==> stamp - t > FURTHEST_AHEAD) <==> t >= 0 || RoundDown(t) - t <= FURTHEST_AHEAD
  {
    if t >= 0 { RoundDownToHour(t, 0); } else { StampBeforeEpoch(t, randomFactor); }
  }

  /** Seconds r from c on are in the hour of c or past it. */
  lemma SameHourOrLater(c: int, r: int)
    requires 0 <= c <= r
    ensures RoundDown(r) == RoundDown(c) || r >= RoundDown(c) + HOUR
  {
    var k := c / HOUR;
    RoundDownToHour(r, k);
    RoundDownToHour(r, k + 1);
    RoundDownIsAligned(r, k);
  }

  lemma HeldBackLongEnough(created: int, randomFactor: real, now: int, released: int)
    requires created <= now && Drawable(Unix(created), randomFactor)
    requires SafeNonceTimestamp(Unix(created), randomFactor).1
    requires released >= ReleaseTime(true, now)
    ensures SafeNonceTimestamp(Unix(created), randomFactor).0 - Unix(released) <= FURTHEST_AHEAD
  {
    var c, r := Unix(created), Unix(released);
    assert c <= Unix(now) <= r;
    if c < 0 {
      StampBeforeEpoch(c, randomFactor);
      assert false;
    }
    EarlyNonceIsHeldBack(created, randomFactor, now, released);
    SameHourOrLater(c, r);
  }

  /** Whenever finalize is called and for however long, it releases no nonce stamped further ahead,
      exactly if the nonce was made from the epoch on or is not stamped so by then. */
  lemma ReleasedStampIsNear(created: int, randomFactor: real, now: int)
    requires created <= now && Drawable(Unix(created), randomFactor)
    ensures var (stamp, marked) := SafeNonceTimestamp(Unix(created), randomFactor);
            (forall released | released >= ReleaseTime(marked, now) :: stamp - Unix(released) <= FURTHEST_AHEAD)
            <==> Unix(created) >= 0 || stamp - Unix(now) <= FURTHEST_AHEAD
  {
    var c := Unix(created);
    var (stamp, marked) := SafeNonceTimestamp(c, randomFactor);
    MarkedIfTooFarAhead(c, randomFactor);
    if c < 0 { StampBeforeEpoch(c, randomFactor); }
    if c >= 0 || stamp - Unix(now) <= FURTHEST_AHEAD {
      forall released | released >= ReleaseTime(marked, now) ensures stamp - Unix(released) <= FURTHEST_AHEAD {
        if marked { HeldBackLongEnough(created, randomFactor, now, released); }
      }
    } else {
      assert ReleaseTime(marked, now) == now;
    }
  }

  /** The state of a credit waiting for its blind signature. */
  class UnsignedCredit {
    const timestamp: int
    const unsafeIncrement: bool
    var finalized: bool

    constructor (timestamp: int, unsafeIncrement: bool)
      ensures this.timestamp == timestamp && this.unsafeIncrement == unsafeIncrement && !finalized
    {
      this.timestamp, this.unsafeIncrement, finalized := timestamp, unsafeIncrement, false;
    }

    /** signs is whether unblinding the signature works, slept how long the sleep took. The
        credit is handed out at most once, and not before its release time. */
    method Finalize(signs: bool, now: int, slept: int) returns (released: bool, at: int)
      requires slept >= ReleaseTime(unsafeIncrement, now) - now
      modifies this
      ensures released <==> !old(finalized) && signs
      ensures finalized <==> old(finalized) || released
      ensures released ==> at >= ReleaseTime(unsafeIncrement, now)
    {
      at := now;
      if finalized { return false, at; }
      if !signs { return false, at; }
      if unsafeIncrement { at := now + slept; }
      finalized := true;
      released := true;
    }
  }
}
