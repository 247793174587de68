/** Expiry times are unsigned 32-bit milliseconds that wrap. */
module Expiry {
  import opened Bytes

  const TTL_MAX: nat := 0x7FFF_FFFF
  const HALF: nat := 0x8000_0000

  /** 32-bit unsigned subtraction. */
  function Minus32(a: nat, b: nat): (d: nat)
    ensures d < TWO_32
  {
    (a as int - b as int) % TWO_32
  }

  /** Has `exp` passed at `now`? The difference is read as a signed 32-bit number. */
  predicate Expired(exp: nat, now: nat) {
    exp != 0 && Minus32(now, exp) < HALF
  }

  /** The clock as the arena stores it: unbounded milliseconds t, cut to 32 bits. */
  function Clock(t: nat): (c: nat)
    ensures c < TWO_32
  {
    t % TWO_32
  }

  /** What the callers of storeSet pass as expiry: the clock plus a clamped TTL, or 0 for none. */
  function ExpiryAt(t: nat, ttlMs: nat): (e: nat)
    ensures e < TWO_32
  {
    if ttlMs == 0 then 0 else Clock(t + if ttlMs > TTL_MAX then TTL_MAX else ttlMs)
  }

  /** Across wraps of the clock, an expiry reads as passed exactly when it has passed, for 2^31 ms
      after it; a TTL above 2^31 - 1 ms counts as one of that length. The sum 0 modulo 2^32 is excluded: it reads
      as "no expiry". */
  lemma ExpiryIsExact(t0: nat, ttlMs: nat, t: nat)
    requires 0 < ttlMs && ExpiryAt(t0, ttlMs) != 0
    requires t0 <= t < t0 + (if ttlMs <= 0x7FFF_FFFF then ttlMs else 0x7FFF_FFFF) + HALF
    ensures Expired(ExpiryAt(t0, ttlMs), Clock(t)) <==> t0 + (if ttlMs <= 0x7FFF_FFFF then ttlMs else 0x7FFF_FFFF) <= t
  {
    var e := t0 + if ttlMs <= TTL_MAX then ttlMs else TTL_MAX;
    DifferenceOfClocks(t, e);
  }

  lemma DifferenceOfClocks(a: nat, b: nat)
    requires -(HALF as int) <= a - b < HALF
    ensures Minus32(Clock(a), Clock(b)) == if a >= b then a - b else TWO_32 - (b - a)
  {
  }

  /** The excluded sum: an entry that never expires although it was given a TTL. */
  lemma ZeroSumNeverExpires(t0: nat, ttlMs: nat, t: nat)
    requires 0 < ttlMs <= 0x7FFF_FFFF && (t0 + ttlMs) % TWO_32 == 0
    ensures !Expired(ExpiryAt(t0, ttlMs), Clock(t))
  {
  }

  /** Past those 2^31 ms the comparison turns round: an entry that is still there reads as live again. */
  lemma ExpiredComesBack(t0: nat, ttlMs: nat, t: nat)
    requires 0 < ttlMs <= 0x7FFF_FFFF && t0 + ttlMs + HALF <= t < t0 + ttlMs + TWO_32
    ensures !Expired(ExpiryAt(t0, ttlMs), Clock(t))
  {
    var e := t0 + ttlMs;
    assert Minus32(Clock(t), Clock(e)) == t - e by {
      ClockDifference(t, e);
    }
  }

  lemma ClockDifference(a: nat, b: nat)
    requires b <= a < b + TWO_32
    ensures Minus32(Clock(a), Clock(b)) == a - b
  {
  }
}
