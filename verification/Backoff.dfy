/** The exponential backoff of sample_pnp_iot_device.c.  Its retry counter is shared with the
    connection-status callback, which resets it on another thread at any moment. */
module Backoff {

  /** Seconds. */
  const MAX_DELAY: nat := 600
  const INITIAL_DELAY: nat := 3

  /** SAMPLE_MAX_EXPONENTIAL_BACKOFF_JITTER_PERCENT */
  const MAX_JITTER: real := 60.0 / 100.0

  /** What the counter never exceeds. */
  const MAX_COUNT: nat := 8

  function Pow2(n: nat): (p: nat)
    ensures p >= 1
  {
    if n == 0 then 1 else 2 * Pow2(n - 1)
  }

  function Min(a: nat, b: nat): (m: nat)
    ensures m <= a && m <= b && (m == a || m == b)
  {
    if a <= b then a else b
  }

  /** The resets that fall between two accesses to the counter in one call: before the test,
      before the shift, before the increment loads it, and between its load and its store. */
  datatype Resets = Resets(test: bool, shift: bool, load: bool, store: bool)

  const NO_RESETS := Resets(false, false, false, false)

  function ResetIf(b: bool, count: nat): nat {
    if b then 0 else count
  }

  /** The counter as the shift reads it. */
  function AtShift(count: nat, r: Resets): nat {
    ResetIf(r.shift, ResetIf(r.test, count))
  }

  /** The capped exponential: what the base delay should be after `count` retries. */
  function BaseDelay(count: nat): nat {
    Min(MAX_DELAY, INITIAL_DELAY * Pow2(count))
  }

  /** The counter after one call.  A reset between the load and the store of the increment is
      lost. */
  function Next(count: nat, r: Resets): nat {
    var c := ResetIf(r.load, AtShift(count, r));
    if INITIAL_DELAY * Pow2(AtShift(count, r)) > MAX_DELAY then ResetIf(r.store, c) else c + 1
  }

  lemma {:induction false} PowGrows(m: nat, n: nat)
    requires m <= n
    ensures Pow2(m) <= Pow2(n)
  {
    if m < n {
      PowGrows(m, n - 1);
    }
  }

  lemma Powers()
    ensures Pow2(7) == 128 && Pow2(8) == 256
  {
    assert Pow2(3) == 8;
    assert Pow2(6) == 64;
  }

  /** Whatever resets interleave, the counter stays within its bound, so that neither the
      shift nor the product overflows. */
  lemma CountStaysBounded(count: nat, r: Resets)
    requires count <= MAX_COUNT
    ensures Next(count, r) <= MAX_COUNT
    ensures AtShift(count, r) <= MAX_COUNT && INITIAL_DELAY * Pow2(AtShift(count, r)) <= 768
  {
    Powers();
    PowGrows(AtShift(count, r), MAX_COUNT);
  }

  /** When a reset takes effect, so that the counter is as if it had been reset before the
      call or after it: unless all that falls into the call is a reset between the load and
      the store of an increment of a counter that was not 0. */
  lemma ResetTakesEffect(count: nat, r: Resets)
    requires count <= MAX_COUNT && r != NO_RESETS
    ensures Next(count, r) <= 1 <==>
      r.test || r.shift || r.load || count == 0 || INITIAL_DELAY * Pow2(count) > MAX_DELAY
    ensures Next(count, r) > 1 ==> Next(count, r) == Next(count, NO_RESETS)
  {
  }

  /** The reset that is lost: the call ends as if there had been none. */
  lemma ResetIsLost(count: nat)
    requires 0 < count <= 7
    ensures Next(count, NO_RESETS.(store := true)) == Next(count, NO_RESETS) == count + 1
  {
    Powers();
    PowGrows(count, 7);
  }

  /** Without resets a call counts up to 8. */
  lemma NextWithoutResets(count: nat)
    requires count <= 8
    ensures Next(count, NO_RESETS) == Min(count + 1, 8)
    ensures BaseDelay(count) == Min(600, 3 * Pow2(count))
  {
    Powers();
    if count <= 7 {
      PowGrows(count, 7);
    }
  }

  /** Counting one up and `k` on comes to the same delay, at the cap as well. */
  lemma CappedAlike(count: nat, k: nat)
    requires count <= 8 && 0 < k
    ensures Min(600, 3 * Pow2(Min(count + 1, 8) + (k - 1))) == Min(600, 3 * Pow2(count + k))
  {
    Powers();
    if count == 8 {
      PowGrows(8, 8 + (k - 1));
      PowGrows(8, 8 + k);
    }
  }

  /** The counter after `k` calls from a reset with no further reset. */
  function AfterCalls(k: nat): nat {
    if k == 0 then 0 else Next(AfterCalls(k - 1), NO_RESETS)
  }

  /** Call `k` since a reset, counted from 0, uses the base delay min(600, 3 * 2^k). */
  lemma {:induction false} KthCall(k: nat)
    ensures AfterCalls(k) == Min(k, MAX_COUNT)
    ensures BaseDelay(AfterCalls(k)) == Min(MAX_DELAY, INITIAL_DELAY * Pow2(k))
  {
    Powers();
    if k > MAX_COUNT {
      PowGrows(MAX_COUNT, k);
    }
    if k != 0 {
      KthCall(k - 1);
      if k <= MAX_COUNT {
        PowGrows(k - 1, 7);
      }
    }
  }

  /** A delay of `base` seconds with its jitter of up to 60 percent. */
  function WithJitter(base: nat, random: real): (delay: real)
    requires 0.0 <= random <= 1.0
    ensures base as real <= delay <= base as real * 1.6
  {
    JitterBounds(base as real, 0.6 * random);
    base as real * (1.0 + 0.6 * random)
  }

  lemma JitterBounds(base: real, jitter: real)
    requires 0.0 <= jitter <= 0.6 && 0.0 <= base
    ensures base <= base * (1.0 + jitter) <= base * 1.6
  {
    assert base * jitter >= 0.0 && base * (0.6 - jitter) >= 0.0;
  }

  /** A delay cut to whole seconds. */
  function Cut(base: nat, delay: real): (seconds: nat)
    requires base as real <= delay <= base as real * 1.6
    ensures seconds as real <= delay < seconds as real + 1.0
    ensures base <= seconds && 10 * seconds <= 16 * base
  {
    delay.Floor
  }

  /** The delay with its jitter, in whole seconds. */
  function Jittered(base: nat, random: real): (seconds: nat)
    requires 0.0 <= random <= 1.0
    ensures base <= seconds && 10 * seconds <= 16 * base
  {
    Cut(base, WithJitter(base, random))
  }

  /** The jitter grows evenly with the random number, from none to 60 percent. */
  lemma JitterIsEven(base: nat, random: real)
    requires 0.0 <= random <= 1.0
    ensures Jittered(base, 0.0) == base && Jittered(base, 1.0) == 16 * base / 10
    ensures 5.0 * (WithJitter(base, random) - base as real) == 3.0 * (base as real * random)
  {
    assert base as real * (0.6 * random) == 0.6 * (base as real * random);
  }

  /** The delay in ticks. */
  method Ticks(base: nat, jitter: real, rate: nat, ghost random: real) returns (ticks: nat)
    requires 0.0 <= random <= 1.0 && jitter == MAX_JITTER * random
    ensures ticks == Jittered(base, random) * rate
  {
    ghost var delay := WithJitter(base, random);
    var seconds := (base as real * (1.0 + jitter)).Floor;
    assert seconds == Cut(base, delay);
    ticks := seconds * rate;
  }

  class Counter {
    var count: nat   // exponential_retry_count

    constructor ()
      ensures count == 0
    {
      count := 0;
    }

    /** `exponential_backoff_reset` */
    method Reset()
      modifies this
      ensures count == 0
    {
      count := 0;
    }

    /** `exponential_backoff_with_jitter`, with the resets of the other thread written out;
        `random` is rand() / RAND_MAX and `rate` the timer ticks in a second. */
    method Delay(random: real, rate: nat, r: Resets) returns (ticks: nat)
      requires count <= MAX_COUNT && 0.0 <= random <= 1.0
      modifies this
      ensures count == Next(old(count), r) && count <= MAX_COUNT
      ensures ticks == Jittered(BaseDelay(AtShift(old(count), r)), random) * rate
    {
      hide Jittered;
      CountStaysBounded(count, r);
      var jitter := MAX_JITTER * random;
      var baseDelay := MAX_DELAY;
      if r.test { Reset(); }
      if count < 32 {
        if r.shift { Reset(); }
        var delay := Pow2(count) * INITIAL_DELAY;
        if delay <= 0xFFFF_FFFF {
          baseDelay := delay;
        }
      }
      if r.load { Reset(); }
      if baseDelay > MAX_DELAY {
        baseDelay := MAX_DELAY;
        if r.store { Reset(); }
      } else {
        var loaded := count;
        if r.store { Reset(); }
        count := loaded + 1;
      }
      ticks := Ticks(baseDelay, jitter, rate, random);
    }
  }

  lemma TicksBounds(base: nat, random: real, rate: nat, ticks: nat)
    requires 0.0 <= random <= 1.0 && ticks == Jittered(base, random) * rate
    ensures base * rate <= ticks && 10 * ticks <= 16 * base * rate
  {
    hide Jittered;
    Scaled(base, Jittered(base, random), rate);
    Scaled(10 * Jittered(base, random), 16 * base, rate);
  }

  lemma Scaled(a: nat, b: nat, rate: nat)
    requires a <= b
    ensures a * rate <= b * rate
  {
  }
}
