/** The tick conversions of zephyr/kernel.c and of the K_TICKS macro.
    `rate` stands for configTICK_RATE_HZ. The conversions called `_ceil` round down. */
module Kernel {
  import opened Words

  const USEC_PER_SEC: int := 1_000_000
  const MSEC_PER_SEC: int := 1000

  /** k_ticks_to_us_ceil32 */
  function TicksToUs32(rate: nat, ticks: U32): U32
    requires rate > 0
  {
    ToU32(ticks * USEC_PER_SEC / rate)
  }

  /** k_us_to_ticks_ceil32 */
  function UsToTicks32(rate: nat, us: U32): U32 {
    ToU32(ToU64(us * rate) / USEC_PER_SEC)
  }

  /** k_ticks_to_ms_ceil32 */
  function TicksToMs32(rate: nat, ticks: U32): U32
    requires rate > 0
  {
    ToU32(ticks * MSEC_PER_SEC / rate)
  }

  /** k_ticks_to_us_floor64, which forwards to k_ticks_to_us_ceil64 */
  function TicksToUs64(rate: nat, ticks: U64): U64
    requires rate > 0
  {
    ToU64(ToU64(ticks * USEC_PER_SEC) / rate)
  }

  /** k_ms_to_ticks_ceil64 */
  function MsToTicks64(rate: nat, ms: U64): U64 {
    ToU64(ToU64(ms * rate) / MSEC_PER_SEC)
  }

  /** All conversions round down: a result is the whole number `q` of units that fit into the
      time converted, and only the 32-bit ones wrap. */
  lemma ConversionsRoundDown(rate: nat, x: U32, q: nat)
    requires 0 < rate < TWO31
    ensures q * rate <= x * 1_000_000 < (q + 1) * rate ==> TicksToUs32(rate, x) == ToU32(q) && TicksToUs64(rate, x) == q
    ensures q * rate <= x * 1000 < (q + 1) * rate ==> TicksToMs32(rate, x) == ToU32(q)
    ensures q * 1_000_000 <= x * rate < (q + 1) * 1_000_000 ==> UsToTicks32(rate, x) == ToU32(q)
    ensures q * 1000 <= x * rate < (q + 1) * 1000 ==> MsToTicks64(rate, x) == q
  {
    hide ToU32, ToU64;
    WholeUnits(x * 1_000_000, q, rate);
    WholeUnits(x * 1000, q, rate);
    WholeUnits(x * rate, q, 1_000_000);
    WholeUnits(x * rate, q, 1000);
    MulMonotone(x, TWO32, rate, TWO31);
    FitsU64(x * rate);
    FitsU64(x * 1_000_000);
    if q < TWO64 {
      FitsU64(q);
    }
  }

  /** A whole number of units is the quotient, and no larger than what it divides. */
  lemma WholeUnits(n: nat, q: nat, d: nat)
    requires d > 0
    ensures q * d <= n < (q + 1) * d ==> n / d == q && q <= n
  {
    if q * d <= n < (q + 1) * d {
      assert (q + 1) * d == q * d + d;
      UniqueQuotient(n, q, n - q * d, d);
      MulMonotone(q, q, 1, d);
    }
  }

  /** The ticks that passed between two readings of the 32-bit tick counter. */
  function TicksBetween(t0: U32, t1: U32): U32 {
    if t0 <= t1 then t1 - t0 else TWO32 - t0 + t1
  }

  /** They are counted right across a wrap of the counter. */
  lemma TicksBetweenCounts(x: nat, d: nat)
    requires d < TWO32
    ensures TicksBetween(ToU32(x), ToU32(x + d)) == d
  {
    WordSum(x, d);
  }

  /** The time between two readings in microseconds, in 32 bits. */
  function MicrosBetween(rate: nat, t0: U32, t1: U32): U32
    requires rate > 0
  {
    ToU32(TicksBetween(t0, t1) * 1_000_000 / rate)
  }

  /** The type in which pdMS_TO_TICKS multiplies. FreeRTOS versions differ. */
  datatype Product = InTicks | In64Bits

  /** The number of ticks `k_sleep(K_TICKS(delay))` sleeps: K_TICKS is pdMS_TO_TICKS, which
      reads its argument as milliseconds. */
  function SleepTicks(product: Product, rate: nat, delay: U32): U32 {
    ToU32((if product.InTicks? then ToU32(delay * rate) else ToU64(delay * rate)) / MSEC_PER_SEC)
  }

  /** No pacing delay is longer, as UploadPacing shows. */
  const LONGEST_DELAY: nat := 1_023_986

  /** Pacing counts in ticks but sleeps in milliseconds. The two agree for every delay that
      pacing can ask for exactly when a tick is a millisecond, whichever type holds the
      product. */
  lemma SleepIsExact(product: Product, rate: nat)
    requires rate < TWO31
    ensures (forall delay: U32 | delay <= LONGEST_DELAY :: SleepTicks(product, rate, delay) == delay) <==> rate == 1000
  {
    hide SleepTicks;
    if forall delay: U32 | delay <= LONGEST_DELAY :: SleepTicks(product, rate, delay) == delay {
      assert SleepTicks(product, rate, 1) == 1;
      assert SleepTicks(product, rate, 1000) == 1000;
      TwoSleepsTell(product, rate);
    }
    if rate == 1000 {
      forall delay: U32 | delay <= LONGEST_DELAY ensures SleepTicks(product, rate, delay) == delay {
        MillisecondSleep(product, delay);
      }
    }
  }

  /** Two delays are enough to tell the tick rate. */
  lemma TwoSleepsTell(product: Product, rate: nat)
    requires rate < TWO31 && SleepTicks(product, rate, 1) == 1 && SleepTicks(product, rate, 1000) == 1000
    ensures rate == 1000
  {
    hide ToU32, ToU64;
    assert 1 * rate == rate;
    FitsU32(rate);
    FitsU64(rate);
    FitsU32(rate / 1000);
    assert rate < 2000;
    FitsU32(1000 * rate);
    FitsU64(1000 * rate);
    FitsU32(1000 * rate / 1000);
  }

  /** On a millisecond tick a sleep is exact unless its product overflows. */
  lemma MillisecondSleep(product: Product, delay: U32)
    ensures SleepTicks(product, 1000, delay) == delay <==> product.In64Bits? || delay * 1000 < TWO32
  {
    if product.InTicks? {
      assert ToU32(delay * 1000) / 1000 < delay <==> delay * 1000 >= TWO32;
    }
  }

  /** With a millisecond tick and no overflow both microsecond clocks are exact. */
  lemma MillisecondTick(ticks: U32)
    ensures TicksToUs32(1000, ticks) == ToU32(ticks * 1000)
    ensures TicksToUs64(1000, ticks) == ticks * 1000
  {
    assert ticks * USEC_PER_SEC == (ticks * 1000) * 1000;
  }
}
