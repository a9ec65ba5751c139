/** The delays recorded by the sending loop, and the departure times they lead to. */
module UploadPacing {
  import opened Words
  import opened Kernel
  import opened Pacing
  import opened UdpUploader

  /** On a millisecond tick the period is the time of the packet's bits at the rate, rounded
      down to a millisecond, and below nine minutes for packets of up to 64 KiB. */
  lemma PeriodInBits(size: U32, kbps: U32)
    requires size <= 0xFFFF && kbps % 0x40_0000 != 0
    ensures var (period, bitsPerSecond) := (PeriodTicks(1000, size, kbps), kbps % 0x40_0000 * 1024);
            && period * bitsPerSecond <= size * 8 * 1000 < (period + 1) * bitsPerSecond
            && period <= 511_993
  {
    hide ToU32;
    var d, n := kbps % 0x40_0000 * 1024, size * 8 * USEC_PER_SEC;
    QuotientAtMost(n, d, 511_992_188);
    NestedQuotient(n, d, 1000);
    NestedQuotient(n, 1000, d);
    assert d * 1000 == 1000 * d;
    MillisecondPeriod(n / d);
    WholeQuotientBounds(size * 8 * 1000, d);
    FitsU32(n / d / 1000);
  }

  lemma MillisecondPeriod(us: nat)
    ensures us * 1000 / 1_000_000 == us / 1000
  {
  }

  lemma WholeQuotientBounds(n: nat, d: nat)
    requires d > 0
    ensures 0 <= n / d && n / d * d <= n < (n / d + 1) * d
  {
    assert n == n / d * d + n % d;
    assert (n / d + 1) * d == n / d * d + d;
  }

  lemma QuotientAtMost(n: nat, d: nat, bound: nat)
    requires d >= 1024 && n <= bound * 1024
    ensures 0 <= n / d <= bound
  {
    var q := n / d;
    assert n == q * d + n % d;
    MulMonotone(q, q, 1024, d);
  }

  /** Every round comes at least its delay after the one before. */
  ghost predicate SleepsDelays(times: seq<U32>, delays: seq<U32>)
    requires |delays| == |times|
  {
    forall k :: 1 <= k < |times| ==> times[k - 1] as int + delays[k - 1] as int <= times[k]
  }

  /** No two rounds are 2^31 ticks apart. */
  ghost predicate ShortGaps(start: U32, times: seq<U32>) {
    forall k :: 0 <= k < |times| ==> times[k] < LastTime(start, times[..k]) + TWO31
  }

  /** Every round comes at least the ticks after the one before that its sleep lasts. */
  ghost predicate SleepsAsked(product: Product, times: seq<U32>, delays: seq<U32>)
    requires |delays| == |times|
  {
    forall k :: 1 <= k < |times| ==> times[k - 1] as int + SleepTicks(product, 1000, delays[k - 1]) as int <= times[k]
  }

  /** The rounds of an upload's loop on a millisecond tick: the delays are those of the loop,
      the clock does not go back, and sleeps last at least as long as asked. */
  ghost predicate UploadRuns(size: U32, kbps: U32, product: Product, start: U32, times: seq<U32>, delays: seq<U32>) {
    && size <= 0xFFFF && kbps % 0x40_0000 != 0 && |delays| == |times|
    && Paced(delays, PeriodTicks(1000, size, kbps), start, times)
    && Monotone(start, times) && ShortGaps(start, times) && SleepsAsked(product, times, delays)
  }

  /** The rate of an upload. By the m-th round in which the clock advanced, the clock has run
      at least the time that the bits of m packets take at the rate, less the rounding of one
      millisecond for each; and the delay is never longer than the bits of one packet take.
      Rates are taken modulo 2^22 kbps. */
  lemma UploadRate(size: U32, kbps: U32, product: Product, start: U32, times: seq<U32>, delays: seq<U32>)
    requires UploadRuns(size, kbps, product, start, times, delays) && |times| >= 2
    ensures var n := |times| - 1;
            var (m, elapsed) := (Advances(start, times), times[n] - start);
            var bitsPerSecond := kbps % 0x40_0000 * 1024;
            && (times[n] != times[n - 1] ==> m * (size * 8) * 1000 <= (elapsed + m) * bitsPerSecond)
            && delays[n] * bitsPerSecond <= size * 8 * 1000
            && delays[n] == WalkAfter(PeriodTicks(1000, size, kbps), start, times)
  {
    hide PeriodTicks, WalkAfter, DelayAfter, Advances, Monotone, Sleeps, ShortGaps, SleepsAsked, Paced;
    var period := PeriodTicks(1000, size, kbps);
    var d := kbps % 0x40_0000 * 1024;
    PeriodInBits(size, kbps);
    SleptAreDelays(size, kbps, product, start, times, delays, |times|);
    assert times[..|times|] == times && delays[..|times|] == delays;
    DelaysAreWalk(period, start, times, delays, |times|);
    var n := |times| - 1;
    LastDelay(period, start, times, delays);
    DelayBound(period, start, times);
    MulMonotone(delays[n], period, d, d);
    if times[n] != times[n - 1] {
      RateBound(period, start, times);
      BitsOfAdvances(Advances(start, times), period, d, size * 8 * 1000, times[n] - start);
    }
  }

  lemma LastDelay(period: U32, start: U32, times: seq<U32>, delays: seq<U32>)
    requires Paced(delays, period, start, times) && |delays| == |times| > 0
    ensures delays[|times| - 1] == DelayAfter(period, start, times)
  {
    assert times[..(|times| - 1) + 1] == times;
  }

  lemma BitsOfAdvances(m: nat, period: nat, d: nat, n: nat, elapsed: int)
    requires n < (period + 1) * d && m * period <= elapsed
    ensures m * n <= (elapsed + m) * d
  {
    MulMonotone(m, m, n, (period + 1) * d);
    assert m * ((period + 1) * d) == (m * period + m) * d;
    MulMonotone(m * period + m, elapsed + m, d, d);
  }

  /** No delay of an upload is longer than two periods, nor than the longest delay that a
      sleep on a millisecond tick can honour: each is slept as it is meant. */
  lemma DelaysAreSleepable(size: U32, kbps: U32, product: Product, start: U32, times: seq<U32>, delays: seq<U32>, k: nat)
    requires UploadRuns(size, kbps, product, start, times, delays) && k < |times|
    ensures delays[k] <= 2 * PeriodTicks(1000, size, kbps) <= LONGEST_DELAY && SleepTicks(product, 1000, delays[k]) == delays[k]
  {
    hide PeriodTicks, WalkAfter, DelayAfter, Monotone, Sleeps, SleepTicks, SleepsAsked, Paced, ShortGaps;
    SleptAreDelays(size, kbps, product, start, times, delays, k + 1);
    PrefixRuns(size, kbps, product, start, times, delays, k + 1);
    DelaysFit(size, kbps, product, start, times[..k + 1], delays[..k + 1]);
  }

  lemma DelaysFit(size: U32, kbps: U32, product: Product, start: U32, times: seq<U32>, delays: seq<U32>)
    requires UploadRuns(size, kbps, product, start, times, delays) && |times| > 0 && SleepsDelays(times, delays)
    ensures var k := |times| - 1;
            delays[k] <= 2 * PeriodTicks(1000, size, kbps) <= LONGEST_DELAY && SleepTicks(product, 1000, delays[k]) == delays[k]
  {
    hide PeriodTicks, WalkAfter, DelayAfter, Monotone, Sleeps, SleepTicks, SleepsAsked, Paced, ShortGaps;
    var period := PeriodTicks(1000, size, kbps);
    PeriodInBits(size, kbps);
    DelaysAreWalk(period, start, times, delays, |times|);
    assert times[..|times|] == times;
    LastDelay(period, start, times, delays);
    DelayBound(period, start, times);
    MillisecondSleep(product, delays[|times| - 1]);
  }

  lemma PrefixRuns(size: U32, kbps: U32, product: Product, start: U32, times: seq<U32>, delays: seq<U32>, n: nat)
    requires UploadRuns(size, kbps, product, start, times, delays) && n <= |times|
    ensures UploadRuns(size, kbps, product, start, times[..n], delays[..n])
  {
    hide PeriodTicks, DelayAfter, Monotone, ShortGaps, SleepTicks;
    PrefixKeepsClock(start, times, n);
    var period := PeriodTicks(1000, size, kbps);
    forall k | 0 <= k < n ensures delays[..n][k] == DelayAfter(period, start, times[..n][..k + 1]) {
      assert times[..n][..k + 1] == times[..k + 1];
    }
  }

  /** Sleeping what the code asks for is sleeping the delays. */
  lemma {:induction false} SleptAreDelays(size: U32, kbps: U32, product: Product, start: U32, times: seq<U32>, delays: seq<U32>, n: nat)
    requires UploadRuns(size, kbps, product, start, times, delays) && n <= |times|
    ensures SleepsDelays(times[..n], delays[..n])
  {
    hide Paced, Monotone, ShortGaps, SleepsAsked, SleepTicks;
    if n >= 2 {
      SleptAreDelays(size, kbps, product, start, times, delays, n - 1);
      PrefixRuns(size, kbps, product, start, times, delays, n - 1);
      DelaysFit(size, kbps, product, start, times[..n - 1], delays[..n - 1]);
      LastSleep(size, kbps, product, start, times, delays, n - 1);
      var ts, gs := times[..n], delays[..n];
      forall k | 1 <= k < n ensures ts[k - 1] as int + gs[k - 1] as int <= ts[k] {
        assert k < n - 1 ==> times[..n - 1][k - 1] as int + delays[..n - 1][k - 1] as int <= times[..n - 1][k];
      }
    }
  }

  lemma LastSleep(size: U32, kbps: U32, product: Product, start: U32, times: seq<U32>, delays: seq<U32>, k: nat)
    requires UploadRuns(size, kbps, product, start, times, delays) && 1 <= k < |times|
    ensures times[k - 1] as int + SleepTicks(product, 1000, delays[k - 1]) as int <= times[k]
  {
    hide SleepTicks;
  }

  /** The recorded delays are the walk, and sleeping them is sleeping the walk. */
  lemma {:induction false} DelaysAreWalk(period: U32, start: U32, times: seq<U32>, delays: seq<U32>, n: nat)
    requires 3 * period < TWO32 && Paced(delays, period, start, times) && |delays| == |times| && n <= |times|
    requires Monotone(start, times) && ShortGaps(start, times) && SleepsDelays(times, delays)
    ensures Monotone(start, times[..n]) && Sleeps(period, start, times[..n])
    ensures DelayAfter(period, start, times[..n]) == WalkAfter(period, start, times[..n])
  {
    hide WalkAfter, DelayAfter, Monotone, ShortGaps;
    var front := times[..n];
    PrefixKeepsClock(start, times, n);
    forall k | 1 <= k < n ensures front[k - 1] + WalkAfter(period, start, front[..k]) <= front[k] {
      DelaysAreWalk(period, start, times, delays, k);
      assert front[..k] == times[..k] == times[..(k - 1) + 1];
      assert delays[k - 1] == DelayAfter(period, start, times[..k]);
    }
    CodeIsWalkSleeping(period, start, front);
  }

  lemma PrefixKeepsClock(start: U32, times: seq<U32>, n: nat)
    requires n <= |times| && Monotone(start, times) && ShortGaps(start, times)
    ensures Monotone(start, times[..n]) && ShortGaps(start, times[..n])
  {
    forall k | 0 <= k < n ensures times[..n][..k] == times[..k] {
    }
  }

  lemma CodeIsWalkSleeping(period: U32, start: U32, times: seq<U32>)
    requires 3 * period < TWO32 && Monotone(start, times) && Sleeps(period, start, times) && ShortGaps(start, times)
    ensures DelayAfter(period, start, times) == WalkAfter(period, start, times)
  {
    SleepingCodeIsWalk(period, start, times);
  }
}
