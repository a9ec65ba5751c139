/** The pacing loop of udp_upload: how the delay before the next packet evolves, and what
    that means for the times at which packets leave. Times are in ticks. */
module Pacing {
  import opened Words
  import opened Kernel

  // ---------- the code's arithmetic ----------

  /** zperf_packet_duration in microseconds. The rate is scaled in 32 bits before the
      division, so some rates divide by zero. */
  function PacketDuration(size: U32, kbps: U32): Option<U32> {
    var scaled := ToU32(kbps * 1024);
    if scaled == 0 then None else Some(ToU32(size * 8 * USEC_PER_SEC / scaled))
  }

  /** The duration exists unless the rate is a multiple of 2^22 kbps, zero included. */
  lemma DurationExists(size: U32, kbps: U32)
    ensures PacketDuration(size, kbps).None? <==> kbps % 0x40_0000 == 0
  {
    hide ToU32;
    ScaledRate(kbps);
  }

  /** The time `size` bytes take at a rate, in microseconds, rounded down. */
  function TimeAtRate(size: nat, kbps: nat): int
    requires kbps > 0
  {
    size * 8 * USEC_PER_SEC / (kbps * 1024)
  }

  /** The duration is the time at the rate modulo 2^22 kbps. That is the time at the rate
      itself exactly below 2^22 kbps, or when both are below one microsecond. */
  lemma DurationIsTime(size: U32, kbps: U32)
    requires size <= 0xFFFF && kbps % 0x40_0000 != 0
    ensures PacketDuration(size, kbps).Some?
    ensures PacketDuration(size, kbps).value == TimeAtRate(size, kbps % 0x40_0000)
    ensures PacketDuration(size, kbps).value == TimeAtRate(size, kbps)
            <==> kbps < 0x40_0000 || size * 8 * USEC_PER_SEC < kbps % 0x40_0000 * 1024
  {
    hide ToU32;
    ScaledRate(kbps);
    var q, r, n := kbps / 0x40_0000, kbps % 0x40_0000, size * 8 * USEC_PER_SEC;
    QuotientBounds(n, r * 1024);
    QuotientBounds(n, kbps * 1024);
    if q > 0 {
      FasterRate(n, r * 1024, kbps * 1024);
    }
  }

  /** The rate is scaled modulo 2^32. */
  lemma ScaledRate(kbps: U32)
    ensures ToU32(kbps * 1024) == kbps % 0x40_0000 * 1024
  {
    var q, r := kbps / 0x40_0000, kbps % 0x40_0000;
    SameWord(kbps * 1024, r * 1024, q);
    FitsU32(r * 1024);
  }

  /** A divisor larger by more than the smaller one gives the same quotient only if both
      are zero. */
  lemma FasterRate(n: nat, d: nat, d': nat)
    requires 0 < d && d' >= 2 * d
    ensures n / d == n / d' <==> n < d
  {
    if n < d {
      UniqueQuotient(n, 0, n, d);
      UniqueQuotient(n, 0, n, d');
    } else if n / d == n / d' {
      var q := n / d;
      SameQuotientIsZero(n, q, n % d, d, n % d', d');
    }
  }

  lemma SameQuotientIsZero(n: nat, q: nat, r: nat, d: nat, r': nat, d': nat)
    requires n == q * d + r && r < d && n == q * d' + r' && d' >= 2 * d
    ensures q == 0
  {
    MulMonotone(q, q, 2 * d, d');
    assert q * (2 * d) == q * d + q * d;
    AtLeastOne(q, d);
  }

  /** A quotient that fits in 32 bits, and what it bounds. */
  lemma QuotientBounds(n: nat, d: nat)
    requires d >= 1024 && n < TWO32 * 1024
    ensures n / d * d <= n < (n / d + 1) * d && ToU32(n / d) == n / d
  {
    var q := n / d;
    assert n == q * d + n % d;
    assert (q + 1) * d == q * d + d;
    MulMonotone(q, q, 1024, d);
  }

  /** The adjustment of one iteration. */
  function Adjust(period: U32, last: U32, now: U32): I32 {
    if last != now then ToI32(ToI32(period) - ToI32(now - last)) else 0
  }

  /** The delay after the adjustment. */
  function NextDelay(delay: U32, adjust: I32): U32 {
    if adjust >= 0 || ToU32(-(adjust as int)) < delay then ToU32(delay + adjust) else 0
  }

  function LastTime(start: nat, times: seq<nat>): nat {
    if times == [] then start else times[|times| - 1]
  }

  /** The delay after the iterations that read the clock at `times`. */
  function DelayAfter(period: U32, start: U32, times: seq<U32>): U32 {
    if times == [] then period
    else
      var n := |times| - 1;
      NextDelay(DelayAfter(period, start, times[..n]), Adjust(period, LastTime(start, times[..n]), times[n]))
  }

  // ---------- the walk behind it ----------

  function Max(x: int, y: int): int {
    if x >= y then x else y
  }

  /** The delay as a walk on the natural numbers, reflected at zero. An iteration in the
      same tick as the one before does not move it. */
  function WalkAfter(period: nat, start: nat, times: seq<nat>): nat {
    if times == [] then period
    else
      var n := |times| - 1;
      var d := WalkAfter(period, start, times[..n]);
      var elapsed := times[n] - LastTime(start, times[..n]);
      if elapsed == 0 then d else Max(0, d + period - elapsed)
  }

  /** The clock does not go back. */
  ghost predicate Monotone(start: nat, times: seq<nat>) {
    forall k :: 0 <= k < |times| ==> LastTime(start, times[..k]) <= times[k]
  }

  /** One iteration of the 32-bit code is one step of the walk. */
  lemma StepIsWalk(delay: U32, period: U32, last: U32, now: U32)
    requires period < TWO31 && last <= now < last + TWO31 && delay + period < TWO32
    ensures NextDelay(delay, Adjust(period, last, now))
            == if now == last then delay else Max(0, delay + period - (now - last))
  {
    hide ToI32, ToU32;
    if now != last {
      var adjust: int := period - (now - last);
      FitsI32(period);
      FitsI32(now - last);
      FitsI32(adjust);
      if adjust >= 0 || -adjust < delay {
        FitsU32(delay + adjust);
      }
      if adjust < 0 {
        FitsU32(-adjust);
      }
    } else {
      FitsU32(delay);
    }
  }

  /** While nothing overflows the code computes the walk. */
  lemma {:induction false} CodeIsWalk(period: U32, start: U32, times: seq<U32>)
    requires period < TWO31 && Monotone(start, times)
    requires forall k :: 0 <= k < |times| ==> times[k] < LastTime(start, times[..k]) + TWO31
    requires forall k :: 0 <= k < |times| ==> WalkAfter(period, start, times[..k]) + period < TWO32
    ensures DelayAfter(period, start, times) == WalkAfter(period, start, times)
  {
    if times != [] {
      var n := |times| - 1;
      forall k | 0 <= k < n ensures times[..n][..k] == times[..k] {
      }
      CodeIsWalk(period, start, times[..n]);
      StepIsWalk(DelayAfter(period, start, times[..n]), period, LastTime(start, times[..n]), times[n]);
    }
  }

  /** `period - elapsed` for each iteration in which the clock advanced. */
  function Moves(period: nat, start: nat, times: seq<nat>): seq<int> {
    if times == [] then []
    else
      var n := |times| - 1;
      var elapsed := times[n] - LastTime(start, times[..n]);
      Moves(period, start, times[..n]) + if elapsed == 0 then [] else [period - elapsed]
  }

  /** The sum of the moves from the `j`th on. */
  function SuffixSum(xs: seq<int>, j: nat): int
    requires j <= |xs|
  {
    if j == |xs| then 0 else SuffixSum(xs[..|xs| - 1], j) + xs[|xs| - 1]
  }

  /** The delay in closed form: the largest of all suffix sums of the moves, where the
      full sum also carries the initial period. */
  lemma {:induction false} ClosedForm(period: nat, start: nat, times: seq<nat>)
    ensures var d := WalkAfter(period, start, times);
            var xs := Moves(period, start, times);
            && d >= period + SuffixSum(xs, 0)
            && (forall j: nat :: j <= |xs| ==> d >= SuffixSum(xs, j))
            && (d == period + SuffixSum(xs, 0) || exists j: nat :: j <= |xs| && d == SuffixSum(xs, j))
  {
    hide SuffixSum, WalkAfter, Moves, Max, LastTime;
    NoMoves(period, start);
    if times != [] {
      var n := |times| - 1;
      ClosedForm(period, start, times[..n]);
      WalkStep(period, start, times);
      MovesStep(period, start, times);
      var front := Moves(period, start, times[..n]);
      var elapsed := times[n] - LastTime(start, times[..n]);
      if elapsed != 0 {
        ReflectedStep(period, WalkAfter(period, start, times[..n]), front, period - elapsed);
      }
    }
  }

  lemma NoMoves(period: nat, start: nat)
    ensures Moves(period, start, []) == [] && SuffixSum([], 0) == 0 && WalkAfter(period, start, []) == period
  {
  }

  lemma MovesStep(period: nat, start: nat, times: seq<nat>)
    requires times != []
    ensures var n := |times| - 1;
            var elapsed := times[n] - LastTime(start, times[..n]);
            Moves(period, start, times)
            == if elapsed == 0 then Moves(period, start, times[..n]) else Moves(period, start, times[..n]) + [period - elapsed]
  {
    hide LastTime;
    var front := Moves(period, start, times[..|times| - 1]);
    assert front + [] == front;
  }

  /** The maximum of the suffix sums after one more move. */
  lemma ReflectedStep(period: nat, d: nat, xs: seq<int>, x: int)
    requires d >= period + SuffixSum(xs, 0)
    requires forall j: nat :: j <= |xs| ==> d >= SuffixSum(xs, j)
    requires d == period + SuffixSum(xs, 0) || exists j: nat :: j <= |xs| && d == SuffixSum(xs, j)
    ensures var d' := Max(0, d + x);
            var ys := xs + [x];
            && d' >= period + SuffixSum(ys, 0)
            && (forall j: nat :: j <= |ys| ==> d' >= SuffixSum(ys, j))
            && (d' == period + SuffixSum(ys, 0) || exists j: nat :: j <= |ys| && d' == SuffixSum(ys, j))
  {
    var ys := xs + [x];
    assert ys[..|xs|] == xs;
    forall j: nat | j <= |xs| ensures SuffixSum(ys, j) == SuffixSum(xs, j) + x {
    }
    assert SuffixSum(ys, |ys|) == 0;
    assert SuffixSum(ys, 0) == SuffixSum(xs, 0) + x;
    var d' := Max(0, d + x);
    forall j: nat | j <= |ys| ensures d' >= SuffixSum(ys, j) {
      if j <= |xs| {
        assert d >= SuffixSum(xs, j);
      }
    }
    if d + x <= 0 {
      assert exists j: nat :: j <= |ys| && d' == SuffixSum(ys, j) by {
        var j: nat := |ys|;
        assert j <= |ys| && d' == SuffixSum(ys, j);
      }
    } else if d != period + SuffixSum(xs, 0) {
      var j: nat :| j <= |xs| && d == SuffixSum(xs, j);
      assert exists k: nat :: k <= |ys| && d' == SuffixSum(ys, k) by {
        assert j <= |ys| && d' == SuffixSum(ys, j);
      }
    }
  }

  // ---------- departure times ----------

  /** How many of the iterations read a later tick than the one before. */
  function Advances(start: nat, times: seq<nat>): nat {
    if times == [] then 0
    else
      var n := |times| - 1;
      Advances(start, times[..n]) + if times[n] != LastTime(start, times[..n]) then 1 else 0
  }

  /** Each iteration after the first comes at least the delay after the one before: a
      sleep of `delay` ticks lasts no less. */
  ghost predicate Sleeps(period: nat, start: nat, times: seq<nat>) {
    forall k :: 1 <= k < |times| ==> times[k - 1] + WalkAfter(period, start, times[..k]) <= times[k]
  }

  /** Time and delay together never fall behind one period for each advance, whether or
      not anyone sleeps. */
  lemma {:induction false} NeverEarly(period: nat, start: nat, times: seq<nat>)
    requires Monotone(start, times)
    ensures LastTime(start, times) + WalkAfter(period, start, times) >= start + (Advances(start, times) + 1) * period
  {
    if times != [] {
      var n := |times| - 1;
      forall k | 0 <= k < n ensures times[..n][..k] == times[..k] && times[..n][k] == times[k] {
      }
      NeverEarly(period, start, times[..n]);
      var a := Advances(start, times[..n]);
      assert (a + 2) * period == (a + 1) * period + period;
    }
  }

  /** Rate bound: from the second iteration on, the packet that leaves at the m-th advance
      of the clock leaves no earlier than m periods after the start. */
  lemma RateBound(period: nat, start: nat, times: seq<nat>)
    requires |times| >= 2 && Monotone(start, times) && Sleeps(period, start, times)
    requires times[|times| - 1] != times[|times| - 2]
    ensures times[|times| - 1] >= start + Advances(start, times) * period
  {
    hide WalkAfter, Advances, Monotone, Sleeps, LastTime;
    var n := |times| - 1;
    MonotonePrefix(start, times, n);
    LastOfRun(start, times[..n]);
    NeverEarly(period, start, times[..n]);
    SleepOf(period, start, times, n);
    AdvancesStep(start, times);
    assert Advances(start, times) == Advances(start, times[..n]) + 1;
  }

  lemma MonotonePrefix(start: nat, times: seq<nat>, n: nat)
    requires n <= |times| && Monotone(start, times)
    ensures Monotone(start, times[..n])
  {
    hide LastTime;
    forall k | 0 <= k < n ensures LastTime(start, times[..n][..k]) <= times[..n][k] {
      assert times[..n][..k] == times[..k];
    }
  }

  lemma SleepsOfAll(period: nat, start: nat, times: seq<nat>)
    requires forall k :: 1 <= k < |times| ==> times[k - 1] + WalkAfter(period, start, times[..k]) <= times[k]
    ensures Sleeps(period, start, times)
  {
  }

  lemma SleepOf(period: nat, start: nat, times: seq<nat>, k: nat)
    requires Sleeps(period, start, times) && 1 <= k < |times|
    ensures times[k - 1] + WalkAfter(period, start, times[..k]) <= times[k]
  {
  }

  /** The delay is at most two periods, and at most one from the second iteration on. */
  lemma DelayBound(period: nat, start: nat, times: seq<nat>)
    requires Monotone(start, times) && Sleeps(period, start, times)
    ensures WalkAfter(period, start, times) <= if |times| <= 1 then 2 * period else period
  {
    if |times| == 1 {
      assert times[..0] == [];
    } else if |times| >= 2 {
      var n := |times| - 1;
      assert times[n - 1] + WalkAfter(period, start, times[..n]) <= times[n];
    }
  }

  /** With a sleep that honours the delay, no step of the 32-bit code overflows. */
  lemma {:induction false} SleepingCodeIsWalk(period: U32, start: U32, times: seq<U32>)
    requires 3 * period < TWO32 && Monotone(start, times) && Sleeps(period, start, times)
    requires forall k :: 0 <= k < |times| ==> times[k] < LastTime(start, times[..k]) + TWO31
    ensures DelayAfter(period, start, times) == WalkAfter(period, start, times)
  {
    forall k | 0 <= k < |times| ensures WalkAfter(period, start, times[..k]) + period < TWO32 {
      var front := times[..k];
      forall m | 0 <= m < k ensures front[..m] == times[..m] && front[m] == times[m] {
      }
      assert Monotone(start, front) && Sleeps(period, start, front);
      DelayBound(period, start, front);
    }
    CodeIsWalk(period, start, times);
  }

  /** Wake-up `k + 1` comes the delay and `late[k + 1]` ticks after wake-up `k`. */
  ghost predicate Wakes(period: nat, start: nat, times: seq<nat>, late: seq<nat>) {
    && |times| == |late| >= 1 && times[0] == start && late[0] == 0
    && forall k: nat :: k + 1 < |times| ==>
         times[k + 1] == times[k] + WalkAfter(period, start, times[..k + 1]) + late[k + 1]
  }

  /** No drift: if the loop starts at once and every wake-up is late by less than a period,
      packet k leaves k periods after the start plus its own lateness. The delay makes up
      for the lateness before. */
  lemma {:induction false} NoDrift(period: nat, start: nat, times: seq<nat>, late: seq<nat>)
    requires Wakes(period, start, times, late)
    requires forall k :: 0 <= k < |late| ==> late[k] < period
    ensures var n := |times| - 1;
            times[n] == start + n * period + late[n] && WalkAfter(period, start, times) == period - late[n]
  {
    hide WalkAfter;
    var n := |times| - 1;
    WalkStep(period, start, times);
    if n == 0 {
      assert times[..0] == [];
    } else {
      WakesPrefix(period, start, times, late);
      NoDrift(period, start, times[..n], late[..n]);
      assert times[..(n - 1) + 1] == times[..n];
      assert times[n] == times[n - 1] + WalkAfter(period, start, times[..n]) + late[n];
      assert n * period == (n - 1) * period + period;
    }
  }

  /** The last step of a walk. */
  lemma WalkStep(period: nat, start: nat, times: seq<nat>)
    requires times != []
    ensures var n := |times| - 1;
            var d := WalkAfter(period, start, times[..n]);
            var elapsed := times[n] - LastTime(start, times[..n]);
            && WalkAfter(period, start, times) == (if elapsed == 0 then d else Max(0, d + period - elapsed))
            && WalkAfter(period, start, []) == period
  {
  }

  lemma WakesPrefix(period: nat, start: nat, times: seq<nat>, late: seq<nat>)
    requires Wakes(period, start, times, late) && |times| >= 2
    ensures var n := |times| - 1; Wakes(period, start, times[..n], late[..n])
  {
    hide WalkAfter;
    var n := |times| - 1;
    forall k: nat | k + 1 < n
      ensures times[..n][k + 1] == times[..n][k] + WalkAfter(period, start, times[..n][..k + 1]) + late[..n][k + 1]
    {
      assert times[..n][..k + 1] == times[..k + 1];
    }
  }

  /** What the pacing does not bound: after one late wake-up the delay is zero, and every
      further packet of that tick is sent at once. Any number of packets can leave in three
      periods. */
  lemma {:induction false} Burst(period: nat, start: nat, extra: nat)
    requires period >= 1
    ensures var times := [start] + seq(extra + 1, _ => start + 3 * period);
            && Monotone(start, times) && Sleeps(period, start, times)
            && Advances(start, times) == 1 && WalkAfter(period, start, times) == 0
  {
    hide WalkAfter, Advances, Monotone, Sleeps;
    var late := start + 3 * period;
    var times := [start] + seq(extra + 1, _ => late);
    if extra == 0 {
      OneIteration(period, start);
      assert times == [start] + [late];
      ExtendRun(period, start, [start], late);
    } else {
      var front := [start] + seq(extra, _ => late);
      Burst(period, start, extra - 1);
      assert times == front + [late];
      ExtendRun(period, start, front, late);
    }
  }

  /** No wake-up is later than `bound`. */
  ghost predicate Punctual(late: seq<nat>, bound: nat) {
    forall k :: 0 <= k < |late| ==> late[k] <= bound
  }

  /** The packets sent took at least one period each, but for the last one. */
  ghost predicate InBudget(period: nat, start: nat, times: seq<nat>) {
    times != [] ==> (|times| - 1) * period <= times[|times| - 1] - start
  }

  /** The average rate is bounded in all runs whose wake-ups are late by at most `bound`
      ticks, if and only if that is less than a period. */
  lemma BudgetIffPunctual(period: nat, start: nat, bound: nat)
    requires period >= 1
    ensures (forall times, late | Wakes(period, start, times, late) && Punctual(late, bound) :: InBudget(period, start, times))
            <==> bound < period
  {
    hide WalkAfter, Wakes;
    if bound < period {
      forall times, late | Wakes(period, start, times, late) && Punctual(late, bound) ensures InBudget(period, start, times) {
        WakesNonempty(period, start, times, late);
        NoDrift(period, start, times, late);
      }
    } else {
      LateRun(period, start);
      var times, late := [start, start + 2 * period, start + 2 * period, start + 2 * period], [0, period, 0, 0];
      assert Punctual(late, bound) && !InBudget(period, start, times);
    }
  }

  lemma WakesNonempty(period: nat, start: nat, times: seq<nat>, late: seq<nat>)
    requires Wakes(period, start, times, late)
    ensures |times| == |late| >= 1
  {
  }

  /** One wake-up late by a whole period, then three packets in one tick. */
  lemma LateRun(period: nat, start: nat)
    ensures Wakes(period, start, [start, start + 2 * period, start + 2 * period, start + 2 * period], [0, period, 0, 0])
  {
    hide WalkAfter;
    var t := start + 2 * period;
    var times := [start, t, t, t];
    OneIteration(period, start);
    assert times[..1] == [start] && times[..2] == [start, t] && times[..3] == [start, t, t];
    assert [start, t][..1] == [start] && [start, t, t][..2] == [start, t];
    WalkStep(period, start, [start, t]);
    WalkStep(period, start, [start, t, t]);
  }

  /** A run whose first iteration starts at once. */
  lemma OneIteration(period: nat, start: nat)
    ensures Monotone(start, [start]) && Sleeps(period, start, [start])
    ensures WalkAfter(period, start, [start]) == period && Advances(start, [start]) == 0
  {
    var one := [start];
    assert one[..0] == [];
  }

  /** One more iteration at time `t`, once the delay is over. */
  lemma ExtendRun(period: nat, start: nat, front: seq<nat>, t: nat)
    requires front != [] && Monotone(start, front) && Sleeps(period, start, front)
    requires LastTime(start, front) + WalkAfter(period, start, front) <= t
    ensures var times := front + [t];
            var d := WalkAfter(period, start, front);
            var elapsed := t - LastTime(start, front);
            && Monotone(start, times) && Sleeps(period, start, times)
            && WalkAfter(period, start, times) == (if elapsed == 0 then d else Max(0, d + period - elapsed))
            && Advances(start, times) == Advances(start, front) + (if elapsed == 0 then 0 else 1)
  {
    hide WalkAfter, Monotone, Sleeps, Advances;
    var times := front + [t];
    assert times[..|front|] == front;
    ExtendMonotone(start, front, t);
    ExtendSleeps(period, start, front, t);
    WalkStep(period, start, times);
    AdvancesStep(start, times);
  }

  lemma ExtendMonotone(start: nat, front: seq<nat>, t: nat)
    requires Monotone(start, front) && LastTime(start, front) <= t
    ensures Monotone(start, front + [t])
  {
    var times := front + [t];
    forall k | 0 <= k < |times| ensures LastTime(start, times[..k]) <= times[k] {
      assert times[..k] == front[..k];
      assert k == |front| ==> front[..k] == front;
    }
  }

  lemma ExtendSleeps(period: nat, start: nat, front: seq<nat>, t: nat)
    requires front != [] && Sleeps(period, start, front)
    requires LastTime(start, front) + WalkAfter(period, start, front) <= t
    ensures Sleeps(period, start, front + [t])
  {
    hide WalkAfter, LastTime, Sleeps;
    var times := front + [t];
    LastOfRun(start, front);
    forall k | 1 <= k < |times| ensures times[k - 1] + WalkAfter(period, start, times[..k]) <= times[k] {
      assert times[..k] == front[..k];
      if k == |front| {
        assert front[..k] == front;
      } else {
        SleepOf(period, start, front, k);
      }
    }
    SleepsOfAll(period, start, times);
  }

  lemma LastOfRun(start: nat, times: seq<nat>)
    requires times != []
    ensures LastTime(start, times) == times[|times| - 1]
  {
  }

  lemma AdvancesStep(start: nat, times: seq<nat>)
    requires times != []
    ensures var n := |times| - 1;
            && Advances(start, times) == Advances(start, times[..n]) + (if times[n] != LastTime(start, times[..n]) then 1 else 0)
            && Advances(start, []) == 0
  {
  }

  /** Without such bursts, that is when every iteration after the first sees a later tick,
      the number of packets is bounded by the time they took. */
  lemma PacketBound(period: nat, start: nat, times: seq<nat>)
    requires |times| >= 2 && Monotone(start, times) && Sleeps(period, start, times)
    requires forall k :: 1 <= k < |times| ==> times[k - 1] < times[k]
    ensures (|times| - 1) * period <= times[|times| - 1] - start
  {
    hide WalkAfter, Advances;
    RateBound(period, start, times);
    AllAdvance(start, times);
    MulMonotone(|times| - 1, Advances(start, times), period, period);
  }

  lemma {:induction false} AllAdvance(start: nat, times: seq<nat>)
    requires forall k :: 1 <= k < |times| ==> times[k - 1] < times[k]
    ensures Advances(start, times) >= |times| - 1
  {
    if |times| >= 2 {
      AllAdvance(start, times[..|times| - 1]);
    }
  }
}
