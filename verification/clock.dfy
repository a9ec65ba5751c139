/** The timestamps of a datagram: a microsecond clock split by the sender, put together
    modulo 2^32 by the receiver, and differenced into jitter samples. */
module Clock {
  import opened Words
  import opened Kernel
  import opened Wire
  import opened Receive

  /** The header udp_upload fills in from its microsecond clock. */
  function Stamp(id: I32, usecs64: U64): Datagram {
    var secs := ToU32(usecs64 / USEC_PER_SEC);
    Datagram(id, secs, ToU32(ToU64(usecs64 - secs * USEC_PER_SEC)))
  }

  /** The header shows whole seconds and the microseconds left over. */
  lemma StampSplits(id: I32, usecs64: U64)
    requires usecs64 < TWO32 * USEC_PER_SEC
    ensures var d := Stamp(id, usecs64);
            d.id == id && d.tvUsec < USEC_PER_SEC && d.tvSec * USEC_PER_SEC + d.tvUsec == usecs64
  {
    FitsU32(usecs64 / USEC_PER_SEC);
  }

  /** The receiver recovers the sender's clock modulo 2^32, whatever the clock shows. */
  lemma ClockRecombines(id: I32, usecs64: U64)
    ensures SentAt(Stamp(id, usecs64)) == ToU32(usecs64)
  {
    var secs := ToU32(usecs64 / USEC_PER_SEC);
    var x := usecs64 - secs * USEC_PER_SEC;
    SameWord(ToU64(x), x, -(x / TWO64) * TWO32);
    WordSum(secs * USEC_PER_SEC, ToU32(x));
    WordSum(x, secs * USEC_PER_SEC);
    assert ToU32(secs * USEC_PER_SEC + ToU32(x)) == ToU32(ToU32(x) + secs * USEC_PER_SEC);
  }

  /** time_delta is the modular difference if and only if it takes its first branch; the
      second one falls short by one. */
  lemma TimeDeltaExact(ts: U32, t: U32)
    ensures TimeDelta(ts, t) == ToU32(t - ts) <==> t >= ts
    ensures t < ts ==> TimeDelta(ts, t) == ToU32(t - ts) - 1
  {
  }

  /** By how much time_delta falls short: `r` is the receiver's clock, `s` the sender's. */
  function Shortfall(s: U32, r: U32): nat {
    if s >= r then 0 else 1
  }

  /** A transit time is the difference of the two clocks, less the shortfall of time_delta,
      up to a multiple of 2^32. */
  lemma TransitIsDifference(s: int, r: int) returns (k: int)
    ensures ToI32(TimeDelta(ToU32(r), ToU32(s))) == s - r - Shortfall(ToU32(s), ToU32(r)) + k * TWO32
  {
    var qs, qr := s / TWO32, r / TWO32;
    assert ToU32(s) == s - qs * TWO32 && ToU32(r) == r - qr * TWO32;
    var b := Shortfall(ToU32(s), ToU32(r));
    var t: int := TimeDelta(ToU32(r), ToU32(s));
    assert t == s - r - b + (qr - qs + b) * TWO32;
    assert t % TWO32 == t;
    k := qr - qs + b + if t < TWO31 then 0 else -1;
  }

  function Abs(x: int): nat {
    if x < 0 then -x else x
  }

  /** A sample is the difference between the spacings at which two datagrams were sent and
      received, but for the shortfalls of the two transit times. */
  lemma SampleIsSpacing(s1: int, s2: int, r1: int, r2: int)
    requires -TWO31 + 2 <= (s2 - s1) - (r2 - r1) <= TWO31 - 2
    ensures Sample(ToI32(TimeDelta(ToU32(r1), ToU32(s1))), ToI32(TimeDelta(ToU32(r2), ToU32(s2))))
            == Abs((s2 - s1) - (r2 - r1) - (Shortfall(ToU32(s2), ToU32(r2)) - Shortfall(ToU32(s1), ToU32(r1))))
  {
    hide ToU32, ToI32, TimeDelta, Sample;
    var k1 := TransitIsDifference(s1, r1);
    var k2 := TransitIsDifference(s2, r2);
    SampleOfDifference(ToI32(TimeDelta(ToU32(r1), ToU32(s1))), ToI32(TimeDelta(ToU32(r2), ToU32(s2))),
                       (s2 - s1) - (r2 - r1) - (Shortfall(ToU32(s2), ToU32(r2)) - Shortfall(ToU32(s1), ToU32(r1))), k2 - k1);
  }

  /** A sample is the absolute difference of its transits modulo 2^32, when that fits. */
  lemma SampleOfDifference(t1: I32, t2: I32, y: int, k: int)
    requires -TWO31 < y < TWO31 && t2 - t1 == y + k * TWO32
    ensures Sample(t1, t2) == Abs(y)
  {
    SameWord(t2 - t1, y, k);
    FitsI32(y);
    FitsI32(-y);
  }

  /** The difference between the spacings of two datagrams: the sender's clock shows `x1`,
      `x2` microseconds when they leave, the receiver counts ticks `r1`, `r2` on arrival. */
  function SpacingChange(rate: nat, x1: int, x2: int, r1: U32, r2: U32): int
    requires rate > 0
  {
    (x2 - x1) - (r2 * USEC_PER_SEC / rate - r1 * USEC_PER_SEC / rate)
  }

  /** time_delta falls short for a datagram stamped `x` that arrives in tick `r`. */
  predicate Short(rate: nat, x: U64, r: U32)
    requires rate > 0
  {
    ToU32(x) < TicksToUs32(rate, r)
  }

  /** The sample a session forms from two stamped datagrams does not depend on a constant
      `offset` between the two hosts' clocks, to within one: it is the change of the spacing
      exactly when time_delta falls short for both datagrams or for neither, and is off by
      one otherwise. */
  lemma OffsetIndependence(rate: nat, offset: int, x1: int, x2: int, r1: U32, r2: U32, id1: I32, id2: I32)
    requires rate > 0 && 0 <= offset + x1 < TWO64 && 0 <= offset + x2 < TWO64
    requires -TWO31 + 2 <= SpacingChange(rate, x1, x2, r1, r2) <= TWO31 - 2
    ensures var x := SpacingChange(rate, x1, x2, r1, r2);
            var d := Sample(Transit(rate, r1, Stamp(id1, offset + x1)), Transit(rate, r2, Stamp(id2, offset + x2)));
            && (d == Abs(x) <==> (Short(rate, offset + x1, r1) <==> Short(rate, offset + x2, r2)))
            && (d != Abs(x) ==> d == Abs(x + if Short(rate, offset + x1, r1) then 1 else -1))
            && Abs(x) - 1 <= d <= Abs(x) + 1
  {
    hide ToU32, ToI32, TimeDelta, Sample;
    ClockRecombines(id1, offset + x1);
    ClockRecombines(id2, offset + x2);
    SampleIsSpacing(offset + x1, offset + x2, r1 * USEC_PER_SEC / rate, r2 * USEC_PER_SEC / rate);
  }

  /** A sample that is off: on a millisecond tick two datagrams leave 1 ms apart and arrive
      2 ms apart, and the sample is 1001 microseconds. */
  lemma OffByOne()
    ensures SpacingChange(1000, 10_500, 11_500, 10, 12) == -1000
    ensures Sample(Transit(1000, 10, Stamp(1, 10_500)), Transit(1000, 12, Stamp(2, 11_500))) == 1001
  {
    hide Stamp, Transit, Sample, TicksToUs32;
    MillisecondTick(10);
    MillisecondTick(12);
    OffsetIndependence(1000, 0, 10_500, 11_500, 10, 12, 1, 2);
  }
}
