/** The jitter estimator of udp_received against section 6.4.1 of RFC 3550. */
module Jitter {
  import opened Words
  import opened SessionTables
  import opened Receive

  /** One update with the truncating division of C. */
  function Smooth(j: int, d: int): int {
    j + TruncDiv(d - j, 16)
  }

  /** One update as the RFC states it: J := J + (|D| - J) / 16. */
  function SmoothExact(j: real, d: int): real {
    j + (d as real - j) / 16.0
  }

  /** The integer estimate after a run of samples |D|. */
  function Estimate(ds: seq<nat>): int {
    if ds == [] then 0 else Smooth(Estimate(ds[..|ds| - 1]), ds[|ds| - 1])
  }

  /** The estimate of the RFC after the same samples. */
  function Exact(ds: seq<nat>): real {
    if ds == [] then 0.0 else SmoothExact(Exact(ds[..|ds| - 1]), ds[|ds| - 1])
  }

  function AbsReal(x: real): real {
    if x < 0.0 then -x else x
  }

  function Abs(x: int): nat {
    if x < 0 then -x else x
  }

  /** Truncation is off by at most 15/16. */
  lemma TruncationError(x: int)
    ensures var e := TruncDiv(x, 16) as real - x as real / 16.0; -15.0 / 16.0 <= e <= 15.0 / 16.0
  {
    if x >= 0 {
      var q, r := x / 16, x % 16;
      assert x == 16 * q + r;
      assert x as real == 16.0 * q as real + r as real;
    } else {
      var q, r := -x / 16, -x % 16;
      assert -x == 16 * q + r;
      assert x as real == -(16.0 * q as real + r as real);
    }
  }

  /** One step keeps an error of 15 at most 15, because 15/16 * (15 + 1) = 15. */
  lemma StepStaysClose(j: int, x: real, d: int)
    requires AbsReal(j as real - x) <= 15.0
    ensures AbsReal(Smooth(j, d) as real - SmoothExact(x, d)) <= 15.0
  {
    TruncationError(d - j);
    var e := j as real - x;
    var err := TruncDiv(d - j, 16) as real - (d - j) as real / 16.0;
    assert (d - j) as real == d as real - j as real;
    assert Smooth(j, d) as real == j as real + TruncDiv(d - j, 16) as real;
    assert Smooth(j, d) as real - SmoothExact(x, d) == e * 15.0 / 16.0 + err;
  }

  /** However long the run, the integer estimate stays within 15 of the RFC's. */
  lemma {:induction false} TracksRfc3550(ds: seq<nat>)
    ensures AbsReal(Estimate(ds) as real - Exact(ds)) <= 15.0
  {
    if ds != [] {
      var front := ds[..|ds| - 1];
      TracksRfc3550(front);
      StepStaysClose(Estimate(front), Exact(front), ds[|ds| - 1]);
    }
  }

  /** The estimate lies between zero and any bound on the samples. */
  lemma {:induction false} EstimateRange(ds: seq<nat>, bound: nat)
    requires forall i :: 0 <= i < |ds| ==> ds[i] <= bound
    ensures 0 <= Estimate(ds) <= bound
  {
    if ds != [] {
      EstimateRange(ds[..|ds| - 1], bound);
    }
  }

  /** Against a constant sample the gap never grows, and shrinks while it is above 15. */
  lemma GapShrinks(j: int, d: int)
    ensures Abs(d - Smooth(j, d)) <= Abs(d - j)
    ensures Abs(d - Smooth(j, d)) < Abs(d - j) <==> Abs(d - j) > 15
  {
  }

  /** `k` updates with the same sample. */
  function Repeated(j: int, d: int, k: nat): int {
    if k == 0 then j else Smooth(Repeated(j, d, k - 1), d)
  }

  /** A steady sample is reached to within 15 after as many updates as the gap was wide,
      and never left again. */
  lemma {:induction false} Settles(j: int, d: int, k: nat)
    ensures Abs(d - Repeated(j, d, k)) <= 15 || Abs(d - Repeated(j, d, k)) <= Abs(d - j) - k
    ensures k >= Abs(d - j) ==> Abs(d - Repeated(j, d, k)) <= 15
  {
    if k > 0 {
      Settles(j, d, k - 1);
      GapShrinks(Repeated(j, d, k - 1), d);
    }
  }

  // ---------- the session's own jitter field ----------

  /** The samples a session forms from the transit times it saw. A transit of zero is
      taken for "no previous datagram" and drops the sample after it. */
  function Samples(ts: seq<I32>): seq<I32> {
    if |ts| <= 1 then []
    else
      var n := |ts| - 1;
      Samples(ts[..n]) + if ts[n - 1] == 0 then [] else [Sample(ts[n - 1], ts[n])]
  }

  /** The jitter bookkeeping of a session over the transit times it saw. */
  function CountTransits(f: Figures, ts: seq<I32>): Figures {
    if ts == [] then f else CountTransit(CountTransits(f, ts[..|ts| - 1]), ts[|ts| - 1])
  }

  /** No sample is the one whose absolute value overflows. */
  ghost predicate NoOverflow(ts: seq<I32>) {
    forall i :: 0 <= i < |Samples(ts)| ==> Samples(ts)[i] >= 0
  }

  /** One update in wrapped 32-bit arithmetic is the integer update. */
  lemma SessionStep(f: Figures, transit: I32)
    requires f.jitter >= 0 && f.lastTransit != 0 && Sample(f.lastTransit, transit) >= 0
    ensures CountTransit(f, transit).jitter == Smooth(f.jitter, Sample(f.lastTransit, transit))
  {
    var d: int := Sample(f.lastTransit, transit);
    var j: int := f.jitter;
    hide Sample, ToI32;
    FitsI32(d - j);
    SmoothBetween(j, d);
    FitsI32(Smooth(j, d));
  }

  lemma SmoothBetween(j: nat, d: nat)
    ensures 0 <= Smooth(j, d) && (Smooth(j, d) <= j || Smooth(j, d) <= d)
  {
  }

  /** What the last transit adds to the samples. */
  lemma SamplesStep(ts: seq<I32>)
    requires ts != []
    ensures var n := |ts| - 1;
            && (NoOverflow(ts) ==> NoOverflow(ts[..n]))
            && (n == 0 || ts[n - 1] == 0 ==> Samples(ts) == Samples(ts[..n]))
            && (n > 0 && ts[n - 1] != 0 ==>
                  && Samples(ts) == Samples(ts[..n]) + [Sample(ts[n - 1], ts[n])]
                  && (NoOverflow(ts) ==> Sample(ts[n - 1], ts[n]) >= 0))
  {
    hide Sample;
    var n := |ts| - 1;
    var front := Samples(ts[..n]);
    assert n == 0 || ts[n - 1] == 0 ==> front + [] == front;
    assert forall i :: 0 <= i < |front| ==> front[i] == Samples(ts)[i];
    if n > 0 && ts[n - 1] != 0 {
      assert Samples(ts)[|front|] == Sample(ts[n - 1], ts[n]);
    }
  }

  /** The wrapped 32-bit arithmetic of a session computes the integer estimate. */
  lemma {:induction false} SessionJitter(f: Figures, ts: seq<I32>)
    requires f.jitter == 0 && f.lastTransit == 0 && NoOverflow(ts)
    ensures CountTransits(f, ts).jitter == Estimate(Samples(ts)) >= 0
    ensures CountTransits(f, ts).lastTransit == if ts == [] then 0 else ts[|ts| - 1]
  {
    hide Sample, Smooth;
    if ts != [] {
      var n := |ts| - 1;
      SamplesStep(ts);
      SessionJitter(f, ts[..n]);
      var g := CountTransits(f, ts[..n]);
      EstimateRange(Samples(ts), TWO31 - 1);
      if n > 0 && ts[n - 1] != 0 {
        SessionStep(g, ts[n]);
        assert Samples(ts)[..|Samples(ts)| - 1] == Samples(ts[..n]);
      }
    }
  }
}
