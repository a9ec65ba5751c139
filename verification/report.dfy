/** What the figures of a finished UDP session mean. */
module UdpFigures {
  import opened Words
  import opened Kernel
  import opened Wire
  import opened SessionTables
  import opened Receive
  import opened Demux
  import opened Sequence
  import opened Jitter

  /** The sequence numbers of data datagrams, in order of arrival. */
  function Ids(ins: seq<Input>): (ids: seq<nat>)
    requires AllData(Udp, ins)
    ensures |ids| == |ins| && forall i :: 0 <= i < |ids| ==> ids[i] == Header(ins[i].data).id
  {
    seq(|ins|, i requires 0 <= i < |ins| => Header(ins[i].data).id as nat)
  }

  /** The transit times of data datagrams. */
  function Transits(rate: nat, ins: seq<Input>): (ts: seq<I32>)
    requires rate > 0 && AllData(Udp, ins)
    ensures |ts| == |ins|
  {
    seq(|ins|, i requires 0 <= i < |ins| => Transit(rate, ins[i].time, Header(ins[i].data)))
  }

  /** The bytes received. */
  function Bytes(ins: seq<Input>): nat {
    if ins == [] then 0 else Bytes(ins[..|ins| - 1]) + |ins[|ins| - 1].data|
  }

  /** The session fields that hold a tally. Only `nextId` never wraps. */
  ghost predicate Holds(f: Figures, t: Tally) {
    && f.counter == ToU32(t.counter) && f.nextId == t.nextId
    && f.outorder == ToU32(t.outorder) && f.error == ToU32(t.error)
  }

  /** The 32-bit sequence check keeps the tally. */
  lemma CountIdHolds(f: Figures, t: Tally, id: nat)
    requires Holds(f, t) && id < TWO31 && t.nextId <= TWO31
    ensures Holds(CountId(f.(counter := ToU32(f.counter + 1)), id), Note(t, id))
  {
    WordSum(t.counter, 1);
    WordSum(t.outorder, 1);
    WordSum(t.error, id - t.nextId);
  }

  /** The fold over any number of data datagrams, field by field. */
  lemma {:induction false} FoldMeaning(rate: nat, start: U32, ins: seq<Input>)
    requires rate > 0 && AllData(Udp, ins)
    ensures var f := Fold(Udp, rate, FRESH.(startTime := start), ins);
            var j := CountTransits(FRESH, Transits(rate, ins));
            && Holds(f, TallyOf(Ids(ins))) && TallyOf(Ids(ins)).nextId <= TWO31
            && f.length == ToU64(Bytes(ins)) && f.startTime == start
            && f.jitter == j.jitter && f.lastTransit == j.lastTransit
  {
    hide Transit, Header, Sample, Count, CountTransit, Note, Ends, Heard;
    if ins != [] {
      var n := |ins| - 1;
      var d := ins[n];
      var front := ins[..n];
      assert AllData(Udp, front) && !Ends(Udp, d) by {
        assert forall i :: 0 <= i < n ==> front[i] == ins[i];
      }
      FoldMeaning(rate, start, front);
      assert Ids(ins)[..n] == Ids(front);
      assert Transits(rate, ins)[..n] == Transits(rate, front);
      var f := Fold(Udp, rate, FRESH.(startTime := start), front);
      DatagramMeaning(rate, f, TallyOf(Ids(front)), CountTransits(FRESH, Transits(rate, front)), d, Bytes(front));
    }
  }

  /** One data datagram, field by field. */
  lemma DatagramMeaning(rate: nat, f: Figures, t: Tally, j: Figures, d: Input, bytes: nat)
    requires rate > 0 && Heard(Udp, d) && !Ends(Udp, d)
    requires Holds(f, t) && t.nextId <= TWO31 && f.length == ToU64(bytes)
    requires f.jitter == j.jitter && f.lastTransit == j.lastTransit
    ensures var id := Header(d.data).id;
            var f' := Count(Udp, rate, f, d);
            var j' := CountTransit(j, Transit(rate, d.time, Header(d.data)));
            && Holds(f', Note(t, id)) && Note(t, id).nextId <= TWO31
            && f'.length == ToU64(bytes + |d.data|) && f'.startTime == f.startTime
            && f'.jitter == j'.jitter && f'.lastTransit == j'.lastTransit
  {
    hide Transit, Header, Sample, ToU32, ToU64, ToI32, TruncDiv;
    CountIdHolds(f, t, Header(d.data).id);
    LongSum(bytes, |d.data|);
  }

  /** The fold over a finished session's data datagrams. */
  function SessionFold(rate: nat, start: U32, own: seq<Input>): Figures
    requires rate > 0 && AllData(Udp, own)
  {
    Fold(Udp, rate, FRESH.(startTime := start), own)
  }

  /** `call` tells a UDP peer about its own data datagrams: their number, their bytes,
      their losses and reorderings, their jitter. When their number is a multiple of 2^32,
      zero included, the server divides by zero instead. */
  ghost predicate Tells(call: Output, rate: nat, start: U32, own: seq<Input>, last: Input)
    requires rate > 0 && AllData(Udp, own)
  {
    var t := TallyOf(Ids(own));
    var f := SessionFold(rate, start, own);
    && t.error < TWO31
    && (NoOverflow(Transits(rate, own)) ==> f.jitter == Estimate(Samples(Transits(rate, own))))
    && call == if ToU32(|own|) == 0 then DivisionFault
               else Finished(Results(ToU32(|own|), t.error, ToU32(t.outorder), ToU32(Bytes(own)),
                                     MicrosBetween(rate, start, last.time), ToU32(f.jitter),
                                     ToU32(ToU64(Bytes(own)) / ToU32(|own|))))
  }

  /** The closing callback of a fold tells about the folded datagrams. */
  lemma FoldTells(rate: nat, start: U32, own: seq<Input>, last: Input)
    requires rate > 0 && AllData(Udp, own)
    ensures Tells(Report(Udp, rate, SessionFold(rate, start, own), last), rate, start, own, last)
  {
    hide Fold, Transits, TallyOf, Elapsed, MicrosBetween, NoOverflow, Ids, Samples, Estimate, CountTransits, Bytes, AllData, ToU32, ToU64;
    FoldMeaning(rate, start, own);
    ElapsedIsTime(rate, start, last.time);
    Conservation(Ids(own));
    FitsU32(TallyOf(Ids(own)).error);
    if NoOverflow(Transits(rate, own)) {
      SessionJitter(FRESH, Transits(rate, own));
    }
    WordOfLong(Bytes(own));
  }

  /** When a UDP session closes, the one callback tells the peer about its own data
      datagrams since the session started, whatever else the server received. */
  lemma UdpReportMeaning(sv: Server, ds: seq<Input>, p: Address, n: nat)
    requires sv.Quiet(p) && IpTraffic(ds) && sv.proto.Udp? && n < |ds| && ds[n].addr == p && ClosesAt(sv, ds, n)
    ensures OpenSince(sv, ds[..n], p).Some? && OpenSince(sv, ds[..n], p).value < n
    ensures ReportTells(sv, ds, p, OpenSince(sv, ds[..n], p).value, n)
  {
    hide Callbacks, OutputsAt, TableAfter, OpenSince, Own, AllData, Fold, Tells, Report, View, IpTraffic, ClosesAt;
    Demultiplexed(sv, ds, p, n);
    var s := OpenSince(sv, ds[..n], p).value;
    FoldTells(sv.rate, ds[s].time, Own(Udp, ds[s + 1..n], p), ds[n]);
  }

  /** The single callback of input `n` tells about `p`'s datagrams after input `s`. */
  ghost predicate ReportTells(sv: Server, ds: seq<Input>, p: Address, s: nat, n: nat)
    requires sv.rate > 0 && s < n < |ds|
  {
    var own := Own(Udp, ds[s + 1..n], p);
    var calls := Callbacks(OutputsAt(sv, ds, n));
    AllData(Udp, own) && |calls| == 1 && Tells(calls[0], sv.rate, ds[s].time, own, ds[n])
  }

  /** What told losses and reorderings say about the ids that never came, for a session
      of fewer than 2^32 datagrams. */
  lemma ToldLosses(call: Output, rate: nat, start: U32, own: seq<Input>, last: Input)
    requires rate > 0 && AllData(Udp, own) && 0 < |own| < TWO32 && Tells(call, rate, start, own, last)
    ensures call.Finished? && call.results.rcvd == |own|
    ensures call.results.lost - call.results.outorder <= |Missing(Ids(own))| <= call.results.lost
    ensures |Missing(Ids(own))| == call.results.lost - call.results.outorder <==> AllUseful(Ids(own))
    ensures call.results.rcvd + call.results.lost == call.results.outorder + Largest(Ids(own))
  {
    hide SessionFold, Transits, TallyOf, MicrosBetween, NoOverflow, Ids, Samples, Estimate, Bytes, AllData, Missing, AllUseful, ToU32, ToU64, Largest;
    Conservation(Ids(own));
    FitsU32(|own|);
    FitsU32(TallyOf(Ids(own)).outorder);
    LossBracket(Ids(own));
  }

  /** In every reachable session the counters balance, modulo 2^32 in general and exactly
      below that many datagrams, and `nextId` follows the largest id. */
  lemma SessionConservation(sv: Server, ds: seq<Input>, p: Address)
    requires sv.Quiet(p) && IpTraffic(ds) && sv.proto.Udp? && View(TableAfter(sv, ds), p).Some?
    ensures OpenSince(sv, ds, p).Some?
    ensures var own := Own(Udp, ds[OpenSince(sv, ds, p).value + 1..], p);
            AllData(Udp, own) && Balanced(View(TableAfter(sv, ds), p).value, own)
  {
    hide Callbacks, OutputsAt, TableAfter, OpenSince, Own, AllData, Fold, View, IpTraffic, Balanced;
    OwnFold(sv, ds, p);
    var s := OpenSince(sv, ds, p).value;
    FoldBalanced(sv.rate, ds[s].time, Own(Udp, ds[s + 1..], p));
  }

  ghost predicate Balanced(f: Figures, own: seq<Input>)
    requires AllData(Udp, own)
  {
    && ToU32(f.counter + f.error) == ToU32(f.outorder + f.nextId - 1)
    && (|own| < TWO32 ==> f.counter + f.error == f.outorder + f.nextId - 1)
    && f.nextId == 1 + Largest(Ids(own))
  }

  lemma FoldBalanced(rate: nat, start: U32, own: seq<Input>)
    requires rate > 0 && AllData(Udp, own)
    ensures Balanced(SessionFold(rate, start, own), own)
  {
    hide Fold, Transits, TallyOf, Ids, CountTransits, Bytes, AllData, ToU32, Holds;
    FoldMeaning(rate, start, own);
    Conservation(Ids(own));
    HeldBalance(SessionFold(rate, start, own), TallyOf(Ids(own)));
  }

  lemma HeldBalance(f: Figures, t: Tally)
    requires Holds(f, t) && t.nextId >= 1
    requires t.counter + t.error == t.outorder + t.nextId - 1 && t.outorder <= t.counter && t.error < TWO31
    ensures f.nextId == t.nextId && ToU32(f.counter + f.error) == ToU32(f.outorder + f.nextId - 1)
    ensures t.counter < TWO32 ==> f.counter + f.error == f.outorder + f.nextId - 1
  {
    hide ToU32;
    FitsU32(t.error);
    WordBalance(t.counter, t.error, t.outorder, t.nextId - 1);
    if t.counter < TWO32 {
      FitsU32(t.counter);
      FitsU32(t.outorder);
    }
  }
}
