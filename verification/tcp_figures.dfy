/** What is reported when a TCP session closes. */
module TcpFigures {
  import opened Words
  import opened Kernel
  import opened SessionTables
  import opened Receive
  import opened Demux
  import opened UdpFigures

  /** The length of a TCP session is its bytes, however the stream was cut into chunks. */
  lemma {:induction false} ChunkFold(rate: nat, f: Figures, own: seq<Input>)
    requires rate > 0 && AllData(Tcp, own)
    ensures var g := Fold(Tcp, rate, f, own);
            g.length == ToU64(f.length + Bytes(own)) && g.startTime == f.startTime
  {
    if own != [] {
      var n := |own| - 1;
      assert AllData(Tcp, own[..n]) by {
        assert forall i :: 0 <= i < n ==> own[..n][i] == own[i];
      }
      ChunkFold(rate, f, own[..n]);
      LongSum(f.length + Bytes(own[..n]), |own[n].data|);
    }
  }

  /** The closing callback of a TCP session of `total` bytes. */
  function Total(total: nat, duration: U32): Output {
    Finished(Results(0, 0, 0, ToU32(total), duration, 0, 0))
  }

  /** When a TCP session closes, the peer's byte total is reported modulo 2^32, with the
      time since the session's first chunk. */
  lemma TcpReportMeaning(sv: Server, ds: seq<Input>, p: Address, n: nat)
    requires sv.Quiet(p) && IpTraffic(ds) && sv.proto.Tcp? && n < |ds| && ds[n].addr == p && ClosesAt(sv, ds, n)
    ensures ds[n].data == []
    ensures match OpenSince(sv, ds[..n], p)
            case Some(s) =>
              s < n
              && Callbacks(OutputsAt(sv, ds, n))
                 == [Total(|ds[s].data| + Bytes(Own(Tcp, ds[s + 1..n], p)), MicrosBetween(sv.rate, ds[s].again, ds[n].time))]
            case None =>
              Callbacks(OutputsAt(sv, ds, n)) == [Started, Total(0, MicrosBetween(sv.rate, ds[n].again, ds[n].time))]
  {
    hide Callbacks, OutputsAt, TableAfter, OpenSince, Own, Fold, View, IpTraffic, ClosesAt, Bytes, MicrosBetween, AllData,
      Report, Opening, Total;
    Demultiplexed(sv, ds, p, n);
    var o := OpenSince(sv, ds[..n], p);
    if o.Some? {
      ClosingChunk(sv.rate, ds[o.value], Own(Tcp, ds[o.value + 1..n], p), ds[n]);
    } else {
      OnlyChunk(sv.rate, ds[n]);
    }
  }

  /** The report of a fold of chunks, closed by an empty one. */
  lemma ClosingChunk(rate: nat, first: Input, own: seq<Input>, last: Input)
    requires rate > 0 && AllData(Tcp, own) && last.data == []
    ensures Report(Tcp, rate, Fold(Tcp, rate, Opening(Tcp, first), own), last)
            == Total(|first.data| + Bytes(own), MicrosBetween(rate, first.again, last.time))
  {
    hide Fold, Elapsed, MicrosBetween, Bytes, AllData;
    ElapsedIsTime(rate, first.again, last.time);
    ChunkFold(rate, Opening(Tcp, first), own);
    var x := |first.data| + Bytes(own);
    LongSum(|first.data|, Bytes(own));
    WordOfLong(x);
  }

  lemma OnlyChunk(rate: nat, last: Input)
    requires rate > 0 && last.data == []
    ensures Report(Tcp, rate, FRESH.(startTime := last.again), last) == Total(0, MicrosBetween(rate, last.again, last.time))
  {
    hide Elapsed, MicrosBetween;
    ElapsedIsTime(rate, last.again, last.time);
  }
}
