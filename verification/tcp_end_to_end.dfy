/** Uploader and TCP server together: the total that is reported for an upload, however the
    stream is cut into chunks and whoever else is connected. */
module TcpEndToEnd {
  import opened Words
  import opened Kernel
  import opened SessionTables
  import opened Receive
  import opened Demux
  import opened UdpFigures
  import opened TcpFigures
  import opened TcpUploader
  import opened EndToEnd
  import TcpServer
  import TcpSafety
  import TcpRun

  /** All that `p` sends is data. */
  ghost predicate NoEnd(ds: seq<Input>, p: Address) {
    forall k :: 0 <= k < |ds| && ds[k].addr == p ==> ds[k].data != []
  }

  /** The session of a connection that was never refused and has not ended holds the number
      of its bytes. */
  lemma {:induction false} StreamProgress(sv: Server, ds: seq<Input>, p: Address)
    requires sv.Quiet(p) && IpTraffic(ds) && sv.proto.Tcp? && Admitted(sv, ds, p) && NoEnd(ds, p)
    ensures var (own, v) := (Own(Tcp, ds, p), View(TableAfter(sv, ds), p));
            if own == [] then v == None
            else v.Some? && v.value.length == ToU64(Bytes(own)) && v.value.startTime == own[0].again
  {
    hide Step, View, UniqueKeys, Callbacks, ToU64, Count, Opening, Solo, Bytes, AllData, InSession;
    if ds != [] {
      var n := |ds| - 1;
      var front, d := ds[..n], ds[n];
      var own := Own(Tcp, front, p);
      AdmittedPrefix(sv, ds, p);
      StreamProgress(sv, front, p);
      OwnFold(sv, front, p);
      StepSeenBy(Tcp, sv.rate, TableAfter(sv, front), d, p);
      if d.addr == p {
        assert OutputsAt(sv, ds, n) == Step(Tcp, sv.rate, TableAfter(sv, front), d).1;
        DataStep(Tcp, sv.rate, TableAfter(sv, front), d);
        GrowStream(sv.rate, View(TableAfter(sv, front), p), own, d);
        assert Own(Tcp, ds, p) == own + [d];
      } else {
        assert Own(Tcp, ds, p) == own;
      }
    }
  }

  /** One more chunk of a stream. */
  lemma GrowStream(rate: nat, v: Option<Figures>, own: seq<Input>, d: Input)
    requires rate > 0
    requires if own == [] then v == None else v.Some? && v.value.length == ToU64(Bytes(own)) && v.value.startTime == own[0].again
    ensures var f := if v.Some? then Count(Tcp, rate, v.value, d) else Opening(Tcp, d);
            f.length == ToU64(Bytes(own + [d])) && f.startTime == (own + [d])[0].again
  {
    hide ToU64;
    assert (own + [d])[..|own|] == own;
    NoBytes();
    LongSum(Bytes(own), |d.data|);
  }

  lemma NoBytes()
    ensures Bytes([]) == 0 && ToU64(0) == 0
  {
  }

  /** An empty chunk closes the session, or opens and closes one. */
  lemma EmptyChunk(rate: nat, slots: seq<Session>, d: Input)
    requires rate > 0 && d.data == [] && !d.addr.Unspecified? && UniqueKeys(slots)
    requires View(slots, d.addr).None? ==> Step(Tcp, rate, slots, d).1 != [Refused]
    ensures var v := View(slots, d.addr);
            var f := if v.Some? then v.value else FRESH.(startTime := d.again);
            Step(Tcp, rate, slots, d).1
            == (if v.Some? then [] else [Started]) + [TcpReport(CountChunk(f, d), Elapsed(rate, f.startTime, d.time))]
  {
    if View(slots, d.addr).None? && Lookup(slots, d.addr).Some? {
      ClaimKeepsViews(slots, d.addr, d.addr);
      IdleSlot(slots, d.addr);
    }
  }

  /** The slot a peer without a session is given is idle. */
  lemma IdleSlot(slots: seq<Session>, a: Address)
    requires View(slots, a).None? && Lookup(slots, a).Some?
    ensures !Claim(slots, a)[Lookup(slots, a).value].phase.Ongoing?
  {
  }

  /** The whole upload. The connection of `p` carries the stream of an upload, cut into
      chunks anyhow, and ends at input `n`. If the server refused no chunk, it reports all
      bytes of the uploader's whole packets and prefixes, modulo 2^32, and the time since the
      first chunk. */
  lemma StreamIsReported(sv: Server, ds: seq<Input>, p: Address, n: nat, net: Stack, size: nat, rounds: seq<Round>)
    requires sv.Quiet(p) && IpTraffic(ds) && sv.proto.Tcp? && n < |ds| && ds[n].addr == p && ds[n].data == []
    requires NoEnd(ds[..n], p) && Admitted(sv, ds[..n + 1], p)
    requires Rounds(net, size, rounds) && Bytes(Own(Tcp, ds[..n], p)) == TotalTaken(rounds)
    ensures var own := Own(Tcp, ds[..n], p);
            var start := if own == [] then ds[n].again else own[0].again;
            OutputsAt(sv, ds, n)
            == (if own == [] then [Started] else [])
               + [Total(Whole(rounds) * size + Sum(Prefixes(rounds)), MicrosBetween(sv.rate, start, ds[n].time))]
  {
    hide Step, View, UniqueKeys, TableAfter, Own, Elapsed, MicrosBetween, Sum, Whole, Prefixes, TotalTaken, Rounds, Bytes,
      Admitted, Total, TcpReport, CountChunk;
    var before, own := TableAfter(sv, ds[..n]), Own(Tcp, ds[..n], p);
    assert ds[..n + 1][..n] == ds[..n];
    AdmittedPrefix(sv, ds[..n + 1], p);
    StreamProgress(sv, ds[..n], p);
    OwnFold(sv, ds[..n], p);
    AdmittedLast(sv, ds, p, n);
    EmptyChunk(sv.rate, before, ds[n]);
    ElapsedIsTime(sv.rate, if own == [] then ds[n].again else own[0].again, ds[n].time);
    NoBytes();
    FinalCount(if own == [] then FRESH.(startTime := ds[n].again) else View(before, p).value, own, ds[n],
               Elapsed(sv.rate, if own == [] then ds[n].again else own[0].again, ds[n].time));
    RoundsAccount(net, size, rounds);
  }

  lemma AdmittedLast(sv: Server, ds: seq<Input>, p: Address, n: nat)
    requires sv.rate > 0 && sv.proto.Tcp? && n < |ds| && Admitted(sv, ds[..n + 1], p) && ds[n].addr == p
    ensures Own(Tcp, ds[..n], p) == [] ==> OutputsAt(sv, ds, n) != [Refused]
  {
    hide Step, TableAfter, Own;
    assert ds[..n + 1][..n] == ds[..n];
    assert OutputsAt(sv, ds[..n + 1], n) == OutputsAt(sv, ds, n);
  }

  /** The total of a session that counted `own` and then an empty chunk. */
  lemma FinalCount(f: Figures, own: seq<Input>, d: Input, duration: U32)
    requires f.length == ToU64(Bytes(own)) && d.data == []
    ensures TcpReport(CountChunk(f, d), duration) == Total(Bytes(own), duration)
  {
    hide ToU32, ToU64, Bytes;
    LongSum(Bytes(own), 0);
    WordOfLong(Bytes(own));
  }

  /** A peer that no chunk of which was refused was admitted. */
  lemma NoneRefusedAdmits(sv: Server, ds: seq<Input>, n: nat, p: Address)
    requires sv.rate > 0 && n <= |ds| && TcpRun.NoneRefused(sv, ds)
    ensures Admitted(sv, ds[..n], p)
  {
    hide Step, TableAfter, Own, Heard;
    forall k | 0 <= k < n ensures OutputsAt(sv, ds[..n], k) != [Refused] {
      assert ds[..n][..k] == ds[..k];
      assert OutputsAt(sv, ds[..n], k) == OutputsAt(sv, ds, k);
      assert Refused !in OutputsAt(sv, ds, k);
    }
  }

  /** The same of the server itself: in any run that starts with no running session, the end
      of a live connection that carried an upload is reported with all its bytes. */
  lemma ServerReports(rate: nat, addrs: seq<Address>, slots: seq<Session>, s: TcpServer.Setup, ws: seq<TcpServer.Wake>,
                      p: Address, n: nat, net: Stack, size: nat, rounds: seq<Round>)
    requires rate > 0 && |addrs| == TcpServer.SOCK_ID_MAX && |slots| == SESSION_MAX && TcpSafety.LegalSetup(s)
    requires UniqueKeys(slots) && TcpSafety.RunningKeys(slots) == {} && !p.Unspecified?
    requires TcpSafety.ValidWakes(ws) && TcpSafety.LegalRun(rate, TcpServer.Start(addrs, slots, s), ws)
    requires var ds := TcpRun.RunInputs(rate, TcpServer.Start(addrs, slots, s), ws);
             && n < |ds| && ds[n].addr == p && ds[n].data == [] && NoEnd(ds[..n], p)
             && Rounds(net, size, rounds) && Bytes(Own(Tcp, ds[..n], p)) == TotalTaken(rounds)
    ensures var ds := TcpRun.RunInputs(rate, TcpServer.Start(addrs, slots, s), ws);
            var outs := OutputsAt(Server(Tcp, rate, slots), ds, n);
            && outs != [] && outs[|outs| - 1].Finished?
            && outs[|outs| - 1].results.totalLen == ToU32(Whole(rounds) * size + Sum(Prefixes(rounds)))
  {
    hide OutputsAt, Own, Bytes, Rounds, Whole, Prefixes, TotalTaken, Sum, UniqueKeys, View, TcpSafety.LegalRun, TcpServer.Start, TcpRun.RunInputs,
      CallbacksOf, TcpRun.AllCalls, Callbacks, Closes, TcpSafety.ConnAddrs, MicrosBetween, TableAfter, TcpSafety.RunningKeys,
      Admitted, TcpServer.Served, TcpRun.NoneRefused, IpTraffic;
    var ds := TcpRun.RunInputs(rate, TcpServer.Start(addrs, slots, s), ws);
    var sv := Server(Tcp, rate, slots);
    TcpRun.ServerRun(rate, addrs, slots, s, ws, p);
    NoneRefusedAdmits(sv, ds, n + 1, p);
    StreamIsReported(sv, ds, p, n, net, size, rounds);
  }
}
