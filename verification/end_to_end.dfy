/** Uploader and receiver together: what an upload over a channel that neither loses nor
    reorders is told at the end, while the server talks to anyone else as well. */
module EndToEnd {
  import opened Words
  import opened Kernel
  import opened Wire
  import opened SessionTables
  import opened Receive
  import opened Demux
  import opened Sequence
  import opened Jitter
  import opened UdpFigures
  import opened Records
  import opened Clock
  import opened UdpUploader

  /** The inputs `own` are the packets of an upload, in order. */
  ghost predicate Delivered(own: seq<Input>, packets: seq<seq<Byte>>) {
    |own| <= |packets| && forall k :: 0 <= k < |own| ==> own[k].data == packets[k]
  }

  /** The numbers in the headers of a stream. */
  lemma StreamIds(packets: seq<seq<Byte>>, rate: nat, times: seq<U32>, size: nat, k: nat)
    requires rate > 0 && IsStream(packets, rate, times, size) && k < |packets| < TWO31
    ensures |packets[k]| == size >= DATAGRAM_HDR && Header(packets[k]).id == k
  {
    var d := Stamp(ToI32(k), ToU64(times[k] * 1_000_000 / rate));
    HeaderRoundTrip(d, packets[k][DATAGRAM_HDR..]);
    assert IsPacket(packets[k], rate, k, times[k], size);
    assert packets[k] == HeaderBytes(d) + packets[k][DATAGRAM_HDR..];
    FitsI32(k);
  }

  /** The first input heard from `p` was given a session slot. */
  ghost predicate Admitted(sv: Server, ds: seq<Input>, p: Address)
    requires sv.rate > 0
  {
    forall k :: 0 <= k < |ds| && ds[k].addr == p && Heard(sv.proto, ds[k]) && Own(sv.proto, ds[..k], p) == [] ==>
      OutputsAt(sv, ds, k) != [Refused]
  }

  lemma AdmittedPrefix(sv: Server, ds: seq<Input>, p: Address)
    requires sv.rate > 0 && ds != [] && Admitted(sv, ds, p)
    ensures Admitted(sv, ds[..|ds| - 1], p)
  {
    hide Step, TableAfter, Own, Heard;
    var front := ds[..|ds| - 1];
    forall k | 0 <= k < |front| && front[k].addr == p && Heard(sv.proto, front[k]) && Own(sv.proto, front[..k], p) == []
      ensures OutputsAt(sv, front, k) != [Refused]
    {
      assert front[..k] == ds[..k];
      assert OutputsAt(sv, front, k) == OutputsAt(sv, ds, k);
    }
  }

  /** Data that is not refused opens a session or is counted by it. */
  lemma DataStep(proto: Proto, rate: nat, slots: seq<Session>, d: Input)
    requires rate > 0 && UniqueKeys(slots) && !d.addr.Unspecified? && Heard(proto, d) && !Ends(proto, d)
    requires View(slots, d.addr).Some? || Step(proto, rate, slots, d).1 != [Refused]
    ensures var v := View(slots, d.addr);
            View(Step(proto, rate, slots, d).0, d.addr)
            == Some(if v.Some? then Count(proto, rate, v.value, d) else Opening(proto, d))
  {
    StepSeenBy(proto, rate, slots, d, d.addr);
    if View(slots, d.addr).Some? {
      RunningIsServed(proto, rate, slots, d, d.addr);
    }
    if Lookup(slots, d.addr).Some? {
      CallbacksOfHandle(proto, rate, Claim(slots, d.addr)[Lookup(slots, d.addr).value], d);
    }
  }

  /** After the server heard a part of an upload, the peer's session is the fold over the
      part but its first packet, which only opened the session. */
  lemma {:induction false} UploadProgress(sv: Server, ds: seq<Input>, p: Address, sender: nat, packets: seq<seq<Byte>>, times: seq<U32>, size: nat)
    requires sv.Quiet(p) && IpTraffic(ds) && sv.proto.Udp? && Admitted(sv, ds, p)
    requires sender > 0 && IsStream(packets, sender, times, size) && |packets| < TWO31
    requires Delivered(Own(Udp, ds, p), packets)
    ensures var own := Own(Udp, ds, p);
            if own == [] then View(TableAfter(sv, ds), p) == None
            else AllData(Udp, own[1..])
                 && View(TableAfter(sv, ds), p) == Some(SessionFold(sv.rate, own[0].time, own[1..]))
  {
    hide Step, View, UniqueKeys, Callbacks, Count, Header, IsStream, AllData;
    if ds != [] {
      var n := |ds| - 1;
      var front, d := ds[..n], ds[n];
      var before := TableAfter(sv, front);
      var own := Own(Udp, front, p);
      AdmittedPrefix(sv, ds, p);
      assert Delivered(own, packets) by {
        assert forall k :: 0 <= k < |own| ==> Own(Udp, ds, p)[k] == own[k];
      }
      UploadProgress(sv, front, p, sender, packets, times, size);
      OwnFold(sv, front, p);
      StepSeenBy(Udp, sv.rate, before, d, p);
      if d.addr == p && Heard(Udp, d) {
        assert Own(Udp, ds, p) == own + [d];
        assert Own(Udp, ds, p)[|own|] == d;
        StreamIds(packets, sender, times, size, |own|);
        DataStep(Udp, sv.rate, before, d);
        GrowFold(sv.rate, own, d);
      } else {
        assert Own(Udp, ds, p) == own;
        assert d.addr == p ==> Step(Udp, sv.rate, before, d).1 == [ShortPacket] by {
          ShortStep(sv.rate, before, d);
        }
      }
    }
  }

  lemma ShortStep(rate: nat, slots: seq<Session>, d: Input)
    requires rate > 0
    ensures !Heard(Udp, d) ==> Step(Udp, rate, slots, d).1 == [ShortPacket]
  {
  }

  /** The fold of an upload after one more packet. */
  lemma GrowFold(rate: nat, own: seq<Input>, d: Input)
    requires rate > 0 && Heard(Udp, d) && !Ends(Udp, d) && (own != [] ==> AllData(Udp, own[1..]))
    ensures var own' := own + [d];
            AllData(Udp, own'[1..])
            && SessionFold(rate, own'[0].time, own'[1..])
               == if own == [] then FRESH.(startTime := d.time)
                  else Count(Udp, rate, SessionFold(rate, own[0].time, own[1..]), d)
  {
    hide Count, Ends, Heard;
    var own' := own + [d];
    if own == [] {
      assert own'[1..] == [];
    } else {
      assert own'[1..] == own[1..] + [d];
      assert own'[1..][..|own| - 1] == own[1..];
    }
  }

  /** The figures of a delivered upload. */
  lemma UploadFigures(rate: nat, own: seq<Input>, sender: nat, packets: seq<seq<Byte>>, times: seq<U32>, size: nat)
    requires rate > 0 && sender > 0 && IsStream(packets, sender, times, size) && 1 <= |packets| < TWO31
    requires Delivered(own, packets) && |own| == |packets| && AllData(Udp, own[1..])
    ensures var f := SessionFold(rate, own[0].time, own[1..]);
            var n := |packets|;
            && f.counter == n - 1 && f.error == 0 && f.outorder == 0
            && f.length == ToU64((n - 1) * size) && f.startTime == own[0].time
  {
    hide Fold, IsStream, Header, CountTransits, Transits, ToU32, ToU64, TallyOf, Bytes;
    var data := own[1..];
    FitsU32(0);
    FoldMeaning(rate, own[0].time, data);
    forall k | 0 <= k < |data| ensures Ids(data)[k] == k + 1 && |data[k].data| == size {
      assert data[k] == own[k + 1];
      StreamIds(packets, sender, times, size, k + 1);
    }
    InOrder(Ids(data));
    SameSizes(data, size);
    FitsU32(|data|);
  }

  lemma {:induction false} SameSizes(ins: seq<Input>, size: nat)
    requires forall k :: 0 <= k < |ins| ==> |ins[k].data| == size
    ensures Bytes(ins) == |ins| * size
  {
    if ins != [] {
      SameSizes(ins[..|ins| - 1], size);
      assert |ins| * size == (|ins| - 1) * size + size;
    }
  }

  /** An end datagram closes a running session: one reply with the final record, then the
      closing callback. */
  lemma EndStep(rate: nat, slots: seq<Session>, d: Input)
    requires rate > 0 && Heard(Udp, d) && Ends(Udp, d) && View(slots, d.addr).Some?
    ensures var f := View(slots, d.addr).value;
            var duration := Elapsed(rate, f.startTime, d.time);
            Step(Udp, rate, slots, d).1
            == [Reply(ReplyBytes(d.data[..DATAGRAM_HDR], FinalStat(f, duration))), UdpReport(f, duration)]
  {
  }

  /** The server hears every packet of an upload from `p`, in order, before input `e`, and an
      end datagram of the upload at `e`; what else it hears does not matter. The uploader's
      tick rate is `sender`. */
  ghost predicate Uploads(sv: Server, ds: seq<Input>, p: Address, sender: nat, packets: seq<seq<Byte>>, times: seq<U32>,
                          size: nat, e: nat)
  {
    && sv.Quiet(p) && IpTraffic(ds) && sv.proto.Udp? && sender > 0
    && IsStream(packets, sender, times, size) && 1 <= |packets| < TWO31 && size <= PACKET_SIZE_MAX
    && e < |ds| && Admitted(sv, ds[..e], p)
    && Delivered(Own(Udp, ds[..e], p), packets) && |Own(Udp, ds[..e], p)| == |packets|
    && ds[e].addr == p && IsEnd(ds[e].data, ToU32(|packets|), size)
  }

  /** The receiver's clock from the first packet to the end datagram. */
  function UploadTime(sv: Server, ds: seq<Input>, p: Address, e: nat): U32
    requires sv.rate > 0 && e < |ds| && Own(Udp, ds[..e], p) != []
  {
    MicrosBetween(sv.rate, Own(Udp, ds[..e], p)[0].time, ds[e].time)
  }

  /** `r` tells of `n` packets, all but the first received, none lost, none out of order,
      and all their bytes when these are fewer than 2^32 - 1. */
  predicate TellsAll(r: RemoteStats, n: nat, size: nat, time: U32) {
    && n >= 1 && r.rcvd == n - 1 && r.lost == 0 && r.outorder == 0 && r.timeUs == time
    && ((n - 1) * size < 0xFFFF_FFFF ==> r.totalLen == (n - 1) * size)
  }

  /** `bytes` is a reply from which the uploader decodes the whole upload. */
  predicate IsReport(o: Output, n: nat, size: nat, time: U32) {
    o.Reply? && |o.bytes| == DATAGRAM_HDR + SERVER_HDR && TellsAll(DecodeStats(o.bytes), n, size, time)
  }

  /** The whole upload. The server answers the end datagram with a record that tells of all
      packets but the first, and calls back with the same figures. An upload of a single
      packet divides by zero instead: it counted none. */
  lemma UploadIsReported(sv: Server, ds: seq<Input>, p: Address, sender: nat, packets: seq<seq<Byte>>, times: seq<U32>,
                         size: nat, e: nat)
    requires Uploads(sv, ds, p, sender, packets, times, size, e)
    ensures var (n, outs) := (|packets|, OutputsAt(sv, ds, e));
            var duration := UploadTime(sv, ds, p, e);
            && |outs| == 2 && IsReport(outs[0], n, size, duration)
            && if n == 1 then outs[1] == DivisionFault
               else outs[1].Finished?
                    && var r := outs[1].results;
                       && r.rcvd == n - 1 && r.lost == 0 && r.outorder == 0 && r.timeUs == duration
                       && r.totalLen == ToU32((n - 1) * size) && r.packetSize == size
  {
    hide Step, View, DecodeStats, ReplyBytes, TableAfter, Own, SessionFold, Elapsed, MicrosBetween, Header, AllData, IsEnd;
    var n := |packets|;
    var own, f := UploadSession(sv, ds, p, sender, packets, times, size, e);
    var duration := Elapsed(sv.rate, own[0].time, ds[e].time);
    ElapsedIsTime(sv.rate, own[0].time, ds[e].time);
    EndStep(sv.rate, TableAfter(sv, ds[..e]), ds[e]);
    RecordRoundTrip(ds[e].data[..DATAGRAM_HDR], f, duration);
    UploadSizes(n, size);
  }

  /** The session that the end datagram of an upload meets. */
  lemma UploadSession(sv: Server, ds: seq<Input>, p: Address, sender: nat, packets: seq<seq<Byte>>, times: seq<U32>,
                      size: nat, e: nat) returns (own: seq<Input>, f: Figures)
    requires Uploads(sv, ds, p, sender, packets, times, size, e)
    ensures Heard(Udp, ds[e]) && Ends(Udp, ds[e])
    ensures own == Own(Udp, ds[..e], p) && own != [] && View(TableAfter(sv, ds[..e]), p) == Some(f)
    ensures f.counter == |packets| - 1 && f.error == 0 && f.outorder == 0
    ensures f.length == ToU64((|packets| - 1) * size) && f.startTime == own[0].time
  {
    hide Step, View, IsStream, TableAfter, Own, SessionFold, Header, AllData, Admitted, IsEnd, ToU32, ToU64;
    own := Own(Udp, ds[..e], p);
    UploadProgress(sv, ds[..e], p, sender, packets, times, size);
    UploadFigures(sv.rate, own, sender, packets, times, size);
    EndIsHeard(ds[e].data, |packets|, size);
    f := SessionFold(sv.rate, own[0].time, own[1..]);
  }

  /** The retry of the handshake is answered like the first attempt: if no peer without a
      slot is heard in between, a second end datagram gets the same record. */
  lemma RetryIsReported(sv: Server, ds: seq<Input>, p: Address, sender: nat, packets: seq<seq<Byte>>, times: seq<U32>,
                        size: nat, e: nat, e2: nat)
    requires Uploads(sv, ds, p, sender, packets, times, size, e)
    requires e < e2 < |ds| && ds[e2].addr == p && IsEnd(ds[e2].data, ToU32(|packets|), size)
    requires NobodyNew(sv, ds, e, e2, p)
    ensures var outs := OutputsAt(sv, ds, e2);
            |outs| == 1 && IsReport(outs[0], |packets|, size, UploadTime(sv, ds, p, e))
  {
    hide Step, DecodeStats, ReplyBytes, TableAfter, Own, Elapsed, MicrosBetween, Header, IsEnd, NobodyNew, OutputsAt, FinalStat;
    var n := |packets|;
    var own, f := UploadSession(sv, ds, p, sender, packets, times, size, e);
    EndIsHeard(ds[e2].data, n, size);
    RetryAnswered(sv, ds, e, e2, FirstMatch(TableAfter(sv, ds[..e]), p).value, p);
    ElapsedIsTime(sv.rate, own[0].time, ds[e].time);
    RecordRoundTrip(ds[e2].data[..DATAGRAM_HDR], f, Elapsed(sv.rate, own[0].time, ds[e].time));
    UploadSizes(n, size);
  }

  /** A round of the handshake received the reply among the outputs. */
  predicate Carries(a: Attempt, outs: seq<Output>) {
    a.Ret() > 0 && outs != [] && outs[0].Reply? && a.bytes == outs[0].bytes
  }

  /** The purpose of the handshake: what zperf_upload_fin reads tells of the whole upload,
      when the first round is answered, when the first end datagram is lost on its way, and
      when the first reply is. */
  lemma HandshakeReports(sv: Server, ds: seq<Input>, p: Address, sender: nat, packets: seq<seq<Byte>>, times: seq<U32>,
                         size: nat, e: nat, e2: nat, attempts: seq<Attempt>)
    requires Uploads(sv, ds, p, sender, packets, times, size, e)
    requires |attempts| == 2 && attempts[0].Valid() && attempts[1].Valid()
    requires
      || Carries(attempts[0], OutputsAt(sv, ds, e))
      || (attempts[0].Ret() <= 0 && Carries(attempts[1], OutputsAt(sv, ds, e)))
      || (&& e < e2 < |ds| && ds[e2].addr == p && IsEnd(ds[e2].data, ToU32(|packets|), size)
          && NobodyNew(sv, ds, e, e2, p)
          && attempts[0].Ret() <= 0 && Carries(attempts[1], OutputsAt(sv, ds, e2)))
    ensures FinStats(attempts).Some? && TellsAll(FinStats(attempts).value, |packets|, size, UploadTime(sv, ds, p, e))
  {
    hide IsStream, Admitted, Delivered, Own, OutputsAt, TellsAll, DecodeStats, NobodyNew, IsEnd, View, UniqueKeys, MicrosBetween, Overlay;
    UploadIsReported(sv, ds, p, sender, packets, times, size, e);
    var first := attempts[0].Ret() > 0;
    if first || Carries(attempts[1], OutputsAt(sv, ds, e)) {
      WholeReply(if first then attempts[0] else attempts[1], OutputsAt(sv, ds, e));
    } else {
      RetryIsReported(sv, ds, p, sender, packets, times, size, e, e2);
      WholeReply(attempts[1], OutputsAt(sv, ds, e2));
    }
  }

  lemma WholeReply(a: Attempt, outs: seq<Output>)
    requires Carries(a, outs) && |outs[0].bytes| == DATAGRAM_HDR + SERVER_HDR
    ensures Overlay(a.bytes) == outs[0].bytes
  {
  }

  lemma EndIsHeard(data: seq<Byte>, n: nat, size: nat)
    requires 1 <= n < TWO31 && IsEnd(data, ToU32(n), size)
    ensures |data| >= DATAGRAM_HDR && Header(data).id < 0
  {
    hide Header;
    FitsU32(n);
    FitsI32(-(n as int));
  }

  /** The size arithmetic of an upload of at most 1024-byte packets. */
  lemma UploadSizes(n: nat, size: nat)
    requires 1 <= n < TWO31 && size <= PACKET_SIZE_MAX
    ensures ToU64((n - 1) * size) == (n - 1) * size
    ensures n > 1 ==> (n - 1) * size / (n - 1) == size
    ensures ToU32(size) == size
  {
    hide ToU32, ToU64;
    SmallProduct(n - 1, size);
    FitsU32(size);
    if n > 1 {
      WholeQuotient(n - 1, size);
    }
  }

  lemma ProductBound(k: nat, size: nat)
    requires k < 0x8000_0000 && size <= 1024
    ensures 0 <= k * size < 0x200_0000_0000
  {
    assert k * size <= k * 1024;
  }

  lemma SmallProduct(k: nat, size: nat)
    requires k < TWO31 && size <= PACKET_SIZE_MAX
    ensures ToU64(k * size) == k * size
  {
    hide ToU64;
    ProductBound(k, size);
    FitsU64(k * size);
  }

  lemma WholeQuotient(k: nat, size: nat)
    requires k > 0
    ensures k * size / k == size
  {
    assert k * size == size * k + 0;
    UniqueQuotient(k * size, size, 0, k);
  }
}
