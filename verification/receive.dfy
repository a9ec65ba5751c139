/** What one received UDP datagram or TCP chunk does to a session table, as a
    function: udp_received and tcp_received. */
module Receive {
  import opened Words
  import opened Kernel
  import opened Wire
  import opened SessionTables

  /** One datagram or chunk. `time` is the first reading of the tick counter, `again`
      the second one, which only tcp_received makes. */
  datatype Input = Input(addr: Address, data: seq<Byte>, time: U32, again: U32)

  /** struct zperf_results, the fields a receiver fills. */
  datatype Results = Results(rcvd: U32, lost: U32, outorder: U32, totalLen: U32, timeUs: U32,
                             jitterUs: U32, packetSize: U32)

  /** What a step emits: warnings, reply datagrams and session callbacks. In C a
      DivisionFault is a division of the length by a zero counter. SessionError is the
      callback of a server, not of a session. */
  datatype Output = ShortPacket | Refused | Reply(bytes: seq<Byte>) | Started | Finished(results: Results) | DivisionFault | SessionError

  /** time_delta. ULONG_MAX is one less than the modulus, so the second branch is one
      short of the modular difference. */
  function TimeDelta(ts: U32, t: U32): U32 {
    if t >= ts then t - ts else TWO32 - 1 - ts + t
  }

  /** The sender's microsecond clock, recombined in 32 bits. */
  function SentAt(h: Datagram): U32 {
    ToU32(ToU32(h.tvSec * USEC_PER_SEC) + h.tvUsec)
  }

  function Transit(rate: nat, time: U32, h: Datagram): I32
    requires rate > 0
  {
    ToI32(TimeDelta(TicksToUs32(rate, time), SentAt(h)))
  }

  /** The size of the change between two transit times. */
  function Sample(last: I32, transit: I32): I32 {
    var d: int := ToI32(transit - last);
    if d < 0 then ToI32(-d) else d
  }

  /** A stored transit of zero stands for "no previous datagram". */
  function CountTransit(f: Figures, transit: I32): Figures {
    var jitter := if f.lastTransit == 0 then f.jitter
                  else ToI32(f.jitter + TruncDiv(ToI32(Sample(f.lastTransit, transit) - f.jitter), 16));
    f.(jitter := jitter, lastTransit := transit)
  }

  /** The sequence number check. */
  function CountId(f: Figures, id: U32): Figures {
    if id == f.nextId then f.(nextId := ToU32(f.nextId + 1))
    else if id < f.nextId then f.(outorder := ToU32(f.outorder + 1))
    else f.(error := ToU32(f.error + (id - f.nextId)), nextId := ToU32(id + 1))
  }

  /** A data datagram of a running UDP session. */
  function CountDatagram(rate: nat, f: Figures, inp: Input): Figures
    requires rate > 0 && |inp.data| >= DATAGRAM_HDR && Header(inp.data).id >= 0
  {
    var h := Header(inp.data);
    var g := f.(counter := ToU32(f.counter + 1), length := ToU64(f.length + |inp.data|));
    CountId(CountTransit(g, Transit(rate, inp.time, h)), h.id)
  }

  /** A chunk of a TCP session. */
  function CountChunk(f: Figures, inp: Input): Figures {
    f.(counter := ToU32(f.counter + 1), length := ToU64(f.length + |inp.data|))
  }

  function Elapsed(rate: nat, start: U32, time: U32): U32
    requires rate > 0
  {
    TicksToUs32(rate, ToU32(time - start))
  }

  /** The duration of a session is the time between the two readings. */
  lemma ElapsedIsTime(rate: nat, start: U32, time: U32)
    requires rate > 0
    ensures Elapsed(rate, start, time) == MicrosBetween(rate, start, time)
  {
    assert ToU32(time - start) == TicksBetween(start, time);
  }

  /** When `d` ticks have passed, with or without a wrap of the counter, the duration is
      `d` ticks in microseconds, rounded down. */
  lemma ElapsedCounts(rate: nat, start: U32, d: nat)
    requires rate > 0 && d < TWO32
    ensures Elapsed(rate, start, ToU32(start + d)) == ToU32(d * 1_000_000 / rate)
  {
    hide ToU32, TicksBetween, Elapsed;
    FitsU32(start);
    TicksBetweenCounts(start, d);
    ElapsedIsTime(rate, start, ToU32(start + d));
  }

  /** The record saved when a UDP session ends. */
  function FinalStat(f: Figures, duration: U32): ServerStat {
    ServerStat(0x8000_0000, f.length / TWO32, f.length % 0xFFFF_FFFF,
               duration / USEC_PER_SEC, duration % USEC_PER_SEC,
               f.error, f.outorder, f.counter, 0, ToU32(f.jitter))
  }

  /** The callback that ends a UDP session. The average packet size divides by the
      32-bit counter. */
  function UdpReport(f: Figures, duration: U32): Output {
    if f.counter == 0 then DivisionFault
    else Finished(Results(f.counter, f.error, f.outorder, ToU32(f.length), duration, ToU32(f.jitter),
                          ToU32(f.length / f.counter)))
  }

  function TcpReport(f: Figures, duration: U32): Output {
    Finished(Results(0, 0, 0, ToU32(f.length), duration, 0, 0))
  }

  /** udp_received after the session was found. */
  function HandleUdp(rate: nat, s: Session, inp: Input): (Session, seq<Output>)
    requires rate > 0 && |inp.data| >= DATAGRAM_HDR
  {
    var last := Header(inp.data).id < 0;
    if !s.phase.Ongoing? then
      if last then (s, [Reply(ReplyBytes(inp.data[..DATAGRAM_HDR], s.stat))])
      else (s.(phase := Ongoing, figures := FRESH.(startTime := inp.time)), [Started])
    else if last then
      var duration := Elapsed(rate, s.figures.startTime, inp.time);
      var stat := FinalStat(s.figures, duration);
      (s.(phase := Completed, stat := stat),
       [Reply(ReplyBytes(inp.data[..DATAGRAM_HDR], stat)), UdpReport(s.figures, duration)])
    else (s.(figures := CountDatagram(rate, s.figures, inp)), [])
  }

  /** tcp_received after the session was found. The chunk that opens a session is
      counted; an empty chunk closes it. */
  function HandleTcp(rate: nat, s: Session, inp: Input): (Session, seq<Output>)
    requires rate > 0
  {
    var opening := !s.phase.Ongoing?;
    var f := CountChunk(if opening then FRESH.(startTime := inp.again) else s.figures, inp);
    var first := if opening then [Started] else [];
    if inp.data == [] then
      (s.(phase := Completed, figures := f), first + [TcpReport(f, Elapsed(rate, f.startTime, inp.time))])
    else (s.(phase := Ongoing, figures := f), first)
  }

  function Handle(proto: Proto, rate: nat, s: Session, inp: Input): (Session, seq<Output>)
    requires rate > 0 && Heard(proto, inp)
  {
    if proto.Udp? then HandleUdp(rate, s, inp) else HandleTcp(rate, s, inp)
  }

  /** A UDP datagram shorter than its header is dropped unseen. */
  predicate Heard(proto: Proto, inp: Input) {
    proto.Udp? ==> |inp.data| >= DATAGRAM_HDR
  }

  /** One call of udp_received or tcp_received. */
  function Step(proto: Proto, rate: nat, slots: seq<Session>, inp: Input): (r: (seq<Session>, seq<Output>))
    requires rate > 0
    ensures |r.0| == |slots|
  {
    if !Heard(proto, inp) then (slots, [ShortPacket]) else
    var slot := Lookup(slots, inp.addr);
    if slot.None? then (slots, [Refused]) else
    var claimed := Claim(slots, inp.addr);
    var (s, outs) := Handle(proto, rate, claimed[slot.value], inp);
    (claimed[slot.value := s], outs)
  }
}
