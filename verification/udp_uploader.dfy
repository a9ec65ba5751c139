/** udp_upload and zperf_upload_fin. What the kernel and the network stack answer (clock
    readings, results of send and recv) is given as recorded sequences. */
module UdpUploader {
  import opened Words
  import opened Kernel
  import opened Wire
  import opened Receive
  import opened Clock
  import opened Pacing

  const CLIENT_HDR: nat := 24  // sizeof(struct zperf_client_hdr_v1)

  /** The packet size after clamping: of the sizes that hold a header and fit the buffer,
      the one nearest to what was asked for. */
  function Clamp(size: U32): (r: nat)
    ensures DATAGRAM_HDR <= r <= PACKET_SIZE_MAX
    ensures forall s: nat :: DATAGRAM_HDR <= s <= PACKET_SIZE_MAX ==> Distance(size, r) <= Distance(size, s)
  {
    if size > PACKET_SIZE_MAX then PACKET_SIZE_MAX
    else if size < DATAGRAM_HDR then DATAGRAM_HDR
    else size
  }

  /** Packet number `k`, stamped at `tick`: the right size and the right header. */
  ghost predicate IsPacket(packet: seq<Byte>, rate: nat, k: nat, tick: U32, size: nat)
    requires rate > 0
  {
    && |packet| == size >= DATAGRAM_HDR
    && packet[..DATAGRAM_HDR] == HeaderBytes(Stamp(ToI32(k), ToU64(tick * 1_000_000 / rate)))
  }

  /** The packets of an upload, numbered from zero and stamped at `times`. */
  ghost predicate IsStream(packets: seq<seq<Byte>>, rate: nat, times: seq<U32>, size: nat)
    requires rate > 0
  {
    |packets| <= |times| && forall k :: 0 <= k < |packets| ==> IsPacket(packets[k], rate, k, times[k], size)
  }

  /** The delays chosen after each round of the loop. */
  ghost predicate Paced(delays: seq<U32>, period: U32, start: U32, times: seq<U32>) {
    |delays| <= |times| && forall k :: 0 <= k < |delays| ==> delays[k] == DelayAfter(period, start, times[..k + 1])
  }

  /** An end datagram: it carries the negated packet count. */
  ghost predicate IsEnd(packet: seq<Byte>, nb: U32, size: nat) {
    |packet| == size >= DATAGRAM_HDR && Header(packet).id == ToI32(-(nb as int))
  }

  /** An end datagram also tells when the upload stopped: its two clock words add up to the
      microseconds, and the first one is the whole seconds while the clock's milliseconds fit
      in 32 bits. */
  ghost predicate TellsStop(packet: seq<Byte>, rate: nat, stop: U32)
    requires rate > 0
  {
    && |packet| >= DATAGRAM_HDR && SentAt(Header(packet)) == ToU32(stop * 1_000_000 / rate)
    && (stop * 1000 / rate < TWO32 ==> Header(packet).tvSec == stop / rate)
  }

  /** What one zsock_send answers: its result, and errno after it. */
  datatype SendResult = SendResult(ret: int, errno: int)

  /** How the sending loop ended. `Waiting` means the recording stops before the loop does. */
  datatype LoopEnd =
    | Sent(nb: U32, start: U32, stop: U32)
    | SendFailed(code: int)
    | DivisionByZero
    | Waiting

  /** The tick at which the upload is due to end. */
  function Due(rate: nat, start: U32, durationMs: U32): int {
    start + durationMs * rate / 1000
  }

  /** The sending loop ends like this after `n` packets: at the first round at or after the
      due time, or at the first send that fails, if neither comes before the recording ends. */
  ghost predicate LoopEnds(end: LoopEnd, n: nat, kbps: U32, start: U32, due: int, times: seq<U32>, sends: seq<SendResult>) {
    if kbps % 0x40_0000 == 0 then end == DivisionByZero && n == 0
    else
      && n <= |times| && n <= |sends|
      && (forall k :: 0 <= k < n ==> sends[k].ret >= 0)
      && (forall k :: 0 <= k < n - 1 ==> times[k] < due)
      && if n > 0 && times[n - 1] >= due then end == if n < |times| then Sent(ToU32(n), start, times[n]) else Waiting
         else if n == |times| || n == |sends| then end == Waiting
         else end == SendFailed(-sends[n].errno) && sends[n].ret < 0
  }

  /** That leaves one end for each recording. */
  lemma OneLoopEnd(end: LoopEnd, n: nat, end': LoopEnd, n': nat, kbps: U32, start: U32, due: int, times: seq<U32>,
                   sends: seq<SendResult>)
    requires LoopEnds(end, n, kbps, start, due, times, sends) && LoopEnds(end', n', kbps, start, due, times, sends)
    ensures end == end' && n == n'
  {
  }

  /** One round of the statistics handshake: the results of send, setsockopt and recv, and
      the bytes recv delivered. */
  datatype Attempt = Attempt(send: int, opt: int, recv: int, bytes: seq<Byte>)
  {
    ghost predicate Valid() {
      if recv > 0 then |bytes| == recv <= DATAGRAM_HDR + SERVER_HDR else bytes == []
    }

    /** The last `ret` of the round. */
    function Ret(): int {
      if send < 0 then send else if opt < 0 then opt else recv
    }
  }

  /** The statistics the two rounds of the handshake lead to. */
  function FinStats(attempts: seq<Attempt>): Option<RemoteStats>
    requires |attempts| == 2 && |attempts[0].bytes| <= DATAGRAM_HDR + SERVER_HDR && |attempts[1].bytes| <= DATAGRAM_HDR + SERVER_HDR
  {
    var last := if attempts[0].Ret() > 0 then attempts[0] else attempts[1];
    if last.Ret() > 0 then Some(DecodeStats(Overlay(last.bytes))) else None
  }

  /** How udp_upload ended: with its own results and the server's, or with the code of a
      failed send or handshake, or like the loop. */
  datatype UploadEnd =
    | Uploaded(sent: U32, clientTimeUs: U32, packetSize: U32, stats: Option<RemoteStats>)
    | Failed(code: int)
    | DividedByZero
    | Unfinished

  /** The receive buffer after a round that started from a zeroed one. */
  function Overlay(bytes: seq<Byte>): (b: seq<Byte>)
    requires |bytes| <= DATAGRAM_HDR + SERVER_HDR
    ensures |b| == DATAGRAM_HDR + SERVER_HDR && bytes <= b
    ensures forall k :: |bytes| <= k < |b| ==> b[k] == 0
  {
    bytes + seq(DATAGRAM_HDR + SERVER_HDR - |bytes|, _ => 0)
  }

  /** The period of the loop: the time of one packet at the rate, in ticks, both rounded
      down. */
  function PeriodTicks(rate: nat, size: U32, kbps: U32): U32
    requires kbps % 0x40_0000 != 0
  {
    ToU32(TimeAtRate(size, kbps % 0x40_0000) * rate / 1_000_000)
  }

  lemma PeriodIsTime(rate: nat, size: U32, kbps: U32)
    requires rate < TWO31 && size <= 0xFFFF && kbps % 0x40_0000 != 0
    ensures PacketDuration(size, kbps).Some?
    ensures UsToTicks32(rate, PacketDuration(size, kbps).value) == PeriodTicks(rate, size, kbps)
  {
    hide ToU32, ToU64, TimeAtRate, PacketDuration;
    DurationIsTime(size, kbps);
    var us := PacketDuration(size, kbps).value;
    MulMonotone(us, TWO32, rate, TWO31);
    FitsU64(us * rate);
  }

  /** The conversions of the loop, as whole numbers. */
  lemma LoopTimes(rate: nat, x: U32)
    requires 0 < rate < TWO31
    ensures MsToTicks64(rate, x) == x * rate / 1000
    ensures TicksToUs64(rate, x) == ToU64(x * 1_000_000 / rate)
  {
    hide ToU64;
    MulMonotone(x, TWO32, rate, TWO31);
    FitsU64(x * rate);
    FitsU64(x * 1_000_000);
    var q := x * rate / 1000;
    assert x * rate == q * 1000 + x * rate % 1000;
    FitsU64(q);
  }

  lemma StreamGrows(packets: seq<seq<Byte>>, rate: nat, times: seq<U32>, size: nat, packet: seq<Byte>)
    requires rate > 0 && IsStream(packets, rate, times, size) && |packets| < |times|
    requires IsPacket(packet, rate, |packets|, times[|packets|], size)
    ensures IsStream(packets + [packet], rate, times, size)
  {
    hide IsPacket;
  }

  lemma NoSleep(product: Product, rate: nat)
    ensures SleepTicks(product, rate, 0) == 0
  {
  }

  lemma NothingSent(rate: nat, times: seq<U32>, size: nat, start: U32)
    requires rate > 0
    ensures IsStream([], rate, times, size) && ToU32(0) == 0 && LastTime(start, times[..0]) == start
    ensures forall period: U32 :: Paced([], period, start, times) && DelayAfter(period, start, times[..0]) == period
  {
    assert times[..0] == [];
  }

  lemma PacedGrows(delays: seq<U32>, period: U32, start: U32, times: seq<U32>, next: U32)
    requires Paced(delays, period, start, times) && |delays| < |times|
    requires var n := |delays|;
             next == NextDelay(DelayAfter(period, start, times[..n]), Adjust(period, LastTime(start, times[..n]), times[n]))
    ensures Paced(delays + [next], period, start, times)
    ensures next == DelayAfter(period, start, times[..|delays| + 1])
    ensures LastTime(start, times[..|delays| + 1]) == times[|delays|]
  {
    hide NextDelay, Adjust;
    var n := |delays|;
    assert times[..n + 1][..n] == times[..n];
  }

  class Uploader {
    const rate: nat
    const product: Product
    const samplePacket: array<Byte>

    ghost predicate Valid() {
      0 < rate < TWO31 && samplePacket.Length == DATAGRAM_HDR + CLIENT_HDR + PACKET_SIZE_MAX
    }

    constructor (rate: nat, product: Product)
      requires 0 < rate < TWO31
      ensures Valid() && fresh(samplePacket) && this.rate == rate && this.product == product
    {
      this.rate, this.product := rate, product;
      samplePacket := new Byte[DATAGRAM_HDR + CLIENT_HDR + PACKET_SIZE_MAX](_ => 0);
    }

    /** Fills in the datagram header of the shared packet buffer. */
    method FillHeader(id: U32, secs: U32, usecs: U32)
      requires Valid()
      modifies samplePacket
      ensures samplePacket[..DATAGRAM_HDR] == HeaderBytes(Datagram(ToI32(id), secs, usecs))
    {
      PutWord(samplePacket, 0, id);
      PutWord(samplePacket, 4, secs);
      PutWord(samplePacket, 8, usecs);
      HeaderOfWords(id, secs, usecs);
    }

    /** The pacing arithmetic of one iteration. */
    method Pace(delay: U32, period: U32, last: U32, now: U32) returns (next: U32)
      ensures next == NextDelay(delay, Adjust(period, last, now))
    {
      var adjust: I32;
      if last != now {
        adjust := ToI32(period);
        adjust := ToI32(adjust - ToI32(now - last));
      } else {
        adjust := 0;
      }
      if adjust >= 0 || ToU32(-(adjust as int)) < delay {
        next := ToU32(delay + adjust);
      } else {
        next := 0;
      }
    }

    /** Stamps the shared buffer and hands out the packet to send. */
    method Stamped(ghost k: nat, nb: U32, now: U32, size: nat) returns (packet: seq<Byte>)
      requires Valid() && DATAGRAM_HDR <= size <= PACKET_SIZE_MAX && nb == ToU32(k)
      modifies samplePacket
      ensures IsPacket(packet, rate, k, now, size)
    {
      LoopTimes(rate, now);
      var usecs64 := TicksToUs64(rate, now);
      var secs := ToU32(usecs64 / USEC_PER_SEC);
      var usecs := ToU32(ToU64(usecs64 - secs * USEC_PER_SEC));
      FillHeader(nb, secs, usecs);
      SameWord(k, nb, k / TWO32);
      packet := samplePacket[..size];
      assert packet[..DATAGRAM_HDR] == samplePacket[..DATAGRAM_HDR];
    }

    /** The sending loop of udp_upload. The clock shows `start` before the loop and
        `times[k]` in its k-th round; one more reading follows the loop. Each round sleeps
        its delay, if there is one. */
    method SendLoop(durationMs: U32, packetSize: U32, kbps: U32, start: U32, times: seq<U32>, sends: seq<SendResult>)
      returns (end: LoopEnd, packets: seq<seq<Byte>>, delays: seq<U32>, sleeps: seq<U32>)
      requires Valid()
      modifies samplePacket
      ensures LoopEnds(end, |packets|, kbps, start, Due(rate, start, durationMs), times, sends)
      ensures IsStream(packets, rate, times, Clamp(packetSize)) && |packets| == |delays| == |sleeps|
      ensures packetSize <= 0xFFFF && kbps % 0x40_0000 != 0 ==> Paced(delays, PeriodTicks(rate, packetSize, kbps), start, times)
      ensures forall k :: 0 <= k < |delays| ==> sleeps[k] == SleepTicks(product, rate, delays[k])
    {
      hide IsPacket, PacketDuration, UsToTicks32, MsToTicks64, NextDelay, Adjust, DelayAfter, LastTime, IsStream, Paced, ToU32,
        SleepTicks, PeriodTicks;
      DurationExists(packetSize, kbps);
      packets, delays, sleeps := [], [], [];
      NothingSent(rate, times, Clamp(packetSize), start);
      var duration := PacketDuration(packetSize, kbps);
      if duration.None? {
        return DivisionByZero, packets, delays, sleeps;
      }
      var period := UsToTicks32(rate, duration.value);
      if packetSize <= 0xFFFF {
        PeriodIsTime(rate, packetSize, kbps);
      }
      LoopTimes(rate, durationMs);
      var delay := period;
      var nb: U32 := 0;
      var size := packetSize;
      if size > PACKET_SIZE_MAX {
        size := PACKET_SIZE_MAX;
      } else if size < DATAGRAM_HDR {
        size := DATAGRAM_HDR;
      }
      var last := start;
      var due := start + MsToTicks64(rate, durationMs);
      forall i | 0 <= i < samplePacket.Length {
        samplePacket[i] := 'z' as int;
      }
      var more := true;
      while more
        invariant Valid() && size == Clamp(packetSize)
        invariant |packets| == |delays| == |sleeps| <= |times| && |packets| <= |sends| && nb == ToU32(|packets|)
        invariant IsStream(packets, rate, times, size) && Paced(delays, period, start, times)
        invariant last == LastTime(start, times[..|packets|])
        invariant forall k :: 0 <= k < |delays| ==> sleeps[k] == SleepTicks(product, rate, delays[k])
        invariant delay == DelayAfter(period, start, times[..|packets|])
        invariant forall k :: 0 <= k < |packets| ==> sends[k].ret >= 0
        invariant forall k :: 0 <= k < |packets| - 1 ==> times[k] < due
        invariant packets == [] ==> more
        invariant packets != [] ==> last == times[|packets| - 1] && (more <==> last < due)
        decreases |times| - |packets|, more
      {
        var n := |packets|;
        if n == |times| || n == |sends| {
          return Waiting, packets, delays, sleeps;
        }
        var now := times[n];
        delay := Pace(delay, period, last, now);
        PacedGrows(delays, period, start, times, delay);
        last := now;
        var packet := Stamped(n, nb, now, size);
        if sends[n].ret < 0 {
          return SendFailed(-sends[n].errno), packets, delays, sleeps;
        }
        StreamGrows(packets, rate, times, size, packet);
        packets := packets + [packet];
        WordSum(n, 1);
        nb := ToU32(nb + 1);
        delays := delays + [delay];
        var ticks := 0;
        if delay != 0 {
          ticks := SleepTicks(product, rate, delay);
        }
        NoSleep(product, rate);
        sleeps := sleeps + [ticks];
        more := last < due;
      }
      if |packets| == |times| {
        return Waiting, packets, delays, sleeps;
      }
      return Sent(nb, start, times[|packets|]), packets, delays, sleeps;
    }

    /** zperf_upload_fin: at most two end datagrams, until one is answered. A reply is
        decoded exactly when a round received something; an empty datagram as the last
        answer makes the call succeed without any statistics. */
    method UploadFin(nb: U32, stop: U32, size: nat, attempts: seq<Attempt>)
      returns (code: int, stats: Option<RemoteStats>, sent: seq<seq<Byte>>)
      requires Valid() && DATAGRAM_HDR <= size <= PACKET_SIZE_MAX
      requires |attempts| == 2 && attempts[0].Valid() && attempts[1].Valid()
      modifies samplePacket
      ensures forall k :: 0 <= k < |sent| ==> IsEnd(sent[k], nb, size) && TellsStop(sent[k], rate, stop)
      ensures |sent| == if attempts[0].Ret() > 0 then 1 else 2
      ensures var last := attempts[|sent| - 1];
              && stats == (if last.Ret() > 0 then Some(DecodeStats(Overlay(last.bytes))) else None)
              && code == (if last.Ret() > 0 then 0 else last.Ret())
      ensures code == 0 && stats.None? <==> attempts[0].Ret() <= 0 && attempts[1].Ret() == 0
      ensures stats == FinStats(attempts)
    {
      hide IsEnd, TellsStop, HeaderBytes, DecodeStats, TicksToMs32, TicksToUs32, ToU32;
      var buffer := new Byte[DATAGRAM_HDR + SERVER_HDR](_ => 0);
      var secs := TicksToMs32(rate, stop) / 1000;
      var usecs := ToU32(TicksToUs32(rate, stop) - ToU32(secs * USEC_PER_SEC));
      var loop := 2;
      var ret := 0;
      sent := [];
      while ret <= 0 && loop > 0
        invariant Valid() && 0 <= loop <= 2 && |sent| == 2 - loop
        invariant forall k :: 0 <= k < |sent| ==> IsEnd(sent[k], nb, size) && TellsStop(sent[k], rate, stop)
        invariant loop == 2 ==> ret == 0
        invariant loop < 2 ==> ret == attempts[1 - loop].Ret()
        invariant loop == 0 ==> attempts[0].Ret() <= 0
        invariant buffer[..] == Overlay(if loop < 2 && ret > 0 then attempts[1 - loop].bytes else [])
        invariant fresh(buffer)
        decreases loop
      {
        var a := attempts[2 - loop];
        loop := loop - 1;
        FillHeader(ToU32(-(nb as int)), secs, usecs);
        EndHeader(samplePacket[..size], nb, secs, usecs, rate, stop);
        assert samplePacket[..size][..DATAGRAM_HDR] == samplePacket[..DATAGRAM_HDR];
        sent := sent + [samplePacket[..size]];
        ret := a.send;
        if ret >= 0 {
          ret := a.opt;
          if ret >= 0 {
            ret := a.recv;
            forall i | 0 <= i < |a.bytes| {
              buffer[i] := a.bytes[i];
            }
          }
        }
      }
      if ret > 0 {
        return 0, Some(DecodeStats(buffer[..])), sent;
      }
      return ret, None, sent;
    }

    /** udp_upload: the sending loop, then the handshake. It succeeds exactly when the loop
        sent its packets and the last round of the handshake did not fail. */
    method UdpUpload(durationMs: U32, packetSize: U32, kbps: U32, start: U32, times: seq<U32>, sends: seq<SendResult>,
                     attempts: seq<Attempt>)
      returns (end: UploadEnd, loop: LoopEnd, packets: seq<seq<Byte>>, ends: seq<seq<Byte>>)
      requires Valid() && |attempts| == 2 && attempts[0].Valid() && attempts[1].Valid()
      modifies samplePacket
      ensures LoopEnds(loop, |packets|, kbps, start, Due(rate, start, durationMs), times, sends)
      ensures IsStream(packets, rate, times, Clamp(packetSize))
      ensures match loop
              case Sent(nb, begun, stop) =>
                && |ends| == (if attempts[0].Ret() > 0 then 1 else 2)
                && (forall k :: 0 <= k < |ends| ==> IsEnd(ends[k], nb, Clamp(packetSize)) && TellsStop(ends[k], rate, stop))
                && var ret := attempts[|ends| - 1].Ret();
                   end == if ret < 0 then Failed(ret)
                          else Uploaded(nb, MicrosBetween(rate, begun, stop), Clamp(packetSize), FinStats(attempts))
              case SendFailed(code) => end == Failed(code) && ends == []
              case DivisionByZero => end == DividedByZero && ends == []
              case Waiting => end == Unfinished && ends == []
    {
      hide IsEnd, TellsStop, IsStream, Paced, FinStats, TicksToUs32, MicrosBetween, PacketDuration, PeriodTicks, LoopEnds, Due;
      var delays, sleeps;
      loop, packets, delays, sleeps := SendLoop(durationMs, packetSize, kbps, start, times, sends);
      match loop {
        case Waiting => return Unfinished, loop, packets, [];
        case DivisionByZero => return DividedByZero, loop, packets, [];
        case SendFailed(code) => return Failed(code), loop, packets, [];
        case Sent(nb, begun, stop) =>
          var code, stats;
          code, stats, ends := UploadFin(nb, stop, Clamp(packetSize), attempts);
          if code < 0 {
            return Failed(code), loop, packets, ends;
          }
          ElapsedIsTime(rate, begun, stop);
          return Uploaded(nb, TicksToUs32(rate, ToU32(stop - begun)), Clamp(packetSize), stats), loop, packets, ends;
      }
    }
  }

  lemma HeaderOfWords(id: U32, secs: U32, usecs: U32)
    ensures BigEndian(id) + BigEndian(secs) + BigEndian(usecs) == HeaderBytes(Datagram(ToI32(id), secs, usecs))
  {
    SameWord(ToI32(id), id, if ToI32(id) == id then 0 else -1);
    assert ToU32(ToI32(id)) == id;
    var ws := [id, secs, usecs];
    assert ws[..2] == [id, secs] && [id, secs][..1] == [id] && [id][..0] == [];
    assert Pack([id]) == [] + BigEndian(id) == BigEndian(id);
    assert Pack([id, secs]) == BigEndian(id) + BigEndian(secs);
  }

  /** The header of an end datagram, read back. */
  lemma EndHeader(packet: seq<Byte>, nb: U32, secs: U32, usecs: U32, rate: nat, stop: U32)
    requires |packet| >= DATAGRAM_HDR && rate > 0
    requires packet[..DATAGRAM_HDR] == HeaderBytes(Datagram(ToI32(ToU32(-(nb as int))), secs, usecs))
    requires secs == TicksToMs32(rate, stop) / 1000
    requires usecs == ToU32(TicksToUs32(rate, stop) - ToU32(secs * USEC_PER_SEC))
    ensures IsEnd(packet, nb, |packet|) && TellsStop(packet, rate, stop)
  {
    hide TicksToMs32, TicksToUs32, ToU32, ToI32, HeaderBytes, Header;
    var d := Datagram(ToI32(ToU32(-(nb as int))), secs, usecs);
    HeaderRoundTrip(d, packet[DATAGRAM_HDR..]);
    assert packet == HeaderBytes(d) + packet[DATAGRAM_HDR..];
    EndId(nb);
    EndClock(secs, TicksToUs32(rate, stop));
    EndSeconds(rate, stop);
  }

  lemma EndId(nb: U32)
    ensures ToI32(ToU32(-(nb as int))) == ToI32(-(nb as int))
  {
    SameWord(-(nb as int), ToU32(-(nb as int)), -(nb as int) / TWO32);
  }

  /** Seconds and remaining microseconds add up again. */
  lemma EndClock(secs: U32, us: U32)
    ensures ToU32(ToU32(secs * USEC_PER_SEC) + ToU32(us - ToU32(secs * USEC_PER_SEC))) == us
  {
    var s := ToU32(secs * USEC_PER_SEC);
    WordSum(us - s, s);
    FitsU32(us);
  }

  lemma EndSeconds(rate: nat, stop: U32)
    requires rate > 0
    ensures TicksToUs32(rate, stop) == ToU32(stop * 1_000_000 / rate)
    ensures stop * 1000 / rate < TWO32 ==> TicksToMs32(rate, stop) / 1000 == stop / rate
  {
    hide ToU32;
    if stop * 1000 / rate < TWO32 {
      var q := stop * 1000 / rate;
      assert 0 <= q;
      FitsU32(q);
      NestedQuotient(stop * 1000, rate, 1000);
      NestedQuotient(stop * 1000, 1000, rate);
      assert rate * 1000 == 1000 * rate;
    }
  }
}
