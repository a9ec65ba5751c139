/** The wire layouts of zperf_internal.h, and the statistics record that the
    receiver writes (build_reply) and the uploader reads (zperf_upload_decode_stat). */
module Wire {
  import opened Words
  import opened Kernel

  const DATAGRAM_HDR: nat := 12  // sizeof(struct zperf_udp_datagram)
  const SERVER_HDR: nat := 40    // sizeof(struct zperf_server_hdr)

  const PACKET_SIZE_MAX: nat := 1024  // CONFIG_NET_ZPERF_MAX_PACKET_SIZE

  /** struct zperf_udp_datagram in host order. */
  datatype Datagram = Datagram(id: I32, tvSec: U32, tvUsec: U32)

  /** struct zperf_server_hdr. Every field is kept as its 32-bit pattern. */
  datatype ServerStat = ServerStat(flags: U32, totalLen1: U32, totalLen2: U32,
                                   stopSec: U32, stopUsec: U32, errorCnt: U32, outorderCnt: U32,
                                   datagrams: U32, jitter1: U32, jitter2: U32)
  {
    /** The fields in wire order. */
    function Words(): (ws: seq<U32>)
      ensures |ws| == 10
    {
      [flags, totalLen1, totalLen2, stopSec, stopUsec, errorCnt, outorderCnt, datagrams, jitter1, jitter2]
    }
  }

  const ZERO_STAT := ServerStat(0, 0, 0, 0, 0, 0, 0, 0, 0, 0)

  /** What the uploader reads out of a reply. */
  datatype RemoteStats = RemoteStats(rcvd: U32, lost: U32, outorder: U32, totalLen: U32, timeUs: U32, jitterUs: U32)

  /** Big-endian words laid end to end. */
  function Pack(ws: seq<U32>): (b: seq<Byte>)
    ensures |b| == 4 * |ws|
  {
    if ws == [] then [] else Pack(ws[..|ws| - 1]) + BigEndian(ws[|ws| - 1])
  }

  /** The `k`th word of a byte string. */
  function WordAt(b: seq<Byte>, k: nat): U32
    requires 4 * k + 4 <= |b|
  {
    FromBigEndian(b[4 * k..4 * k + 4])
  }

  /** Unpacking finds every word at its own place, whatever precedes the record. */
  lemma {:induction false} WordAtPacked(prefix: seq<Byte>, m: nat, ws: seq<U32>, k: nat)
    requires |prefix| == 4 * m && k < |ws|
    ensures WordAt(prefix + Pack(ws), m + k) == ws[k]
  {
    var n := |ws| - 1;
    var front := prefix + Pack(ws[..n]);
    assert prefix + Pack(ws) == front + BigEndian(ws[n]);
    if k == n {
      assert (front + BigEndian(ws[n]))[4 * (m + k)..4 * (m + k) + 4] == BigEndian(ws[n]);
      WordRoundTrip(ws[n]);
    } else {
      WordAtPacked(prefix, m, ws[..n], k);
      assert (front + BigEndian(ws[n]))[4 * (m + k)..4 * (m + k) + 4] == front[4 * (m + k)..4 * (m + k) + 4];
    }
  }

  /** The header bytes of a datagram, as the sender writes them. */
  function HeaderBytes(d: Datagram): (b: seq<Byte>)
    ensures |b| == DATAGRAM_HDR
  {
    Pack([ToU32(d.id), d.tvSec, d.tvUsec])
  }

  /** The header a receiver sees at the front of the data. */
  function Header(data: seq<Byte>): Datagram
    requires |data| >= DATAGRAM_HDR
  {
    Datagram(ToI32(WordAt(data, 0)), WordAt(data, 1), WordAt(data, 2))
  }

  /** A header survives the trip, whatever payload follows it. */
  lemma HeaderRoundTrip(d: Datagram, payload: seq<Byte>)
    ensures Header(HeaderBytes(d) + payload) == d
  {
    hide Pack, BigEndian, FromBigEndian, ToU32, ToI32;
    SignedRoundTrip(d.id);
    var ws := [ToU32(d.id), d.tvSec, d.tvUsec];
    var data := HeaderBytes(d) + payload;
    forall k: nat | k < 3 ensures WordAt(data, k) == ws[k] {
      WordAtPacked([], 0, ws, k);
      assert [] + Pack(ws) == Pack(ws);
      assert data[4 * k..4 * k + 4] == Pack(ws)[4 * k..4 * k + 4];
    }
    assert WordAt(data, 0) == ws[0] && WordAt(data, 1) == ws[1] && WordAt(data, 2) == ws[2];
  }

  /** The reply: the peer's own header, then the record. */
  function ReplyBytes(hdr: seq<Byte>, stat: ServerStat): (b: seq<Byte>)
    requires |hdr| == DATAGRAM_HDR
    ensures |b| == DATAGRAM_HDR + SERVER_HDR
  {
    hdr + Pack(stat.Words())
  }

  /** Where each field is on the wire: the reply echoes the 12 bytes of the header, and the
      ten words of the record follow in the order of struct zperf_server_hdr. */
  lemma ReplyLayout(hdr: seq<Byte>, stat: ServerStat)
    requires |hdr| == DATAGRAM_HDR
    ensures var b := ReplyBytes(hdr, stat);
            && b[..12] == hdr && FromBigEndian(b[12..16]) == stat.flags
            && FromBigEndian(b[16..20]) == stat.totalLen1 && FromBigEndian(b[20..24]) == stat.totalLen2
            && FromBigEndian(b[24..28]) == stat.stopSec && FromBigEndian(b[28..32]) == stat.stopUsec
            && FromBigEndian(b[32..36]) == stat.errorCnt && FromBigEndian(b[36..40]) == stat.outorderCnt
            && FromBigEndian(b[40..44]) == stat.datagrams
            && FromBigEndian(b[44..48]) == stat.jitter1 && FromBigEndian(b[48..52]) == stat.jitter2
  {
    hide FromBigEndian, Pack;
    var ws := stat.Words();
    forall k: nat | k < 10 ensures FromBigEndian(ReplyBytes(hdr, stat)[12 + 4 * k..16 + 4 * k]) == ws[k] {
      WordAtPacked(hdr, 3, ws, k);
    }
    FieldsOfLayout(ReplyBytes(hdr, stat), ws);
  }

  lemma FieldsOfLayout(b: seq<Byte>, ws: seq<U32>)
    requires |b| == 52 && |ws| == 10
    requires forall k: nat {:trigger ws[k]} :: k < 10 ==> FromBigEndian(b[12 + 4 * k..16 + 4 * k]) == ws[k]
    ensures FromBigEndian(b[12..16]) == ws[0] && FromBigEndian(b[16..20]) == ws[1] && FromBigEndian(b[20..24]) == ws[2]
    ensures FromBigEndian(b[24..28]) == ws[3] && FromBigEndian(b[28..32]) == ws[4] && FromBigEndian(b[32..36]) == ws[5]
    ensures FromBigEndian(b[36..40]) == ws[6] && FromBigEndian(b[40..44]) == ws[7] && FromBigEndian(b[44..48]) == ws[8]
    ensures FromBigEndian(b[48..52]) == ws[9]
  {
    hide FromBigEndian;
  }

  /** A datagram header is its id, seconds and microseconds, in that order. */
  lemma HeaderLayout(d: Datagram)
    ensures var b := HeaderBytes(d);
            && FromBigEndian(b[..4]) == ToU32(d.id) && FromBigEndian(b[4..8]) == d.tvSec && FromBigEndian(b[8..]) == d.tvUsec
  {
    hide FromBigEndian, Pack, ToU32;
    var ws := [ToU32(d.id), d.tvSec, d.tvUsec];
    WordAtPacked([], 0, ws, 0);
    WordAtPacked([], 0, ws, 1);
    WordAtPacked([], 0, ws, 2);
    assert [] + Pack(ws) == Pack(ws);
    assert HeaderBytes(d)[8..] == HeaderBytes(d)[8..12];
  }

  /** zperf_upload_decode_stat. The caller's buffer always has the full size, so
      a short packet is decoded too. */
  function DecodeStats(b: seq<Byte>): RemoteStats
    requires |b| == DATAGRAM_HDR + SERVER_HDR
  {
    RemoteStats(WordAt(b, 10), WordAt(b, 8), WordAt(b, 9), WordAt(b, 5),
                ToU32(WordAt(b, 7) + ToU32(WordAt(b, 6) * USEC_PER_SEC)),
                ToU32(WordAt(b, 12) + ToU32(WordAt(b, 11) * USEC_PER_SEC)))
  }

  /** The uploader reads back exactly the fields the receiver wrote. */
  lemma ReplyRoundTrip(hdr: seq<Byte>, stat: ServerStat)
    requires |hdr| == DATAGRAM_HDR
    ensures DecodeStats(ReplyBytes(hdr, stat)) ==
            RemoteStats(stat.datagrams, stat.errorCnt, stat.outorderCnt, stat.totalLen2,
                        ToU32(stat.stopUsec + stat.stopSec * USEC_PER_SEC),
                        ToU32(stat.jitter2 + stat.jitter1 * USEC_PER_SEC))
  {
    var ws := stat.Words();
    var b := ReplyBytes(hdr, stat);
    WordAtPacked(hdr, 3, ws, 2);
    WordAtPacked(hdr, 3, ws, 3);
    WordAtPacked(hdr, 3, ws, 4);
    WordAtPacked(hdr, 3, ws, 5);
    WordAtPacked(hdr, 3, ws, 6);
    WordAtPacked(hdr, 3, ws, 7);
    WordAtPacked(hdr, 3, ws, 8);
    WordAtPacked(hdr, 3, ws, 9);
    WordSum(stat.stopSec * USEC_PER_SEC, stat.stopUsec);
    WordSum(stat.jitter1 * USEC_PER_SEC, stat.jitter2);
  }

  /** Stores one word in network order at `pos`. */
  method PutWord(buf: array<Byte>, pos: nat, w: U32)
    requires pos + 4 <= buf.Length
    modifies buf
    ensures buf[..pos + 4] == old(buf[..pos]) + BigEndian(w)
    ensures buf[pos + 4..] == old(buf[pos + 4..])
  {
    var b := BigEndian(w);
    buf[pos], buf[pos + 1], buf[pos + 2], buf[pos + 3] := b[0], b[1], b[2], b[3];
  }

  /** The reply up to its first `k` fields. */
  ghost function ReplyPrefix(hdr: seq<Byte>, stat: ServerStat, k: nat): (b: seq<Byte>)
    requires |hdr| == DATAGRAM_HDR && k <= 10
    ensures |b| == DATAGRAM_HDR + 4 * k
  {
    hdr + Pack(stat.Words()[..k])
  }

  /** One field of the record, after the fields before it. */
  method PutField(buf: array<Byte>, ghost hdr: seq<Byte>, ghost stat: ServerStat, k: nat, w: U32)
    requires buf.Length == DATAGRAM_HDR + SERVER_HDR && |hdr| == DATAGRAM_HDR
    requires k < 10 && stat.Words()[k] == w
    requires buf[..DATAGRAM_HDR + 4 * k] == ReplyPrefix(hdr, stat, k)
    modifies buf
    ensures buf[..DATAGRAM_HDR + 4 * (k + 1)] == ReplyPrefix(hdr, stat, k + 1)
  {
    PutWord(buf, DATAGRAM_HDR + 4 * k, w);
    ghost var ws := stat.Words();
    assert ws[..k + 1][..k] == ws[..k];
    assert Pack(ws[..k + 1]) == Pack(ws[..k]) + BigEndian(w);
  }

  /** build_reply: writes the whole reply into the caller's buffer. */
  method BuildReply(hdr: seq<Byte>, stat: ServerStat, buf: array<Byte>)
    requires |hdr| == DATAGRAM_HDR && buf.Length == DATAGRAM_HDR + SERVER_HDR
    modifies buf
    ensures buf[..] == ReplyBytes(hdr, stat)
  {
    CopyHeader(hdr, stat, buf);
    PutField(buf, hdr, stat, 0, stat.flags);
    PutField(buf, hdr, stat, 1, stat.totalLen1);
    PutField(buf, hdr, stat, 2, stat.totalLen2);
    PutField(buf, hdr, stat, 3, stat.stopSec);
    PutField(buf, hdr, stat, 4, stat.stopUsec);
    PutField(buf, hdr, stat, 5, stat.errorCnt);
    PutField(buf, hdr, stat, 6, stat.outorderCnt);
    PutField(buf, hdr, stat, 7, stat.datagrams);
    PutField(buf, hdr, stat, 8, stat.jitter1);
    PutField(buf, hdr, stat, 9, stat.jitter2);
    assert buf[..] == buf[..DATAGRAM_HDR + 4 * 10];
    assert stat.Words()[..10] == stat.Words();
  }

  /** The `memcpy` of the datagram header. */
  method CopyHeader(hdr: seq<Byte>, ghost stat: ServerStat, buf: array<Byte>)
    requires |hdr| == DATAGRAM_HDR && buf.Length == DATAGRAM_HDR + SERVER_HDR
    modifies buf
    ensures buf[..DATAGRAM_HDR + 4 * 0] == ReplyPrefix(hdr, stat, 0)
  {
    forall i | 0 <= i < DATAGRAM_HDR {
      buf[i] := hdr[i];
    }
    assert buf[..DATAGRAM_HDR] == hdr;
    assert stat.Words()[..0] == [];
  }
}
