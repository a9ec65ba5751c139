/** udp_received and tcp_received on the shared session table, in place. */
module Receivers {
  import opened Words
  import opened Kernel
  import opened Wire
  import opened SessionTables
  import opened Receive

  class Receiver {
    const table: SessionTable
    const rate: nat

    ghost predicate Valid() {
      table.Valid() && rate > 0
    }

    constructor (table: SessionTable, rate: nat)
      requires table.Valid() && rate > 0
      ensures Valid() && this.table == table && this.rate == rate
    {
      this.table, this.rate := table, rate;
    }

    /** zperf_receiver_send_stat: builds the reply in a local buffer. A failed send is
        only logged. */
    method SendStat(hdr: seq<Byte>, stat: ServerStat) returns (out: Output)
      requires |hdr| == DATAGRAM_HDR
      ensures out == Reply(ReplyBytes(hdr, stat))
    {
      var reply := new Byte[DATAGRAM_HDR + SERVER_HDR](_ => 0);
      BuildReply(hdr, stat, reply);
      out := Reply(reply[..]);
    }

    /** The jitter update of one datagram. */
    method UpdateJitter(i: nat, transit: I32)
      requires Valid() && i < SESSION_MAX
      modifies table.udp
      ensures table.udp[..] == old(table.udp[..])[i := old(table.udp[i]).(figures := CountTransit(old(table.udp[i]).figures, transit))]
    {
      var slots := table.udp;
      if slots[i].figures.lastTransit != 0 {
        var delta := ToI32(transit - slots[i].figures.lastTransit);
        delta := if delta < 0 then ToI32(-delta) else delta;
        var jitter := slots[i].figures.jitter;
        slots[i] := slots[i].(figures := slots[i].figures.(jitter := ToI32(jitter + TruncDiv(ToI32(delta - jitter), 16))));
      }
      slots[i] := slots[i].(figures := slots[i].figures.(lastTransit := transit));
    }

    /** The sequence check of one datagram. */
    method CheckId(i: nat, id: U32)
      requires Valid() && i < SESSION_MAX
      modifies table.udp
      ensures table.udp[..] == old(table.udp[..])[i := old(table.udp[i]).(figures := CountId(old(table.udp[i]).figures, id))]
    {
      var slots := table.udp;
      var f := slots[i].figures;
      if id != f.nextId {
        if id < f.nextId {
          slots[i] := slots[i].(figures := f.(outorder := ToU32(f.outorder + 1)));
        } else {
          slots[i] := slots[i].(figures := f.(error := ToU32(f.error + (id - f.nextId)), nextId := ToU32(id + 1)));
        }
      } else {
        slots[i] := slots[i].(figures := f.(nextId := ToU32(f.nextId + 1)));
      }
    }

    /** udp_received */
    method UdpReceived(inp: Input) returns (outs: seq<Output>)
      requires Valid()
      modifies table.udp
      ensures (table.udp[..], outs) == Step(Udp, rate, old(table.udp[..]), inp)
    {
      var slots := table.udp;
      if |inp.data| < DATAGRAM_HDR {
        return [ShortPacket];
      }
      var h := Header(inp.data);
      var slot := table.GetSession(inp.addr, Udp);
      if slot.None? {
        return [Refused];
      }
      var i := slot.value;
      ghost var claimed := slots[..];
      outs := [];
      if slots[i].phase.Completed? || slots[i].phase.Null? {
        if h.id < 0 {
          var reply := SendStat(inp.data[..DATAGRAM_HDR], slots[i].stat);
          outs := [reply];
        } else {
          table.ResetStats(Udp, i);
          slots[i] := slots[i].(phase := Ongoing);
          slots[i] := slots[i].(figures := slots[i].figures.(startTime := inp.time));
          outs := [Started];
        }
      } else if h.id < 0 {
        var f := slots[i].figures;
        var duration := TicksToUs32(rate, ToU32(inp.time - f.startTime));
        slots[i] := slots[i].(phase := Completed);
        slots[i] := slots[i].(stat := ServerStat(0x8000_0000, f.length / TWO32, f.length % 0xFFFF_FFFF,
                                                 duration / USEC_PER_SEC, duration % USEC_PER_SEC,
                                                 f.error, f.outorder, f.counter, 0, ToU32(f.jitter)));
        var reply := SendStat(inp.data[..DATAGRAM_HDR], slots[i].stat);
        outs := [reply, UdpReport(f, duration)];
      } else {
        var f := slots[i].figures;
        slots[i] := slots[i].(figures := f.(counter := ToU32(f.counter + 1), length := ToU64(f.length + |inp.data|)));
        var transit := ToI32(TimeDelta(TicksToUs32(rate, inp.time), SentAt(h)));
        UpdateJitter(i, transit);
        CheckId(i, h.id);
      }
      assert outs == HandleUdp(rate, claimed[i], inp).1;
      assert slots[..] == claimed[i := HandleUdp(rate, claimed[i], inp).0];
    }

    /** tcp_received */
    method TcpReceived(inp: Input) returns (outs: seq<Output>)
      requires Valid()
      modifies table.tcp
      ensures (table.tcp[..], outs) == Step(Tcp, rate, old(table.tcp[..]), inp)
    {
      var slots := table.tcp;
      var slot := table.GetSession(inp.addr, Tcp);
      if slot.None? {
        return [Refused];
      }
      var i := slot.value;
      ghost var claimed := slots[..];
      outs := [];
      if slots[i].phase.Completed? || slots[i].phase.Null? {
        table.ResetStats(Tcp, i);
        slots[i] := slots[i].(figures := slots[i].figures.(startTime := inp.again));
        slots[i] := slots[i].(phase := Ongoing);
        outs := outs + [Started];
      }
      var f := slots[i].figures;
      slots[i] := slots[i].(figures := f.(counter := ToU32(f.counter + 1), length := ToU64(f.length + |inp.data|)));
      if |inp.data| == 0 {
        slots[i] := slots[i].(phase := Completed);
        outs := outs + [TcpReport(slots[i].figures, TicksToUs32(rate, ToU32(inp.time - slots[i].figures.startTime)))];
      }
      assert outs == HandleTcp(rate, claimed[i], inp).1;
      assert slots[..] == claimed[i := HandleTcp(rate, claimed[i], inp).0];
    }
  }
}
