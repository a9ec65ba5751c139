/** The statistics record of a UDP session: what the uploader decodes from it, and whose
    record a repeated end datagram is answered with. */
module Records {
  import opened Words
  import opened Kernel
  import opened Wire
  import opened SessionTables
  import opened Receive
  import opened Demux

  /** What the uploader decodes from the final record of a session. */
  function Decoded(f: Figures, duration: U32): RemoteStats {
    RemoteStats(f.counter, f.error, f.outorder, f.length % 0xFFFF_FFFF, duration, ToU32(f.jitter))
  }

  /** Record and decoder fit: the uploader gets the receiver's counters, the exact
      duration and the jitter. The length is exact if and only if it is below 2^32 - 1,
      because the record keeps it modulo 2^32 - 1. */
  lemma RecordRoundTrip(hdr: seq<Byte>, f: Figures, duration: U32)
    requires |hdr| == DATAGRAM_HDR
    ensures DecodeStats(ReplyBytes(hdr, FinalStat(f, duration))) == Decoded(f, duration)
    ensures Decoded(f, duration).totalLen == f.length <==> f.length < 0xFFFF_FFFF
  {
    hide DecodeStats, ReplyBytes;
    var stat := FinalStat(f, duration);
    ReplyRoundTrip(hdr, stat);
    assert stat.stopUsec + stat.stopSec * USEC_PER_SEC == duration;
    assert stat.jitter2 + stat.jitter1 * USEC_PER_SEC == ToU32(f.jitter);
  }

  /** The rest of the record, for receivers that read more than this uploader does: the
      flag of a version 1 server header, the high half of the length, and the duration split
      into seconds and microseconds. */
  lemma RecordFields(f: Figures, duration: U32)
    ensures var stat := FinalStat(f, duration);
            && stat.flags == 0x8000_0000
            && stat.totalLen1 * TWO32 <= f.length < (stat.totalLen1 + 1) * TWO32
            && stat.stopUsec < USEC_PER_SEC && stat.stopSec * USEC_PER_SEC + stat.stopUsec == duration
            && stat.jitter1 == 0
  {
  }

  /** A reply is sent to end datagrams alone, one to each that gets a slot, and it carries
      the datagram's own header back. */
  lemma RepliesToEnds(rate: nat, slots: seq<Session>, inp: Input)
    requires rate > 0
    ensures var outs := Step(Udp, rate, slots, inp).1;
            if Heard(Udp, inp) && Ends(Udp, inp) && Lookup(slots, inp.addr).Some? then
              && outs != [] && outs[0].Reply? && |outs[0].bytes| == DATAGRAM_HDR + SERVER_HDR
              && outs[0].bytes[..DATAGRAM_HDR] == inp.data[..DATAGRAM_HDR]
              && forall k :: 1 <= k < |outs| ==> !outs[k].Reply?
            else forall k :: 0 <= k < |outs| ==> !outs[k].Reply?
  {
    hide Header, CountDatagram, FinalStat, Elapsed;
    if Heard(Udp, inp) && Lookup(slots, inp.addr).Some? {
      var s := Claim(slots, inp.addr)[Lookup(slots, inp.addr).value];
      var outs := HandleUdp(rate, s, inp).1;
      assert Step(Udp, rate, slots, inp).1 == outs;
      if Ends(Udp, inp) {
        EchoedHeader(inp.data[..DATAGRAM_HDR], s.stat);
        EchoedHeader(inp.data[..DATAGRAM_HDR], FinalStat(s.figures, Elapsed(rate, s.figures.startTime, inp.time)));
      }
    }
  }

  lemma EchoedHeader(hdr: seq<Byte>, stat: ServerStat)
    requires |hdr| == DATAGRAM_HDR
    ensures ReplyBytes(hdr, stat)[..DATAGRAM_HDR] == hdr
  {
  }

  /** The `n`th input ends the session that runs in slot `i`. */
  predicate ClosesIn(slots: seq<Session>, inp: Input, i: nat) {
    && Heard(Udp, inp) && Ends(Udp, inp)
    && FirstMatch(slots, inp.addr) == Some(i) && slots[i].phase.Ongoing?
  }

  /** The record saved, and sent, by the input that closes a session. */
  function ClosingRecord(rate: nat, slots: seq<Session>, inp: Input): ServerStat
    requires rate > 0 && View(slots, inp.addr).Some?
  {
    var f := View(slots, inp.addr).value;
    FinalStat(f, Elapsed(rate, f.startTime, inp.time))
  }

  /** A saved record changes only when a session closes in that slot, and the closing peer
      is sent the same record. */
  lemma RecordStep(rate: nat, slots: seq<Session>, inp: Input, i: nat)
    requires rate > 0 && i < |slots|
    ensures var (slots', outs) := Step(Udp, rate, slots, inp);
            if ClosesIn(slots, inp, i) then
              && slots'[i].stat == ClosingRecord(rate, slots, inp) && |outs| == 2
              && outs[0] == Reply(ReplyBytes(inp.data[..DATAGRAM_HDR], ClosingRecord(rate, slots, inp)))
            else slots'[i].stat == slots[i].stat
  {
  }

  /** What a close leaves in its slot. */
  lemma CloseStep(rate: nat, slots: seq<Session>, inp: Input, i: nat)
    requires rate > 0 && ClosesIn(slots, inp, i)
    ensures var slots' := Step(Udp, rate, slots, inp).0;
            && i < |slots'| && slots'[i].key == inp.addr && !slots'[i].phase.Ongoing?
            && slots'[i].stat == ClosingRecord(rate, slots, inp)
  {
    RecordStep(rate, slots, inp, i);
  }

  /** An end datagram without a running session is answered with the record of the slot
      that get_session finds for it, and changes no session. */
  lemma IdleEnd(rate: nat, slots: seq<Session>, inp: Input)
    requires rate > 0 && Heard(Udp, inp) && Ends(Udp, inp)
    requires View(slots, inp.addr).None? && Lookup(slots, inp.addr).Some? && !inp.addr.Unspecified?
    ensures var i := Lookup(slots, inp.addr).value;
            Step(Udp, rate, slots, inp) == (Claim(slots, inp.addr), [Reply(ReplyBytes(inp.data[..DATAGRAM_HDR], slots[i].stat))])
  {
    var i := Lookup(slots, inp.addr).value;
    var claimed := Claim(slots, inp.addr);
    assert claimed[i := claimed[i]] == claimed;
  }

  /** The last input of a run that closed a session in slot `i`. */
  function LastCloseIn(sv: Server, ds: seq<Input>, i: nat): (e: Option<nat>)
    requires sv.rate > 0
    ensures e.Some? ==> e.value < |ds| && ClosesIn(TableAfter(sv, ds[..e.value]), ds[e.value], i)
  {
    if ds == [] then None else
    var n := |ds| - 1;
    if ClosesIn(TableAfter(sv, ds[..n]), ds[n], i) then Some(n)
    else
      var e := LastCloseIn(sv, ds[..n], i);
      assert e.Some? ==> ds[..n][..e.value] == ds[..e.value];
      e
  }

  lemma {:induction false} TableSize(sv: Server, ds: seq<Input>)
    requires sv.rate > 0
    ensures |TableAfter(sv, ds)| == |sv.table|
  {
    if ds != [] {
      TableSize(sv, ds[..|ds| - 1]);
    }
  }

  /** A slot holds the record of the last session that closed in it. */
  lemma {:induction false} SlotRecord(sv: Server, ds: seq<Input>, i: nat)
    requires sv.rate > 0 && sv.proto.Udp? && i < |sv.table|
    ensures |TableAfter(sv, ds)| == |sv.table|
    ensures TableAfter(sv, ds)[i].stat
            == match LastCloseIn(sv, ds, i)
               case None => sv.table[i].stat
               case Some(e) => ClosingRecord(sv.rate, TableAfter(sv, ds[..e]), ds[e])
  {
    hide Step, ClosingRecord, ClosesIn;
    TableSize(sv, ds);
    if ds != [] {
      var n := |ds| - 1;
      SlotRecord(sv, ds[..n], i);
      RecordStep(sv.rate, TableAfter(sv, ds[..n]), ds[n], i);
      var e := LastCloseIn(sv, ds[..n], i);
      if e.Some? {
        assert ds[..n][..e.value] == ds[..e.value];
      }
    }
  }

  /** Whose record a peer without a running session is answered with: that of the last
      session closed in the slot it is given, be it its own or an earlier occupant's. */
  lemma IdleEndAnswer(sv: Server, ds: seq<Input>, n: nat)
    requires sv.rate > 0 && sv.proto.Udp? && n < |ds| && !ds[n].addr.Unspecified?
    requires Heard(Udp, ds[n]) && Ends(Udp, ds[n])
    requires var slots := TableAfter(sv, ds[..n]); View(slots, ds[n].addr).None? && Lookup(slots, ds[n].addr).Some?
    ensures var i := Lookup(TableAfter(sv, ds[..n]), ds[n].addr).value;
            i < |sv.table|
            && OutputsAt(sv, ds, n)
               == [Reply(ReplyBytes(ds[n].data[..DATAGRAM_HDR],
                                    match LastCloseIn(sv, ds[..n], i)
                                    case None => sv.table[i].stat
                                    case Some(e) => ClosingRecord(sv.rate, TableAfter(sv, ds[..n][..e]), ds[e])))]
  {
    hide Step, ClosingRecord, ClosesIn;
    var slots := TableAfter(sv, ds[..n]);
    TableSize(sv, ds[..n]);
    IdleEnd(sv.rate, slots, ds[n]);
    SlotRecord(sv, ds[..n], Lookup(slots, ds[n].addr).value);
  }

  /** A closed session whose slot keeps its key is untouched by any input but a new start
      of its own peer. */
  lemma ClosedSlotStays(rate: nat, slots: seq<Session>, inp: Input, i: nat)
    requires rate > 0 && i < |slots| && !slots[i].phase.Ongoing? && !inp.addr.Unspecified?
    requires FirstMatch(slots, slots[i].key) == Some(i)
    requires Step(Udp, rate, slots, inp).0[i].key == slots[i].key
    requires inp.addr == slots[i].key && Heard(Udp, inp) ==> Ends(Udp, inp)
    ensures Step(Udp, rate, slots, inp).0[i] == slots[i]
  {
  }

  /** Repeating the end datagram repeats the answer: as long as no one takes the slot over
      and the peer starts no new session, every end datagram after the close at `e` gets
      the record of that close again, and no second FINISHED follows. */
  lemma {:induction false} ResendIdempotent(sv: Server, ds: seq<Input>, e: nat, n: nat, i: nat, p: Address)
    requires sv.rate > 0 && sv.proto.Udp? && IpTraffic(ds) && e < n < |ds| && ds[e].addr == ds[n].addr == p
    requires ClosesIn(TableAfter(sv, ds[..e]), ds[e], i) && Heard(Udp, ds[n]) && Ends(Udp, ds[n])
    requires forall k :: e < k < n && ds[k].addr == p && Heard(Udp, ds[k]) ==> Ends(Udp, ds[k])
    requires forall k :: e < k <= n ==> FirstMatch(TableAfter(sv, ds[..k]), p) == Some(i)
    ensures OutputsAt(sv, ds, n)
            == [Reply(ReplyBytes(ds[n].data[..DATAGRAM_HDR], ClosingRecord(sv.rate, TableAfter(sv, ds[..e]), ds[e])))]
  {
    hide ClosingRecord;
    ClosedAndHeld(sv, ds, e, n, i, p);
    IdleEnd(sv.rate, TableAfter(sv, ds[..n]), ds[n]);
  }

  /** From the close on, the slot holds the closing record. */
  lemma {:induction false} ClosedAndHeld(sv: Server, ds: seq<Input>, e: nat, k: nat, i: nat, p: Address)
    requires sv.rate > 0 && sv.proto.Udp? && IpTraffic(ds) && e < k <= |ds| && ds[e].addr == p
    requires ClosesIn(TableAfter(sv, ds[..e]), ds[e], i)
    requires forall m :: e < m < k && ds[m].addr == p && Heard(Udp, ds[m]) ==> Ends(Udp, ds[m])
    requires forall m :: e < m <= k ==> FirstMatch(TableAfter(sv, ds[..m]), p) == Some(i)
    ensures var slots := TableAfter(sv, ds[..k]);
            && i < |slots| && slots[i].key == p && !slots[i].phase.Ongoing?
            && slots[i].stat == ClosingRecord(sv.rate, TableAfter(sv, ds[..e]), ds[e])
  {
    hide ClosingRecord, Step, FirstMatch;
    var before := TableAfter(sv, ds[..k - 1]);
    assert ds[..k][..k - 1] == ds[..k - 1];
    assert TableAfter(sv, ds[..k]) == Step(Udp, sv.rate, before, ds[k - 1]).0;
    if k == e + 1 {
      CloseStep(sv.rate, before, ds[e], i);
    } else {
      ClosedAndHeld(sv, ds, e, k - 1, i, p);
      ClosedSlotStays(sv.rate, before, ds[k - 1], i);
    }
  }

  /** A step changes no key unless it hears from a peer without a slot. */
  lemma KnownStep(rate: nat, slots: seq<Session>, inp: Input, q: Address)
    requires rate > 0 && (Heard(Udp, inp) ==> FirstMatch(slots, inp.addr).Some?)
    ensures FirstMatch(Step(Udp, rate, slots, inp).0, q) == FirstMatch(slots, q)
  {
    var slots' := Step(Udp, rate, slots, inp).0;
    forall k | 0 <= k < |slots| ensures Matches(slots'[k], q) <==> Matches(slots[k], q) {
      assert slots'[k].key == slots[k].key;
    }
    SameMatch(slots, slots', q);
  }

  /** Between inputs `e` and `n` the server hears only from peers that hold a slot after
      `e`, and from `p` only end datagrams. */
  ghost predicate NobodyNew(sv: Server, ds: seq<Input>, e: nat, n: nat, p: Address)
    requires sv.rate > 0 && e < n <= |ds|
  {
    forall k :: e < k < n && Heard(Udp, ds[k]) ==>
      FirstMatch(TableAfter(sv, ds[..e + 1]), ds[k].addr).Some? && (ds[k].addr == p ==> Ends(Udp, ds[k]))
  }

  /** Then every peer keeps its slot. */
  lemma {:induction false} NobodyNewKeeps(sv: Server, ds: seq<Input>, e: nat, n: nat, p: Address, q: Address)
    requires sv.rate > 0 && sv.proto.Udp? && e < n <= |ds| && NobodyNew(sv, ds, e, n, p)
    ensures FirstMatch(TableAfter(sv, ds[..n]), q) == FirstMatch(TableAfter(sv, ds[..e + 1]), q)
  {
    hide Step, FirstMatch, Heard, Ends;
    if n > e + 1 {
      NobodyNewKeeps(sv, ds, e, n - 1, p, q);
      NobodyNewKeeps(sv, ds, e, n - 1, p, ds[n - 1].addr);
      assert ds[..n][..n - 1] == ds[..n - 1];
      KnownStep(sv.rate, TableAfter(sv, ds[..n - 1]), ds[n - 1], q);
    }
  }

  /** The retry works: while only peers with a slot are heard, a repeated end datagram gets
      the record of the first one again. */
  lemma RetryAnswered(sv: Server, ds: seq<Input>, e: nat, n: nat, i: nat, p: Address)
    requires sv.rate > 0 && sv.proto.Udp? && IpTraffic(ds) && e < n < |ds| && ds[e].addr == ds[n].addr == p
    requires ClosesIn(TableAfter(sv, ds[..e]), ds[e], i) && Heard(Udp, ds[n]) && Ends(Udp, ds[n])
    requires NobodyNew(sv, ds, e, n, p)
    ensures OutputsAt(sv, ds, n)
            == [Reply(ReplyBytes(ds[n].data[..DATAGRAM_HDR], ClosingRecord(sv.rate, TableAfter(sv, ds[..e]), ds[e])))]
  {
    hide ClosingRecord, Step, Heard, Ends, OutputsAt;
    assert ds[..e + 1][..e] == ds[..e];
    KnownStep(sv.rate, TableAfter(sv, ds[..e]), ds[e], p);
    forall k | e < k <= n ensures FirstMatch(TableAfter(sv, ds[..k]), p) == Some(i) {
      NobodyNewKeeps(sv, ds, e, k, p, p);
    }
    ResendIdempotent(sv, ds, e, n, i, p);
  }

  /** The slot that get_session gives to input `n`. */
  function SlotOf(sv: Server, ds: seq<Input>, n: nat): Option<nat>
    requires sv.rate > 0 && n < |ds|
  {
    Lookup(TableAfter(sv, ds[..n]), ds[n].addr)
  }

  /** The peer whose session closed last in that slot. */
  function LastOccupant(sv: Server, ds: seq<Input>, n: nat): Option<Address>
    requires sv.rate > 0 && n < |ds|
  {
    var slot := SlotOf(sv, ds, n);
    var e := if slot.Some? then LastCloseIn(sv, ds[..n], slot.value) else None;
    if e.Some? then Some(ds[e.value].addr) else None
  }

  /** The answer to the end datagram `n` carries the fold over `q`'s own datagrams, in the
      session of `q` that closed at input `e`. */
  ghost predicate TellsOf(sv: Server, ds: seq<Input>, n: nat, e: nat, q: Address)
    requires sv.rate > 0 && sv.proto.Udp? && e < n < |ds| && |ds[n].data| >= DATAGRAM_HDR
  {
    && ds[e].addr == q && OpenSince(sv, ds[..e], q).Some?
    && var s := OpenSince(sv, ds[..e], q).value;
       var f := Fold(sv.proto, sv.rate, Opening(sv.proto, ds[s]), Own(sv.proto, ds[s + 1..e], q));
       OutputsAt(sv, ds, n)
       == [Reply(ReplyBytes(ds[n].data[..DATAGRAM_HDR], FinalStat(f, MicrosBetween(sv.rate, ds[s].time, ds[e].time))))]
  }

  /** An end datagram without a running session, on a server that started with none, is told
      of the peer whose session closed last in its slot. So it is told of its own datagrams
      if and only if that last close was its own. */
  lemma OwnRecordIff(sv: Server, ds: seq<Input>, n: nat)
    requires sv.rate > 0 && sv.proto.Udp? && IpTraffic(ds) && n < |ds| && Heard(Udp, ds[n]) && Ends(Udp, ds[n])
    requires UniqueKeys(sv.table) && forall i :: 0 <= i < |sv.table| ==> !sv.table[i].phase.Ongoing?
    requires View(TableAfter(sv, ds[..n]), ds[n].addr).None? && SlotOf(sv, ds, n).Some?
    ensures var from := LastCloseIn(sv, ds[..n], SlotOf(sv, ds, n).value);
            && (from.Some? ==> TellsOf(sv, ds, n, from.value, ds[from.value].addr))
            && (LastOccupant(sv, ds, n) == Some(ds[n].addr) <==>
                  from.Some? && TellsOf(sv, ds, n, from.value, ds[n].addr))
  {
    hide Step, ClosingRecord, OutputsAt, ReplyBytes, Header, Fold, Own, FinalStat, MicrosBetween, Heard, Ends, Opening;
    hide View, OpenSince, TableAfter, Lookup, UniqueKeys, ClosesIn;
    IdleEndAnswer(sv, ds, n);
    var from := LastCloseIn(sv, ds[..n], SlotOf(sv, ds, n).value);
    if from.Some? {
      var e := from.value;
      assert ds[..n][..e] == ds[..e];
      ClosingTells(sv, ds, e, SlotOf(sv, ds, n).value);
    }
  }

  /** The record of a close is the fold over the peer's own datagrams. */
  lemma ClosingTells(sv: Server, ds: seq<Input>, e: nat, i: nat)
    requires sv.rate > 0 && sv.proto.Udp? && IpTraffic(ds) && e < |ds|
    requires UniqueKeys(sv.table) && forall j :: 0 <= j < |sv.table| ==> !sv.table[j].phase.Ongoing?
    requires ClosesIn(TableAfter(sv, ds[..e]), ds[e], i)
    ensures View(TableAfter(sv, ds[..e]), ds[e].addr).Some?
    ensures var q := ds[e].addr;
            && OpenSince(sv, ds[..e], q).Some?
            && var s := OpenSince(sv, ds[..e], q).value;
               var f := Fold(sv.proto, sv.rate, Opening(sv.proto, ds[s]), Own(sv.proto, ds[s + 1..e], q));
               ClosingRecord(sv.rate, TableAfter(sv, ds[..e]), ds[e]) == FinalStat(f, MicrosBetween(sv.rate, ds[s].time, ds[e].time))
  {
    hide Step, Fold, FinalStat, Elapsed, MicrosBetween, Heard, Ends, OutputsAt, Callbacks;
    var q := ds[e].addr;
    ClosingHasView(TableAfter(sv, ds[..e]), ds[e], i);
    assert sv.Quiet(q) by {
      hide *;
      IdleHasNoView(sv.table, q);
    }
    OwnFold(sv, ds[..e], q);
    var s := OpenSince(sv, ds[..e], q).value;
    assert ds[..e][s + 1..] == ds[s + 1..e];
    FoldKeepsStart(sv.proto, sv.rate, Opening(sv.proto, ds[s]), Own(sv.proto, ds[s + 1..e], q));
    ElapsedIsTime(sv.rate, ds[s].time, ds[e].time);
  }

  lemma IdleHasNoView(slots: seq<Session>, q: Address)
    requires forall j :: 0 <= j < |slots| ==> !slots[j].phase.Ongoing?
    ensures View(slots, q) == None
  {
  }

  lemma ClosingHasView(slots: seq<Session>, inp: Input, i: nat)
    requires ClosesIn(slots, inp, i)
    ensures View(slots, inp.addr).Some?
  {
  }

  // ---------- a record answered to the wrong peer ----------

  /** An input that carries only a header with this id. */
  function Bare(p: Address, id: I32): Input {
    Input(p, HeaderBytes(Datagram(id, 0, 0)), 0, 0)
  }

  lemma BareHeader(p: Address, id: I32)
    ensures Bare(p, id).addr == p && Heard(Udp, Bare(p, id)) && Header(Bare(p, id).data).id == id
  {
    HeaderRoundTrip(Datagram(id, 0, 0), []);
    assert HeaderBytes(Datagram(id, 0, 0)) + [] == HeaderBytes(Datagram(id, 0, 0));
  }

  /** `p` runs a session of one counted datagram; then `q`, never heard of before, sends
      a lone end datagram. */
  function StrayEnd(p: Address, q: Address): seq<Input> {
    [Bare(p, 0), Bare(p, 1), Bare(p, -2), Bare(q, -1)]
  }

  /** A server answers a peer that never had a session with another peer's figures:
      get_session hands the stranger the slot with the old record still in it. */
  lemma ForeignRecord(p: Address, q: Address)
    requires p != q && !p.Unspecified? && !q.Unspecified?
    ensures var sv := Server(Udp, 1000, BlankTable());
            var ds := StrayEnd(p, q);
            exists stat: ServerStat ::
              && stat.datagrams == 1
              && OutputsAt(sv, ds, 3) == [Reply(ReplyBytes(ds[3].data[..DATAGRAM_HDR], stat))]
  {
    hide Bare, Step, HandleUdp;
    var sv := Server(Udp, 1000, BlankTable());
    var ds := StrayEnd(p, q);
    BareHeader(q, -1);
    StrayTable(sv, ds, p, q);
    var t3 := TableAfter(sv, ds[..3]);
    assert Lookup(t3, q) == Some(0) by {
      assert FirstMatch(t3, q).None?;
    }
    IdleEnd(1000, t3, ds[3]);
  }

  /** The table before the stray end datagram: one closed session in the first slot. */
  lemma StrayTable(sv: Server, ds: seq<Input>, p: Address, q: Address)
    requires p != q && !p.Unspecified? && sv == Server(Udp, 1000, BlankTable()) && ds == StrayEnd(p, q)
    ensures var t := TableAfter(sv, ds[..3]);
            && |t| == SESSION_MAX && t[0].key == p && t[0].phase.Completed? && t[0].stat.datagrams == 1
            && forall j :: 1 <= j < SESSION_MAX ==> t[j].key.Unspecified? && !t[j].phase.Ongoing?
  {
    hide Bare, Step, HandleUdp;
    BareHeader(p, 0);
    BareHeader(p, 1);
    BareHeader(p, -2);
    assert ds[..3][..2] == ds[..2] && ds[..2][..1] == ds[..1] && ds[..1][..0] == [];
    var t0 := BlankTable();
    var t1 := TableAfter(sv, ds[..1]);
    var t2 := TableAfter(sv, ds[..2]);
    assert TableAfter(sv, ds[..1][..0]) == t0;
    FirstSlotSteps(t0, t1, ds[0]);
    FirstSlotSteps(t1, t2, ds[1]);
    FirstSlotSteps(t2, TableAfter(sv, ds[..3]), ds[2]);
    StraySession(p);
  }

  /** The first three datagrams of the run, on a blank session. */
  lemma StraySession(p: Address)
    requires !p.Unspecified?
    ensures Heard(Udp, Bare(p, 0)) && Heard(Udp, Bare(p, 1)) && Heard(Udp, Bare(p, -2))
    ensures var s0 := Session(p, Null, FRESH, ZERO_STAT);
            var s1 := HandleUdp(1000, s0, Bare(p, 0)).0;
            var s2 := HandleUdp(1000, s1, Bare(p, 1)).0;
            var s3 := HandleUdp(1000, s2, Bare(p, -2)).0;
            s1.key == s2.key == s3.key == p && s3.phase.Completed? && s3.stat.datagrams == 1
  {
    hide Bare;
    BareHeader(p, 0);
    BareHeader(p, 1);
    BareHeader(p, -2);
  }

  /** One step of a table on which at most the first slot is in use. */
  lemma FirstSlotSteps(t: seq<Session>, t': seq<Session>, inp: Input)
    requires |t| == SESSION_MAX && !inp.addr.Unspecified? && Heard(Udp, inp)
    requires (t[0].key.Unspecified? && !t[0].phase.Ongoing?) || t[0].key == inp.addr
    requires forall j :: 1 <= j < SESSION_MAX ==> t[j].key.Unspecified? && !t[j].phase.Ongoing?
    requires t' == Step(Udp, 1000, t, inp).0
    ensures t' == t[0 := HandleUdp(1000, t[0].(key := inp.addr), inp).0] && t'[0].key == inp.addr
  {
    if t[0].key == inp.addr {
      assert Matches(t[0], inp.addr);
      assert FirstMatch(t, inp.addr) == Some(0);
    } else {
      assert FirstMatch(t, inp.addr) == None;
      assert FirstFree(t) == Some(0);
    }
    assert Lookup(t, inp.addr) == Some(0);
    assert Claim(t, inp.addr)[0] == t[0].(key := inp.addr);
  }
}
