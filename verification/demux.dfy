/** Demultiplexing: in any interleaving of any peers, what is reported to a peer is a
    fold over that peer's own traffic. Holds for the UDP and for the TCP table. */
module Demux {
  import opened Words
  import opened Wire
  import opened SessionTables
  import opened Receive

  /** The running session of a peer, if it has one. */
  function View(slots: seq<Session>, p: Address): Option<Figures> {
    var m := FirstMatch(slots, p);
    if m.Some? && slots[m.value].phase.Ongoing? then Some(slots[m.value].figures) else None
  }

  /** The session callbacks among the outputs: everything but warnings and replies. */
  predicate IsCallback(o: Output) {
    o.Started? || o.Finished? || o.DivisionFault?
  }

  /** A callback that ends a session. */
  predicate Closes(o: Output) {
    o.Finished? || o.DivisionFault?
  }

  function Callbacks(outs: seq<Output>): seq<Output> {
    if outs == [] then []
    else Callbacks(outs[..|outs| - 1]) + if IsCallback(outs[|outs| - 1]) then [outs[|outs| - 1]] else []
  }

  // ---------- one peer alone ----------

  /** The figures of a session right after the input that opened it. */
  function Opening(proto: Proto, inp: Input): Figures {
    if proto.Udp? then FRESH.(startTime := inp.time)
    else CountChunk(FRESH.(startTime := inp.again), inp)
  }

  /** True of the input that ends a running session. */
  predicate Ends(proto: Proto, inp: Input)
    requires Heard(proto, inp)
  {
    if proto.Udp? then Header(inp.data).id < 0 else inp.data == []
  }

  /** One more input of a running session. */
  function Count(proto: Proto, rate: nat, f: Figures, inp: Input): Figures
    requires rate > 0 && Heard(proto, inp)
  {
    if proto.Tcp? then CountChunk(f, inp) else if Ends(proto, inp) then f else CountDatagram(rate, f, inp)
  }

  /** The closing callback of a session with figures `f` before its last input. */
  function Report(proto: Proto, rate: nat, f: Figures, inp: Input): Output
    requires rate > 0
  {
    if proto.Udp? then UdpReport(f, Elapsed(rate, f.startTime, inp.time))
    else TcpReport(CountChunk(f, inp), Elapsed(rate, f.startTime, inp.time))
  }

  /** A server with one peer and no table: the running session and the callbacks. */
  function Solo(proto: Proto, rate: nat, v: Option<Figures>, inp: Input): (Option<Figures>, seq<Output>)
    requires rate > 0 && Heard(proto, inp)
  {
    if v.Some? then
      if Ends(proto, inp) then (None, [Report(proto, rate, v.value, inp)])
      else (Some(Count(proto, rate, v.value, inp)), [])
    else if !Ends(proto, inp) then (Some(Opening(proto, inp)), [Started])
    else if proto.Udp? then (None, [])
    else (None, [Started, Report(proto, rate, FRESH.(startTime := inp.again), inp)])
  }

  /** What the callbacks of a lone session say about it. */
  lemma SoloCalls(proto: Proto, rate: nat, v: Option<Figures>, inp: Input)
    requires rate > 0 && Heard(proto, inp)
    ensures var (v', calls) := Solo(proto, rate, v, inp);
            if calls == [] then
              && (v.Some? ==> !Ends(proto, inp))
              && v' == if v.Some? then Some(Count(proto, rate, v.value, inp)) else None
            else if Closes(calls[|calls| - 1]) then
              && v' == None && Ends(proto, inp)
              && (v.Some? ==> calls == [Report(proto, rate, v.value, inp)])
              && (v.None? ==> proto.Tcp? && inp.data == []
                              && calls == [Started, Report(Tcp, rate, FRESH.(startTime := inp.again), inp)])
            else v == None && v' == Some(Opening(proto, inp)) && calls == [Started]
  {
  }

  // ---------- one step of the shared table ----------

  /** A step keeps keys unique. */
  lemma StepKeepsUnique(proto: Proto, rate: nat, slots: seq<Session>, inp: Input)
    requires rate > 0 && UniqueKeys(slots)
    ensures UniqueKeys(Step(proto, rate, slots, inp).0)
  {
    ClaimKeepsUnique(slots, inp.addr);
    if Heard(proto, inp) && Lookup(slots, inp.addr).Some? {
      var i := Lookup(slots, inp.addr).value;
      var claimed := Claim(slots, inp.addr);
      assert Handle(proto, rate, claimed[i], inp).0.key == claimed[i].key;
    }
  }

  lemma ClaimKeepsUnique(slots: seq<Session>, a: Address)
    requires UniqueKeys(slots)
    ensures UniqueKeys(Claim(slots, a))
  {
    if FirstMatch(slots, a).None? && Lookup(slots, a).Some? && !a.Unspecified? {
      forall k | 0 <= k < |slots| ensures slots[k].key != a {
        assert !Matches(slots[k], a);
      }
    }
  }

  /** Updating the session of the slot that holds `p` is updating `p`'s view only. */
  lemma ViewOfUpdate(slots: seq<Session>, i: nat, s: Session, p: Address)
    requires UniqueKeys(slots) && i < |slots| && slots[i].key == s.key && !p.Unspecified?
    ensures s.key == p ==> View(slots[i := s], p) == if s.phase.Ongoing? then Some(s.figures) else None
    ensures s.key == p ==> View(slots, p) == if slots[i].phase.Ongoing? then Some(slots[i].figures) else None
    ensures s.key != p ==> View(slots[i := s], p) == View(slots, p)
  {
    var slots' := slots[i := s];
    forall k | 0 <= k < |slots| ensures Matches(slots'[k], p) <==> Matches(slots[k], p) {
    }
    SameMatch(slots, slots', p);
    if s.key == p {
      assert Matches(slots[i], p);
    }
  }

  /** The match depends on the keys alone. */
  lemma SameMatch(slots: seq<Session>, slots': seq<Session>, p: Address)
    requires |slots| == |slots'|
    requires forall k :: 0 <= k < |slots| ==> (Matches(slots'[k], p) <==> Matches(slots[k], p))
    ensures FirstMatch(slots, p) == FirstMatch(slots', p)
  {
    var m, m' := FirstMatch(slots, p), FirstMatch(slots', p);
    assert m.Some? ==> Matches(slots'[m.value], p);
    assert m'.Some? ==> Matches(slots[m'.value], p);
  }

  /** Claiming a slot shows no peer a different running session. */
  lemma ClaimKeepsViews(slots: seq<Session>, a: Address, p: Address)
    requires UniqueKeys(slots) && !p.Unspecified?
    ensures View(Claim(slots, a), p) == View(slots, p)
  {
    var slots' := Claim(slots, a);
    if slots' != slots {
      var i := Lookup(slots, a).value;
      ClaimKeepsUnique(slots, a);
      if p == a {
        assert Matches(slots'[i], p);
      } else if slots[i].key == p {
        assert Matches(slots[i], p);
        forall k | 0 <= k < |slots| ensures !Matches(slots'[k], p) {
        }
      } else {
        forall k | 0 <= k < |slots| ensures Matches(slots'[k], p) <==> Matches(slots[k], p) {
        }
        SameMatch(slots, slots', p);
      }
    }
  }

  /** The whole table step, seen by one peer: other peers' inputs are invisible, and
      the peer's own inputs act as if it were alone. A refused peer has no session. */
  lemma StepSeenBy(proto: Proto, rate: nat, slots: seq<Session>, inp: Input, p: Address)
    requires rate > 0 && UniqueKeys(slots) && !p.Unspecified? && !inp.addr.Unspecified?
    ensures var (slots', outs) := Step(proto, rate, slots, inp);
            if inp.addr != p || outs == [ShortPacket] then View(slots', p) == View(slots, p)
            else if outs == [Refused] then View(slots', p) == View(slots, p) == None
            else Heard(proto, inp) && (View(slots', p), Callbacks(outs)) == Solo(proto, rate, View(slots, p), inp)
  {
    var (slots', outs) := Step(proto, rate, slots, inp);
    if Heard(proto, inp) && Lookup(slots, inp.addr).Some? {
      var i := Lookup(slots, inp.addr).value;
      var claimed := Claim(slots, inp.addr);
      var s := Handle(proto, rate, claimed[i], inp).0;
      ClaimKeepsUnique(slots, inp.addr);
      ClaimKeepsViews(slots, inp.addr, p);
      assert claimed[i].key == inp.addr;
      ViewOfUpdate(claimed, i, s, p);
      CallbacksOfHandle(proto, rate, claimed[i], inp);
    }
  }

  lemma OneCallback(o: Output)
    ensures Callbacks([o]) == (if IsCallback(o) then [o] else []) && Callbacks([]) == []
  {
    assert [o][..0] == [];
  }

  /** The callbacks of one step are those of a lone session. */
  lemma CallbacksOfHandle(proto: Proto, rate: nat, s: Session, inp: Input)
    requires rate > 0 && Heard(proto, inp)
    ensures var (s', outs) := Handle(proto, rate, s, inp);
            var v := if s.phase.Ongoing? then Some(s.figures) else None;
            && outs != [ShortPacket] && outs != [Refused]
            && (if s'.phase.Ongoing? then Some(s'.figures) else None, Callbacks(outs)) == Solo(proto, rate, v, inp)
  {
    var (s', outs) := Handle(proto, rate, s, inp);
    if proto.Udp? {
      CallbacksOfUdp(rate, s, inp);
    } else {
      CallbacksOfTcp(rate, s, inp);
    }
  }

  lemma CallbacksOfUdp(rate: nat, s: Session, inp: Input)
    requires rate > 0 && Heard(Udp, inp)
    ensures var (s', outs) := HandleUdp(rate, s, inp);
            var v := if s.phase.Ongoing? then Some(s.figures) else None;
            && outs != [ShortPacket] && outs != [Refused]
            && (if s'.phase.Ongoing? then Some(s'.figures) else None, Callbacks(outs)) == Solo(Udp, rate, v, inp)
  {
    hide Callbacks, ReplyBytes, Header, CountDatagram, UdpReport, Elapsed, FinalStat;
    var outs := HandleUdp(rate, s, inp).1;
    OneCallback(Started);
    ReportIsCallback(Udp, rate, s.figures, inp);
    if |outs| == 1 {
      assert outs == [outs[0]];
      OneCallback(outs[0]);
    } else if |outs| == 2 {
      assert outs == [outs[0], outs[1]];
      TwoCallbacks(outs[0], outs[1]);
    }
  }

  lemma CallbacksOfTcp(rate: nat, s: Session, inp: Input)
    requires rate > 0
    ensures var (s', outs) := HandleTcp(rate, s, inp);
            var v := if s.phase.Ongoing? then Some(s.figures) else None;
            && outs != [ShortPacket] && outs != [Refused]
            && (if s'.phase.Ongoing? then Some(s'.figures) else None, Callbacks(outs)) == Solo(Tcp, rate, v, inp)
  {
    hide Callbacks, CountChunk, Elapsed;
    var f := if s.phase.Ongoing? then s.figures else FRESH.(startTime := inp.again);
    ChunkKeepsStart(f, inp);
    var report := Report(Tcp, rate, f, inp);
    var outs := HandleTcp(rate, s, inp).1;
    OneCallback(Started);
    OneCallback(report);
    TwoCallbacks(Started, report);
    assert inp.data == [] ==> outs == if s.phase.Ongoing? then [report] else [Started, report];
  }

  lemma ChunkKeepsStart(f: Figures, inp: Input)
    ensures CountChunk(f, inp).startTime == f.startTime
  {
  }

  lemma ReportIsCallback(proto: Proto, rate: nat, f: Figures, inp: Input)
    requires rate > 0
    ensures IsCallback(Report(proto, rate, f, inp)) && IsCallback(Started)
    ensures forall b :: !IsCallback(Reply(b))
  {
  }

  /** The callbacks among two outputs. */
  lemma TwoCallbacks(a: Output, b: Output)
    ensures Callbacks([a, b]) == if IsCallback(a) then (if IsCallback(b) then [a, b] else [a])
                                 else (if IsCallback(b) then [b] else [])
  {
    hide IsCallback;
    assert [a, b][..1] == [a];
    OneCallback(a);
  }

  /** A peer with a running session is never refused. */
  lemma RunningIsServed(proto: Proto, rate: nat, slots: seq<Session>, inp: Input, p: Address)
    requires rate > 0 && inp.addr == p && View(slots, p).Some? && Heard(proto, inp)
    ensures Step(proto, rate, slots, inp).1 != [Refused] && Step(proto, rate, slots, inp).1 != [ShortPacket]
  {
    CallbacksOfHandle(proto, rate, Claim(slots, p)[Lookup(slots, p).value], inp);
  }

  /** A peer's own step, told by its callbacks: silence counts the input, the last
      callback says whether the session is now closed or just open. */
  lemma OwnStep(proto: Proto, rate: nat, slots: seq<Session>, inp: Input)
    requires rate > 0 && UniqueKeys(slots) && !inp.addr.Unspecified?
    ensures var (slots', outs) := Step(proto, rate, slots, inp);
            var (v, v', calls) := (View(slots, inp.addr), View(slots', inp.addr), Callbacks(outs));
            if !Heard(proto, inp) then calls == [] && v' == v
            else if calls == [] then
              && (v.Some? ==> !Ends(proto, inp))
              && v' == if v.Some? then Some(Count(proto, rate, v.value, inp)) else None
            else if Closes(calls[|calls| - 1]) then
              && v' == None && Ends(proto, inp)
              && (v.Some? ==> calls == [Report(proto, rate, v.value, inp)])
              && (v.None? ==> proto.Tcp? && inp.data == []
                              && calls == [Started, Report(Tcp, rate, FRESH.(startTime := inp.again), inp)])
            else v == None && v' == Some(Opening(proto, inp)) && calls == [Started]
  {
    StepSeenBy(proto, rate, slots, inp, inp.addr);
    OneCallback(ShortPacket);
    OneCallback(Refused);
    if Heard(proto, inp) {
      var v := View(slots, inp.addr);
      SoloCalls(proto, rate, v, inp);
      if v.Some? {
        RunningIsServed(proto, rate, slots, inp, inp.addr);
      }
      if Lookup(slots, inp.addr).Some? {
        CallbacksOfHandle(proto, rate, Claim(slots, inp.addr)[Lookup(slots, inp.addr).value], inp);
      }
    }
  }

  // ---------- whole runs ----------

  /** A server: its protocol, its tick rate and the session table it starts from. */
  datatype Server = Server(proto: Proto, rate: nat, table: seq<Session>)
  {
    /** `p` has no session left running from before. */
    ghost predicate Quiet(p: Address) {
      rate > 0 && UniqueKeys(table) && !p.Unspecified? && View(table, p) == None
    }
  }

  /** IPv4 and IPv6 sockets deliver only IPv4 and IPv6 sources. */
  ghost predicate IpTraffic(ds: seq<Input>) {
    forall i :: 0 <= i < |ds| ==> !ds[i].addr.Unspecified?
  }

  function TableAfter(sv: Server, ds: seq<Input>): seq<Session>
    requires sv.rate > 0
  {
    if ds == [] then sv.table
    else Step(sv.proto, sv.rate, TableAfter(sv, ds[..|ds| - 1]), ds[|ds| - 1]).0
  }

  /** In any run from unique keys, all tables have unique keys, and no input gives the slot
      of a running session to another peer. */
  lemma {:induction false} TableStays(sv: Server, ds: seq<Input>, i: nat)
    requires sv.rate > 0 && UniqueKeys(sv.table) && i < |sv.table|
    ensures UniqueKeys(TableAfter(sv, ds)) && |TableAfter(sv, ds)| == |sv.table|
    ensures ds != [] ==>
              var before := TableAfter(sv, ds[..|ds| - 1]);
              |before| == |sv.table| && (before[i].phase.Ongoing? ==> TableAfter(sv, ds)[i].key == before[i].key)
  {
    hide UniqueKeys, Handle;
    if ds != [] {
      var n := |ds| - 1;
      var before := TableAfter(sv, ds[..n]);
      TableStays(sv, ds[..n], i);
      StepKeepsUnique(sv.proto, sv.rate, before, ds[n]);
      RunningKeepsKey(sv.proto, sv.rate, before, ds[n], i);
    }
  }

  lemma RunningKeepsKey(proto: Proto, rate: nat, slots: seq<Session>, inp: Input, i: nat)
    requires rate > 0 && i < |slots|
    ensures slots[i].phase.Ongoing? ==> Step(proto, rate, slots, inp).0[i].key == slots[i].key
  {
    if slots[i].phase.Ongoing? {
      ClaimKeepsRunning(slots, inp.addr, i);
    }
  }

  /** What the `n`th input of a run makes the server emit. */
  function OutputsAt(sv: Server, ds: seq<Input>, n: nat): seq<Output>
    requires sv.rate > 0 && n < |ds|
  {
    Step(sv.proto, sv.rate, TableAfter(sv, ds[..n]), ds[n]).1
  }

  /** The `n`th input of a run ends its peer's session. */
  predicate ClosesAt(sv: Server, ds: seq<Input>, n: nat)
    requires sv.rate > 0 && n < |ds|
  {
    var calls := Callbacks(OutputsAt(sv, ds, n));
    calls != [] && Closes(calls[|calls| - 1])
  }

  /** The inputs of one peer, without datagrams too short to be heard. */
  function Own(proto: Proto, ds: seq<Input>, p: Address): (own: seq<Input>)
    ensures forall i :: 0 <= i < |own| ==> Heard(proto, own[i]) && own[i].addr == p
  {
    if ds == [] then []
    else
      var d := ds[|ds| - 1];
      Own(proto, ds[..|ds| - 1], p) + if d.addr == p && Heard(proto, d) then [d] else []
  }

  /** The figures after a session that began with `f` counted `ins`. */
  function Fold(proto: Proto, rate: nat, f: Figures, ins: seq<Input>): Figures
    requires rate > 0 && forall i :: 0 <= i < |ins| ==> Heard(proto, ins[i])
  {
    if ins == [] then f
    else Count(proto, rate, Fold(proto, rate, f, ins[..|ins| - 1]), ins[|ins| - 1])
  }

  lemma {:induction false} FoldKeepsStart(proto: Proto, rate: nat, f: Figures, ins: seq<Input>)
    requires rate > 0 && forall i :: 0 <= i < |ins| ==> Heard(proto, ins[i])
    ensures Fold(proto, rate, f, ins).startTime == f.startTime
  {
    hide Header, Heard, Ends, Transit;
    if ins != [] {
      FoldKeepsStart(proto, rate, f, ins[..|ins| - 1]);
    }
  }

  /** None of the inputs ends a session. */
  ghost predicate AllData(proto: Proto, ins: seq<Input>) {
    forall i :: 0 <= i < |ins| ==> Heard(proto, ins[i]) && !Ends(proto, ins[i])
  }

  /** The position of `p`'s last STARTED callback, unless a closing one came after it. */
  function OpenSince(sv: Server, ds: seq<Input>, p: Address): (s: Option<nat>)
    requires sv.rate > 0
    ensures s.Some? ==> s.value < |ds| && ds[s.value].addr == p
  {
    if ds == [] then None else
    var n := |ds| - 1;
    var calls := Callbacks(OutputsAt(sv, ds, n));
    if ds[n].addr != p || calls == [] then OpenSince(sv, ds[..n], p)
    else if Closes(calls[|calls| - 1]) then None
    else Some(n)
  }

  /** Folding up to the last input: it counts if it is the peer's own. */
  lemma FoldSuffix(sv: Server, ds: seq<Input>, s: nat, p: Address, f: Figures)
    requires sv.rate > 0 && s < |ds| - 1
    ensures var n := |ds| - 1;
            var before := Fold(sv.proto, sv.rate, f, Own(sv.proto, ds[..n][s + 1..], p));
            && (AllData(sv.proto, Own(sv.proto, ds[..n][s + 1..], p))
                && (ds[n].addr == p && Heard(sv.proto, ds[n]) ==> !Ends(sv.proto, ds[n]))
                ==> AllData(sv.proto, Own(sv.proto, ds[s + 1..], p)))
            && Fold(sv.proto, sv.rate, f, Own(sv.proto, ds[s + 1..], p))
            == if ds[n].addr == p && Heard(sv.proto, ds[n]) then Count(sv.proto, sv.rate, before, ds[n]) else before
  {
    hide Count, Ends, Own, Heard;
    OwnSuffix(sv.proto, ds, s, p);
    var own := Own(sv.proto, ds[..|ds| - 1][s + 1..], p);
    assert (own + [ds[|ds| - 1]])[..|own|] == own;
  }

  lemma OwnSuffix(proto: Proto, ds: seq<Input>, s: nat, p: Address)
    requires s < |ds| - 1
    ensures var n := |ds| - 1;
            var own := Own(proto, ds[..n][s + 1..], p);
            Own(proto, ds[s + 1..], p) == if ds[n].addr == p && Heard(proto, ds[n]) then own + [ds[n]] else own
  {
    hide Heard;
    var n := |ds| - 1;
    assert ds[s + 1..][..n - s - 1] == ds[..n][s + 1..];
    var own := Own(proto, ds[..n][s + 1..], p);
    assert own + [] == own;
  }

  /** `p`'s session began with input `s`, and its slot holds the fold over `p`'s own inputs
      since then. */
  ghost predicate InSession(sv: Server, ds: seq<Input>, p: Address, s: nat)
    requires sv.rate > 0
  {
    && s < |ds| && ds[s].addr == p && Heard(sv.proto, ds[s]) && Callbacks(OutputsAt(sv, ds, s)) == [Started]
    && AllData(sv.proto, Own(sv.proto, ds[s + 1..], p))
    && View(TableAfter(sv, ds), p)
       == Some(Fold(sv.proto, sv.rate, Opening(sv.proto, ds[s]), Own(sv.proto, ds[s + 1..], p)))
  }

  /** One more input of a session. */
  lemma InSessionStep(sv: Server, ds: seq<Input>, p: Address, s: nat)
    requires sv.rate > 0 && ds != [] && InSession(sv, ds[..|ds| - 1], p, s)
    requires var d := ds[|ds| - 1];
             var v := View(TableAfter(sv, ds[..|ds| - 1]), p);
             if d.addr == p && Heard(sv.proto, d) then
               !Ends(sv.proto, d) && View(TableAfter(sv, ds), p) == Some(Count(sv.proto, sv.rate, v.value, d))
             else View(TableAfter(sv, ds), p) == v
    ensures InSession(sv, ds, p, s)
  {
    hide Step, View, Count, Opening, Callbacks, Heard, Ends, AllData, Own, Fold;
    assert ds[..|ds| - 1][..s] == ds[..s];
    FoldSuffix(sv, ds, s, p, Opening(sv.proto, ds[s]));
  }

  /** Every table of a run has unique keys, and a peer's slot holds the fold over that
      peer's own inputs since its session started. */
  lemma {:induction false} OwnFold(sv: Server, ds: seq<Input>, p: Address)
    requires sv.Quiet(p) && IpTraffic(ds)
    ensures UniqueKeys(TableAfter(sv, ds))
    ensures match OpenSince(sv, ds, p)
            case None => View(TableAfter(sv, ds), p) == None
            case Some(s) => InSession(sv, ds, p, s)
  {
    hide Step, UniqueKeys, View, Count, Report, Callbacks, Heard, Ends, InSession;
    if ds != [] {
      var n := |ds| - 1;
      var before := TableAfter(sv, ds[..n]);
      OwnFold(sv, ds[..n], p);
      StepKeepsUnique(sv.proto, sv.rate, before, ds[n]);
      var prev := OpenSince(sv, ds[..n], p);
      if ds[n].addr != p {
        StepSeenBy(sv.proto, sv.rate, before, ds[n], p);
        if prev.Some? {
          InSessionStep(sv, ds, p, prev.value);
        }
      } else {
        OwnStep(sv.proto, sv.rate, before, ds[n]);
        var calls := Callbacks(OutputsAt(sv, ds, n));
        if calls == [] && prev.Some? {
          SessionIsRunning(sv, ds[..n], p, prev.value);
          InSessionStep(sv, ds, p, prev.value);
        } else if calls != [] && !Closes(calls[|calls| - 1]) {
          assert ds[n + 1..] == [];
          InSessionStart(sv, ds, p);
        }
      }
    }
  }

  lemma SessionIsRunning(sv: Server, ds: seq<Input>, p: Address, s: nat)
    requires sv.rate > 0 && InSession(sv, ds, p, s)
    ensures View(TableAfter(sv, ds), p).Some?
  {
  }

  /** A session that the last input opened. */
  lemma InSessionStart(sv: Server, ds: seq<Input>, p: Address)
    requires sv.rate > 0 && ds != [] && ds[|ds| - 1].addr == p && Heard(sv.proto, ds[|ds| - 1])
    requires Callbacks(OutputsAt(sv, ds, |ds| - 1)) == [Started]
    requires View(TableAfter(sv, ds), p) == Some(Opening(sv.proto, ds[|ds| - 1]))
    ensures InSession(sv, ds, p, |ds| - 1)
  {
    hide Step, View, Opening, Callbacks, Heard, Ends;
    assert ds[|ds|..] == [];
  }

  /** When the server closes `p`'s session at input `n`, the session was opened by one of
      `p`'s inputs and what it reports is the fold over `p`'s inputs in between. A TCP
      session may also be opened and closed by one empty chunk. */
  lemma Demultiplexed(sv: Server, ds: seq<Input>, p: Address, n: nat)
    requires sv.Quiet(p) && IpTraffic(ds) && n < |ds| && ds[n].addr == p
    requires ClosesAt(sv, ds, n)
    ensures match OpenSince(sv, ds[..n], p)
            case Some(s) =>
              && s < n && Heard(sv.proto, ds[s]) && Callbacks(OutputsAt(sv, ds, s)) == [Started]
              && AllData(sv.proto, Own(sv.proto, ds[s + 1..n], p))
              && Heard(sv.proto, ds[n]) && Ends(sv.proto, ds[n])
              && Callbacks(OutputsAt(sv, ds, n))
                 == [Report(sv.proto, sv.rate,
                            Fold(sv.proto, sv.rate, Opening(sv.proto, ds[s]), Own(sv.proto, ds[s + 1..n], p)), ds[n])]
            case None =>
              && sv.proto.Tcp? && ds[n].data == []
              && Callbacks(OutputsAt(sv, ds, n))
                 == [Started, Report(Tcp, sv.rate, FRESH.(startTime := ds[n].again), ds[n])]
  {
    hide Step, UniqueKeys, View, Solo, Count, Report, Opening, Callbacks, Heard, Ends;
    OwnFold(sv, ds[..n], p);
    OwnStep(sv.proto, sv.rate, TableAfter(sv, ds[..n]), ds[n]);
    if OpenSince(sv, ds[..n], p).Some? {
      var s := OpenSince(sv, ds[..n], p).value;
      assert ds[..n][..s] == ds[..s];
      assert ds[..n][s + 1..] == ds[s + 1..n];
    }
  }

  /** While `p`'s session runs, `p`'s inputs act on its own fold alone. */
  lemma RunningAsIfAlone(sv: Server, ds: seq<Input>, n: nat, p: Address)
    requires sv.Quiet(p) && IpTraffic(ds) && n < |ds| && ds[n].addr == p && Heard(sv.proto, ds[n])
    requires OpenSince(sv, ds[..n], p).Some?
    ensures var s := OpenSince(sv, ds[..n], p).value;
            var f := Fold(sv.proto, sv.rate, Opening(sv.proto, ds[s]), Own(sv.proto, ds[s + 1..n], p));
            Callbacks(OutputsAt(sv, ds, n)) == Solo(sv.proto, sv.rate, Some(f), ds[n]).1
  {
    hide Step, UniqueKeys, View, Solo, Count, Report, Opening, Callbacks, Heard, Ends;
    OwnFold(sv, ds[..n], p);
    var s := OpenSince(sv, ds[..n], p).value;
    assert ds[..n][s + 1..] == ds[s + 1..n];
    StepSeenBy(sv.proto, sv.rate, TableAfter(sv, ds[..n]), ds[n], p);
    RunningIsServed(sv.proto, sv.rate, TableAfter(sv, ds[..n]), ds[n], p);
  }

  /** Noninterference: two servers with different tables and different other traffic make
      the same callbacks to a peer whose own inputs since its start are the same. */
  lemma OthersDoNotMatter(sv1: Server, ds1: seq<Input>, n1: nat, sv2: Server, ds2: seq<Input>, n2: nat, p: Address)
    requires sv1.Quiet(p) && IpTraffic(ds1) && n1 < |ds1| && sv2.Quiet(p) && IpTraffic(ds2) && n2 < |ds2|
    requires sv1.proto == sv2.proto && sv1.rate == sv2.rate
    requires ds1[n1] == ds2[n2] && ds1[n1].addr == p && Heard(sv1.proto, ds1[n1])
    requires OpenSince(sv1, ds1[..n1], p).Some? && OpenSince(sv2, ds2[..n2], p).Some?
    requires var (s1, s2) := (OpenSince(sv1, ds1[..n1], p).value, OpenSince(sv2, ds2[..n2], p).value);
             ds1[s1] == ds2[s2] && Own(sv1.proto, ds1[s1 + 1..n1], p) == Own(sv2.proto, ds2[s2 + 1..n2], p)
    ensures Callbacks(OutputsAt(sv1, ds1, n1)) == Callbacks(OutputsAt(sv2, ds2, n2))
  {
    hide *;
    RunningAsIfAlone(sv1, ds1, n1, p);
    RunningAsIfAlone(sv2, ds2, n2, p);
  }

  /** The callbacks a peer causes over a whole run. */
  function CallbacksOf(sv: Server, ds: seq<Input>, p: Address): seq<Output>
    requires sv.rate > 0
  {
    if ds == [] then []
    else
      CallbacksOf(sv, ds[..|ds| - 1], p)
      + if ds[|ds| - 1].addr == p then Callbacks(OutputsAt(sv, ds, |ds| - 1)) else []
  }

  /** STARTED and closing callbacks take turns, STARTED first, and `running` tells whether
      the last one was STARTED. */
  ghost predicate Alternate(calls: seq<Output>, running: bool) {
    && (forall i :: 0 <= i < |calls| ==> if i % 2 == 0 then calls[i] == Started else Closes(calls[i]))
    && (|calls| % 2 == 1 <==> running)
  }

  /** The next callbacks keep the turns. */
  lemma AlternateStep(calls: seq<Output>, before: bool, more: seq<Output>, after: bool)
    requires Alternate(calls, before)
    requires if more == [] then after == before
             else if |more| == 1 then if before then Closes(more[0]) && !after else more[0] == Started && after
             else |more| == 2 && !before && more[0] == Started && Closes(more[1]) && !after
    ensures Alternate(calls + more, after)
  {
    hide Closes;
    var all := calls + more;
    forall i | 0 <= i < |all| ensures if i % 2 == 0 then all[i] == Started else Closes(all[i]) {
      assert i < |calls| ==> all[i] == calls[i];
    }
  }

  /** What one step calls back keeps the turns. */
  lemma StepAlternates(sv: Server, ds: seq<Input>, p: Address, calls: seq<Output>)
    requires sv.rate > 0 && ds != [] && !p.Unspecified? && IpTraffic(ds) && UniqueKeys(TableAfter(sv, ds[..|ds| - 1]))
    requires Alternate(calls, View(TableAfter(sv, ds[..|ds| - 1]), p).Some?)
    ensures var more := if ds[|ds| - 1].addr == p then Callbacks(OutputsAt(sv, ds, |ds| - 1)) else [];
            Alternate(calls + more, View(TableAfter(sv, ds), p).Some?)
  {
    hide Step, UniqueKeys, View, Solo, Count, Report, Opening, Callbacks, Heard, Ends, Alternate;
    var n := |ds| - 1;
    var before := TableAfter(sv, ds[..n]);
    StepSeenBy(sv.proto, sv.rate, before, ds[n], p);
    OwnStep(sv.proto, sv.rate, before, ds[n]);
    var more := if ds[n].addr == p then Callbacks(OutputsAt(sv, ds, n)) else [];
    AlternateStep(calls, View(before, p).Some?, more, View(TableAfter(sv, ds), p).Some?);
  }

  /** A peer's callbacks strictly alternate, STARTED first, and the session is running
      exactly when the last one was STARTED. */
  lemma {:induction false} CallbacksAlternate(sv: Server, ds: seq<Input>, p: Address)
    requires sv.Quiet(p) && IpTraffic(ds)
    ensures Alternate(CallbacksOf(sv, ds, p), View(TableAfter(sv, ds), p).Some?)
  {
    hide Step, UniqueKeys, View, OutputsAt, Callbacks, InSession;
    if ds != [] {
      CallbacksAlternate(sv, ds[..|ds| - 1], p);
      OwnFold(sv, ds[..|ds| - 1], p);
      StepAlternates(sv, ds, p, CallbacksOf(sv, ds[..|ds| - 1], p));
    }
  }
}
