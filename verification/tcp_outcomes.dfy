/** What single events and whole runs of the TCP server lead to: where a connection goes, when
    one is closed, what a stop does, and how often an error is called back. */
module TcpOutcomes {
  import opened SessionTables
  import opened Receive
  import opened Demux
  import opened TcpServer
  import opened TcpSafety

  // ---------- single events ----------

  /** The setup opens the IPv4 socket, and the IPv6 one if the first was bound. */
  lemma StartOutcome(addrs: seq<Address>, sessions: seq<Session>, s: Setup)
    requires |addrs| == SOCK_ID_MAX && |sessions| == SESSION_MAX
    ensures var t := Start(addrs, sessions, s);
            && t.ok == SetupOk(s) && t.outs == (if t.ok then [] else [SessionError])
            && t.host.acquired == One(s.fd4) + (if s.fd4 >= 0 && s.bound4 then One(s.fd6) else multiset{})
            && t.host.released == multiset{} && t.host.sessions == sessions
            && (t.ok ==> t.host.fds == [s.fd4, s.fd6, -1, -1, -1, -1])
  {
  }

  /** An accepted connection is dropped if and only if every connection entry is taken.
      Otherwise it gets the first free one, with the peer's address. */
  lemma AcceptOutcome(h: Host, fd: int, from: Address)
    requires h.Shaped() && fd >= 0 && fd !in h.fds
    ensures var (g, full) := (Accept(h, fd, from), forall j :: FIRST_CONN <= j < SOCK_ID_MAX ==> h.fds[j] >= 0);
            && g.sessions == h.sessions && g.acquired == h.acquired + multiset{fd}
            && g.released == (if full then h.released + multiset{fd} else h.released)
            && (full ==> g.fds == h.fds && g.addrs == h.addrs)
            && (!full ==> fd in g.fds
                          && exists j :: FIRST_CONN <= j < SOCK_ID_MAX && h.fds[j] < 0
                                         && (forall k :: FIRST_CONN <= k < j ==> h.fds[k] >= 0)
                                         && g.fds == h.fds[j := fd] && g.addrs == h.addrs[j := from])
  {
    var j := FirstEmpty(h.fds, FIRST_CONN);
    if j < SOCK_ID_MAX {
      assert h.fds[j := fd][j] == fd;
    }
  }

  /** A read closes its connection if and only if it failed or met the end of the stream;
      then the peer's session is over and was reported. An error is called back exactly when
      the read failed, before anything else. */
  lemma ReadOutcome(rate: nat, h: Host, i: nat, e: Event)
    requires rate > 0 && Inv(h) && FIRST_CONN <= i < SOCK_ID_MAX && h.fds[i] >= 0 && Legal(h, i, e)
    ensures var (t, closes) := (Read(rate, h, i, e), e.recv <= 0);
            && t.ok && t.host.fds == h.fds[i := if closes then -1 else h.fds[i]]
            && t.host.released == (if closes then h.released + multiset{h.fds[i]} else h.released)
            && t.host.acquired == h.acquired
            && (View(t.host.sessions, h.addrs[i]).None? <==> closes)
            && (closes ==> t.outs != [] && t.outs[|t.outs| - 1].Finished?)
            && (forall k :: 0 <= k < |t.outs| ==> (t.outs[k] == SessionError <==> k == 0 && e.recv < 0))
            && (e.recv < 0 ==> t.outs != [] && t.outs[0] == SessionError)
  {
    hide Held, RunningKeys, ConnAddrs, Step, Legal;
    RoomForConnection(h, i);
    DataIffMore(h, i, e);
    ChunkOutcome(rate, h.sessions, ChunkInput(h, i, e));
    assert h.fds[i := h.fds[i]] == h.fds;
  }

  lemma DataIffMore(h: Host, i: nat, e: Event)
    requires h.Shaped() && i < SOCK_ID_MAX && Legal(h, i, e)
    ensures e.Chunk() == [] <==> e.recv <= 0
  {
  }

  /** A chunk that gets a slot leaves its peer's session running unless it is empty. */
  lemma ChunkOutcome(rate: nat, slots: seq<Session>, inp: Input)
    requires rate > 0 && UniqueKeys(slots) && !inp.addr.Unspecified? && Lookup(slots, inp.addr).Some?
    ensures var (slots', outs) := Step(Tcp, rate, slots, inp);
            && (View(slots', inp.addr).None? <==> inp.data == [])
            && (inp.data == [] ==> outs != [] && outs[|outs| - 1].Finished?)
            && SessionError !in outs
  {
    hide Step, View, UniqueKeys, Claim, Lookup;
    StepSeenBy(Tcp, rate, slots, inp, inp.addr);
    ChunkOutputs(rate, slots, inp);
  }

  lemma ChunkOutputs(rate: nat, slots: seq<Session>, inp: Input)
    requires rate > 0 && Lookup(slots, inp.addr).Some?
    ensures var outs := Step(Tcp, rate, slots, inp).1;
            && outs != [Refused] && outs != [ShortPacket] && SessionError !in outs
            && (inp.data == [] ==> outs != [] && outs[|outs| - 1].Finished?)
  {
    var s := Claim(slots, inp.addr)[Lookup(slots, inp.addr).value];
    hide Claim, Lookup;
    CallbacksOfHandle(Tcp, rate, s, inp);
    assert Step(Tcp, rate, slots, inp).1 == HandleTcp(rate, s, inp).1;
  }

  // ---------- the end of a run ----------

  /** A stop ends the server: nothing after it is served, no error is called back for it, and
      every descriptor the run obtained is closed, each once. */
  lemma StopEnds(rate: nat, addrs: seq<Address>, sessions: seq<Session>, s: Setup, ws: seq<Wake>, k: nat)
    requires rate > 0 && |addrs| == SOCK_ID_MAX && |sessions| == SESSION_MAX && LegalSetup(s) && SetupOk(s)
    requires ValidWakes(ws) && LegalRun(rate, Start(addrs, sessions, s), ws)
    requires k < |ws| && ws[k] == Stop && forall j :: 0 <= j < k ==> GoesOn(ws[j])
    ensures var start := Start(addrs, sessions, s);
            var (t, before) := (Served(rate, start, ws), Served(rate, start, ws[..k]));
            && before.ok && t == Turn(before.host, before.outs, false)
            && CleanUp(t.host).acquired == CleanUp(t.host).released == before.host.acquired
  {
    hide Start, LegalRun, GoesOn, OnWake, CleanUp;
    var start := Start(addrs, sessions, s);
    LoopRunsIff(rate, addrs, sessions, s, ws[..k]);
    StopStep(rate, start, ws, k);
    EndedStays(rate, start, ws, k + 1);
    DescriptorsConserved(rate, addrs, sessions, s, ws);
  }

  lemma StopStep(rate: nat, start: Turn, ws: seq<Wake>, k: nat)
    requires rate > 0 && start.host.Shaped() && ValidWakes(ws) && k < |ws| && ws[k] == Stop
    requires Served(rate, start, ws[..k]).ok
    ensures var before := Served(rate, start, ws[..k]);
            Served(rate, start, ws[..k + 1]) == Turn(before.host, before.outs, false)
  {
    assert ws[..k + 1][..k] == ws[..k];
    var before := Served(rate, start, ws[..k]);
    assert before.outs + [] == before.outs;
  }

  // ---------- errors called back ----------

  function Errors(outs: seq<Output>): nat {
    if outs == [] then 0 else Errors(outs[..|outs| - 1]) + if outs[|outs| - 1].SessionError? then 1 else 0
  }

  lemma {:induction false} ErrorsAppend(a: seq<Output>, b: seq<Output>)
    ensures Errors(a + b) == Errors(a) + Errors(b)
  {
    if b == [] {
      assert a + b == a;
    } else {
      var n := |b| - 1;
      ErrorsAppend(a, b[..n]);
      assert (a + b)[..|a + b| - 1] == a + b[..n];
    }
  }

  lemma {:induction false} NoErrors(outs: seq<Output>)
    requires SessionError !in outs
    ensures Errors(outs) == 0
  {
    if outs != [] {
      NoErrors(outs[..|outs| - 1]);
    }
  }

  lemma OneError()
    ensures Errors([SessionError]) == 1 && Errors([]) == 0
  {
    assert [SessionError][..0] == [];
  }

  /** The reads that fail in a pass, up to the event that makes the server give up. */
  function FailedReads(es: seq<Event>, i: nat): nat
    requires |es| == SOCK_ID_MAX && i <= SOCK_ID_MAX
    decreases SOCK_ID_MAX - i
  {
    if i == SOCK_ID_MAX || Fatal(es[i], i) then 0
    else (if es[i].readable && i >= FIRST_CONN && es[i].recv < 0 then 1 else 0) + FailedReads(es, i + 1)
  }

  /** The errors of one return from poll: the failed reads, and one if the loop ends other
      than by a stop. */
  ghost function WakeErrors(w: Wake): nat
    requires w.Valid()
  {
    (if w.Ready? then FailedReads(w.events, 0) else 0) + (if GoesOn(w) || w.Stop? then 0 else 1)
  }

  /** The errors of a run: those of a failed setup, or of each return from poll up to the
      one that ends the loop. */
  ghost function RunErrors(s: Setup, ws: seq<Wake>): nat
    requires ValidWakes(ws)
  {
    if !SetupOk(s) then 1
    else if ws == [] then 0
    else
      var front := ws[..|ws| - 1];
      RunErrors(s, front) + if forall k :: 0 <= k < |front| ==> GoesOn(front[k]) then WakeErrors(ws[|ws| - 1]) else 0
  }

  lemma EntryErrors(rate: nat, h: Host, i: nat, e: Event)
    requires rate > 0 && h.Shaped() && i < SOCK_ID_MAX
    ensures Errors(Entry(rate, h, i, e).outs)
            == if !Fatal(e, i) && e.readable && i >= FIRST_CONN && e.recv < 0 then 1 else 0
  {
    hide Accept, Step, Errors;
    OneError();
    if !Fatal(e, i) && e.readable && i >= FIRST_CONN {
      var outs := Step(Tcp, rate, h.sessions, ChunkInput(h, i, e)).1;
      StepHasNoError(rate, h.sessions, ChunkInput(h, i, e));
      NoErrors(outs);
      ErrorsAppend(if e.recv < 0 then [SessionError] else [], outs);
    }
  }

  lemma StepHasNoError(rate: nat, slots: seq<Session>, inp: Input)
    requires rate > 0
    ensures SessionError !in Step(Tcp, rate, slots, inp).1
  {
    if Lookup(slots, inp.addr).Some? {
      assert SessionError !in HandleTcp(rate, Claim(slots, inp.addr)[Lookup(slots, inp.addr).value], inp).1;
    }
  }

  lemma {:induction false} PassErrors(rate: nat, h: Host, es: seq<Event>, i: nat)
    requires rate > 0 && h.Shaped() && |es| == SOCK_ID_MAX && i <= SOCK_ID_MAX
    ensures Errors(Pass(rate, h, es, i).outs) == FailedReads(es, i)
    decreases SOCK_ID_MAX - i
  {
    hide Entry, Fatal, Errors;
    OneError();
    if i < SOCK_ID_MAX {
      var t := Entry(rate, h, i, es[i]);
      EntryOkIff(rate, h, i, es[i]);
      EntryErrors(rate, h, i, es[i]);
      if t.ok {
        PassErrors(rate, t.host, es, i + 1);
        ErrorsAppend(t.outs, Pass(rate, t.host, es, i + 1).outs);
      }
    }
  }

  lemma WakeOutcome(rate: nat, h: Host, w: Wake)
    requires rate > 0 && h.Shaped() && w.Valid()
    ensures Errors(OnWake(rate, h, w).outs) == WakeErrors(w)
  {
    hide Pass, Fatal, Errors, FailedReads;
    OneError();
    if w.Ready? {
      PassErrors(rate, h, w.events, 0);
      PassOkIff(rate, h, w.events, 0);
      ErrorsAppend(Pass(rate, h, w.events, 0).outs, [SessionError]);
    }
  }

  /** The error callback is made once for each failed read, and once more when the server
      ends for any other reason than a stop. */
  lemma {:induction false} ErrorsOfRun(rate: nat, addrs: seq<Address>, sessions: seq<Session>, s: Setup, ws: seq<Wake>)
    requires rate > 0 && |addrs| == SOCK_ID_MAX && |sessions| == SESSION_MAX && ValidWakes(ws)
    ensures Errors(Served(rate, Start(addrs, sessions, s), ws).outs) == RunErrors(s, ws)
  {
    hide OnWake, GoesOn, WakeErrors, Errors, Start;
    OneError();
    StartOutcome(addrs, sessions, s);
    LoopRunsIff(rate, addrs, sessions, s, ws);
    if ws != [] {
      var n := |ws| - 1;
      ErrorsOfRun(rate, addrs, sessions, s, ws[..n]);
      LoopRunsIff(rate, addrs, sessions, s, ws[..n]);
      var t := Served(rate, Start(addrs, sessions, s), ws[..n]);
      if t.ok {
        WakeOutcome(rate, t.host, ws[n]);
        ErrorsAppend(t.outs, OnWake(rate, t.host, ws[n]).outs);
      }
    }
  }
}
