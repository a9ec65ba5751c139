/** A whole run of the TCP server, seen from its session table: the poll loop, the accepts
    and the closes amount to a sequence of chunks, one after the other. */
module TcpRun {
  import opened SessionTables
  import opened Receive
  import opened Demux
  import opened TcpServer
  import opened TcpSafety

  // ---------- the chunks of a run ----------

  function EntryInputs(h: Host, i: nat, e: Event): seq<Input>
    requires h.Shaped() && i < SOCK_ID_MAX
  {
    if !e.error && e.readable && i >= FIRST_CONN then [ChunkInput(h, i, e)] else []
  }

  function PassInputs(rate: nat, h: Host, es: seq<Event>, i: nat): seq<Input>
    requires rate > 0 && h.Shaped() && |es| == SOCK_ID_MAX && i <= SOCK_ID_MAX
    decreases SOCK_ID_MAX - i
  {
    if i == SOCK_ID_MAX then [] else
    var t := Entry(rate, h, i, es[i]);
    EntryInputs(h, i, es[i]) + if t.ok then PassInputs(rate, t.host, es, i + 1) else []
  }

  function RunInputs(rate: nat, start: Turn, ws: seq<Wake>): seq<Input>
    requires rate > 0 && start.host.Shaped() && ValidWakes(ws)
  {
    if ws == [] then [] else
    var n := |ws| - 1;
    var t := Served(rate, start, ws[..n]);
    RunInputs(rate, start, ws[..n])
    + if t.ok && ws[n].Ready? then PassInputs(rate, t.host, ws[n].events, 0) else []
  }

  /** All session callbacks of a sequence of inputs, whoever caused them. */
  function AllCalls(sv: Demux.Server, ds: seq<Input>): seq<Output>
    requires sv.rate > 0
  {
    if ds == [] then [] else AllCalls(sv, ds[..|ds| - 1]) + Callbacks(OutputsAt(sv, ds, |ds| - 1))
  }

  /** No input is refused. */
  ghost predicate NoneRefused(sv: Demux.Server, ds: seq<Input>)
    requires sv.rate > 0
  {
    forall k :: 0 <= k < |ds| ==> Refused !in OutputsAt(sv, ds, k)
  }

  // ---------- composition ----------

  lemma {:induction false} CallbacksAppend(a: seq<Output>, b: seq<Output>)
    ensures Callbacks(a + b) == Callbacks(a) + Callbacks(b)
  {
    if b == [] {
      assert a + b == a;
    } else {
      var n := |b| - 1;
      CallbacksAppend(a, b[..n]);
      assert (a + b)[..|a + b| - 1] == a + b[..n];
    }
  }

  /** Inputs handled one batch after the other. */
  lemma {:induction false} ComposeTable(sv: Demux.Server, a: seq<Input>, b: seq<Input>)
    requires sv.rate > 0
    ensures TableAfter(sv, a + b) == TableAfter(sv.(table := TableAfter(sv, a)), b)
  {
    hide Step;
    if b == [] {
      assert a + b == a;
    } else {
      var n := |b| - 1;
      ComposeTable(sv, a, b[..n]);
      assert (a + b)[..|a + b| - 1] == a + b[..n];
    }
  }

  /** Each input has the outputs it has in its own batch. */
  lemma ComposeOutputs(sv: Demux.Server, a: seq<Input>, b: seq<Input>, k: nat)
    requires sv.rate > 0 && k < |a| + |b|
    ensures OutputsAt(sv, a + b, k)
            == if k < |a| then OutputsAt(sv, a, k) else OutputsAt(sv.(table := TableAfter(sv, a)), b, k - |a|)
  {
    hide Step, TableAfter;
    if k < |a| {
      assert (a + b)[..k] == a[..k];
    } else {
      assert (a + b)[..k] == a + b[..k - |a|];
      ComposeTable(sv, a, b[..k - |a|]);
    }
  }

  lemma {:induction false} ComposeCalls(sv: Demux.Server, a: seq<Input>, b: seq<Input>)
    requires sv.rate > 0
    ensures AllCalls(sv, a + b) == AllCalls(sv, a) + AllCalls(sv.(table := TableAfter(sv, a)), b)
  {
    hide OutputsAt, Callbacks, TableAfter;
    if b == [] {
      assert a + b == a;
    } else {
      var n := |b| - 1;
      ComposeCalls(sv, a, b[..n]);
      assert (a + b)[..|a + b| - 1] == a + b[..n];
      ComposeOutputs(sv, a, b, |a| + n);
    }
  }

  lemma ComposeRefusals(sv: Demux.Server, a: seq<Input>, b: seq<Input>)
    requires sv.rate > 0 && NoneRefused(sv, a) && NoneRefused(sv.(table := TableAfter(sv, a)), b)
    ensures NoneRefused(sv, a + b)
  {
    hide OutputsAt, TableAfter;
    forall k | 0 <= k < |a + b| ensures Refused !in OutputsAt(sv, a + b, k) {
      ComposeOutputs(sv, a, b, k);
    }
  }

  lemma Batch(sv: Demux.Server, inp: Input)
    requires sv.rate > 0
    ensures var (slots, outs) := Step(sv.proto, sv.rate, sv.table, inp);
            && TableAfter(sv, [inp]) == slots && AllCalls(sv, [inp]) == Callbacks(outs)
            && (NoneRefused(sv, [inp]) <==> Refused !in outs)
  {
    hide Step, Callbacks;
    assert [inp][..0] == [];
    assert OutputsAt(sv, [inp], 0) == Step(sv.proto, sv.rate, sv.table, inp).1;
  }

  /** The table, the callbacks and the refusals after a batch of chunks, told of a turn of
      the server. */
  ghost predicate Follows(rate: nat, slots: seq<Session>, ds: seq<Input>, t: Turn)
    requires rate > 0
  {
    var sv := Demux.Server(Tcp, rate, slots);
    && IpTraffic(ds) && t.host.sessions == TableAfter(sv, ds) && Callbacks(t.outs) == AllCalls(sv, ds)
    && (Refused !in t.outs ==> NoneRefused(sv, ds))
  }

  lemma FollowsBoth(rate: nat, slots: seq<Session>, a: seq<Input>, t: Turn, b: seq<Input>, u: Turn, ok: bool)
    requires rate > 0 && Follows(rate, slots, a, t) && Follows(rate, t.host.sessions, b, u)
    ensures Follows(rate, slots, a + b, Turn(u.host, t.outs + u.outs, ok))
  {
    hide Callbacks, TableAfter, AllCalls, NoneRefused;
    var sv := Demux.Server(Tcp, rate, slots);
    ComposeTable(sv, a, b);
    ComposeCalls(sv, a, b);
    if Refused !in t.outs + u.outs {
      ComposeRefusals(sv, a, b);
    }
    CallbacksAppend(t.outs, u.outs);
  }

  lemma FollowsNothing(rate: nat, h: Host, errors: seq<Output>, ok: bool)
    requires rate > 0 && (errors == [] || errors == [SessionError])
    ensures Follows(rate, h.sessions, [], Turn(h, errors, ok))
  {
    OneCallback(SessionError);
  }

  // ---------- the server ----------

  lemma EntryFollows(rate: nat, h: Host, i: nat, e: Event)
    requires rate > 0 && Kept(h) && i < SOCK_ID_MAX && Legal(h, i, e)
    ensures Follows(rate, h.sessions, EntryInputs(h, i, e), Entry(rate, h, i, e))
  {
    hide Step, Callbacks, Held, TableAfter, AllCalls, NoneRefused;
    var t := Entry(rate, h, i, e);
    if !e.error && e.readable && i >= FIRST_CONN {
      var inp := ChunkInput(h, i, e);
      Batch(Demux.Server(Tcp, rate, h.sessions), inp);
      var outs := Step(Tcp, rate, h.sessions, inp).1;
      OneCallback(SessionError);
      CallbacksAppend([SessionError], outs);
      assert [] + outs == outs;
    } else {
      FollowsNothing(rate, h, [], t.ok);
    }
  }

  lemma {:induction false} PassFollows(rate: nat, h: Host, es: seq<Event>, i: nat)
    requires rate > 0 && Kept(h) && |es| == SOCK_ID_MAX && i <= SOCK_ID_MAX && LegalPass(rate, h, es, i)
    ensures Follows(rate, h.sessions, PassInputs(rate, h, es, i), Pass(rate, h, es, i))
    decreases SOCK_ID_MAX - i
  {
    hide Entry, EntryInputs, Kept, Legal, Follows;
    KeptIsShaped(h);
    if i == SOCK_ID_MAX {
      FollowsNothing(rate, h, [], true);
    } else {
      var t := Entry(rate, h, i, es[i]);
      EntryFollows(rate, h, i, es[i]);
      if t.ok {
        EntryKeepsDescriptors(rate, h, i, es[i]);
        PassFollows(rate, t.host, es, i + 1);
        var rest := Pass(rate, t.host, es, i + 1);
        FollowsBoth(rate, h.sessions, EntryInputs(h, i, es[i]), t, PassInputs(rate, t.host, es, i + 1), rest, rest.ok);
      } else {
        assert EntryInputs(h, i, es[i]) + [] == EntryInputs(h, i, es[i]);
      }
    }
  }

  /** One return from poll. */
  lemma WakeFollows(rate: nat, h: Host, w: Wake)
    requires rate > 0 && Kept(h) && w.Valid() && (w.Ready? ==> LegalPass(rate, h, w.events, 0))
    ensures Follows(rate, h.sessions, if w.Ready? then PassInputs(rate, h, w.events, 0) else [], OnWake(rate, h, w))
  {
    hide Pass, PassInputs, Kept, LegalPass, Follows;
    KeptIsShaped(h);
    FollowsNothing(rate, h, [], OnWake(rate, h, w).ok);
    FollowsNothing(rate, h, [SessionError], false);
    if w.Ready? {
      PassFollows(rate, h, w.events, 0);
      var t := Pass(rate, h, w.events, 0);
      if !t.ok {
        FollowsNothing(rate, t.host, [SessionError], false);
        FollowsBoth(rate, h.sessions, PassInputs(rate, h, w.events, 0), t, [], Turn(t.host, [SessionError], false), false);
        assert PassInputs(rate, h, w.events, 0) + [] == PassInputs(rate, h, w.events, 0);
      }
    }
  }

  /** A run of the server, whatever it is woken up by, is the session table fed with the
      run's chunks in order: same table, same callbacks, and every chunk has a peer. */
  lemma {:induction false} RunIsChunks(rate: nat, start: Turn, slots: seq<Session>, ws: seq<Wake>)
    requires rate > 0 && Kept(start.host) && ValidWakes(ws) && LegalRun(rate, start, ws)
    requires Follows(rate, slots, [], start)
    ensures Follows(rate, slots, RunInputs(rate, start, ws), Served(rate, start, ws))
  {
    hide OnWake, PassInputs, Kept, LegalPass, Follows;
    KeptIsShaped(start.host);
    if ws != [] {
      var n := |ws| - 1;
      RunIsChunks(rate, start, slots, ws[..n]);
      var t := Served(rate, start, ws[..n]);
      var before := RunInputs(rate, start, ws[..n]);
      if t.ok {
        RunKeeps(rate, start, ws[..n]);
        WakeFollows(rate, t.host, ws[n]);
        var u := OnWake(rate, t.host, ws[n]);
        FollowsBoth(rate, slots, before, t, if ws[n].Ready? then PassInputs(rate, t.host, ws[n].events, 0) else [], u, u.ok);
      } else {
        assert before + [] == before;
      }
    }
  }

  /** Everything said of a TCP session table holds of the server itself. In a run that
      starts with no running session, no chunk is refused, each peer's callbacks are STARTED
      and FINISHED in strict alternation, and a peer whose last one is STARTED has a live
      connection. */
  lemma ServerRun(rate: nat, addrs: seq<Address>, slots: seq<Session>, s: Setup, ws: seq<Wake>, p: Address)
    requires rate > 0 && |addrs| == SOCK_ID_MAX && |slots| == SESSION_MAX && LegalSetup(s)
    requires UniqueKeys(slots) && RunningKeys(slots) == {} && !p.Unspecified?
    requires ValidWakes(ws) && LegalRun(rate, Start(addrs, slots, s), ws)
    ensures var start := Start(addrs, slots, s);
            var t := Served(rate, start, ws);
            var (sv, ds) := (Demux.Server(Tcp, rate, slots), RunInputs(rate, start, ws));
            var calls := CallbacksOf(sv, ds, p);
            && t.host.sessions == TableAfter(sv, ds) && Callbacks(t.outs) == AllCalls(sv, ds)
            && sv.Quiet(p) && IpTraffic(ds) && NoneRefused(sv, ds)
            && (forall i :: 0 <= i < |calls| ==> if i % 2 == 0 then calls[i] == Started else Closes(calls[i]))
            && (|calls| % 2 == 1 ==> p in ConnAddrs(t.host))
  {
    hide Start, Served, LegalRun, RunInputs, TableAfter, AllCalls, Callbacks, Closes, CallbacksOf, Held, UniqueKeys, NoneRefused,
      ConnAddrs;
    var start := Start(addrs, slots, s);
    var t := Served(rate, start, ws);
    StartKeeps(addrs, slots, s);
    StartFollows(addrs, slots, s, rate);
    RunIsChunks(rate, start, slots, ws);
    RunKeeps(rate, start, ws);
    if View(slots, p).Some? {
      RunningView(slots, p);
    }
    CallbacksAlternate(Demux.Server(Tcp, rate, slots), RunInputs(rate, start, ws), p);
    if View(t.host.sessions, p).Some? {
      RunningView(t.host.sessions, p);
    }
  }

  lemma RunningView(slots: seq<Session>, p: Address)
    requires View(slots, p).Some?
    ensures p in RunningKeys(slots)
  {
    var i := FirstMatch(slots, p).value;
    assert slots[i].phase.Ongoing? && slots[i].key == p;
  }

  lemma StartFollows(addrs: seq<Address>, slots: seq<Session>, s: Setup, rate: nat)
    requires rate > 0 && |addrs| == SOCK_ID_MAX && |slots| == SESSION_MAX
    ensures Follows(rate, slots, [], Start(addrs, slots, s))
  {
    hide Follows;
    var t := Start(addrs, slots, s);
    FollowsNothing(rate, t.host, t.outs, t.ok);
  }
}
