/** Safety of the TCP server over whole runs: no descriptor is lost or closed twice, and a
    chunk from a live connection always finds a session slot, if and only if no session was
    left running by an earlier run. */
module TcpSafety {
  import opened SessionTables
  import opened Receive
  import opened Demux
  import opened TcpServer

  // ---------- what the network stack promises ----------

  /** The peers of the live connections. */
  ghost function ConnAddrs(h: Host): set<Address>
    requires h.Shaped()
  {
    set j | FIRST_CONN <= j < SOCK_ID_MAX && h.fds[j] >= 0 :: h.addrs[j]
  }

  /** Poll reports only open descriptors; accept returns a descriptor that is not open and a
      peer that is not connected yet; recv delivers as many bytes as it says. */
  ghost predicate Legal(h: Host, i: nat, e: Event)
    requires h.Shaped() && i < SOCK_ID_MAX
  {
    && (e.readable ==> h.fds[i] >= 0)
    && (e.accepted >= 0 ==> e.accepted !in h.fds && !e.from.Unspecified? && e.from !in ConnAddrs(h))
    && (e.recv > 0 ==> |e.data| == e.recv)
  }

  ghost predicate LegalPass(rate: nat, h: Host, es: seq<Event>, i: nat)
    requires rate > 0 && h.Shaped() && |es| == SOCK_ID_MAX && i <= SOCK_ID_MAX
    decreases SOCK_ID_MAX - i
  {
    i == SOCK_ID_MAX
    || (Legal(h, i, es[i])
        && var t := Entry(rate, h, i, es[i]);
           (t.ok ==> LegalPass(rate, t.host, es, i + 1)))
  }

  ghost predicate LegalRun(rate: nat, start: Turn, ws: seq<Wake>)
    requires rate > 0 && start.host.Shaped()
  {
    ws == []
    || (ws[|ws| - 1].Valid() && LegalRun(rate, start, ws[..|ws| - 1])
        && ValidWakes(ws[..|ws| - 1])
        && var t := Served(rate, start, ws[..|ws| - 1]);
           (t.ok && ws[|ws| - 1].Ready? ==> LegalPass(rate, t.host, ws[|ws| - 1].events, 0)))
  }

  ghost predicate ValidWakes(ws: seq<Wake>) {
    forall k :: 0 <= k < |ws| ==> ws[k].Valid()
  }

  ghost predicate LegalSetup(s: Setup) {
    s.fd4 >= 0 && s.fd6 >= 0 ==> s.fd4 != s.fd6
  }

  // ---------- the invariant ----------

  /** The peers whose sessions are running. */
  ghost function RunningKeys(slots: seq<Session>): set<Address> {
    set i | 0 <= i < |slots| && slots[i].phase.Ongoing? :: slots[i].key
  }

  /** No two entries hold one descriptor, and no two connections one peer. */
  ghost predicate Distinct(h: Host)
    requires h.Shaped()
  {
    && (forall j, k :: 0 <= j < k < SOCK_ID_MAX && h.fds[j] >= 0 ==> h.fds[j] != h.fds[k])
    && (forall j :: FIRST_CONN <= j < SOCK_ID_MAX && h.fds[j] >= 0 ==> !h.addrs[j].Unspecified?)
    && (forall j, k :: FIRST_CONN <= j < k < SOCK_ID_MAX && h.fds[j] >= 0 && h.fds[k] >= 0 ==> h.addrs[j] != h.addrs[k])
  }

  /** Every descriptor obtained is in the table or closed, and none is both or twice. */
  ghost predicate Kept(h: Host) {
    h.Shaped() && Distinct(h) && h.acquired == h.released + Held(h.fds)
  }

  /** Moreover every running session belongs to a live connection. */
  ghost predicate Inv(h: Host) {
    Kept(h) && UniqueKeys(h.sessions) && RunningKeys(h.sessions) <= ConnAddrs(h)
  }

  /** Storing a descriptor exchanges it for the one that was there. */
  lemma {:induction false} HeldUpdate(fds: seq<int>, j: nat, fd: int)
    requires j < |fds|
    ensures Held(fds[j := fd]) + One(fds[j]) == Held(fds) + One(fd)
  {
    hide One;
    var n := |fds| - 1;
    var fds' := fds[j := fd];
    if j == n {
      assert fds'[..n] == fds[..n];
    } else {
      HeldUpdate(fds[..n], j, fd);
      assert fds'[..n] == fds[..n][j := fd];
      var common := One(fds[n]);
      assert Held(fds') + One(fds[j]) == Held(fds[..n][j := fd]) + One(fds[j]) + common;
      assert Held(fds) + One(fd) == Held(fds[..n]) + One(fd) + common;
    }
  }

  // ---------- counting ----------

  lemma SubsetSize<T>(a: set<T>, b: set<T>)
    requires a <= b
    ensures |a| <= |b|
  {
    assert b == a + (b - a);
  }

  lemma RunningKeysAppend(front: seq<Session>, s: Session)
    ensures RunningKeys(front + [s]) == RunningKeys(front) + (if s.phase.Ongoing? then {s.key} else {})
  {
    var slots, n := front + [s], |front|;
    forall a | a in RunningKeys(slots) ensures a in RunningKeys(front) || (s.phase.Ongoing? && a == s.key) {
      var i :| 0 <= i < |slots| && slots[i].phase.Ongoing? && slots[i].key == a;
      assert i < n ==> front[i].phase.Ongoing? && front[i].key == a;
    }
    forall a | a in RunningKeys(front) ensures a in RunningKeys(slots) {
      var i :| 0 <= i < n && front[i].phase.Ongoing? && front[i].key == a;
      assert slots[i].phase.Ongoing? && slots[i].key == a;
    }
    assert slots[n] == s;
  }

  /** A table has at most as many running sessions as slots. */
  lemma {:induction false} RunningSize(slots: seq<Session>)
    ensures |RunningKeys(slots)| <= |slots|
  {
    if slots == [] {
      assert RunningKeys(slots) == {};
    } else {
      var n := |slots| - 1;
      RunningSize(slots[..n]);
      assert slots == slots[..n] + [slots[n]];
      RunningKeysAppend(slots[..n], slots[n]);
    }
  }

  /** Every session runs, for a peer with an address. */
  ghost predicate AllRunning(slots: seq<Session>) {
    forall i :: 0 <= i < |slots| ==> slots[i].phase.Ongoing? && !slots[i].key.Unspecified?
  }

  /** A table full of running sessions runs one for each slot. */
  lemma {:induction false} FullSize(slots: seq<Session>)
    requires UniqueKeys(slots) && AllRunning(slots)
    ensures |RunningKeys(slots)| == |slots|
  {
    if slots == [] {
      assert RunningKeys(slots) == {};
    } else {
      var n := |slots| - 1;
      var front := slots[..n];
      assert forall i :: 0 <= i < n ==> front[i] == slots[i];
      FullSize(front);
      assert slots == front + [slots[n]];
      RunningKeysAppend(front, slots[n]);
      assert slots[n].key !in RunningKeys(front);
    }
  }

  /** There are at most as many connections as session slots. */
  lemma ConnSize(h: Host)
    requires h.Shaped()
    ensures |ConnAddrs(h)| <= SESSION_MAX
  {
    var all := {h.addrs[2], h.addrs[3], h.addrs[4], h.addrs[5]};
    assert ConnAddrs(h) <= all;
    SubsetSize(ConnAddrs(h), all);
    assert |all| <= 4;
  }

  /** Pigeonhole: while running sessions belong to live connections, a live connection
      without a session finds a slot. */
  lemma RoomForConnection(h: Host, i: nat)
    requires Inv(h) && FIRST_CONN <= i < SOCK_ID_MAX && h.fds[i] >= 0
    ensures Lookup(h.sessions, h.addrs[i]).Some?
  {
    var a := h.addrs[i];
    if Lookup(h.sessions, a).None? {
      assert a in ConnAddrs(h);
      forall k | 0 <= k < SESSION_MAX ensures h.sessions[k].phase.Ongoing? && !h.sessions[k].key.Unspecified? && h.sessions[k].key != a {
        assert h.sessions[k].key in RunningKeys(h.sessions);
        assert !Matches(h.sessions[k], a);
      }
      FullSize(h.sessions);
      assert a !in RunningKeys(h.sessions);
      SubsetSize(RunningKeys(h.sessions) + {a}, ConnAddrs(h));
      ConnSize(h);
    }
  }

  // ---------- one step ----------

  /** What a served chunk does to the set of running sessions. */
  lemma ChunkKeys(rate: nat, slots: seq<Session>, inp: Input)
    requires rate > 0 && UniqueKeys(slots) && !inp.addr.Unspecified? && Lookup(slots, inp.addr).Some?
    ensures var (slots', outs) := Step(Tcp, rate, slots, inp);
            && UniqueKeys(slots') && |slots'| == |slots| && Refused !in outs
            && RunningKeys(slots') == if inp.data == [] then RunningKeys(slots) - {inp.addr} else RunningKeys(slots) + {inp.addr}
  {
    var a := inp.addr;
    var slots' := Step(Tcp, rate, slots, inp).0;
    StepKeepsUnique(Tcp, rate, slots, inp);
    var i := Lookup(slots, a).value;
    SlotOfChunk(rate, slots, inp);
    forall k | 0 <= k < |slots| && k != i ensures slots[k].key != a {
      assert slots'[k].key != a by {
        assert slots'[i].key == a;
        if k < i {
          assert slots'[k].key.Unspecified? || slots'[k].key != slots'[i].key;
        }
      }
    }
    RunningKeysUpdate(slots, i, slots'[i]);
    assert slots[i].phase.Ongoing? ==> slots[i].key == a;
  }

  /** A chunk changes one slot, and gives it the peer's key. */
  lemma SlotOfChunk(rate: nat, slots: seq<Session>, inp: Input)
    requires rate > 0 && !inp.addr.Unspecified? && Lookup(slots, inp.addr).Some?
    ensures var (slots', outs) := Step(Tcp, rate, slots, inp);
            var i := Lookup(slots, inp.addr).value;
            && slots' == slots[i := slots'[i]] && slots'[i].key == inp.addr
            && (slots'[i].phase.Ongoing? <==> inp.data != [])
            && (slots[i].phase.Ongoing? ==> slots[i].key == inp.addr)
            && Refused !in outs
  {
  }

  lemma RunningKeysUpdate(slots: seq<Session>, i: nat, s: Session)
    requires i < |slots|
    requires forall k :: 0 <= k < |slots| && k != i ==> slots[k].key != s.key
    requires slots[i].phase.Ongoing? ==> slots[i].key == s.key
    ensures RunningKeys(slots[i := s])
            == if s.phase.Ongoing? then RunningKeys(slots) + {s.key} else RunningKeys(slots) - {s.key}
  {
    var slots' := slots[i := s];
    var want := if s.phase.Ongoing? then RunningKeys(slots) + {s.key} else RunningKeys(slots) - {s.key};
    forall a | a in RunningKeys(slots') ensures a in want {
      var k :| 0 <= k < |slots'| && slots'[k].phase.Ongoing? && slots'[k].key == a;
      assert k != i ==> slots[k].phase.Ongoing? && slots[k].key == a;
    }
    forall a | a in want ensures a in RunningKeys(slots') {
      if a == s.key {
        assert slots'[i].phase.Ongoing?;
      } else {
        var k :| 0 <= k < |slots| && slots[k].phase.Ongoing? && slots[k].key == a;
        assert slots'[k].phase.Ongoing? && slots'[k].key == a;
      }
    }
  }

  lemma AcceptKeeps(h: Host, fd: int, from: Address)
    requires Kept(h) && fd >= 0 && fd !in h.fds && !from.Unspecified? && from !in ConnAddrs(h)
    ensures Kept(Accept(h, fd, from)) && ConnAddrs(h) <= ConnAddrs(Accept(h, fd, from))
  {
    AcceptLedger(h, fd, from);
    AcceptDistinct(h, fd, from);
    AcceptConns(h, fd, from);
  }

  lemma AcceptLedger(h: Host, fd: int, from: Address)
    requires h.Shaped() && h.acquired == h.released + Held(h.fds) && fd >= 0
    ensures var g := Accept(h, fd, from); g.acquired == g.released + Held(g.fds)
  {
    hide Held;
    var j := FirstEmpty(h.fds, FIRST_CONN);
    var g := Accept(h, fd, from);
    if j < SOCK_ID_MAX {
      HeldUpdate(h.fds, j, fd);
      assert Held(g.fds) == Held(h.fds) + multiset{fd};
    }
    assert g.released + Held(g.fds) == h.released + Held(h.fds) + multiset{fd};
  }

  lemma AcceptDistinct(h: Host, fd: int, from: Address)
    requires h.Shaped() && Distinct(h) && fd >= 0 && fd !in h.fds && !from.Unspecified? && from !in ConnAddrs(h)
    ensures Distinct(Accept(h, fd, from))
  {
    hide ConnAddrs;
    var j, g := FirstEmpty(h.fds, FIRST_CONN), Accept(h, fd, from);
    NotConnected(h, from);
    if j < SOCK_ID_MAX {
      assert g.fds == h.fds[j := fd] && g.addrs == h.addrs[j := from];
      forall k, m | 0 <= k < m < SOCK_ID_MAX && g.fds[k] >= 0 ensures g.fds[k] != g.fds[m] {
        assert h.fds[k] in h.fds && h.fds[m] in h.fds;
      }
    }
  }

  lemma NotConnected(h: Host, a: Address)
    requires h.Shaped() && a !in ConnAddrs(h)
    ensures forall k :: FIRST_CONN <= k < SOCK_ID_MAX && h.fds[k] >= 0 ==> h.addrs[k] != a
  {
    forall k | FIRST_CONN <= k < SOCK_ID_MAX && h.fds[k] >= 0 ensures h.addrs[k] != a {
      assert h.addrs[k] in ConnAddrs(h);
    }
  }

  lemma AcceptConns(h: Host, fd: int, from: Address)
    requires h.Shaped() && fd >= 0
    ensures ConnAddrs(h) <= ConnAddrs(Accept(h, fd, from))
  {
    var g := Accept(h, fd, from);
    forall a | a in ConnAddrs(h) ensures a in ConnAddrs(g) {
      var k :| FIRST_CONN <= k < SOCK_ID_MAX && h.fds[k] >= 0 && h.addrs[k] == a;
      assert g.fds[k] == h.fds[k] && g.addrs[k] == a;
    }
  }

  /** Closing the connection at entry `i`. */
  function Drop(h: Host, i: nat): Host
    requires h.Shaped() && i < SOCK_ID_MAX
  {
    h.(released := h.released + multiset{h.fds[i]}, fds := h.fds[i := -1], addrs := h.addrs[i := Unspecified])
  }

  lemma DropKeeps(h: Host, i: nat)
    requires Kept(h) && FIRST_CONN <= i < SOCK_ID_MAX && h.fds[i] >= 0
    ensures Kept(Drop(h, i)) && ConnAddrs(h) - {h.addrs[i]} <= ConnAddrs(Drop(h, i))
  {
    hide Held;
    HeldUpdate(h.fds, i, -1);
    var g := Drop(h, i);
    assert Held(g.fds) + multiset{h.fds[i]} == Held(h.fds);
    assert g.released + Held(g.fds) == h.released + Held(h.fds);
    forall a | a in ConnAddrs(h) && a != h.addrs[i] ensures a in ConnAddrs(g) {
      var k :| FIRST_CONN <= k < SOCK_ID_MAX && h.fds[k] >= 0 && h.addrs[k] == a;
      assert g.fds[k] == h.fds[k] && g.addrs[k] == a;
    }
  }

  /** A read is a step of the session table, then perhaps a close. */
  lemma ReadIsStepAndDrop(rate: nat, h: Host, i: nat, e: Event)
    requires rate > 0 && h.Shaped() && FIRST_CONN <= i < SOCK_ID_MAX
    ensures var g := h.(sessions := Step(Tcp, rate, h.sessions, ChunkInput(h, i, e)).0);
            Read(rate, h, i, e).host == if e.Chunk() == [] then Drop(g, i) else g
  {
    hide Step;
  }

  /** Handling one entry loses no descriptor and leaves the listening sockets where they
      are, whatever the session table holds. */
  lemma EntryKeepsDescriptors(rate: nat, h: Host, i: nat, e: Event)
    requires rate > 0 && Kept(h) && i < SOCK_ID_MAX && Legal(h, i, e)
    ensures var t := Entry(rate, h, i, e); Kept(t.host) && t.host.fds[..FIRST_CONN] == h.fds[..FIRST_CONN]
  {
    hide Step, Held, Read;
    if !e.error && e.readable {
      if i < FIRST_CONN {
        if e.accepted >= 0 {
          AcceptKeeps(h, e.accepted, e.from);
        }
      } else {
        ReadIsStepAndDrop(rate, h, i, e);
        var g := h.(sessions := Step(Tcp, rate, h.sessions, ChunkInput(h, i, e)).0);
        if e.Chunk() == [] {
          DropKeeps(g, i);
        }
      }
    }
  }

  lemma ReadKeeps(rate: nat, h: Host, i: nat, e: Event)
    requires rate > 0 && Inv(h) && FIRST_CONN <= i < SOCK_ID_MAX && h.fds[i] >= 0
    ensures Inv(Read(rate, h, i, e).host) && Refused !in Read(rate, h, i, e).outs
  {
    hide Step, Held, UniqueKeys, RunningKeys;
    RoomForConnection(h, i);
    ChunkKeys(rate, h.sessions, ChunkInput(h, i, e));
    assert h.addrs[i] in ConnAddrs(h);
    var g := h.(sessions := Step(Tcp, rate, h.sessions, ChunkInput(h, i, e)).0);
    assert ConnAddrs(g) == ConnAddrs(h);
    if e.Chunk() == [] {
      DropKeeps(g, i);
      ReadIsStepAndDrop(rate, h, i, e);
    }
  }

  /** Handling one entry keeps the invariant and refuses no chunk. */
  lemma EntryKeeps(rate: nat, h: Host, i: nat, e: Event)
    requires rate > 0 && Inv(h) && i < SOCK_ID_MAX && Legal(h, i, e)
    ensures Inv(Entry(rate, h, i, e).host) && Refused !in Entry(rate, h, i, e).outs
  {
    hide Held, Read;
    if !e.error && e.readable {
      if i < FIRST_CONN {
        if e.accepted >= 0 {
          AcceptKeeps(h, e.accepted, e.from);
        }
      } else {
        ReadKeeps(rate, h, i, e);
      }
    }
  }

  // ---------- whole runs ----------

  lemma {:induction false} PassKeeps(rate: nat, h: Host, es: seq<Event>, i: nat)
    requires rate > 0 && Kept(h) && |es| == SOCK_ID_MAX && i <= SOCK_ID_MAX && LegalPass(rate, h, es, i)
    ensures var t := Pass(rate, h, es, i);
            && Kept(t.host) && t.host.fds[..FIRST_CONN] == h.fds[..FIRST_CONN]
            && (Inv(h) ==> Inv(t.host) && Refused !in t.outs)
    decreases SOCK_ID_MAX - i
  {
    hide Entry, Inv, Legal;
    if i < SOCK_ID_MAX {
      EntryKeepsDescriptors(rate, h, i, es[i]);
      if Inv(h) {
        EntryKeeps(rate, h, i, es[i]);
      }
      if Entry(rate, h, i, es[i]).ok {
        PassKeeps(rate, Entry(rate, h, i, es[i]).host, es, i + 1);
      }
    }
  }

  lemma {:induction false} RunKeeps(rate: nat, start: Turn, ws: seq<Wake>)
    requires rate > 0 && Kept(start.host) && ValidWakes(ws) && LegalRun(rate, start, ws)
    ensures var t := Served(rate, start, ws);
            && Kept(t.host) && t.host.fds[..FIRST_CONN] == start.host.fds[..FIRST_CONN]
            && (Inv(start.host) && Refused !in start.outs ==> Inv(t.host) && Refused !in t.outs)
  {
    hide Pass, Inv, Kept, LegalPass;
    KeptIsShaped(start.host);
    if ws != [] {
      var n := |ws| - 1;
      RunKeeps(rate, start, ws[..n]);
      var t := Served(rate, start, ws[..n]);
      if t.ok && ws[n].Ready? {
        PassKeeps(rate, t.host, ws[n].events, 0);
      }
    }
  }

  lemma KeptIsShaped(h: Host)
    requires Kept(h)
    ensures h.Shaped()
  {
  }

  /** The state after the setup, successful or not. */
  lemma StartKeeps(addrs: seq<Address>, sessions: seq<Session>, s: Setup)
    requires |addrs| == SOCK_ID_MAX && |sessions| == SESSION_MAX && LegalSetup(s)
    ensures var t := Start(addrs, sessions, s);
            Kept(t.host) && t.host.sessions == sessions && Refused !in t.outs && ConnAddrs(t.host) == {}
  {
    hide Kept;
    var h0 := Blank(addrs, sessions);
    NothingKept(h0);
    ListenKeeps(h0, 0, s.fd4);
    if s.fd4 >= 0 {
      ListenKeeps(Listen(h0, 0, s.fd4), 1, s.fd6);
    }
  }

  lemma NothingKept(h: Host)
    requires h.Shaped() && h.acquired == h.released == multiset{} && forall k :: 0 <= k < SOCK_ID_MAX ==> h.fds[k] == -1
    ensures Kept(h) && ConnAddrs(h) == {}
  {
    HeldOfNone(h.fds);
  }

  lemma ListenKeeps(h: Host, i: nat, fd: int)
    requires Kept(h) && i < FIRST_CONN && h.fds[i] == -1 && (fd >= 0 ==> fd !in h.fds)
    ensures Kept(Listen(h, i, fd)) && ConnAddrs(Listen(h, i, fd)) == ConnAddrs(h)
  {
    hide Held;
    HeldUpdate(h.fds, i, fd);
    var g := Listen(h, i, fd);
    assert Held(g.fds) == Held(h.fds) + One(fd);
    assert g.released + Held(g.fds) == h.released + Held(h.fds) + One(fd);
    assert forall k :: FIRST_CONN <= k < SOCK_ID_MAX ==> g.fds[k] == h.fds[k];
  }

  lemma {:induction false} HeldOfNone(fds: seq<int>)
    requires forall k :: 0 <= k < |fds| ==> fds[k] < 0
    ensures Held(fds) == multiset{}
  {
    if fds != [] {
      HeldOfNone(fds[..|fds| - 1]);
    }
  }

  /** In any run, whatever sessions it starts from: at any time each descriptor obtained is
      in exactly one entry or closed, the first two entries hold only the listening sockets,
      and after the exit path everything obtained has been closed once. */
  lemma DescriptorsConserved(rate: nat, addrs: seq<Address>, sessions: seq<Session>, s: Setup, ws: seq<Wake>)
    requires rate > 0 && |addrs| == SOCK_ID_MAX && |sessions| == SESSION_MAX && LegalSetup(s)
    requires ValidWakes(ws) && LegalRun(rate, Start(addrs, sessions, s), ws)
    ensures var start := Start(addrs, sessions, s);
            var h := Served(rate, start, ws).host;
            && Kept(h) && h.fds[..FIRST_CONN] == start.host.fds[..FIRST_CONN]
            && CleanUp(h).acquired == CleanUp(h).released == h.acquired
  {
    hide Start, Served, LegalRun;
    StartKeeps(addrs, sessions, s);
    RunKeeps(rate, Start(addrs, sessions, s), ws);
  }

  // ---------- refusals ----------

  /** No run from these sessions ever refuses a chunk. */
  ghost predicate NeverRefuses(rate: nat, addrs: seq<Address>, sessions: seq<Session>)
    requires rate > 0 && |addrs| == SOCK_ID_MAX && |sessions| == SESSION_MAX
  {
    forall s: Setup, ws: seq<Wake> | LegalSetup(s) && ValidWakes(ws) && LegalRun(rate, Start(addrs, sessions, s), ws) ::
      Refused !in Served(rate, Start(addrs, sessions, s), ws).outs
  }

  /** From a table without running sessions no run refuses a chunk. */
  lemma CleanStartIsSafe(rate: nat, addrs: seq<Address>, sessions: seq<Session>)
    requires rate > 0 && |addrs| == SOCK_ID_MAX && |sessions| == SESSION_MAX
    requires UniqueKeys(sessions) && RunningKeys(sessions) == {}
    ensures NeverRefuses(rate, addrs, sessions)
  {
    hide Start, Served, LegalRun;
    forall s: Setup, ws: seq<Wake> | LegalSetup(s) && ValidWakes(ws) && LegalRun(rate, Start(addrs, sessions, s), ws)
      ensures Refused !in Served(rate, Start(addrs, sessions, s), ws).outs
    {
      StartKeeps(addrs, sessions, s);
      assert Inv(Start(addrs, sessions, s).host);
      RunKeeps(rate, Start(addrs, sessions, s), ws);
    }
  }
}
