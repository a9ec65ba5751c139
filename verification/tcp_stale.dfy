/** The other half of the TCP guarantee: one session left running by an earlier run is
    enough for some later run to refuse a live connection. */
module TcpStale {
  import opened SessionTables
  import opened Receive
  import opened TcpServer
  import opened TcpSafety

  const IDLE := Event(false, false, -1, Unspecified, 0, [], 0, 0)

  /** Poll reports one entry and nothing else. */
  function Only(i: nat, e: Event): (es: seq<Event>)
    requires i < SOCK_ID_MAX
    ensures |es| == SOCK_ID_MAX && forall k :: 0 <= k < SOCK_ID_MAX ==> es[k] == if k == i then e else IDLE
  {
    seq(SOCK_ID_MAX, k => if k == i then e else IDLE)
  }

  /** A pass over idle entries does nothing. */
  lemma {:induction false} PassIdle(rate: nat, h: Host, es: seq<Event>, i: nat)
    requires rate > 0 && h.Shaped() && |es| == SOCK_ID_MAX && i <= SOCK_ID_MAX
    requires forall k :: i <= k < SOCK_ID_MAX ==> es[k] == IDLE
    ensures Pass(rate, h, es, i) == Turn(h, [], true) && LegalPass(rate, h, es, i)
    decreases SOCK_ID_MAX - i
  {
    if i < SOCK_ID_MAX {
      PassIdle(rate, h, es, i + 1);
    }
  }

  lemma {:induction false} PassOnly(rate: nat, h: Host, i: nat, e: Event, k: nat)
    requires rate > 0 && h.Shaped() && k <= i < SOCK_ID_MAX && Legal(h, i, e) && Entry(rate, h, i, e).ok
    ensures Pass(rate, h, Only(i, e), k) == Entry(rate, h, i, e) && LegalPass(rate, h, Only(i, e), k)
    decreases SOCK_ID_MAX - k
  {
    hide Read, Accept;
    var t := Entry(rate, h, i, e);
    if k == i {
      PassIdle(rate, t.host, Only(i, e), i + 1);
      assert t.outs + [] == t.outs;
    } else {
      PassOnly(rate, h, i, e, k + 1);
      assert [] + t.outs == t.outs;
    }
  }

  /** One more wake-up that reports one entry. */
  lemma ServeOne(rate: nat, start: Turn, ws: seq<Wake>, i: nat, e: Event)
    requires rate > 0 && start.host.Shaped() && ValidWakes(ws) && LegalRun(rate, start, ws) && Served(rate, start, ws).ok
    requires i < SOCK_ID_MAX && Legal(Served(rate, start, ws).host, i, e) && Entry(rate, Served(rate, start, ws).host, i, e).ok
    ensures var ws' := ws + [Ready(Only(i, e))];
            var t := Served(rate, start, ws);
            var u := Entry(rate, t.host, i, e);
            && ValidWakes(ws') && LegalRun(rate, start, ws')
            && Served(rate, start, ws') == Turn(u.host, t.outs + u.outs, true)
  {
    hide Entry, Legal, Only, Pass, LegalPass;
    var ws' := ws + [Ready(Only(i, e))];
    assert ws'[..|ws|] == ws;
    PassOnly(rate, Served(rate, start, ws).host, i, e, 0);
  }

  // ---------- four strangers ----------

  /** The block of four IPv4 hosts a peer is in. */
  function BlockOf(a: Address): int {
    if a.Inet? then a.host / 4 else -1
  }

  ghost function Blocks(slots: seq<Session>): set<int> {
    set i | 0 <= i < |slots| :: BlockOf(slots[i].key)
  }

  /** The first five blocks: one more than a table has slots. */
  type Block = b: int | 0 <= b <= SESSION_MAX

  lemma {:induction false} BlocksSize(slots: seq<Session>)
    ensures |Blocks(slots)| <= |slots|
  {
    if slots == [] {
      assert Blocks(slots) == {};
    } else {
      var n := |slots| - 1;
      var front := slots[..n];
      BlocksSize(front);
      var some := Blocks(front) + {BlockOf(slots[n].key)};
      forall b | b in Blocks(slots) ensures b in some {
        var i :| 0 <= i < |slots| && BlockOf(slots[i].key) == b;
        assert i < n ==> front[i] == slots[i];
      }
      SubsetSize(Blocks(slots), some);
    }
  }

  /** Some block holds no peer of the table. */
  lemma FreeBlock(slots: seq<Session>) returns (b: Block)
    requires |slots| == SESSION_MAX
    ensures b !in Blocks(slots)
  {
    var all: set<int> := {0, 1, 2, 3, 4};
    BlocksSize(slots);
    if all <= Blocks(slots) {
      SubsetSize(all, Blocks(slots));
    }
    b :| b in all && b !in Blocks(slots);
  }

  /** The `k`th peer of a block. */
  function Stranger(b: Block, k: nat): Address
    requires k < SESSION_MAX
  {
    Inet(4 * b + k, 0)
  }

  lemma StrangersBlock(b: Block, k: nat)
    requires k < SESSION_MAX
    ensures BlockOf(Stranger(b, k)) == b
  {
  }

  /** The first `k` strangers. */
  function Strangers(b: Block, k: nat): (s: set<Address>)
    requires k <= SESSION_MAX
    ensures forall a :: a in s ==> exists j: nat :: j < k && a == Stranger(b, j)
    ensures |s| == k
  {
    if k == 0 then {}
    else
      var s := Strangers(b, k - 1);
      assert Stranger(b, k - 1) !in s;
      s + {Stranger(b, k - 1)}
  }

  /** `k` strangers are connected, at the first entries. */
  ghost predicate Connected(h: Host, b: Block, k: nat) {
    && k <= SESSION_MAX && h.Shaped() && UniqueKeys(h.sessions)
    && (forall j :: 0 <= j < SOCK_ID_MAX ==> h.fds[j] == if j < FIRST_CONN + k then j else -1)
    && (forall j :: 0 <= j < k ==> h.addrs[FIRST_CONN + j] == Stranger(b, j))
  }

  /** A stranger connects: the event poll and accept report. */
  function Connect(b: Block, k: nat): Event
    requires k < SESSION_MAX
  {
    Event(false, true, FIRST_CONN + k, Stranger(b, k), 0, [], 0, 0)
  }

  const ONE_BYTE := Event(false, true, -1, Unspecified, 1, [0], 0, 0)

  lemma ConnectStep(rate: nat, h: Host, b: Block, k: nat)
    requires rate > 0 && Connected(h, b, k) && k < SESSION_MAX
    ensures Legal(h, 0, Connect(b, k))
    ensures var u := Entry(rate, h, 0, Connect(b, k));
            u.ok && u.outs == [] && u.host.sessions == h.sessions && Connected(u.host, b, k + 1)
  {
    hide UniqueKeys;
    forall a | a in ConnAddrs(h) ensures a != Stranger(b, k) {
      var j :| FIRST_CONN <= j < SOCK_ID_MAX && h.fds[j] >= 0 && h.addrs[j] == a;
      assert h.addrs[FIRST_CONN + (j - FIRST_CONN)] == Stranger(b, j - FIRST_CONN);
    }
    var j := FirstEmpty(h.fds, FIRST_CONN);
    assert h.fds[FIRST_CONN + k] == -1;
    assert j == FIRST_CONN + k;
  }

  lemma ByteStep(rate: nat, h: Host, b: Block, k: nat)
    requires rate > 0 && Connected(h, b, k + 1)
    ensures Legal(h, FIRST_CONN + k, ONE_BYTE)
    ensures var u := Entry(rate, h, FIRST_CONN + k, ONE_BYTE);
            && u.ok && Connected(u.host, b, k + 1)
            && (Refused in u.outs || RunningKeys(u.host.sessions) == RunningKeys(h.sessions) + {Stranger(b, k)})
  {
    hide Step, RunningKeys, UniqueKeys;
    var i := FIRST_CONN + k;
    var inp := ChunkInput(h, i, ONE_BYTE);
    assert inp.addr == Stranger(b, k) && inp.data == [0];
    assert h.fds[i] == i;
    if Lookup(h.sessions, inp.addr).Some? {
      ChunkKeys(rate, h.sessions, inp);
    } else {
      NoSlotRefuses(rate, h.sessions, inp);
    }
  }

  lemma NoSlotRefuses(rate: nat, slots: seq<Session>, inp: Input)
    requires rate > 0 && Lookup(slots, inp.addr).None?
    ensures Step(Tcp, rate, slots, inp) == (slots, [Refused])
  {
  }

  /** The run in which `k` strangers connect and send a byte each. */
  function Visit(b: Block, k: nat): (ws: seq<Wake>)
    requires k <= SESSION_MAX
  {
    if k == 0 then []
    else Visit(b, k - 1) + [Ready(Only(0, Connect(b, k - 1)))] + [Ready(Only(FIRST_CONN + (k - 1), ONE_BYTE))]
  }

  /** The run is a legal one, and unless it refused someone each stranger now has a running
      session beside those that ran before. */
  lemma {:induction false} VisitRuns(rate: nat, addrs: seq<Address>, slots: seq<Session>, b: Block, k: nat)
    requires rate > 0 && |addrs| == SOCK_ID_MAX && |slots| == SESSION_MAX && UniqueKeys(slots) && k <= SESSION_MAX
    ensures var start := Start(addrs, slots, Setup(0, true, 1, true));
            var ws := Visit(b, k);
            && ValidWakes(ws) && LegalRun(rate, start, ws)
            && var t := Served(rate, start, ws);
               && t.ok && Connected(t.host, b, k)
               && (Refused in t.outs || RunningKeys(t.host.sessions) == RunningKeys(slots) + Strangers(b, k))
  {
    hide Entry, Legal, LegalRun, Served, Start, Connected, Connect, Only, RunningKeys, UniqueKeys, Stranger;
    var start := Start(addrs, slots, Setup(0, true, 1, true));
    if k == 0 {
      NothingRun(rate, start);
      NobodyYet(addrs, slots, b);
    } else {
      VisitRuns(rate, addrs, slots, b, k - 1);
      var ws0 := Visit(b, k - 1);
      var h0 := Served(rate, start, ws0).host;
      ConnectStep(rate, h0, b, k - 1);
      ServeOne(rate, start, ws0, 0, Connect(b, k - 1));
      var ws1 := ws0 + [Ready(Only(0, Connect(b, k - 1)))];
      var h1 := Served(rate, start, ws1).host;
      ByteStep(rate, h1, b, k - 1);
      ServeOne(rate, start, ws1, FIRST_CONN + (k - 1), ONE_BYTE);
    }
  }

  lemma NobodyYet(addrs: seq<Address>, slots: seq<Session>, b: Block)
    requires |addrs| == SOCK_ID_MAX && |slots| == SESSION_MAX && UniqueKeys(slots)
    ensures var t := Start(addrs, slots, Setup(0, true, 1, true));
            && t.ok && Connected(t.host, b, 0)
            && RunningKeys(t.host.sessions) == RunningKeys(slots) + Strangers(b, 0)
  {
    hide UniqueKeys, RunningKeys;
  }

  lemma NothingRun(rate: nat, start: Turn)
    requires rate > 0 && start.host.Shaped()
    ensures ValidWakes([]) && LegalRun(rate, start, []) && Served(rate, start, []) == start
  {
  }

  /** A session left running makes some run refuse a chunk. */
  lemma StaleSessionRefuses(rate: nat, addrs: seq<Address>, slots: seq<Session>)
    requires rate > 0 && |addrs| == SOCK_ID_MAX && |slots| == SESSION_MAX && UniqueKeys(slots)
    requires RunningKeys(slots) != {}
    ensures !NeverRefuses(rate, addrs, slots)
  {
    hide Start, Served, LegalRun, Visit, Stranger, Strangers, UniqueKeys, RunningKeys;
    var s := Setup(0, true, 1, true);
    var start := Start(addrs, slots, s);
    var b := FreeBlock(slots);
    var ws := Visit(b, SESSION_MAX);
    VisitRuns(rate, addrs, slots, b, SESSION_MAX);
    var t := Served(rate, start, ws);
    var a :| a in RunningKeys(slots);
    KnownIsNoStranger(slots, a, b, SESSION_MAX);
    if Refused !in t.outs {
      RunningSize(t.host.sessions);
      SubsetSize(Strangers(b, SESSION_MAX) + {a}, RunningKeys(t.host.sessions));
    }
    assert LegalSetup(s) && ValidWakes(ws) && LegalRun(rate, start, ws);
  }

  lemma KnownIsNoStranger(slots: seq<Session>, a: Address, b: Block, k: nat)
    requires a in RunningKeys(slots) && b !in Blocks(slots) && k <= SESSION_MAX
    ensures a !in Strangers(b, k)
  {
    hide BlockOf, Stranger;
    var i :| 0 <= i < |slots| && slots[i].phase.Ongoing? && slots[i].key == a;
    assert BlockOf(a) in Blocks(slots);
    if a in Strangers(b, k) {
      var j: nat :| j < k && a == Stranger(b, j);
      StrangersBlock(b, j);
    }
  }

  /** The server never refuses a chunk of a live connection, in any run from a given table,
      if and only if no session of that table is still running. */
  lemma NeverRefusesIff(rate: nat, addrs: seq<Address>, slots: seq<Session>)
    requires rate > 0 && |addrs| == SOCK_ID_MAX && |slots| == SESSION_MAX && UniqueKeys(slots)
    ensures NeverRefuses(rate, addrs, slots) <==> RunningKeys(slots) == {}
  {
    if RunningKeys(slots) == {} {
      CleanStartIsSafe(rate, addrs, slots);
    } else {
      StaleSessionRefuses(rate, addrs, slots);
    }
  }

  /** A run from a blank table that ends with a stop and leaves a session running. */
  ghost predicate EndsStale(rate: nat, addrs: seq<Address>, s: Setup, ws: seq<Wake>)
    requires rate > 0 && |addrs| == SOCK_ID_MAX
  {
    var start := Start(addrs, BlankTable(), s);
    && LegalSetup(s) && ValidWakes(ws) && LegalRun(rate, start, ws)
    && ws != [] && ws[|ws| - 1] == Stop && start.ok && Served(rate, start, ws[..|ws| - 1]).ok
    && var left := CleanUp(Served(rate, start, ws).host);
       RunningKeys(left.sessions) != {} && !NeverRefuses(rate, left.addrs, left.sessions)
  }

  /** The guarantee is lost in practice: at start-up, one connection that has sent a byte
      when the server is stopped is enough for some later run to refuse a live connection. */
  lemma StopLeavesSession(rate: nat, addrs: seq<Address>)
    requires rate > 0 && |addrs| == SOCK_ID_MAX
    ensures exists s, ws :: EndsStale(rate, addrs, s, ws)
  {
    hide Served, Visit, Stranger, UniqueKeys, RunningKeys, Start, LegalRun, CleanUp, NeverRefuses;
    var slots := BlankTable();
    var s := Setup(0, true, 1, true);
    var start := Start(addrs, slots, s);
    var b := FreeBlock(slots);
    var visit := Visit(b, 1);
    VisitRuns(rate, addrs, slots, b, 1);
    BlankIsClean();
    StartKeeps(addrs, slots, s);
    RunKeeps(rate, start, visit);
    var h := Served(rate, start, visit).host;
    assert RunningKeys(h.sessions) == {} + Strangers(b, 1);
    var ws := visit + [Stop];
    StopAfter(rate, start, visit);
    StaysOk(rate, start, visit);
    NextRun(rate, addrs, slots, s, ws);
    LeftSessions(h);
    assert ws[..|ws| - 1] == visit;
    assert EndsStale(rate, addrs, s, ws);
  }

  lemma BlankIsClean()
    ensures RunningKeys(BlankTable()) == {}
  {
  }

  lemma LeftSessions(h: Host)
    requires h.Shaped()
    ensures CleanUp(h).sessions == h.sessions
  {
  }

  lemma StopAfter(rate: nat, start: Turn, ws: seq<Wake>)
    requires rate > 0 && start.host.Shaped() && ValidWakes(ws) && LegalRun(rate, start, ws)
    ensures var t := Served(rate, start, ws);
            && ValidWakes(ws + [Stop]) && LegalRun(rate, start, ws + [Stop])
            && Served(rate, start, ws + [Stop]).host == t.host
  {
    assert (ws + [Stop])[..|ws|] == ws;
  }

  /** A loop that still runs was started. */
  lemma {:induction false} StaysOk(rate: nat, start: Turn, ws: seq<Wake>)
    requires rate > 0 && start.host.Shaped() && ValidWakes(ws) && Served(rate, start, ws).ok
    ensures start.ok
  {
    hide OnWake;
    if ws != [] {
      StaysOk(rate, start, ws[..|ws| - 1]);
    }
  }

  /** A run that starts clean leaves a clean table for the next one exactly when no session
      was running when it ended; having no connection at the end is enough. A server that is
      stopped closes its connections without completing their sessions. */
  lemma NextRun(rate: nat, addrs: seq<Address>, slots: seq<Session>, s: Setup, ws: seq<Wake>)
    requires rate > 0 && |addrs| == SOCK_ID_MAX && |slots| == SESSION_MAX && UniqueKeys(slots)
    requires RunningKeys(slots) == {} && LegalSetup(s)
    requires ValidWakes(ws) && LegalRun(rate, Start(addrs, slots, s), ws)
    ensures var h := Served(rate, Start(addrs, slots, s), ws).host;
            var left := CleanUp(h);
            && (NeverRefuses(rate, left.addrs, left.sessions) <==> RunningKeys(h.sessions) == {})
            && (ConnAddrs(h) == {} ==> NeverRefuses(rate, left.addrs, left.sessions))
  {
    hide Start, Served, LegalRun, NeverRefuses, ConnAddrs;
    StartKeeps(addrs, slots, s);
    RunKeeps(rate, Start(addrs, slots, s), ws);
    var left := CleanUp(Served(rate, Start(addrs, slots, s), ws).host);
    NeverRefusesIff(rate, left.addrs, left.sessions);
  }
}
