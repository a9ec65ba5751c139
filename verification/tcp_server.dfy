/** tcp_server_session: the descriptor table of the TCP server, as a function of what the
    network reports and as the nested loops of the program. */
module TcpServer {
  import opened Words
  import opened SessionTables
  import opened Receive
  import opened Receivers

  const FIRST_CONN: nat := 2                       // after the two listening sockets
  const SOCK_ID_MAX: nat := SESSION_MAX + FIRST_CONN

  /** The server's state. `acquired` and `released` record every descriptor the network
      stack handed out and took back in this run. */
  datatype Host = Host(fds: seq<int>, addrs: seq<Address>, sessions: seq<Session>,
                       acquired: multiset<int>, released: multiset<int>)
  {
    predicate Shaped() {
      |fds| == SOCK_ID_MAX && |addrs| == SOCK_ID_MAX && |sessions| == SESSION_MAX
    }
  }

  /** What poll reports about one entry, and what accept or recv answer if called for it. */
  datatype Event = Event(error: bool, readable: bool, accepted: int, from: Address,
                         recv: int, data: seq<Byte>, time: U32, again: U32)
  {
    /** The bytes the server goes on with: none after an error or at the end. */
    function Chunk(): seq<Byte> {
      if recv <= 0 then [] else data
    }
  }

  /** The result of handling one entry, or a pass over all of them. `ok` is false when the
      server gives up. */
  datatype Turn = Turn(host: Host, outs: seq<Output>, ok: bool)

  /** The first connection entry without a descriptor. */
  function FirstEmpty(fds: seq<int>, j: nat): (r: nat)
    requires |fds| == SOCK_ID_MAX && j <= SOCK_ID_MAX
    ensures j <= r <= SOCK_ID_MAX
    ensures forall k :: j <= k < r ==> fds[k] >= 0
    ensures r < SOCK_ID_MAX ==> fds[r] < 0
    decreases SOCK_ID_MAX - j
  {
    if j == SOCK_ID_MAX || fds[j] < 0 then j else FirstEmpty(fds, j + 1)
  }

  /** An accepted connection takes the first empty entry, or is released at once. */
  function Accept(h: Host, fd: int, from: Address): Host
    requires h.Shaped()
  {
    var j := FirstEmpty(h.fds, FIRST_CONN);
    var g := h.(acquired := h.acquired + multiset{fd});
    if j == SOCK_ID_MAX then g.(released := g.released + multiset{fd})
    else g.(fds := g.fds[j := fd], addrs := g.addrs[j := from])
  }

  /** The input tcp_received gets for entry `i`. */
  function ChunkInput(h: Host, i: nat, e: Event): Input
    requires h.Shaped() && i < SOCK_ID_MAX
  {
    Input(h.addrs[i], e.Chunk(), e.time, e.again)
  }

  /** A read from a connection. An empty chunk closes the connection. */
  function Read(rate: nat, h: Host, i: nat, e: Event): Turn
    requires rate > 0 && h.Shaped() && FIRST_CONN <= i < SOCK_ID_MAX
  {
    var (sessions, outs) := Step(Tcp, rate, h.sessions, ChunkInput(h, i, e));
    var g := h.(sessions := sessions);
    Turn(if e.Chunk() == [] then
           g.(released := g.released + multiset{g.fds[i]}, fds := g.fds[i := -1], addrs := g.addrs[i := Unspecified])
         else g,
         (if e.recv < 0 then [SessionError] else []) + outs, true)
  }

  /** One entry of a pass over the poll results. */
  function Entry(rate: nat, h: Host, i: nat, e: Event): (t: Turn)
    requires rate > 0 && h.Shaped() && i < SOCK_ID_MAX
    ensures t.host.Shaped()
  {
    if e.error then Turn(h, [], false)
    else if !e.readable then Turn(h, [], true)
    else if i < FIRST_CONN then
      if e.accepted < 0 then Turn(h, [], false) else Turn(Accept(h, e.accepted, e.from), [], true)
    else Read(rate, h, i, e)
  }

  /** A pass over the entries from `i` on. */
  function Pass(rate: nat, h: Host, es: seq<Event>, i: nat): (t: Turn)
    requires rate > 0 && h.Shaped() && |es| == SOCK_ID_MAX && i <= SOCK_ID_MAX
    ensures t.host.Shaped()
    decreases SOCK_ID_MAX - i
  {
    if i == SOCK_ID_MAX then Turn(h, [], true) else
    var t := Entry(rate, h, i, es[i]);
    if !t.ok then t else
    var rest := Pass(rate, t.host, es, i + 1);
    Turn(rest.host, t.outs + rest.outs, rest.ok)
  }

  /** Opening the two listening sockets: the descriptors, and whether bind and listen
      succeeded. */
  datatype Setup = Setup(fd4: int, bound4: bool, fd6: int, bound6: bool)

  function Listen(h: Host, i: nat, fd: int): Host
    requires h.Shaped() && i < FIRST_CONN
  {
    h.(fds := h.fds[i := fd], acquired := if fd < 0 then h.acquired else h.acquired + multiset{fd})
  }

  /** A table without descriptors. */
  function Blank(addrs: seq<Address>, sessions: seq<Session>): (h: Host)
    requires |addrs| == SOCK_ID_MAX && |sessions| == SESSION_MAX
    ensures h.Shaped()
  {
    Host(seq(SOCK_ID_MAX, _ => -1), addrs, sessions, multiset{}, multiset{})
  }

  /** The state in which the poll loop starts, or in which the setup is given up. */
  function Start(addrs: seq<Address>, sessions: seq<Session>, s: Setup): (t: Turn)
    requires |addrs| == SOCK_ID_MAX && |sessions| == SESSION_MAX
    ensures t.host.Shaped()
  {
    var h0 := Blank(addrs, sessions);
    var h4 := Listen(h0, 0, s.fd4);
    if s.fd4 < 0 || !s.bound4 then Turn(h4, [SessionError], false) else
    var h6 := Listen(h4, 1, s.fd6);
    if s.fd6 < 0 || !s.bound6 then Turn(h6, [SessionError], false) else Turn(h6, [], true)
  }

  function One(fd: int): multiset<int> {
    if fd >= 0 then multiset{fd} else multiset{}
  }

  /** The descriptors in a part of the table. */
  function Held(fds: seq<int>): multiset<int> {
    if fds == [] then multiset{} else Held(fds[..|fds| - 1]) + One(fds[|fds| - 1])
  }

  /** Every way out closes what the table holds. */
  function CleanUp(h: Host): (g: Host)
    requires h.Shaped()
    ensures g.Shaped()
  {
    h.(released := h.released + Held(h.fds),
       addrs := Cleared(h.fds, h.addrs))
  }

  /** The addresses after those of open descriptors were zeroed. */
  function Cleared(fds: seq<int>, addrs: seq<Address>): (r: seq<Address>)
    requires |fds| == |addrs|
    ensures |r| == |addrs| && forall k :: 0 <= k < |r| ==> r[k] == if fds[k] >= 0 then Unspecified else addrs[k]
  {
    if fds == [] then []
    else
      var n := |fds| - 1;
      Cleared(fds[..n], addrs[..n]) + [if fds[n] >= 0 then Unspecified else addrs[n]]
  }

  /** One return from poll. */
  datatype Wake = PollError | Stop | Timeout | Ready(events: seq<Event>)
  {
    predicate Valid() {
      Ready? ==> |events| == SOCK_ID_MAX
    }
  }

  function OnWake(rate: nat, h: Host, w: Wake): (t: Turn)
    requires rate > 0 && h.Shaped() && w.Valid()
    ensures t.host.Shaped()
  {
    match w
    case PollError => Turn(h, [SessionError], false)
    case Stop => Turn(h, [], false)
    case Timeout => Turn(h, [], true)
    case Ready(es) =>
      var t := Pass(rate, h, es, 0);
      if t.ok then t else Turn(t.host, t.outs + [SessionError], false)
  }

  /** The state after a sequence of wake-ups, none of which follows one that ended the loop.
      `ok` tells whether the loop still runs. */
  function Served(rate: nat, start: Turn, ws: seq<Wake>): (t: Turn)
    requires rate > 0 && start.host.Shaped() && forall k :: 0 <= k < |ws| ==> ws[k].Valid()
    ensures t.host.Shaped()
  {
    if ws == [] then start else
    var t := Served(rate, start, ws[..|ws| - 1]);
    if !t.ok then t else
    var u := OnWake(rate, t.host, ws[|ws| - 1]);
    Turn(u.host, t.outs + u.outs, u.ok)
  }

  // ---------- when the loop ends ----------

  predicate SetupOk(s: Setup) {
    s.fd4 >= 0 && s.bound4 && s.fd6 >= 0 && s.bound6
  }

  /** What makes the server give up at entry `i`: an error on the socket, or a failed accept. */
  predicate Fatal(e: Event, i: nat) {
    e.error || (e.readable && i < FIRST_CONN && e.accepted < 0)
  }

  /** A return from poll after which the loop goes on. */
  ghost predicate GoesOn(w: Wake) {
    w.Timeout? || (w.Ready? && forall i :: 0 <= i < |w.events| ==> !Fatal(w.events[i], i))
  }

  lemma {:induction false} PassOkIff(rate: nat, h: Host, es: seq<Event>, i: nat)
    requires rate > 0 && h.Shaped() && |es| == SOCK_ID_MAX && i <= SOCK_ID_MAX
    ensures Pass(rate, h, es, i).ok <==> forall j :: i <= j < SOCK_ID_MAX ==> !Fatal(es[j], j)
    decreases SOCK_ID_MAX - i
  {
    hide Entry, Fatal;
    if i < SOCK_ID_MAX {
      EntryOkIff(rate, h, i, es[i]);
      if Entry(rate, h, i, es[i]).ok {
        PassOkIff(rate, Entry(rate, h, i, es[i]).host, es, i + 1);
      }
    }
  }

  lemma EntryOkIff(rate: nat, h: Host, i: nat, e: Event)
    requires rate > 0 && h.Shaped() && i < SOCK_ID_MAX
    ensures Entry(rate, h, i, e).ok <==> !Fatal(e, i)
  {
    hide Accept, Step;
  }

  /** The loop still runs if and only if the setup succeeded and every return from poll lets
      it go on: none was a stop or an error, and no pass met a fatal event. */
  lemma {:induction false} LoopRunsIff(rate: nat, addrs: seq<Address>, sessions: seq<Session>, s: Setup, ws: seq<Wake>)
    requires rate > 0 && |addrs| == SOCK_ID_MAX && |sessions| == SESSION_MAX && forall k :: 0 <= k < |ws| ==> ws[k].Valid()
    ensures Served(rate, Start(addrs, sessions, s), ws).ok <==> SetupOk(s) && forall k :: 0 <= k < |ws| ==> GoesOn(ws[k])
  {
    hide Pass, Listen, Blank;
    if ws != [] {
      var n := |ws| - 1;
      LoopRunsIff(rate, addrs, sessions, s, ws[..n]);
      var t := Served(rate, Start(addrs, sessions, s), ws[..n]);
      if t.ok && ws[n].Ready? {
        PassOkIff(rate, t.host, ws[n].events, 0);
      }
    }
  }

  // ---------- the program ----------

  class Server {
    const fds: array<int>
    const addrs: array<Address>
    const receiver: Receiver
    var acquired: multiset<int>
    var released: multiset<int>

    ghost predicate Valid() {
      && fds.Length == SOCK_ID_MAX && addrs.Length == SOCK_ID_MAX && receiver.Valid()
      && receiver.table.tcp.Length == SESSION_MAX
    }

    ghost function Model(): (h: Host)
      requires Valid()
      reads this, fds, addrs, receiver.table.tcp
      ensures h.Shaped()
    {
      Host(fds[..], addrs[..], receiver.table.tcp[..], acquired, released)
    }

    constructor (receiver: Receiver)
      requires receiver.Valid()
      ensures Valid() && fresh(fds) && fresh(addrs) && this.receiver == receiver
    {
      fds := new int[SOCK_ID_MAX](_ => -1);
      addrs := new Address[SOCK_ID_MAX](_ => Unspecified);
      this.receiver := receiver;
      acquired, released := multiset{}, multiset{};
    }

    /** The accept branch: scans for an empty entry. */
    method OnAccept(sock: int, from: Address)
      requires Valid()
      modifies this, fds, addrs
      ensures Model() == Accept(old(Model()), sock, from)
    {
      acquired := acquired + multiset{sock};
      var j := FIRST_CONN;
      while j < SOCK_ID_MAX && fds[j] >= 0
        invariant FIRST_CONN <= j <= SOCK_ID_MAX
        invariant FirstEmpty(fds[..], FIRST_CONN) == FirstEmpty(fds[..], j)
      {
        j := j + 1;
      }
      if j == SOCK_ID_MAX {
        released := released + multiset{sock};
      } else {
        fds[j] := sock;
        addrs[j] := from;
      }
    }

    /** The recv branch. */
    method OnReadable(i: nat, e: Event) returns (outs: seq<Output>)
      requires Valid() && FIRST_CONN <= i < SOCK_ID_MAX
      modifies this, fds, addrs, receiver.table.tcp
      ensures Turn(Model(), outs, true) == Read(receiver.rate, old(Model()), i, e)
    {
      hide Step;
      var errors := [];
      var data := e.data;
      if e.recv < 0 {
        errors := [SessionError];
      }
      if e.recv <= 0 {
        data := [];
      }
      var got := receiver.TcpReceived(Input(addrs[i], data, e.time, e.again));
      if data == [] {
        released := released + multiset{fds[i]};
        fds[i] := -1;
        addrs[i] := Unspecified;
      }
      return errors + got;
    }

    /** The body of the loop over the entries. */
    method ServeEntry(i: nat, e: Event) returns (outs: seq<Output>, ok: bool)
      requires Valid() && i < SOCK_ID_MAX
      modifies this, fds, addrs, receiver.table.tcp
      ensures Turn(Model(), outs, ok) == Entry(receiver.rate, old(Model()), i, e)
    {
      hide Accept, Read;
      outs := [];
      if e.error {
        return outs, false;
      }
      if e.readable {
        if i < FIRST_CONN {
          if e.accepted < 0 {
            return outs, false;
          }
          OnAccept(e.accepted, e.from);
        } else {
          outs := OnReadable(i, e);
        }
      }
      return outs, true;
    }

    /** The pass over the poll results. */
    method ServePass(es: seq<Event>) returns (outs: seq<Output>, ok: bool)
      requires Valid() && |es| == SOCK_ID_MAX
      modifies this, fds, addrs, receiver.table.tcp
      ensures Turn(Model(), outs, ok) == Pass(receiver.rate, old(Model()), es, 0)
    {
      hide Entry;
      ghost var all := Pass(receiver.rate, Model(), es, 0);
      outs := [];
      var i := 0;
      while i < SOCK_ID_MAX
        invariant 0 <= i <= SOCK_ID_MAX
        invariant var rest := Pass(receiver.rate, Model(), es, i);
                  all.host == rest.host && all.outs == outs + rest.outs && all.ok == rest.ok
      {
        ghost var rest := Pass(receiver.rate, Model(), es, i);
        var got, more := ServeEntry(i, es[i]);
        if !more {
          assert all.outs == outs + got;
          return outs + got, false;
        }
        assert all.outs == outs + got + Pass(receiver.rate, Model(), es, i + 1).outs;
        outs := outs + got;
        i := i + 1;
      }
      assert all.outs == outs;
      return outs, true;
    }

    /** Opening one listening socket. */
    method ListenOn(i: nat, fd: int)
      requires Valid() && i < FIRST_CONN
      modifies this, fds
      ensures Model() == Listen(old(Model()), i, fd)
    {
      fds[i] := fd;
      if fd >= 0 {
        acquired := acquired + multiset{fd};
      }
    }

    method Reset()
      requires Valid()
      modifies this, fds
      ensures Model() == Blank(addrs[..], receiver.table.tcp[..])
      ensures addrs[..] == old(addrs[..]) && receiver.table.tcp[..] == old(receiver.table.tcp[..])
    {
      forall i | 0 <= i < SOCK_ID_MAX {
        fds[i] := -1;
      }
      acquired, released := multiset{}, multiset{};
      assert fds[..] == seq(SOCK_ID_MAX, _ => -1);
    }

    /** The setup before the poll loop. */
    method Open(s: Setup) returns (outs: seq<Output>, ok: bool)
      requires Valid()
      modifies this, fds
      ensures Turn(Model(), outs, ok) == Start(old(addrs[..]), old(receiver.table.tcp[..]), s)
    {
      hide Listen, Blank;
      Reset();
      ListenOn(0, s.fd4);
      if s.fd4 < 0 || !s.bound4 {
        return [SessionError], false;
      }
      ListenOn(1, s.fd6);
      if s.fd6 < 0 || !s.bound6 {
        return [SessionError], false;
      }
      return [], true;
    }

    /** tcp_server_session: setup, poll loop and exit path. `ended` is false when the
        recording `ws` of poll's returns is over before the loop is. */
    method Serve(s: Setup, ws: seq<Wake>) returns (outs: seq<Output>, ended: bool)
      requires Valid() && forall k :: 0 <= k < |ws| ==> ws[k].Valid()
      modifies this, fds, addrs, receiver.table.tcp
      ensures var t := Served(receiver.rate, Start(old(addrs[..]), old(receiver.table.tcp[..]), s), ws);
              outs == t.outs && ended == !t.ok && Model() == if ended then CleanUp(t.host) else t.host
      ensures ended <==> !SetupOk(s) || exists k :: 0 <= k < |ws| && !GoesOn(ws[k])
    {
      hide Pass, Start, CleanUp, GoesOn, SetupOk;
      ghost var start := Start(addrs[..], receiver.table.tcp[..], s);
      var ok;
      outs, ok := Open(s);
      var i := 0;
      while ok && i < |ws|
        invariant 0 <= i <= |ws|
        invariant forall k :: 0 <= k < i ==> ws[..i][k].Valid()
        invariant Turn(Model(), outs, ok) == Served(receiver.rate, start, ws[..i])
      {
        assert ws[..i + 1][..i] == ws[..i];
        match ws[i] {
          case PollError =>
            outs, ok := outs + [SessionError], false;
          case Stop =>
            outs, ok := outs + [], false;
          case Timeout =>
            outs := outs + [];
          case Ready(es) =>
            var got, more := ServePass(es);
            outs, ok := outs + (if more then got else got + [SessionError]), more;
        }
        i := i + 1;
      }
      EndedStays(receiver.rate, start, ws, i);
      LoopRunsIff(receiver.rate, old(addrs[..]), old(receiver.table.tcp[..]), s, ws);
      if !ok {
        Close();
      }
      ended := !ok;
    }

    /** The exit path: closes every descriptor in the table. */
    method Close()
      requires Valid()
      modifies this, addrs
      ensures Model() == CleanUp(old(Model()))
    {
      hide Cleared, Held;
      ghost var table := fds[..];
      var i := 0;
      HeldOfPrefix(table, 0);
      while i < SOCK_ID_MAX
        invariant 0 <= i <= SOCK_ID_MAX && acquired == old(acquired)
        invariant forall k :: 0 <= k < i ==> addrs[k] == if table[k] >= 0 then Unspecified else old(addrs[k])
        invariant forall k :: i <= k < SOCK_ID_MAX ==> addrs[k] == old(addrs[k])
        invariant released == old(released) + Held(table[..i])
      {
        HeldStep(old(released), table, i);
        assert table[i] == fds[i];
        if fds[i] >= 0 {
          released := released + multiset{fds[i]};
          addrs[i] := Unspecified;
        }
        i := i + 1;
      }
      assert table[..SOCK_ID_MAX] == table;
      assert addrs[..] == Cleared(table, old(addrs[..]));
    }
  }

  /** Nothing happens after the loop has ended. */
  lemma {:induction false} EndedStays(rate: nat, start: Turn, ws: seq<Wake>, n: nat)
    requires rate > 0 && start.host.Shaped() && n <= |ws| && forall k :: 0 <= k < |ws| ==> ws[k].Valid()
    requires n == |ws| || !Served(rate, start, ws[..n]).ok
    ensures Served(rate, start, ws) == Served(rate, start, ws[..n])
  {
    if n == |ws| {
      assert ws[..n] == ws;
    } else {
      var front := ws[..|ws| - 1];
      assert front[..n] == ws[..n];
      EndedStays(rate, start, front, n);
    }
  }

  /** Releasing one more entry. */
  lemma HeldStep(before: multiset<int>, fds: seq<int>, i: nat)
    requires i < |fds|
    ensures before + Held(fds[..i]) + One(fds[i]) == before + Held(fds[..i + 1])
  {
    hide Held, One;
    HeldOfPrefix(fds, i + 1);
  }

  lemma HeldOfPrefix(fds: seq<int>, n: nat)
    requires n <= |fds|
    ensures Held(fds[..n]) == if n == 0 then multiset{}
                              else Held(fds[..n - 1]) + One(fds[n - 1])
  {
    if n > 0 {
      assert fds[..n][..n - 1] == fds[..n - 1];
    }
  }
}
