/** The session tables of zperf_session.c: two fixed arrays of slots, one for
    each protocol, found by the peer's family, address and port. */
module SessionTables {
  import opened Words
  import opened Wire

  const SESSION_MAX: nat := 4  // CONFIG_NET_ZPERF_MAX_SESSIONS

  type Port = p: int | 0 <= p < 0x1_0000
  type U128 = x: int | 0 <= x < TWO64 * TWO64

  /** A socket address. A zeroed slot carries AF_UNSPEC, which matches nothing. */
  datatype Address = Inet(host: U32, port: Port) | Inet6(host6: U128, port: Port) | Unspecified

  datatype Proto = Udp | Tcp

  datatype Phase = Null | Ongoing | Completed

  /** The counters that zperf_reset_session_stats clears. */
  datatype Figures = Figures(counter: U32, nextId: U32, outorder: U32, error: U32, length: U64,
                             startTime: U32, jitter: I32, lastTransit: I32)

  const FRESH := Figures(0, 1, 0, 0, 0, 0, 0, 0)

  /** struct session. `stat` outlives a reset. */
  datatype Session = Session(key: Address, phase: Phase, figures: Figures, stat: ServerStat)

  predicate Matches(s: Session, a: Address) {
    !a.Unspecified? && s.key == a
  }

  /** The first slot that holds the key. */
  function FirstMatch(slots: seq<Session>, a: Address): (r: Option<nat>)
    ensures r.Some? ==> r.value < |slots| && Matches(slots[r.value], a)
    ensures r.Some? ==> forall j :: 0 <= j < r.value ==> !Matches(slots[j], a)
    ensures r.None? ==> forall j :: 0 <= j < |slots| ==> !Matches(slots[j], a)
  {
    if slots == [] then None else
    var n := |slots| - 1;
    var front := FirstMatch(slots[..n], a);
    if front.Some? then front else if Matches(slots[n], a) then Some(n) else None
  }

  /** The first slot whose session is not running. */
  function FirstFree(slots: seq<Session>): (r: Option<nat>)
    ensures r.Some? ==> r.value < |slots| && !slots[r.value].phase.Ongoing?
    ensures r.Some? ==> forall j :: 0 <= j < r.value ==> slots[j].phase.Ongoing?
    ensures r.None? ==> forall j :: 0 <= j < |slots| ==> slots[j].phase.Ongoing?
  {
    if slots == [] then None else
    var n := |slots| - 1;
    var front := FirstFree(slots[..n]);
    if front.Some? then front else if !slots[n].phase.Ongoing? then Some(n) else None
  }

  /** The slot get_session returns: the matching one, else the first free one. */
  function Lookup(slots: seq<Session>, a: Address): (r: Option<nat>)
    ensures r.Some? ==> r.value < |slots|
  {
    var m := FirstMatch(slots, a);
    if m.Some? then m else FirstFree(slots)
  }

  /** The table get_session leaves: a free slot taken for a new peer is given the
      peer's key, and everything else in it stays as its last occupant left it. */
  function Claim(slots: seq<Session>, a: Address): (slots': seq<Session>)
    ensures |slots'| == |slots|
  {
    var r := Lookup(slots, a);
    if FirstMatch(slots, a).Some? || r.None? || a.Unspecified? then slots
    else slots[r.value := slots[r.value].(key := a)]
  }

  /** No two slots hold the same key. */
  ghost predicate UniqueKeys(slots: seq<Session>) {
    forall i, j :: 0 <= i < j < |slots| && !slots[i].key.Unspecified? ==> slots[i].key != slots[j].key
  }

  /** The keys the table holds. */
  ghost function Keys(slots: seq<Session>): set<Address> {
    set i | 0 <= i < |slots| && !slots[i].key.Unspecified? :: slots[i].key
  }

  /** The table seen as a map from peers to sessions. */
  ghost function Contents(slots: seq<Session>): (m: map<Address, Session>)
    ensures m.Keys == Keys(slots)
  {
    map a | a in Keys(slots) :: slots[FirstMatch(slots, a).value]
  }

  /** With unique keys the map holds every slot under its own key. */
  lemma ContentsHoldSlots(slots: seq<Session>, i: nat)
    requires UniqueKeys(slots) && i < |slots| && !slots[i].key.Unspecified?
    ensures slots[i].key in Contents(slots) && Contents(slots)[slots[i].key] == slots[i]
    ensures FirstMatch(slots, slots[i].key) == Some(i)
  {
    var a := slots[i].key;
    assert Matches(slots[i], a);
    assert a in Keys(slots);
  }

  /** get_session refuses a peer exactly when the peer holds no slot and every
      session is running. */
  lemma RefusedIff(slots: seq<Session>, a: Address)
    ensures Lookup(slots, a).None? <==>
            a !in Contents(slots) && forall i :: 0 <= i < |slots| ==> slots[i].phase.Ongoing?
  {
    if FirstMatch(slots, a).Some? {
      assert slots[FirstMatch(slots, a).value].key in Keys(slots);
    }
    if a in Contents(slots) {
      var i :| 0 <= i < |slots| && !slots[i].key.Unspecified? && slots[i].key == a;
      assert Matches(slots[i], a);
    }
  }

  /** get_session on the array is a bounded map: a known peer changes nothing, a
      new peer takes over one session that is not running, under a new key. */
  lemma ClaimRefinesMap(slots: seq<Session>, a: Address)
    requires UniqueKeys(slots) && !a.Unspecified? && Lookup(slots, a).Some?
    ensures var i := Lookup(slots, a).value;
            && UniqueKeys(Claim(slots, a))
            && Claim(slots, a)[i] == slots[i].(key := a)
            && (a in Contents(slots) ==> Claim(slots, a) == slots && Contents(slots)[a] == slots[i])
            && (a !in Contents(slots) ==>
                  && !slots[i].phase.Ongoing?
                  && Contents(Claim(slots, a)) == (Contents(slots) - {slots[i].key})[a := slots[i].(key := a)])
  {
    var i := Lookup(slots, a).value;
    var slots' := Claim(slots, a);
    if FirstMatch(slots, a).Some? {
      assert slots[FirstMatch(slots, a).value].key in Keys(slots);
    }
    if a in Contents(slots) {
      var k :| 0 <= k < |slots| && !slots[k].key.Unspecified? && slots[k].key == a;
      ContentsHoldSlots(slots, k);
    } else {
      forall k | 0 <= k < |slots| ensures slots[k].key != a {
        assert !Matches(slots[k], a);
      }
      assert UniqueKeys(slots');
      ClaimedContents(slots, a);
    }
  }

  /** The map after a new peer took a slot. */
  lemma ClaimedContents(slots: seq<Session>, a: Address)
    requires UniqueKeys(slots) && !a.Unspecified? && FirstMatch(slots, a).None? && FirstFree(slots).Some?
    requires UniqueKeys(Claim(slots, a))
    ensures var s := slots[FirstFree(slots).value];
            Contents(Claim(slots, a)) == (Contents(slots) - {s.key})[a := s.(key := a)]
  {
    hide UniqueKeys, FirstMatch, FirstFree, Claim;
    var i := FirstFree(slots).value;
    var slots' := Claim(slots, a);
    var m' := (Contents(slots) - {slots[i].key})[a := slots[i].(key := a)];
    ClaimedKeys(slots, a);
    assert Contents(slots').Keys == m'.Keys;
    forall b | b in m' ensures Contents(slots')[b] == m'[b] {
      var k :| 0 <= k < |slots'| && !slots'[k].key.Unspecified? && slots'[k].key == b;
      ClaimedSlot(slots, a, k);
    }
  }

  /** What both maps say of one slot. */
  lemma ClaimedSlot(slots: seq<Session>, a: Address, k: nat)
    requires UniqueKeys(slots) && !a.Unspecified? && FirstMatch(slots, a).None? && FirstFree(slots).Some?
    requires UniqueKeys(Claim(slots, a)) && k < |slots| && !Claim(slots, a)[k].key.Unspecified?
    ensures var (i, s) := (FirstFree(slots).value, Claim(slots, a)[k]);
            && s.key in Contents(Claim(slots, a)) && Contents(Claim(slots, a))[s.key] == s
            && (k == i ==> s == slots[i].(key := a))
            && (k != i ==> s.key != a && s.key != slots[i].key && s.key in Contents(slots) && Contents(slots)[s.key] == s)
  {
    hide Contents, Keys;
    ContentsHoldSlots(Claim(slots, a), k);
    if k != FirstFree(slots).value {
      ContentsHoldSlots(slots, k);
    }
  }

  /** The keys after a new peer took slot `Lookup(slots, a)`. */
  lemma ClaimedKeys(slots: seq<Session>, a: Address)
    requires UniqueKeys(slots) && !a.Unspecified? && FirstMatch(slots, a).None? && FirstFree(slots).Some?
    ensures Keys(Claim(slots, a)) == Keys(slots) - {slots[FirstFree(slots).value].key} + {a}
  {
    var i := FirstFree(slots).value;
    var slots' := Claim(slots, a);
    assert slots' == slots[i := slots[i].(key := a)];
    var want := Keys(slots) - {slots[i].key} + {a};
    forall b | b in Keys(slots') ensures b in want {
      var k :| 0 <= k < |slots'| && !slots'[k].key.Unspecified? && slots'[k].key == b;
      if k != i {
        assert slots[k].key in Keys(slots);
        assert slots[k].key != slots[i].key;
      }
    }
    forall b | b in want ensures b in Keys(slots') {
      if b == a {
        assert slots'[i].key == a;
      } else {
        var k :| 0 <= k < |slots| && !slots[k].key.Unspecified? && slots[k].key == b;
        assert slots'[k].key == b;
      }
    }
  }

  /** get_session never touches a running session, whoever calls. */
  lemma ClaimKeepsRunning(slots: seq<Session>, a: Address, i: nat)
    requires i < |slots| && slots[i].phase.Ongoing?
    ensures Claim(slots, a)[i] == slots[i]
  {
  }

  /** A caller of another address family gets the first idle slot, whose key stays. */
  lemma OtherFamily(slots: seq<Session>)
    ensures Claim(slots, Unspecified) == slots && Lookup(slots, Unspecified) == FirstFree(slots)
  {
  }

  /** A whole table before any traffic: `zperf_session_init` over zeroed memory. */
  function BlankTable(): (slots: seq<Session>)
    ensures |slots| == SESSION_MAX && UniqueKeys(slots)
    ensures forall i :: 0 <= i < |slots| ==> slots[i].phase.Null? && slots[i].key.Unspecified?
  {
    var blank := Session(Unspecified, Null, FRESH, ZERO_STAT);
    [blank, blank, blank, blank]
  }

  /** The static `sessions` array. */
  class SessionTable {
    const udp: array<Session>
    const tcp: array<Session>

    ghost predicate Valid() {
      udp.Length == SESSION_MAX && tcp.Length == SESSION_MAX && udp != tcp
    }

    function Of(proto: Proto): array<Session> {
      if proto.Udp? then udp else tcp
    }

    constructor ()
      ensures Valid() && fresh(udp) && fresh(tcp)
      ensures udp[..] == BlankTable() && tcp[..] == BlankTable()
    {
      var blank := Session(Unspecified, Null, FRESH, ZERO_STAT);
      udp := new Session[SESSION_MAX](_ => blank);
      tcp := new Session[SESSION_MAX](_ => blank);
      new;
      Init();
      assert udp[..] == BlankTable() && tcp[..] == BlankTable();
    }

    /** zperf_session_init: keys and saved replies are left alone. */
    method Init()
      requires Valid()
      modifies udp, tcp
      ensures forall j :: 0 <= j < SESSION_MAX ==> udp[j] == old(udp[j]).(phase := Null, figures := FRESH)
      ensures forall j :: 0 <= j < SESSION_MAX ==> tcp[j] == old(tcp[j]).(phase := Null, figures := FRESH)
    {
      for j := 0 to SESSION_MAX
        invariant forall k :: 0 <= k < j ==> udp[k] == old(udp[k]).(phase := Null, figures := FRESH)
        invariant forall k :: 0 <= k < j ==> tcp[k] == old(tcp[k]).(phase := Null, figures := FRESH)
        invariant forall k :: j <= k < SESSION_MAX ==> udp[k] == old(udp[k]) && tcp[k] == old(tcp[k])
      {
        udp[j] := udp[j].(phase := Null);
        ResetStats(Udp, j);
        tcp[j] := tcp[j].(phase := Null);
        ResetStats(Tcp, j);
      }
    }

    /** zperf_reset_session_stats */
    method ResetStats(proto: Proto, i: nat)
      requires Valid() && i < SESSION_MAX
      modifies Of(proto)
      ensures Of(proto)[..] == old(Of(proto)[..])[i := old(Of(proto)[i]).(figures := FRESH)]
    {
      var slots := Of(proto);
      slots[i] := slots[i].(figures := FRESH);
    }

    /** get_session: one scan for a match that remembers the first free slot. */
    method GetSession(a: Address, proto: Proto) returns (slot: Option<nat>)
      requires Valid()
      modifies Of(proto)
      ensures slot == Lookup(old(Of(proto)[..]), a)
      ensures Of(proto)[..] == Claim(old(Of(proto)[..]), a)
    {
      var slots := Of(proto);
      var active: Option<nat> := None;
      var free: Option<nat> := None;
      var i := 0;
      while active.None? && i < SESSION_MAX
        invariant 0 <= i <= SESSION_MAX && slots[..] == old(Of(proto)[..])
        invariant active.Some? ==> i < SESSION_MAX && active == FirstMatch(slots[..i + 1], a)
        invariant active.None? ==> FirstMatch(slots[..i], a).None? && free == FirstFree(slots[..i])
        decreases SESSION_MAX - i, active.None?
      {
        assert slots[..i + 1][..i] == slots[..i];
        if Matches(slots[i], a) {
          active := Some(i);
        } else {
          if free.None? && (slots[i].phase.Null? || slots[i].phase.Completed?) {
            free := Some(i);
          }
          i := i + 1;
        }
      }
      assert slots[..SESSION_MAX] == slots[..];
      if active.Some? {
        MatchInPrefix(slots[..], a, i + 1);
      }
      if active.None? && free.Some? {
        active := free;
        if !a.Unspecified? {
          slots[active.value] := slots[active.value].(key := a);
        }
      }
      return active;
    }
  }

  /** A match found in a prefix is the match of the whole table. */
  lemma {:induction false} MatchInPrefix(slots: seq<Session>, a: Address, n: nat)
    requires n <= |slots| && FirstMatch(slots[..n], a).Some?
    ensures FirstMatch(slots, a) == FirstMatch(slots[..n], a)
  {
    if n < |slots| {
      assert slots[..|slots| - 1][..n] == slots[..n];
      MatchInPrefix(slots[..|slots| - 1], a, n);
    } else {
      assert slots[..n] == slots;
    }
  }
}
