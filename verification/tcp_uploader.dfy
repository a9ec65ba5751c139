/** sendall and tcp_upload: what reaches the stream. */
module TcpUploader {
  import opened Words
  import opened Kernel
  import opened Wire
  import opened Receive

  const ENOMEM: int := 12

  /** The network stack: what the `k`th send of `len` bytes returns, and the value of errno
      after it. A successful send takes at least one byte and no more than it was given. */
  datatype Stack = Stack(send: (nat, nat) -> int, errno: nat -> int)
  {
    ghost predicate Progresses() {
      forall k: nat, len: nat :: len > 0 ==> send(k, len) < 0 || 1 <= send(k, len) <= len
    }
  }

  /** The bytes that sends with these results took. */
  function Taken(outs: seq<int>): nat {
    if outs == [] then 0
    else Taken(outs[..|outs| - 1]) + if outs[|outs| - 1] >= 0 then outs[|outs| - 1] else 0
  }

  /** The `j`th send was given what those before it left. */
  predicate IsSend(net: Stack, first: nat, len: nat, outs: seq<int>, j: nat)
    requires j < |outs|
  {
    Taken(outs[..j]) < len && outs[j] == net.send(first + j, len - Taken(outs[..j]))
  }

  /** The results of sends from the `first`th on that push `len` bytes: each send is given
      what those before it left, and comes after successes only. */
  ghost predicate Pushes(net: Stack, first: nat, len: nat, outs: seq<int>) {
    && (forall j :: 0 <= j < |outs| ==> IsSend(net, first, len, outs, j))
    && (forall j :: 0 <= j < |outs| - 1 ==> outs[j] > 0)
  }

  lemma PushOne(net: Stack, first: nat, len: nat, outs: seq<int>, out: int)
    requires Pushes(net, first, len, outs) && (forall j :: 0 <= j < |outs| ==> outs[j] > 0)
    requires Taken(outs) < len && out == net.send(first + |outs|, len - Taken(outs))
    ensures Pushes(net, first, len, outs + [out])
    ensures Taken(outs + [out]) == Taken(outs) + if out >= 0 then out else 0
  {
    var all := outs + [out];
    TakenMore(outs, out);
    forall j | 0 <= j < |all| ensures IsSend(net, first, len, all, j) {
      SendsInFront(net, first, len, outs, out, j);
    }
  }

  lemma TakenMore(outs: seq<int>, out: int)
    ensures Taken(outs + [out]) == Taken(outs) + if out >= 0 then out else 0
  {
    assert (outs + [out])[..|outs|] == outs;
  }

  lemma SendsInFront(net: Stack, first: nat, len: nat, outs: seq<int>, out: int, j: nat)
    requires j <= |outs| && (j < |outs| ==> IsSend(net, first, len, outs, j))
    requires Taken(outs) < len && out == net.send(first + |outs|, len - Taken(outs))
    ensures IsSend(net, first, len, outs + [out], j)
  {
    hide Taken;
    assert (outs + [out])[..j] == outs[..j];
    assert outs[..|outs|] == outs;
  }

  /** The result of a loop of sends: the negative one, if the last one is, else zero. */
  function RetOf(outs: seq<int>): int {
    if outs != [] && outs[|outs| - 1] < 0 then outs[|outs| - 1] else 0
  }

  /** sendall: pushes `len` bytes through partial sends, numbered from `first`. It succeeds
      exactly when the sends took all bytes. `outs` are the results of the sends. */
  method SendAll(net: Stack, first: nat, len: nat) returns (ret: int, sent: nat, outs: seq<int>)
    requires net.Progresses()
    ensures Pushes(net, first, len, outs) && ret == RetOf(outs)
    ensures sent == Taken(outs) <= len && |outs| <= len
    ensures ret == 0 <==> Taken(outs) == len
  {
    hide Pushes, Taken;
    sent, outs := 0, [];
    var left: nat := len;
    PushNothing(net, first, len);
    while left > 0
      invariant sent + left == len && sent == Taken(outs) && |outs| <= sent
      invariant Pushes(net, first, len, outs) && forall j :: 0 <= j < |outs| ==> outs[j] > 0
    {
      var out := net.send(first + |outs|, left);
      PushOne(net, first, len, outs, out);
      outs := outs + [out];
      if out < 0 {
        return out, sent, outs;
      }
      sent := sent + out;
      left := left - out;
    }
    return 0, sent, outs;
  }

  lemma PushNothing(net: Stack, first: nat, len: nat)
    ensures Pushes(net, first, len, []) && Taken([]) == 0
  {
  }

  function Sum(xs: seq<nat>): nat {
    if xs == [] then 0 else Sum(xs[..|xs| - 1]) + xs[|xs| - 1]
  }

  function Clamp(size: U32): (r: U32)
    ensures r <= size && r <= PACKET_SIZE_MAX && (r == size || r == PACKET_SIZE_MAX)
  {
    if size > PACKET_SIZE_MAX then PACKET_SIZE_MAX else size
  }

  // ---------- the rounds of an upload ----------

  /** One call of sendall: the number of its first send, and the results of its sends. */
  datatype Round = Round(first: nat, outs: seq<int>)
  {
    function Next(): nat {
      first + |outs|
    }
  }

  /** A call of sendall for one packet. */
  ghost predicate IsRound(net: Stack, size: nat, r: Round) {
    Pushes(net, r.first, size, r.outs) && Taken(r.outs) <= size && (RetOf(r.outs) == 0 <==> Taken(r.outs) == size)
  }

  /** Round `k` sends on from where the round before stopped. */
  predicate InTurn(rounds: seq<Round>, k: nat)
    requires k < |rounds|
  {
    rounds[k].first == if k == 0 then 0 else rounds[k - 1].Next()
  }

  /** The rounds push one packet each, one after the other. */
  ghost predicate Rounds(net: Stack, size: nat, rounds: seq<Round>) {
    && (forall k :: 0 <= k < |rounds| ==> IsRound(net, size, rounds[k]))
    && (forall k :: 0 <= k < |rounds| ==> InTurn(rounds, k))
  }

  /** The number of whole packets, and what the other rounds left on the stream. */
  function Whole(rounds: seq<Round>): (n: nat)
    ensures n <= |rounds|
  {
    if rounds == [] then 0
    else Whole(rounds[..|rounds| - 1]) + if RetOf(rounds[|rounds| - 1].outs) == 0 then 1 else 0
  }

  function Prefixes(rounds: seq<Round>): (ps: seq<nat>)
    ensures |ps| + Whole(rounds) == |rounds|
  {
    if rounds == [] then []
    else
      Prefixes(rounds[..|rounds| - 1])
      + if RetOf(rounds[|rounds| - 1].outs) == 0 then [] else [Taken(rounds[|rounds| - 1].outs)]
  }

  /** All bytes the sends of all rounds took. */
  function TotalTaken(rounds: seq<Round>): nat {
    if rounds == [] then 0 else TotalTaken(rounds[..|rounds| - 1]) + Taken(rounds[|rounds| - 1].outs)
  }

  /** The stream holds whole packets and incomplete ones. */
  ghost predicate Accounts(bytes: nat, packets: nat, size: nat, prefixes: seq<nat>) {
    bytes == packets * size + Sum(prefixes) && forall i :: 0 <= i < |prefixes| ==> prefixes[i] < size
  }

  /** Whole packets and proper prefixes are all that the sends took. */
  lemma {:induction false} RoundsAccount(net: Stack, size: nat, rounds: seq<Round>)
    requires Rounds(net, size, rounds)
    ensures Accounts(TotalTaken(rounds), Whole(rounds), size, Prefixes(rounds))
  {
    hide Rounds, Accounts, Taken, RetOf, Whole, Prefixes, TotalTaken;
    if rounds == [] {
      NothingAccounts(size);
    } else {
      var n := |rounds| - 1;
      RoundsPrefix(net, size, rounds, n);
      RoundsAccount(net, size, rounds[..n]);
      RoundIsShort(net, size, rounds, n);
      LastRound(rounds);
      AddRound(TotalTaken(rounds[..n]), Whole(rounds[..n]), size, Prefixes(rounds[..n]), Taken(rounds[n].outs));
    }
  }

  lemma NothingAccounts(size: nat)
    ensures Accounts(TotalTaken([]), Whole([]), size, Prefixes([]))
  {
  }

  /** What the last round adds. */
  lemma LastRound(rounds: seq<Round>)
    requires rounds != []
    ensures var (front, last) := (rounds[..|rounds| - 1], rounds[|rounds| - 1].outs);
            && TotalTaken(rounds) == TotalTaken(front) + Taken(last)
            && Whole(rounds) == Whole(front) + (if RetOf(last) == 0 then 1 else 0)
            && Prefixes(rounds) == if RetOf(last) == 0 then Prefixes(front) else Prefixes(front) + [Taken(last)]
  {
    hide Taken, RetOf;
  }

  lemma RoundIsShort(net: Stack, size: nat, rounds: seq<Round>, k: nat)
    requires Rounds(net, size, rounds) && k < |rounds|
    ensures var taken := Taken(rounds[k].outs); taken <= size && (RetOf(rounds[k].outs) == 0 <==> taken == size)
  {
    assert IsRound(net, size, rounds[k]);
  }

  /** One more round adds a whole packet or a proper prefix. */
  lemma AddRound(bytes: nat, packets: nat, size: nat, prefixes: seq<nat>, taken: nat)
    requires Accounts(bytes, packets, size, prefixes) && taken <= size
    ensures taken == size ==> Accounts(bytes + taken, packets + 1, size, prefixes)
    ensures taken < size ==> Accounts(bytes + taken, packets, size, prefixes + [taken])
  {
    assert (packets + 1) * size == packets * size + size;
    assert (prefixes + [taken])[..|prefixes|] == prefixes;
  }

  lemma RoundsPrefix(net: Stack, size: nat, rounds: seq<Round>, n: nat)
    requires Rounds(net, size, rounds) && n <= |rounds|
    ensures Rounds(net, size, rounds[..n])
  {
    hide IsRound;
    var front := rounds[..n];
    forall k | 0 <= k < n ensures InTurn(front, k) {
      assert InTurn(rounds, k);
    }
  }

  lemma OneMoreRound(net: Stack, size: nat, rounds: seq<Round>, r: Round)
    requires Rounds(net, size, rounds) && IsRound(net, size, r)
    requires r.first == if rounds == [] then 0 else rounds[|rounds| - 1].Next()
    ensures Rounds(net, size, rounds + [r])
    ensures Whole(rounds + [r]) == Whole(rounds) + if RetOf(r.outs) == 0 then 1 else 0
  {
    hide IsRound, InTurn, RetOf;
    var all := rounds + [r];
    assert all[..|rounds|] == rounds;
    forall k | 0 <= k < |all| ensures InTurn(all, k) && IsRound(net, size, all[k]) {
      TurnInFront(rounds, r, k);
    }
  }

  lemma TurnInFront(rounds: seq<Round>, r: Round, k: nat)
    requires k <= |rounds| && (k < |rounds| ==> InTurn(rounds, k))
    requires r.first == if rounds == [] then 0 else rounds[|rounds| - 1].Next()
    ensures InTurn(rounds + [r], k)
  {
  }

  // ---------- tcp_upload ----------

  /** The results tcp_upload fills in, whether it succeeds or not. */
  datatype UploadResults = UploadResults(packetsSent: U32, errors: U32, clientTimeUs: U32, packetSize: U32)

  /** How tcp_upload ended: `Done` by its timer, `Failed` by an error, each with the code it
      returns. `Waiting` means the recorded timer answers ran out. */
  datatype UploadEnd = Done(code: int) | Failed(code: int) | Waiting

  /** After this round the upload goes on, unless its timer has expired. */
  predicate Bearable(net: Stack, r: Round) {
    RetOf(r.outs) == 0 || net.errno(r.Next()) == -ENOMEM
  }

  /** The upload ends like this after its rounds: at the first error that is not -ENOMEM,
      with the negated errno, or at the first expired timer, with the result of the last
      round. A code is never positive. */
  ghost predicate EndsAfter(net: Stack, end: UploadEnd, rounds: seq<Round>, expired: seq<bool>) {
    && rounds != [] && |rounds| <= |expired| + 1
    && (forall k :: 0 <= k < |rounds| - 1 ==> Bearable(net, rounds[k]) && !expired[k])
    && var last := rounds[|rounds| - 1];
       if !Bearable(net, last) then
         end == Failed(if net.errno(last.Next()) > 0 then -net.errno(last.Next()) else 0)
       else if |rounds| > |expired| then end == Waiting
       else expired[|rounds| - 1] && end == Done(RetOf(last.outs))
  }

  /** tcp_upload. `expired[k]` is the answer of the timer after round k; the clock shows
      `start` before the loop and `stop` after it. */
  method Upload(net: Stack, rate: nat, packetSize: U32, expired: seq<bool>, start: U32, stop: U32)
    returns (end: UploadEnd, results: UploadResults, rounds: seq<Round>)
    requires net.Progresses() && rate > 0
    ensures Rounds(net, Clamp(packetSize), rounds) && EndsAfter(net, end, rounds, expired)
    ensures results == UploadResults(ToU32(Whole(rounds)), ToU32(|rounds| - Whole(rounds)), MicrosBetween(rate, start, stop),
                                     Clamp(packetSize))
  {
    hide Whole, TotalTaken, Rounds, Pushes, Taken, RetOf, ToU32, MicrosBetween, TicksToUs32;
    var size := packetSize;
    if size > PACKET_SIZE_MAX {
      size := PACKET_SIZE_MAX;
    }
    rounds := [];
    NoRounds(net, size);
    var packets: U32, errors: U32 := 0, 0;
    var calls := 0;
    var ret := 0;
    var more := true;
    var broke := false;
    while more
      invariant size == Clamp(packetSize) && Rounds(net, size, rounds)
      invariant packets == ToU32(Whole(rounds)) && errors == ToU32(|rounds| - Whole(rounds))
      invariant calls == if rounds == [] then 0 else rounds[|rounds| - 1].Next()
      invariant forall k :: 0 <= k < |rounds| - 1 ==> k < |expired| && Bearable(net, rounds[k]) && !expired[k]
      invariant more ==> |rounds| <= |expired| && forall k :: 0 <= k < |rounds| ==> Bearable(net, rounds[k]) && !expired[k]
      invariant !more ==> rounds != []
      invariant !broke
      invariant !more ==> Bearable(net, rounds[|rounds| - 1]) && ret == RetOf(rounds[|rounds| - 1].outs)
                          && |rounds| <= |expired| && expired[|rounds| - 1]
      decreases |expired| - |rounds|, more
    {
      var sent, outs;
      ret, sent, outs := SendAll(net, calls, size);
      var n := |rounds|;
      OneMoreRound(net, size, rounds, Round(calls, outs));
      WordSum(Whole(rounds), 1);
      WordSum(n - Whole(rounds), 1);
      rounds := rounds + [Round(calls, outs)];
      calls := calls + |outs|;
      if ret < 0 {
        errors := ToU32(errors + 1);
        if net.errno(calls) != -ENOMEM {
          ret := -net.errno(calls);
          broke := true;
          break;
        }
      } else {
        RetIsNotPositive(outs);
        packets := ToU32(packets + 1);
      }
      if n == |expired| {
        ElapsedIsTime(rate, start, stop);
        return Waiting, UploadResults(packets, errors, TicksToUs32(rate, ToU32(stop - start)), size), rounds;
      }
      more := !expired[n];
    }
    ElapsedIsTime(rate, start, stop);
    results := UploadResults(packets, errors, TicksToUs32(rate, ToU32(stop - start)), size);
    if ret < 0 {
      return if broke then Failed(ret) else Done(ret), results, rounds;
    }
    RetIsNotPositive(rounds[|rounds| - 1].outs);
    return if broke then Failed(0) else Done(0), results, rounds;
  }

  lemma NoRounds(net: Stack, size: nat)
    ensures Rounds(net, size, []) && Whole([]) == 0 && ToU32(0) == 0
  {
  }

  lemma RetIsNotPositive(outs: seq<int>)
    ensures RetOf(outs) <= 0
  {
  }

  /** As errno is never negative, only the last round of an upload can have failed. */
  lemma OneErrorAtMost(net: Stack, size: nat, end: UploadEnd, rounds: seq<Round>, expired: seq<bool>)
    requires Rounds(net, size, rounds) && EndsAfter(net, end, rounds, expired) && forall k :: net.errno(k) != -ENOMEM
    ensures |rounds| - Whole(rounds) == if end.Failed? then 1 else 0
  {
    hide Pushes, Taken, RetOf, Whole;
    var n := |rounds| - 1;
    AllWhole(rounds[..n]);
    LastRound(rounds);
  }

  lemma {:induction false} AllWhole(rounds: seq<Round>)
    requires forall k :: 0 <= k < |rounds| ==> RetOf(rounds[k].outs) == 0
    ensures Whole(rounds) == |rounds|
  {
    if rounds != [] {
      AllWhole(rounds[..|rounds| - 1]);
    }
  }

  /** With at most one error, what an upload leaves on the stream is whole packets and at
      most one proper prefix: the byte count determines both. */
  lemma StreamIsWholePackets(bytes: nat, packets: nat, size: nat, prefixes: seq<nat>)
    requires Accounts(bytes, packets, size, prefixes) && |prefixes| <= 1 && size > 0
    ensures bytes / size == packets && bytes % size == Sum(prefixes)
  {
    if |prefixes| == 1 {
      assert prefixes[..0] == [];
      assert Sum(prefixes) == prefixes[0];
    }
    UniqueQuotient(bytes, packets, Sum(prefixes), size);
  }
}
