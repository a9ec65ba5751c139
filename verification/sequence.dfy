/** What "lost" and "out of order" mean: the sequence accounting of udp_received over
    unbounded numbers, related to the set of ids that never arrived. */
module Sequence {

  datatype Tally = Tally(counter: nat, nextId: nat, outorder: nat, error: nat)

  /** The accounting of one id. */
  function Note(t: Tally, id: nat): Tally {
    var u := t.(counter := t.counter + 1);
    if id == t.nextId then u.(nextId := t.nextId + 1)
    else if id < t.nextId then u.(outorder := t.outorder + 1)
    else u.(error := t.error + (id - t.nextId), nextId := id + 1)
  }

  /** The accounting of a session that counted `ids` in this order. */
  function TallyOf(ids: seq<nat>): (t: Tally)
    ensures t.counter == |ids| && t.nextId >= 1
  {
    if ids == [] then Tally(0, 1, 0, 0) else Note(TallyOf(ids[..|ids| - 1]), ids[|ids| - 1])
  }

  function Largest(ids: seq<nat>): nat {
    if ids == [] then 0
    else var m := Largest(ids[..|ids| - 1]); if ids[|ids| - 1] > m then ids[|ids| - 1] else m
  }

  /** Each counted datagram either advances `nextId`, or is out of order; each step of
      `nextId` is either a counted datagram or an error. */
  lemma {:induction false} Conservation(ids: seq<nat>)
    ensures var t := TallyOf(ids);
            && t.counter + t.error == t.outorder + t.nextId - 1
            && t.nextId == 1 + Largest(ids)
            && t.outorder <= t.counter && t.error < t.nextId
  {
    if ids != [] {
      Conservation(ids[..|ids| - 1]);
    }
  }

  /** The ids the receiver went past and never counted. */
  ghost function Missing(ids: seq<nat>): set<nat> {
    set i: nat | 1 <= i < TallyOf(ids).nextId && i !in ids
  }

  /** Positions that bring nothing new: an id zero, or an id already counted. */
  predicate Wasted(ids: seq<nat>, k: nat)
    requires k < |ids|
  {
    ids[k] == 0 || ids[k] in ids[..k]
  }

  function WastedCount(ids: seq<nat>): nat {
    if ids == [] then 0
    else WastedCount(ids[..|ids| - 1]) + if Wasted(ids, |ids| - 1) then 1 else 0
  }

  /** The ids from `lo` up to but not including `hi`. */
  ghost function Interval(lo: nat, hi: nat): (s: set<nat>)
    requires lo <= hi
    ensures forall i: nat :: i in s <==> lo <= i < hi
    ensures |s| == hi - lo
    decreases hi - lo
  {
    if lo == hi then {} else Interval(lo, hi - 1) + {hi - 1}
  }

  /** How one more id changes the missing set. */
  lemma MissingStep(ids: seq<nat>, id: nat)
    ensures var t := TallyOf(ids);
            Missing(ids + [id]) == if id < t.nextId then Missing(ids) - {id}
                                   else Missing(ids) + Interval(t.nextId, id)
  {
    var all := ids + [id];
    assert all[..|ids|] == ids;
    var t := TallyOf(ids);
    assert TallyOf(all) == Note(t, id);
    Conservation(ids);
    LargestBounds(ids);
    forall i: nat ensures i in all <==> i in ids || i == id {
    }
  }

  lemma LargestBounds(ids: seq<nat>)
    ensures forall i :: i in ids ==> i <= Largest(ids)
  {
    if ids != [] {
      var n := |ids| - 1;
      LargestBounds(ids[..n]);
      forall i | i in ids ensures i <= Largest(ids) {
        assert i in ids[..n] || i == ids[n];
      }
    }
  }

  /** The exact account: the reported losses less the reported reorderings are the ids
      still missing, less the datagrams that brought nothing new. */
  lemma {:induction false} ExactLoss(ids: seq<nat>)
    ensures TallyOf(ids).error + WastedCount(ids) == TallyOf(ids).outorder + |Missing(ids)|
    ensures |Missing(ids)| <= TallyOf(ids).error
  {
    if ids == [] {
      assert Missing(ids) == {};
    } else {
      var n := |ids| - 1;
      var front, id := ids[..n], ids[n];
      var t := TallyOf(front);
      ExactLoss(front);
      MissingStep(front, id);
      assert front + [id] == ids;
      Conservation(front);
      LargestBounds(front);
      if id < t.nextId {
        assert id in Missing(front) <==> !Wasted(ids, n);
      } else {
        assert Missing(front) !! Interval(t.nextId, id);
      }
    }
  }

  /** No position brings nothing new. */
  ghost predicate AllUseful(ids: seq<nat>) {
    && (forall i :: 0 <= i < |ids| ==> ids[i] >= 1)
    && (forall i, j :: 0 <= i < j < |ids| ==> ids[i] != ids[j])
  }

  lemma {:induction false} UsefulIffNothingWasted(ids: seq<nat>)
    ensures AllUseful(ids) <==> WastedCount(ids) == 0
  {
    if ids != [] {
      var n := |ids| - 1;
      UsefulIffNothingWasted(ids[..n]);
      if AllUseful(ids) {
        assert AllUseful(ids[..n]);
        assert !Wasted(ids, n);
      }
      if WastedCount(ids) == 0 {
        forall i, j | 0 <= i < j < |ids| ensures ids[i] != ids[j] {
          if j == n {
            assert ids[i] == ids[..n][i];
          } else {
            assert ids[..n][i] != ids[..n][j];
          }
        }
        forall i | 0 <= i < |ids| ensures ids[i] >= 1 {
          if i < n {
            assert ids[..n][i] >= 1;
          }
        }
      }
    }
  }

  /** The missing ids number between `error - outorder` and `error`; exactly
      `error - outorder` when and only when no id was zero or repeated. */
  lemma LossBracket(ids: seq<nat>)
    ensures var t := TallyOf(ids);
            && t.error - t.outorder <= |Missing(ids)| <= t.error
            && (|Missing(ids)| == t.error - t.outorder <==> AllUseful(ids))
  {
    ExactLoss(ids);
    UsefulIffNothingWasted(ids);
  }

  /** Delivery order does not change `nextId`, `counter`, or `error - outorder`. */
  lemma PermutationInvariant(ids: seq<nat>, ids': seq<nat>)
    requires multiset(ids) == multiset(ids')
    ensures var (t, t') := (TallyOf(ids), TallyOf(ids'));
            t.nextId == t'.nextId && t.counter == t'.counter && t.error - t.outorder == t'.error - t'.outorder
  {
    Conservation(ids);
    Conservation(ids');
    assert |ids| == |multiset(ids)| == |multiset(ids')| == |ids'|;
    SameLargest(ids, ids');
    SameLargest(ids', ids);
  }

  lemma SameLargest(ids: seq<nat>, ids': seq<nat>)
    requires multiset(ids) == multiset(ids')
    ensures Largest(ids) <= Largest(ids')
  {
    LargestBounds(ids');
    LargestOccurs(ids);
    if Largest(ids) != 0 {
      assert Largest(ids) in multiset(ids);
      assert Largest(ids) in ids';
    }
  }

  lemma LargestOccurs(ids: seq<nat>)
    ensures Largest(ids) == 0 || Largest(ids) in ids
  {
    if ids != [] {
      LargestOccurs(ids[..|ids| - 1]);
    }
  }

  /** Ids that arrive complete and in order leave nothing lost and nothing reordered. */
  lemma {:induction false} InOrder(ids: seq<nat>)
    requires forall k :: 0 <= k < |ids| ==> ids[k] == k + 1
    ensures TallyOf(ids) == Tally(|ids|, |ids| + 1, 0, 0)
  {
    if ids != [] {
      InOrder(ids[..|ids| - 1]);
    }
  }
}
