/** The work queue of zephyr/work.c with its pending flags, and the guarded submitters of
    the two uploaders, step by step. One task submits, one task works; each step is one
    access to shared memory or one queue operation, and steps interleave freely. */
module WorkQueue {
  import opened Words

  const QUEUE_SIZE: nat := 10   // DEFAULT_QUEUE_SIZE
  const PENDING: bv32 := 1      // WORK_ITEM_IS_PENDING_BIT_MASK

  /** The two work items, one in each uploader's context. */
  datatype Item = UdpWork | TcpWork

  datatype PerItem<T> = PerItem(udp: T, tcp: T)
  {
    function At(i: Item): T {
      if i.UdpWork? then udp else tcp
    }

    function With(i: Item, v: T): PerItem<T> {
      if i.UdpWork? then this.(udp := v) else this.(tcp := v)
    }
  }

  /** Where the submitting task stands. `seen` is the value its read-modify-write read. */
  datatype Submitter =
    | Free
    | Admitted(item: Item)             // k_work_is_pending said no
    | Stored(item: Item)               // the context is filled in
    | Setting(item: Item, seen: bv32)  // half of `is_pending |= MASK`
    | Sending(item: Item)              // about to call xQueueSend

  /** Where the worker stands. */
  datatype Worker =
    | Waiting
    | Received(item: Item)
    | Toggling(item: Item, seen: bv32) // half of `is_pending ^= MASK`
    | Starting(item: Item)             // about to call the handler
    | Running(item: Item)

  /** `accepted` and `begun` record the submissions that returned 0 and the handler calls. */
  datatype State = State(queue: seq<Item>, flags: PerItem<bv32>, params: PerItem<int>,
                         submitter: Submitter, worker: Worker, accepted: seq<Item>, begun: seq<Item>)

  const INITIAL := State([], PerItem(0, 0), PerItem(0, 0), Free, Waiting, [], [])

  datatype Action =
    | Check(i: Item) | Store(value: int) | ReadFlag | WriteFlag | Send
    | Receive | LookFlag | ToggleFlag | Begin | Finish

  /** Send blocks on a full queue, Receive on an empty one. */
  predicate Enabled(s: State, a: Action) {
    match a
    case Check(_) => s.submitter.Free?
    case Store(_) => s.submitter.Admitted?
    case ReadFlag => s.submitter.Stored?
    case WriteFlag => s.submitter.Setting?
    case Send => s.submitter.Sending? && |s.queue| < QUEUE_SIZE
    case Receive => s.worker.Waiting? && s.queue != []
    case LookFlag => s.worker.Received?
    case ToggleFlag => s.worker.Toggling?
    case Begin => s.worker.Starting?
    case Finish => s.worker.Running?
  }

  function Do(s: State, a: Action): State
    requires Enabled(s, a)
  {
    match a
    case Check(i) => if s.flags.At(i) & PENDING != 0 then s else s.(submitter := Admitted(i))
    case Store(v) => s.(params := s.params.With(s.submitter.item, v), submitter := Stored(s.submitter.item))
    case ReadFlag => s.(submitter := Setting(s.submitter.item, s.flags.At(s.submitter.item)))
    case WriteFlag => s.(flags := s.flags.With(s.submitter.item, s.submitter.seen | PENDING), submitter := Sending(s.submitter.item))
    case Send => s.(queue := s.queue + [s.submitter.item], accepted := s.accepted + [s.submitter.item], submitter := Free)
    case Receive => s.(worker := Received(s.queue[0]), queue := s.queue[1..])
    case LookFlag => s.(worker := Toggling(s.worker.item, s.flags.At(s.worker.item)))
    case ToggleFlag => s.(flags := s.flags.With(s.worker.item, s.worker.seen ^ PENDING), worker := Starting(s.worker.item))
    case Begin => s.(begun := s.begun + [s.worker.item], worker := Running(s.worker.item))
    case Finish => s.(worker := Waiting)
  }

  /** The state after the actions, if they can happen in this order. */
  function After(s: State, actions: seq<Action>): Option<State> {
    if actions == [] then Some(s)
    else
      var t := After(s, actions[..|actions| - 1]);
      if t.Some? && Enabled(t.value, actions[|actions| - 1]) then Some(Do(t.value, actions[|actions| - 1])) else None
  }

  // ---------- the protocol ----------

  /** The worker holds the item and has not yet cleared its flag. */
  predicate HandingOver(s: State, i: Item) {
    s.worker == Received(i) || (s.worker.Toggling? && s.worker.item == i)
  }

  /** Items taken from the queue whose handler has not begun. */
  function InHand(s: State): seq<Item> {
    if s.worker.Received? || s.worker.Toggling? || s.worker.Starting? then [s.worker.item] else []
  }

  ghost predicate NoRepeats(q: seq<Item>) {
    forall i, j :: 0 <= i < j < |q| ==> q[i] != q[j]
  }

  /** The pending bit of an item is set exactly while the item is about to be queued, is
      queued, or is being handed over; and these exclude each other. */
  ghost predicate FlagTells(s: State, i: Item) {
    && (s.flags.At(i) == PENDING || s.flags.At(i) == 0)
    && (s.flags.At(i) == PENDING <==> s.submitter == Sending(i) || i in s.queue || HandingOver(s, i))
    && !(s.submitter == Sending(i) && i in s.queue)
    && !(s.submitter == Sending(i) && HandingOver(s, i))
    && !(i in s.queue && HandingOver(s, i))
  }

  /** What each half of a read-modify-write saw is still true: the submitter saw a clear
      bit, the worker a set one. */
  ghost predicate SeenIsCurrent(s: State) {
    && (s.submitter.Admitted? || s.submitter.Stored? ==> s.flags.At(s.submitter.item) == 0)
    && (s.submitter.Setting? ==> s.submitter.seen == s.flags.At(s.submitter.item) == 0)
    && (s.worker.Toggling? ==> s.worker.seen == s.flags.At(s.worker.item) == PENDING)
  }

  ghost predicate Inv(s: State) {
    && NoRepeats(s.queue) && FlagTells(s, UdpWork) && FlagTells(s, TcpWork) && SeenIsCurrent(s)
    && s.accepted == s.begun + InHand(s) + s.queue
  }

  lemma BitFacts()
    ensures (0 as bv32) | PENDING == PENDING && PENDING ^ PENDING == 0
    ensures (0 as bv32) & PENDING == 0 && PENDING & PENDING != 0
  {
  }

  /** Every step keeps the meaning of one item's flag. */
  lemma FlagStep(s: State, a: Action, i: Item)
    requires Enabled(s, a) && NoRepeats(s.queue) && SeenIsCurrent(s) && FlagTells(s, UdpWork) && FlagTells(s, TcpWork)
    ensures FlagTells(Do(s, a), i)
  {
    if a.Receive? || a.LookFlag? || a.ToggleFlag? || a.Begin? || a.Finish? {
      FlagStepOfWorker(s, a, i);
    } else {
      FlagStepOfSubmitter(s, a, i);
    }
  }

  lemma FlagStepOfSubmitter(s: State, a: Action, i: Item)
    requires Enabled(s, a) && NoRepeats(s.queue) && SeenIsCurrent(s) && FlagTells(s, UdpWork) && FlagTells(s, TcpWork)
    requires a.Check? || a.Store? || a.ReadFlag? || a.WriteFlag? || a.Send?
    ensures FlagTells(Do(s, a), i)
  {
    BitFacts();
  }

  lemma FlagStepOfWorker(s: State, a: Action, i: Item)
    requires Enabled(s, a) && NoRepeats(s.queue) && SeenIsCurrent(s) && FlagTells(s, UdpWork) && FlagTells(s, TcpWork)
    requires a.Receive? || a.LookFlag? || a.ToggleFlag? || a.Begin? || a.Finish?
    ensures FlagTells(Do(s, a), i)
  {
    BitFacts();
    if a.Receive? {
      assert s.queue == [s.queue[0]] + s.queue[1..];
      assert s.queue[0] !in s.queue[1..];
    }
  }

  lemma SeenStep(s: State, a: Action)
    requires Enabled(s, a) && SeenIsCurrent(s) && FlagTells(s, UdpWork) && FlagTells(s, TcpWork)
    ensures SeenIsCurrent(Do(s, a))
  {
    BitFacts();
  }

  lemma LedgerStep(s: State, a: Action)
    requires Enabled(s, a) && s.accepted == s.begun + InHand(s) + s.queue
    ensures var t := Do(s, a); t.accepted == t.begun + InHand(t) + t.queue
  {
    if a.Receive? {
      assert s.queue == [s.queue[0]] + s.queue[1..];
    }
  }

  lemma RepeatStep(s: State, a: Action)
    requires Enabled(s, a) && NoRepeats(s.queue) && FlagTells(s, UdpWork) && FlagTells(s, TcpWork)
    ensures NoRepeats(Do(s, a).queue)
  {
  }

  /** Every step keeps the protocol. */
  lemma StepKeeps(s: State, a: Action)
    requires Inv(s) && Enabled(s, a)
    ensures Inv(Do(s, a))
  {
    hide FlagTells, SeenIsCurrent, NoRepeats, InHand, Do, Enabled;
    FlagStep(s, a, UdpWork);
    FlagStep(s, a, TcpWork);
    SeenStep(s, a);
    LedgerStep(s, a);
    RepeatStep(s, a);
  }

  /** Every reachable state satisfies the protocol. */
  lemma {:induction false} Reachable(actions: seq<Action>)
    requires After(INITIAL, actions).Some?
    ensures Inv(After(INITIAL, actions).value)
  {
    hide Do, Enabled;
    InitialHolds();
    if actions != [] {
      var front := actions[..|actions| - 1];
      Reachable(front);
      StepKeeps(After(INITIAL, front).value, actions[|actions| - 1]);
    }
  }

  lemma InitialHolds()
    ensures Inv(INITIAL)
  {
  }

  /** A queue of two kinds of items without repeats is short. */
  lemma ShortQueue(q: seq<Item>)
    requires NoRepeats(q)
    ensures |q| <= 2
  {
    assert |q| > 2 ==> q[0] != q[1] && q[1] != q[2] && q[0] != q[2];
  }

  /** In every reachable state: an item is queued at most once, so a submission never
      blocks; the two read-modify-writes of one flag never overlap; the toggle is about to
      clear a set bit. */
  lemma FlagProtocol(actions: seq<Action>)
    requires After(INITIAL, actions).Some?
    ensures var s := After(INITIAL, actions).value;
            && NoRepeats(s.queue) && |s.queue| <= 2
            && (s.submitter.Sending? ==> Enabled(s, Send))
            && !(s.submitter.Setting? && s.worker.Toggling? && s.submitter.item == s.worker.item)
            && (s.worker.Toggling? ==>
                  s.flags.At(s.worker.item) == PENDING && Do(s, ToggleFlag).flags.At(s.worker.item) == 0)
            && (s.submitter.Setting? ==>
                  s.flags.At(s.submitter.item) == 0 && Do(s, WriteFlag).flags.At(s.submitter.item) == PENDING)
  {
    Reachable(actions);
    BitFacts();
    ShortQueue(After(INITIAL, actions).value.queue);
  }

  /** Conservation and order: the accepted submissions are, in order, those whose handlers
      have begun, the one in the worker's hands, and those in the queue. */
  lemma NothingLost(actions: seq<Action>)
    requires After(INITIAL, actions).Some?
    ensures var s := After(INITIAL, actions).value;
            s.accepted == s.begun + InHand(s) + s.queue && s.begun <= s.accepted
  {
    hide After, FlagTells, SeenIsCurrent, NoRepeats, InHand;
    Reachable(actions);
    var s := After(INITIAL, actions).value;
    assert s.accepted == s.begun + (InHand(s) + s.queue);
  }

  /** A submission is turned away exactly while the item is queued or being handed over. */
  lemma BusyIff(actions: seq<Action>, i: Item)
    requires After(INITIAL, actions).Some? && After(INITIAL, actions).value.submitter.Free?
    ensures var s := After(INITIAL, actions).value;
            Do(s, Check(i)) == s <==> i in s.queue || HandingOver(s, i)
  {
    Reachable(actions);
    BitFacts();
  }

  // ---------- one upload at a time? ----------

  /** A second upload of the same kind, submitted while the first one's handler runs. */
  const RESUBMIT := [Check(UdpWork), Store(1), ReadFlag, WriteFlag, Send,
                     Receive, LookFlag, ToggleFlag, Begin, Check(UdpWork), Store(2)]

  /** The guard does not protect the parameters of a running upload: the flag is cleared
      before the handler runs, so a new submission is admitted and overwrites them. */
  lemma ParamsOverwritten()
    ensures var first := After(INITIAL, RESUBMIT[..9]);
            first.Some? && first.value.worker == Running(UdpWork) && first.value.params.udp == 1
    ensures var last := After(INITIAL, RESUBMIT);
            last.Some? && last.value.worker == Running(UdpWork) && last.value.params.udp == 2
  {
    hide After;
    var r := RESUBMIT;
    FirstUpload();
    assert r[..11] == r;
    OneStep(r, 9);
    OneStep(r, 10);
  }

  /** The first upload, up to its handler's start. */
  lemma FirstUpload()
    ensures After(INITIAL, RESUBMIT[..9]) == Some(State([], PerItem(0, 0), PerItem(1, 0), Free, Running(UdpWork), [UdpWork], [UdpWork]))
  {
    hide After;
    FirstHandover();
    BitFacts();
    assert [] + [UdpWork] == [UdpWork];
    OneStep(RESUBMIT, 7);
    OneStep(RESUBMIT, 8);
  }

  lemma FirstHandover()
    ensures After(INITIAL, RESUBMIT[..7])
            == Some(State([], PerItem(PENDING, 0), PerItem(1, 0), Free, Toggling(UdpWork, PENDING), [UdpWork], []))
  {
    hide After;
    FirstSubmission();
    assert [UdpWork][1..] == [];
    OneStep(RESUBMIT, 5);
    OneStep(RESUBMIT, 6);
  }

  lemma FirstSubmission()
    ensures After(INITIAL, RESUBMIT[..5]) == Some(State([UdpWork], PerItem(PENDING, 0), PerItem(1, 0), Free, Waiting, [UdpWork], []))
  {
    hide After;
    FirstRequest();
    BitFacts();
    assert [] + [UdpWork] == [UdpWork];
    OneStep(RESUBMIT, 3);
    OneStep(RESUBMIT, 4);
  }

  lemma FirstRequest()
    ensures After(INITIAL, RESUBMIT[..3]) == Some(State([], PerItem(0, 0), PerItem(1, 0), Setting(UdpWork, 0), Waiting, [], []))
  {
    hide After;
    NoStep(RESUBMIT);
    BitFacts();
    OneStep(RESUBMIT, 0);
    OneStep(RESUBMIT, 1);
    OneStep(RESUBMIT, 2);
  }

  lemma NoStep(r: seq<Action>)
    ensures After(INITIAL, r[..0]) == Some(INITIAL)
  {
  }

  lemma OneStep(r: seq<Action>, k: nat)
    requires k < |r| && After(INITIAL, r[..k]).Some?
    ensures var t := After(INITIAL, r[..k]).value;
            After(INITIAL, r[..k + 1]) == if Enabled(t, r[k]) then Some(Do(t, r[k])) else None
  {
    assert r[..k + 1][..k] == r[..k];
  }

  /** The parameters a running handler works with can no longer change before it returns. */
  ghost predicate Settled(s: State, i: Item) {
    forall actions :: After(s, actions).Some? && Finish !in actions ==> After(s, actions).value.params.At(i) == s.params.At(i)
  }

  /** What the guard does protect: a running handler's parameters are settled exactly when
      the same item has been submitted again already. Otherwise one more submission, which
      the guard admits, changes them. */
  lemma SettledIffPendingAgain(s: State, i: Item)
    requires Inv(s) && s.worker == Running(i) && s.submitter.Free?
    ensures Settled(s, i) <==> i in s.queue
  {
    hide Inv, After;
    PendingAgain(s, i);
    if i in s.queue {
      forall actions | After(s, actions).Some? && Finish !in actions
        ensures After(s, actions).value.params.At(i) == s.params.At(i)
      {
        GuardHolds(s, i, actions);
      }
    } else {
      var actions := [Check(i), Store(s.params.At(i) + 1)];
      Overwrite(s, i, s.params.At(i) + 1);
      assert Finish !in actions;
    }
  }

  lemma PendingAgain(s: State, i: Item)
    requires Inv(s) && s.worker == Running(i) && s.submitter.Free?
    ensures s.flags.At(i) == if i in s.queue then PENDING else 0
  {
  }

  lemma Overwrite(s: State, i: Item, value: int)
    requires s.submitter.Free? && s.flags.At(i) == 0
    ensures var t := After(s, [Check(i), Store(value)]); t.Some? && t.value.params.At(i) == value
  {
    BitFacts();
    var r := [Check(i), Store(value)];
    assert r[..1][..0] == [];
    assert After(s, r[..1]) == Some(Do(s, Check(i)));
  }

  lemma {:induction false} GuardHolds(s: State, i: Item, actions: seq<Action>)
    requires s.worker == Running(i) && s.submitter.Free? && i in s.queue && s.flags.At(i) == PENDING
    requires After(s, actions).Some? && Finish !in actions
    ensures var t := After(s, actions).value;
            && t.worker == Running(i) && i in t.queue && t.flags.At(i) == PENDING && t.params.At(i) == s.params.At(i)
            && (!t.submitter.Free? ==> t.submitter.item != i)
  {
    BitFacts();
    if actions != [] {
      GuardHolds(s, i, actions[..|actions| - 1]);
    }
  }

  // ---------- the program, undisturbed ----------

  /** A guarded submission that nothing interleaves with, as a chain of actions. */
  function Submitted(s: State, i: Item, value: int): State
    requires s.submitter.Free? && s.flags.At(i) & PENDING == 0 && |s.queue| < QUEUE_SIZE
  {
    Do(Do(Do(Do(Do(s, Check(i)), Store(value)), ReadFlag), WriteFlag), Send)
  }

  /** One round of the worker that nothing interleaves with. */
  function Worked(s: State): State
    requires s.worker.Waiting? && s.queue != []
  {
    Do(Do(Do(Do(Do(s, Receive), LookFlag), ToggleFlag), Begin), Finish)
  }

  /** The work queue and the two upload contexts. */
  class WorkQ {
    var queue: seq<Item>
    var flags: PerItem<bv32>
    var params: PerItem<int>
    ghost var accepted: seq<Item>
    ghost var begun: seq<Item>

    ghost function Model(): State
      reads this
    {
      State(queue, flags, params, Free, Waiting, accepted, begun)
    }

    constructor ()
      ensures Model() == INITIAL
    {
      queue, flags, params := [], PerItem(0, 0), PerItem(0, 0);
      accepted, begun := [], [];
    }

    /** k_work_is_pending */
    method IsPending(i: Item) returns (pending: bool)
      ensures pending <==> flags.At(i) & PENDING != 0
    {
      pending := flags.At(i) & PENDING != 0;
    }

    /** k_work_submit_to_queue */
    method SubmitToQueue(i: Item)
      requires |queue| < QUEUE_SIZE
      modifies this
      ensures queue == old(queue) + [i] && accepted == old(accepted) + [i]
      ensures flags == old(flags).With(i, old(flags).At(i) | PENDING)
      ensures params == old(params) && begun == old(begun)
    {
      flags := flags.With(i, flags.At(i) | PENDING);
      queue := queue + [i];
      accepted := accepted + [i];
    }

    /** zperf_udp_upload_async and zperf_tcp_upload_async. */
    method UploadAsync(i: Item, value: int) returns (busy: bool)
      requires Inv(Model())
      modifies this
      ensures Inv(Model())
      ensures busy <==> i in old(queue)
      ensures busy ==> Model() == old(Model())
      ensures !busy ==> old(flags).At(i) & PENDING == 0 && |old(queue)| < QUEUE_SIZE
                        && Model() == Submitted(old(Model()), i, value)
    {
      BitFacts();
      ShortQueue(queue);
      PendingIsQueued(Model(), i);
      hide Inv;
      var pending := IsPending(i);
      if pending {
        return true;
      }
      SubmissionKeeps(Model(), i, value);
      params := params.With(i, value);
      SubmitToQueue(i);
      return false;
    }

    /** One round of _work_task. The handler itself is not part of this model. */
    method WorkOnce() returns (i: Item)
      requires Inv(Model()) && queue != []
      modifies this
      ensures Inv(Model()) && i == old(queue)[0] && Model() == Worked(old(Model()))
    {
      hide Inv;
      RoundKeeps(Model());
      i := queue[0];
      queue := queue[1..];
      flags := flags.With(i, flags.At(i) ^ PENDING);
      begun := begun + [i];
    }
  }

  lemma PendingIsQueued(s: State, i: Item)
    requires Inv(s) && s.submitter.Free? && s.worker.Waiting?
    ensures s.flags.At(i) & PENDING != 0 <==> i in s.queue
  {
    BitFacts();
  }

  lemma SubmissionKeeps(s: State, i: Item, value: int)
    requires Inv(s) && s.submitter.Free? && s.flags.At(i) & PENDING == 0 && |s.queue| < QUEUE_SIZE
    ensures Inv(Submitted(s, i, value))
  {
    hide Inv;
    StepKeeps(s, Check(i));
    var s1 := Do(s, Check(i));
    StepKeeps(s1, Store(value));
    var s2 := Do(s1, Store(value));
    StepKeeps(s2, ReadFlag);
    StepKeeps(Do(s2, ReadFlag), WriteFlag);
    StepKeeps(Do(Do(s2, ReadFlag), WriteFlag), Send);
  }

  lemma RoundKeeps(s: State)
    requires Inv(s) && s.worker.Waiting? && s.queue != []
    ensures Inv(Worked(s))
  {
    hide Inv;
    StepKeeps(s, Receive);
    var s1 := Do(s, Receive);
    StepKeeps(s1, LookFlag);
    var s2 := Do(s1, LookFlag);
    StepKeeps(s2, ToggleFlag);
    StepKeeps(Do(s2, ToggleFlag), Begin);
    StepKeeps(Do(Do(s2, ToggleFlag), Begin), Finish);
  }
}
