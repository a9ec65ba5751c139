/** Starting and stopping a receiver thread: zperf_udp_download, zperf_udp_download_stop and
    udp_receiver_thread, and their TCP twins. One task controls, the receiver thread runs
    beside it; each step is one access to a shared flag or one semaphore operation. The
    thread has created its semaphore. */
module Handshake {
  import opened Words

  /** Where the controlling task stands. */
  datatype Control =
    | Idle
    | StartChecked      // `running` was read as false
    | StartClaimed      // `running` is set
    | StartGiving       // `stop` is cleared, about to give the semaphore
    | StopChecked       // `running` was read as true

  /** Where the receiver thread stands. `left` is true once its poll loop is over. */
  datatype Thread =
    | Taking
    | Serving
    | Left

  /** The shared flags and the semaphore, whose maximum count is 1, with a record: how many
      starts were accepted, how many server sessions began, and for which accepted start the
      last stop was issued. */
  datatype State = State(running: bool, stop: bool, count: nat, control: Control, thread: Thread,
                         accepted: nat, begun: nat, target: nat)

  const INITIAL := State(false, false, 0, Idle, Taking, 0, 0, 0)

  /** `Abort` leaves the poll loop on an error, `Obey` because the stop flag was seen set
      after a poll, `Poll` stays because it was seen clear. */
  datatype Action =
    | CheckStart | SetRunning | ClearStop | Give
    | CheckStop | SetStop
    | Take | Poll | Obey | Abort | ClearRunning

  predicate Enabled(s: State, a: Action) {
    match a
    case CheckStart => s.control.Idle?
    case SetRunning => s.control.StartChecked?
    case ClearStop => s.control.StartClaimed?
    case Give => s.control.StartGiving?
    case CheckStop => s.control.Idle?
    case SetStop => s.control.StopChecked?
    case Take => s.thread.Taking? && s.count > 0
    case Poll => s.thread.Serving? && !s.stop
    case Obey => s.thread.Serving? && s.stop
    case Abort => s.thread.Serving?
    case ClearRunning => s.thread.Left?
  }

  function Do(s: State, a: Action): State
    requires Enabled(s, a)
  {
    match a
    case CheckStart => if s.running then s else s.(control := StartChecked)
    case SetRunning => s.(running := true, control := StartClaimed)
    case ClearStop => s.(stop := false, control := StartGiving)
    case Give => s.(count := if s.count < 1 then s.count + 1 else s.count, accepted := s.accepted + 1, control := Idle)
    case CheckStop => if !s.running then s else s.(control := StopChecked)
    case SetStop => s.(stop := true, target := s.accepted, control := Idle)
    case Take => s.(count := s.count - 1, begun := s.begun + 1, thread := Serving)
    case Poll => s
    case Obey => s.(thread := Left)
    case Abort => s.(thread := Left)
    case ClearRunning => s.(running := false, thread := Taking)
  }

  /** The state after the actions, if they can happen in this order. */
  function After(s: State, actions: seq<Action>): Option<State> {
    if actions == [] then Some(s)
    else
      var t := After(s, actions[..|actions| - 1]);
      if t.Some? && Enabled(t.value, actions[|actions| - 1]) then Some(Do(t.value, actions[|actions| - 1])) else None
  }

  /** A start is being issued, from its claim of `running` up to the give. */
  predicate Issuing(s: State) {
    s.control.StartClaimed? || s.control.StartGiving?
  }

  /** The thread is in a server session, or has not yet reported its end. */
  predicate InSession(s: State) {
    s.thread.Serving? || s.thread.Left?
  }

  ghost predicate Inv(s: State) {
    && s.count <= 1
    // `running` says exactly that a start is being issued, waits, or is being served
    && (s.running <==> Issuing(s) || s.count == 1 || InSession(s))
    && !(Issuing(s) && s.count == 1) && !(Issuing(s) && InSession(s)) && !(s.count == 1 && InSession(s))
    && (s.control.StartChecked? ==> !s.running)
    // each accepted start is one server session
    && s.accepted == s.begun + s.count
    && s.target <= s.accepted
    // the stop flag is about the current session, if one waits or is served
    && (s.count == 1 || InSession(s) || s.control.StartGiving? ==>
          (s.stop <==> s.target == s.accepted && !s.control.StartGiving?))
    && (s.control.StopChecked? && s.running ==> s.count == 1 || InSession(s))
  }

  lemma StepKeeps(s: State, a: Action)
    requires Inv(s) && Enabled(s, a)
    ensures Inv(Do(s, a))
  {
  }

  lemma {:induction false} Reachable(actions: seq<Action>)
    requires After(INITIAL, actions).Some?
    ensures Inv(After(INITIAL, actions).value)
  {
    if actions != [] {
      var front := actions[..|actions| - 1];
      Reachable(front);
      StepKeeps(After(INITIAL, front).value, actions[|actions| - 1]);
    }
  }

  /** In every reachable state `running` holds exactly while a start is being issued, waits
      in the semaphore, or is being served; only one of these at a time. The give never
      meets a full semaphore, and each accepted start is one server session, begun or
      waiting. */
  lemma StartProtocol(actions: seq<Action>)
    requires After(INITIAL, actions).Some?
    ensures var s := After(INITIAL, actions).value;
            && (s.running <==> Issuing(s) || s.count == 1 || InSession(s))
            && !(Issuing(s) && s.count == 1) && !(Issuing(s) && InSession(s)) && !(s.count == 1 && InSession(s))
            && (s.control.StartGiving? ==> s.count == 0)
            && s.accepted == s.begun + s.count
  {
    hide After;
    Reachable(actions);
  }

  /** A stop stays in force until the session it was issued for is over: as long as that
      session waits or is served the flag is set, so no further poll result is served. And
      a session obeys only a stop issued for itself. */
  lemma StopProtocol(actions: seq<Action>)
    requires After(INITIAL, actions).Some?
    ensures var s := After(INITIAL, actions).value;
            && (s.count == 1 || InSession(s) ==> (s.stop <==> s.target == s.accepted))
            && (s.target == s.accepted ==> !Enabled(s, Poll))
            && (Enabled(s, Obey) ==> s.target == s.accepted == s.begun)
  {
    hide After;
    Reachable(actions);
  }

  // ---------- the program, undisturbed ----------

  const EINVAL: int := 22
  const EALREADY: int := 114

  /** The steps of an accepted start, and of an accepted stop. */
  const START: seq<Action> := [CheckStart, SetRunning, ClearStop, Give]
  const STOP: seq<Action> := [CheckStop, SetStop]

  lemma StartSteps(s: State)
    requires Inv(s) && s.control.Idle? && !s.running
    ensures s.thread.Taking?
    ensures After(s, START) == Some(s.(running := true, stop := false, count := 1, accepted := s.accepted + 1))
  {
    assert START[..3][..2] == START[..2] && START[..2][..1] == START[..1] && START[..1][..0] == [];
    assert After(s, START[..1]) == Some(Do(s, CheckStart));
    assert After(s, START[..2]) == Some(Do(Do(s, CheckStart), SetRunning));
    assert After(s, START[..3]) == Some(Do(Do(Do(s, CheckStart), SetRunning), ClearStop));
  }

  lemma StopSteps(s: State)
    requires s.control.Idle? && s.running
    ensures After(s, STOP) == Some(s.(stop := true, target := s.accepted))
  {
    assert STOP[..1][..0] == [];
    assert After(s, STOP[..1]) == Some(Do(s, CheckStop));
  }

  /** However a session is left, by a stop or on an error, the thread then reports the end
      and waits for the next start. */
  lemma SessionEnds(s: State, leave: Action)
    requires s.control.Idle? && Enabled(s, leave) && (leave == Obey || leave == Abort)
    ensures After(s, [leave, ClearRunning]) == Some(s.(running := false, thread := Taking))
  {
    assert [leave, ClearRunning][..1] == [leave] && [leave][..0] == [];
    assert After(s, [leave]) == Some(Do(s, leave));
  }

  /** An accepted start is taken by the waiting thread, and its session is not stopped. */
  lemma NextSession(s: State)
    requires Inv(s) && s.control.Idle? && s.thread.Taking? && !s.running
    ensures After(s, START + [Take])
            == Some(s.(running := true, stop := false, accepted := s.accepted + 1, begun := s.begun + 1, thread := Serving))
  {
    StartSteps(s);
    assert (START + [Take])[..4] == START;
    hide Inv;
  }

  /** A stopped server ends and can be started again: in every reachable state in which a
      session is served and nothing is being issued, leaving it makes the next start succeed
      and its session poll. */
  lemma StopAndStartAgain(actions: seq<Action>, leave: Action)
    requires After(INITIAL, actions).Some?
    requires var s := After(INITIAL, actions).value;
             s.control.Idle? && Enabled(s, leave) && (leave == Obey || leave == Abort)
    ensures var s := After(INITIAL, actions).value;
            var ended := After(s, [leave, ClearRunning]);
            && ended.Some? && !ended.value.running && ended.value.accepted == s.begun
            && var again := After(ended.value, START + [Take]);
               again.Some? && Enabled(again.value, Poll) && again.value.begun == s.begun + 1
  {
    hide After;
    Reachable(actions);
    var s := After(INITIAL, actions).value;
    SessionEnds(s, leave);
    StepKeeps(s, leave);
    StepKeeps(Do(s, leave), ClearRunning);
    NextSession(s.(running := false, thread := Taking));
  }

  /** The control block of one receiver. `accepted`, `begun` and `target` are the record. */
  class ServerControl {
    var running: bool
    var stop: bool
    var count: nat
    ghost var accepted: nat
    ghost var begun: nat
    ghost var target: nat

    ghost function Model(thread: Thread): State
      reads this
    {
      State(running, stop, count, Idle, thread, accepted, begun, target)
    }

    constructor ()
      ensures Model(Taking) == INITIAL
    {
      running, stop, count := false, false, 0;
      accepted, begun, target := 0, 0, 0;
    }

    /** zperf_udp_download and zperf_tcp_download. Returns 0, -EINVAL or -EALREADY. */
    method Download(ghost thread: Thread, valid: bool) returns (code: int)
      requires Inv(Model(thread))
      modifies this
      ensures Inv(Model(thread))
      ensures code == if !valid then -EINVAL else if old(running) then -EALREADY else 0
      ensures code != 0 ==> Model(thread) == old(Model(thread))
      ensures code == 0 ==> thread.Taking? && Some(Model(thread)) == old(After(Model(thread), START))
    {
      hide After;
      if !valid {
        return -EINVAL;
      }
      if running {
        return -EALREADY;
      }
      StartSteps(Model(thread));
      running := true;
      stop := false;
      if count < 1 {
        count := count + 1;
      }
      accepted := accepted + 1;
      return 0;
    }

    /** zperf_udp_download_stop and zperf_tcp_download_stop. */
    method DownloadStop(ghost thread: Thread) returns (code: int)
      requires Inv(Model(thread))
      modifies this
      ensures Inv(Model(thread))
      ensures code == if old(running) then 0 else -EALREADY
      ensures code != 0 ==> Model(thread) == old(Model(thread))
      ensures code == 0 ==> Some(Model(thread)) == old(After(Model(thread), STOP))
    {
      hide After;
      if !running {
        return -EALREADY;
      }
      StopSteps(Model(thread));
      stop := true;
      target := accepted;
      return 0;
    }
  }
}
