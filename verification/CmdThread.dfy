/**
 The command queue: any number of enqueuers, a stop requester and the command
 thread, interleaved at every lock, semaphore and shared flag.  `Apply` gives the
 effect of each atomic step; the class CmdPriv below carries the steps out on
 the shared fields.
 */
module CmdThread {
  import opened Bytes

  /** A command object, by its address. */
  type Cmd = nat

  datatype Thread =
    | Created                    // kthread_run was called, the thread has not run yet
    | Waiting                    // at _rtw_down_sema
    | Woken                      // between _rtw_down_sema and the test of stop_req
    | Next(first: bool)          // at _next; first: nothing was dequeued since the wake-up
    | Handling(cmd: Cmd)         // a dequeued command is filtered, run and post-processed
    | Leaving                    // out of the loop, cmdthd_running still set
    | Draining                   // cmdthd_running cleared, freeing what is queued
    | Gone

  datatype Starter = AwaitsStart | Started

  datatype Stopper = Idle | Checked | Asked | AwaitsEnd | Returned

  /**
   The shared fields, where each party is, and what has happened so far:
   `passed` are the commands between rtw_cmd_filter and their insertion, `ups`
   counts the enqueuers between insertion and _rtw_up_sema, `history` and
   `taken` are the commands ever inserted and dequeued, and `mark` and
   `stragglers` are |history| and `passed` when cmdthd_running was cleared.
   */
  datatype State = State(
    queue: seq<Cmd>, sema: nat, term: nat, running: bool, stopReq: bool,
    thread: Thread, starter: Starter, stopper: Stopper, passed: multiset<Cmd>, ups: nat,
    history: seq<Cmd>, taken: seq<Cmd>, mark: nat, stragglers: multiset<Cmd>)

  const INIT := State([], 0, 0, false, false, Created, AwaitsStart, Idle, multiset{}, 0, [], [], 0, multiset{})

  datatype Action =
    | Filter(cmd: Cmd) | InsertTail(cmd: Cmd) | UpSema
    | StopCheck | StopAsk | StopUp | StopEnd | StartEnd
    | ThreadStart | Down | DownFails | TestStop | DriverStopped | Dequeue
    | Again | Dropped | ClearRunning | DrainOne

  /** Whether the step can be taken now. */
  predicate Enabled(s: State, a: Action) {
    match a
    // enqueuers
    case Filter(cmd) => s.running
    case InsertTail(cmd) => cmd in s.passed
    case UpSema => s.ups > 0
    // rtw_stop_cmd_thread, which runs after rtw_start_drv_threads returned
    case StopCheck => s.stopper == Idle && s.starter == Started && s.running && !s.stopReq
    case StopAsk => s.stopper == Checked
    case StopUp => s.stopper == Asked
    case StopEnd => s.stopper == AwaitsEnd && s.term > 0
    // rtw_start_drv_threads
    case StartEnd => s.starter == AwaitsStart && s.term > 0
    // the thread
    case ThreadStart => s.thread == Created
    case Down => s.thread == Waiting && s.sema > 0
    case DownFails => s.thread == Waiting
    case TestStop => s.thread == Woken
    case DriverStopped => s.thread.Next?
    case Dequeue => s.thread.Next?
    case Again => s.thread.Handling?
    case Dropped => s.thread.Handling?
    case ClearRunning => s.thread == Leaving
    case DrainOne => s.thread == Draining
  }

  function Apply(s: State, a: Action): State
    requires Enabled(s, a)
  {
    match a
    case Filter(cmd) => s.(passed := s.passed + multiset{cmd})
    case InsertTail(cmd) =>
      s.(passed := s.passed - multiset{cmd}, queue := s.queue + [cmd], history := s.history + [cmd], ups := s.ups + 1)
    case UpSema => s.(ups := s.ups - 1, sema := s.sema + 1)
    case StopCheck => s.(stopper := Checked)
    case StopAsk => s.(stopper := Asked, stopReq := true)
    case StopUp => s.(stopper := AwaitsEnd, sema := s.sema + 1)
    case StopEnd => s.(stopper := Returned, term := s.term - 1)
    case StartEnd => s.(starter := Started, term := s.term - 1)
    case ThreadStart => s.(thread := Waiting, stopReq := false, running := true, term := s.term + 1)
    case Down => s.(thread := Woken, sema := s.sema - 1)
    case DownFails => s.(thread := Leaving)
    case TestStop => s.(thread := if s.stopReq then Leaving else Next(true))
    case DriverStopped => s.(thread := Leaving)
    case Dequeue =>
      if s.queue == [] then s.(thread := Waiting)
      else s.(thread := Handling(s.queue[0]), queue := s.queue[1..], taken := s.taken + [s.queue[0]])
    case Again => s.(thread := Next(false))
    case Dropped => s.(thread := Waiting)
    case ClearRunning =>
      s.(thread := Draining, running := false, mark := |s.history|, stragglers := s.passed)
    case DrainOne =>
      if s.queue == [] then s.(thread := Gone, term := s.term + 1)
      else s.(queue := s.queue[1..], taken := s.taken + [s.queue[0]])
  }

  /** The state after the steps of `h`; None if one of them was not enabled. */
  function Run(h: seq<Action>): Option<State> {
    if h == [] then Some(INIT) else
    match Run(h[..|h| - 1])
    case None => None
    case Some(s) => if Enabled(s, h[|h| - 1]) then Some(Apply(s, h[|h| - 1])) else None
  }

  // ------------------------------------------------------------ invariants

  /** Every command is dequeued at most once, in the order of insertion, and none is lost. */
  predicate Fifo(s: State) {
    s.history == s.taken + s.queue
  }

  /** Every queued command has a wake-up: in the semaphore, on its way, or already taken by the thread. */
  predicate Covered(s: State) {
    match s.thread
    case Waiting | Handling(_) | Next(false) => |s.queue| <= s.sema + s.ups
    case Woken | Next(true) => |s.queue| <= s.sema + s.ups + 1
    case Created => s.passed == multiset{} && s.queue == []
    case _ => true
  }

  predicate Left(s: State) {
    s.thread in {Leaving, Draining, Gone}
  }

  /** A stop request is still to be seen, or was seen. */
  predicate StopKept(s: State) {
    && (s.stopper in {Asked, AwaitsEnd, Returned} ==> s.stopReq)
    && (s.stopper == AwaitsEnd ==> Left(s) || s.thread == Woken || s.sema >= 1)
    && (s.thread == Created ==> s.stopper == Idle)
  }

  /** terminate_cmdthread_sema counts the thread's start and its end, each once. */
  predicate TermCounts(s: State) {
    && s.term + (if s.starter == Started then 1 else 0) + (if s.stopper == Returned then 1 else 0)
       == (if s.thread != Created then 1 else 0) + (if s.thread == Gone then 1 else 0)
    && (s.stopper != Idle ==> s.starter == Started)
  }

  predicate RunningUntilLeft(s: State) {
    s.running <==> s.thread !in {Created, Draining, Gone}
  }

  /** After cmdthd_running is cleared only the stragglers can still be inserted. */
  predicate OnlyStragglers(s: State) {
    s.thread in {Draining, Gone} ==>
      && s.mark <= |s.history|
      && multiset(s.history[s.mark..]) + s.passed == s.stragglers
      && (s.thread == Gone ==> s.mark <= |s.taken|)
  }

  predicate Inv(s: State) {
    Fifo(s) && Covered(s) && StopKept(s) && TermCounts(s) && RunningUntilLeft(s) && OnlyStragglers(s)
  }

  lemma FifoKept(s: State, a: Action)
    requires Enabled(s, a) && Fifo(s)
    ensures Fifo(Apply(s, a))
  {
    if (a == Dequeue || a == DrainOne) && s.queue != [] {
      assert s.queue == [s.queue[0]] + s.queue[1..];
    }
  }

  lemma CoverKept(s: State, a: Action)
    requires Enabled(s, a) && Covered(s) && RunningUntilLeft(s)
    ensures Covered(Apply(s, a))
  {
  }

  lemma StopKeptOn(s: State, a: Action)
    requires Enabled(s, a) && StopKept(s) && TermCounts(s)
    ensures StopKept(Apply(s, a))
  {
  }

  lemma TermKept(s: State, a: Action)
    requires Enabled(s, a) && TermCounts(s)
    ensures TermCounts(Apply(s, a))
  {
  }

  lemma LateInsertKept(s: State, cmd: Cmd)
    requires s.thread in {Draining, Gone} && OnlyStragglers(s) && cmd in s.passed
    ensures OnlyStragglers(Apply(s, InsertTail(cmd)))
  {
    assert Apply(s, InsertTail(cmd)).history[s.mark..] == s.history[s.mark..] + [cmd];
  }

  lemma StragglersKept(s: State, a: Action)
    requires Enabled(s, a) && Fifo(s) && RunningUntilLeft(s) && OnlyStragglers(s)
    ensures OnlyStragglers(Apply(s, a))
  {
    if a == ClearRunning {
      assert s.history[|s.history|..] == [];
    } else if s.thread in {Draining, Gone} && a.InsertTail? {
      LateInsertKept(s, a.cmd);
    } else if a == DrainOne && s.queue == [] {
      assert |s.taken| == |s.history|;
    }
  }

  lemma StepKeeps(s: State, a: Action)
    requires Enabled(s, a) && Inv(s)
    ensures Inv(Apply(s, a))
  {
    FifoKept(s, a);
    CoverKept(s, a);
    StopKeptOn(s, a);
    TermKept(s, a);
    StragglersKept(s, a);
  }

  /** The invariants hold in every state of every interleaving. */
  lemma {:induction false} RunKeeps(h: seq<Action>)
    requires Run(h).Some?
    ensures Inv(Run(h).value)
  {
    if h != [] {
      var g := h[..|h| - 1];
      RunKeeps(g);
      StepKeeps(Run(g).value, h[|h| - 1]);
    }
  }

  // --------------------------------------------------------------- results

  /**
   No lost wake-up: in any interleaving, a thread blocked on an empty semaphore
   has at most as many queued commands as enqueuers about to call
   _rtw_up_sema, so none when there is no such enqueuer; and no stop request is
   waiting for it.
   */
  lemma NoLostWakeUp(h: seq<Action>, s: State)
    requires Run(h) == Some(s)
    ensures s.thread == Waiting && s.sema == 0 ==> |s.queue| <= s.ups && s.stopper != AwaitsEnd
  {
    RunKeeps(h);
  }

  /** The commands dequeued so far are the first ones inserted, in order; the rest are queued. */
  lemma TakenInOrder(h: seq<Action>, s: State)
    requires Run(h) == Some(s)
    ensures s.history == s.taken + s.queue
  {
    RunKeeps(h);
  }

  /**
   rtw_stop_cmd_thread that waited returns exactly when it may: its down of the
   terminate semaphore can go ahead if and only if the thread is gone, and once
   it has returned the thread is gone.
   */
  lemma StopReturnsWhenGone(h: seq<Action>, s: State)
    requires Run(h) == Some(s)
    ensures s.stopper == AwaitsEnd ==> (s.term > 0 <==> s.thread == Gone)
    ensures s.stopper == Returned ==> s.thread == Gone
  {
    RunKeeps(h);
  }

  /**
   When the thread is gone, what is queued then or ever after was inserted by
   enqueuers that had passed rtw_cmd_filter before cmdthd_running was cleared
   and inserted after that; nobody frees those.  Without such an enqueuer the queue is empty.
   */
  lemma LeftBehind(h: seq<Action>, s: State)
    requires Run(h) == Some(s) && s.thread == Gone
    ensures multiset(s.queue) + s.passed <= s.stragglers
    ensures s.stragglers == multiset{} ==> s.queue == []
  {
    RunKeeps(h);
    var late := s.history[s.mark..];
    assert late == s.taken[s.mark..] + s.queue;
    assert multiset(late) == multiset(s.taken[s.mark..]) + multiset(s.queue);
    if s.queue != [] {
      assert s.queue[0] in multiset(s.queue);
    }
  }

  /** The thread leaves on a signal while one enqueuer is past the filter. */
  lemma LeaveWithStraggler(cmd: Cmd) returns (h: seq<Action>)
    ensures Run(h) == Some(Apply(Apply(Apply(INIT, ThreadStart), Filter(cmd)), DownFails))
  {
    h := RunMore([], INIT, ThreadStart);
    h := RunMore(h, Apply(INIT, ThreadStart), Filter(cmd));
    h := RunMore(h, Apply(Apply(INIT, ThreadStart), Filter(cmd)), DownFails);
  }

  /** A straggler: such a run exists, so the drain alone does not empty the queue for good. */
  lemma StragglerStaysQueued(cmd: Cmd) returns (h: seq<Action>)
    ensures Run(h).Some? && Run(h).value.thread == Gone && Run(h).value.queue == [cmd]
  {
    h := LeaveWithStraggler(cmd);
    var s := Run(h).value;
    h := RunMore(h, s, ClearRunning);
    h := RunMore(h, Apply(s, ClearRunning), DrainOne);
    h := RunMore(h, Apply(Apply(s, ClearRunning), DrainOne), InsertTail(cmd));
  }

  lemma RunMore(h: seq<Action>, s: State, a: Action) returns (t: seq<Action>)
    requires Run(h) == Some(s) && Enabled(s, a)
    ensures Run(t) == Some(Apply(s, a)) && h <= t
  {
    t := h + [a];
    assert t[..|t| - 1] == h;
  }

  lemma AfterClearing(s: State, a: Action)
    requires s.thread in {Draining, Gone} && Enabled(s, a)
    ensures Apply(s, a).thread in {Draining, Gone} && Apply(s, a).stragglers == s.stragglers
  {
  }

  lemma LastStep(g: seq<Action>) returns (s: State)
    requires g != [] && Run(g).Some?
    ensures Run(g[..|g| - 1]) == Some(s) && Enabled(s, g[|g| - 1]) && Run(g) == Some(Apply(s, g[|g| - 1]))
  {
    s := Run(g[..|g| - 1]).value;
  }

  /** From the clearing of cmdthd_running on, the stragglers are the commands past the filter at that moment. */
  lemma {:induction false} StragglersFixed(h: seq<Action>, g: seq<Action>, s: State, t: State)
    requires Run(h) == Some(s) && s.thread in {Draining, Gone} && h <= g && Run(g) == Some(t)
    ensures t.thread in {Draining, Gone} && t.stragglers == s.stragglers
  {
    if |h| == |g| {
      assert h == g;
    } else {
      var u := LastStep(g);
      assert h <= g[..|g| - 1];
      StragglersFixed(h, g[..|g| - 1], s, u);
      AfterClearing(u, g[|g| - 1]);
    }
  }

  /** The drain can run to its end before any other party takes a step. */
  lemma DrainToEnd(h: seq<Action>, s: State) returns (g: seq<Action>, t: State)
    requires Run(h) == Some(s) && s.thread == Draining
    ensures h <= g && Run(g) == Some(t) && t.thread == Gone && t.queue == [] && t.passed == s.passed
    decreases |s.queue|
  {
    g := RunMore(h, s, DrainOne);
    t := Apply(s, DrainOne);
    if s.queue != [] {
      g, t := DrainToEnd(g, t);
    }
  }

  /** In every continuation the queue is empty when the thread is gone, and stays so. */
  ghost predicate EmptyForGood(h: seq<Action>) {
    forall g {:trigger Run(g)} :: h <= g && Run(g).Some? && Run(g).value.thread == Gone ==> Run(g).value.queue == []
  }

  /**
   Whether the drain on exit leaves the queue empty for good is decided when
   cmdthd_running is cleared: it does if and only if no enqueuer is then between
   the filter and its insertion.
   */
  lemma DrainIsFinalIffNonePassed(h: seq<Action>, s: State)
    requires Run(h) == Some(s) && s.thread == Leaving
    ensures EmptyForGood(h + [ClearRunning]) <==> s.passed == multiset{}
  {
    var h1 := h + [ClearRunning];
    var s1 := Apply(s, ClearRunning);
    assert h1[..|h1| - 1] == h;
    if s.passed == multiset{} {
      forall g | h1 <= g && Run(g).Some? && Run(g).value.thread == Gone ensures Run(g).value.queue == [] {
        StragglersFixed(h1, g, s1, Run(g).value);
        LeftBehind(g, Run(g).value);
      }
    } else {
      var g, t := DrainToEnd(h1, s1);
      var cmd :| cmd in s.passed;
      var late := RunMore(g, t, InsertTail(cmd));
      assert Run(late).value.queue == [cmd];
    }
  }

  /** The thread's own next step. */
  function ThreadStep(s: State): Action {
    match s.thread
    case Created => ThreadStart
    case Waiting => Down
    case Woken => TestStop
    case Next(_) => Dequeue
    case Handling(_) => Again
    case Leaving => ClearRunning
    case _ => DrainOne
  }

  lemma StuckMeans(s: State)
    requires !Enabled(s, ThreadStep(s))
    ensures s.thread == Gone || (s.thread == Waiting && s.sema == 0)
  {
  }

  /** The thread can always take that step, unless it is gone or waits with nothing to wake it. */
  lemma ThreadNotStuck(h: seq<Action>, s: State)
    requires Run(h) == Some(s) && !Enabled(s, ThreadStep(s))
    ensures s.thread in {Waiting, Gone}
    ensures s.thread == Waiting ==> |s.queue| <= s.ups && s.stopper != AwaitsEnd
  {
    StuckMeans(s);
    if s.thread == Waiting {
      NoLostWakeUp(h, s);
    }
  }

  // ------------------------------------------------------ the shared fields

  /** struct cmd_priv: what the steps change, with the rest of the state as ghost. */
  class CmdPriv {
    var cmd_queue: seq<Cmd>
    var cmd_queue_sema: nat
    var terminate_sema: nat
    var cmdthd_running: bool
    var stop_req: bool
    ghost var others: State

    /** The state the steps are stated on. */
    ghost function Now(): State
      reads this
    {
      others.(queue := cmd_queue, sema := cmd_queue_sema, term := terminate_sema,
              running := cmdthd_running, stopReq := stop_req)
    }

    constructor ()
      ensures Now() == INIT
    {
      cmd_queue, cmd_queue_sema, terminate_sema, cmdthd_running, stop_req := [], 0, 0, false, false;
      others := INIT;
    }

    /** rtw_cmd_filter; `allow`: the hardware is up or the command may go without it. */
    method Filter(cmd: Cmd, allow: bool) returns (pass: bool)
      modifies this`others
      ensures pass <==> allow && Enabled(old(Now()), Action.Filter(cmd))
      ensures Now() == if pass then Apply(old(Now()), Action.Filter(cmd)) else old(Now())
    {
      pass := allow && cmdthd_running;
      if pass {
        others := others.(passed := others.passed + multiset{cmd});
      }
    }

    /** _rtw_enqueue_cmd */
    method InsertTail(cmd: Cmd)
      requires Enabled(Now(), Action.InsertTail(cmd))
      modifies this`cmd_queue, this`others
      ensures Now() == Apply(old(Now()), Action.InsertTail(cmd))
    {
      cmd_queue := cmd_queue + [cmd];
      others := others.(passed := others.passed - multiset{cmd}, history := others.history + [cmd], ups := others.ups + 1);
    }

    method UpSema()
      requires Enabled(Now(), Action.UpSema)
      modifies this`cmd_queue_sema, this`others
      ensures Now() == Apply(old(Now()), Action.UpSema)
    {
      cmd_queue_sema := cmd_queue_sema + 1;
      others := others.(ups := others.ups - 1);
    }

    /** _rtw_dequeue_cmd, called at _next. */
    method Dequeue() returns (cmd: Option<Cmd>)
      requires Enabled(Now(), Action.Dequeue)
      modifies this`cmd_queue, this`others
      ensures cmd == if old(Now()).queue == [] then None else Some(old(Now()).queue[0])
      ensures Now() == Apply(old(Now()), Action.Dequeue)
    {
      if cmd_queue == [] {
        cmd := None;
        others := others.(thread := Waiting);
      } else {
        cmd := Some(cmd_queue[0]);
        others := others.(thread := Handling(cmd_queue[0]), taken := others.taken + [cmd_queue[0]]);
        cmd_queue := cmd_queue[1..];
      }
    }

    /** The drain on the way out, when no enqueuer comes in between: everything queued is freed, in order. */
    method Drain() returns (freed: seq<Cmd>)
      requires Now().thread == Draining
      modifies this
      ensures freed == old(Now()).queue
      ensures Now() == Apply(old(Now()).(queue := [], taken := old(Now()).taken + freed), DrainOne)
    {
      ghost var s0 := Now();
      freed := [];
      while cmd_queue != []
        invariant freed + cmd_queue == s0.queue
        invariant Now() == s0.(queue := cmd_queue, taken := s0.taken + freed)
        decreases |cmd_queue|
      {
        var cmd := cmd_queue[0];
        cmd_queue := cmd_queue[1..];
        others := others.(taken := others.taken + [cmd]);
        freed := freed + [cmd];
      }
      terminate_sema := terminate_sema + 1;
      others := others.(thread := Gone);
    }
  }
}
