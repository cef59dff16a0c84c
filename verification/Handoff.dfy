/** Who sends: the non-periodic thread while the master is idle, the cyclic handler while it operates
    (src/ec_master.c:352-383, 455-485, 568-575, 581-623 and 783-785). The threads take steps in any order; calls of
    start and stop do not overlap. */
module Handoff {

  /** Where ec_master_nonperiod_thread is. `Clearing` and `Suspending` are the two statements of ec_master_exit_idle. */
  datatype Thread = Waiting | Sending | Checking | Clearing | Suspending | Suspended

  /** Where ec_master_start or ec_master_stop is; the last two are inside ec_master_enter_idle. */
  datatype Caller =
    | Outside | Entered | PhaseSet | Spinning | Released | TimerStarted
    | Stopping | TimerStopped | PhaseIdle | FlagCleared

  datatype State = State(
    thread: Thread, caller: Caller, suspend: bool, operation: bool, timer: bool, started: bool, threadSends: nat,
      cyclicSends: nat)

  datatype Step = ThreadStep | Start | Stop | CallerStep | Tick

  /** After ec_master_init. */
  const INITIAL: State := State(Waiting, Outside, false, false, false, false, 0, 0)

  function StepThread(s: State): State {
    match s.thread
    case Waiting => s.(thread := Sending)
    case Sending => s.(thread := Checking, threadSends := s.threadSends + 1)
    case Checking => s.(thread := if s.suspend then Clearing else Waiting)
    case Clearing => s.(thread := Suspending, suspend := false)
    case Suspending => s.(thread := Suspended)
    case Suspended => s
  }

  function StepCaller(s: State): State {
    match s.caller
    case Outside => s
    case Entered => s.(caller := PhaseSet, operation := true)
    case PhaseSet => s.(caller := Spinning, suspend := true)
    case Spinning => if s.suspend then s else s.(caller := Released)
    case Released => s.(caller := TimerStarted, timer := true)
    case TimerStarted => s.(caller := Outside, started := true)
    case Stopping => s.(caller := TimerStopped, timer := false)
    case TimerStopped => s.(caller := PhaseIdle, operation := false)
    case PhaseIdle => s.(caller := FlagCleared, suspend := false)
    case FlagCleared => s.(caller := Outside, thread := if s.thread == Suspended then Waiting else s.thread)
  }

  function Next(s: State, step: Step): State {
    match step
    case ThreadStep => StepThread(s)
    case Start => if s.caller == Outside && !s.started then s.(caller := Entered) else s
    case Stop => if s.caller == Outside && s.started then s.(caller := Stopping, started := false) else s
    case CallerStep => StepCaller(s)
    case Tick => if s.timer && s.operation then s.(cyclicSends := s.cyclicSends + 1) else s
  }

  function Run(s: State, steps: seq<Step>): State
    decreases |steps|
  {
    if steps == [] then s else Run(Next(s, steps[0]), steps[1..])
  }

  /** From the end of the wait loop of ec_master_start until ec_master_enter_idle resumes the thread. */
  predicate HandedOver(s: State) {
    || s.caller == Released || s.caller == TimerStarted || s.caller == Stopping || s.caller == TimerStopped
    || s.caller == PhaseIdle || s.caller == FlagCleared || (s.caller == Outside && s.started)
  }

  predicate Still(s: State) {
    s.thread == Suspending || s.thread == Suspended
  }

  predicate Safe(s: State) {
    && (HandedOver(s) ==> Still(s))
    && (s.timer ==> HandedOver(s) && s.operation)
  }

  predicate Running(s: State) {
    s.caller == Outside && s.started
  }

  predicate Inv(s: State) {
    && Safe(s)
    && (s.suspend ==> s.caller == Spinning)
    && (s.thread == Clearing ==> s.suspend)
    && (s.caller == Spinning && !s.suspend ==> Still(s))
    && (s.started ==> s.caller == Outside)
    && (s.timer <==> (s.caller == TimerStarted || s.caller == Stopping || Running(s)))
    && (s.operation <==>
        (s.caller == PhaseSet || s.caller == Spinning || s.caller == Released || s.caller == TimerStarted
         || s.caller == Stopping || s.caller == TimerStopped || Running(s)))
  }

  lemma InvKept(s: State, step: Step)
    requires Inv(s)
    ensures Inv(Next(s, step))
  {
  }

  /** In every interleaving: from the end of the wait loop until ec_master_enter_idle resumes it, the non-periodic
      thread is past its last send; and the cyclic handler sends only between timer start and timer stop, in that time.
      */
  lemma {:induction false} SingleSender(s: State, steps: seq<Step>)
    requires Inv(s)
    ensures Inv(Run(s, steps)) && Safe(Run(s, steps))
    decreases |steps|
  {
    if steps == [] {
    } else {
      InvKept(s, steps[0]);
      SingleSender(Next(s, steps[0]), steps[1..]);
    }
  }

  /** The thread does not send in a state in which the cyclic handler would. */
  lemma NeverBoth(steps: seq<Step>, a: Step)
    ensures var s := Run(INITIAL, steps);
      && !(Next(s, ThreadStep).threadSends > s.threadSends && Next(s, Tick).cyclicSends > s.cyclicSends)
      && (HandedOver(s) ==> Next(s, a).threadSends == s.threadSends)
      && (!HandedOver(s) ==> Next(s, a).cyclicSends == s.cyclicSends)
  {
    SingleSender(INITIAL, steps);
  }

  // ----- the resume that gets lost -----

  /** Idle, or starting again, with a thread that nobody will resume. */
  predicate Stuck(s: State) {
    && Still(s)
    && ((s.caller == Outside && !s.started) || s.caller == Entered || s.caller == PhaseSet ||
        (s.caller == Spinning && s.suspend))
    && !s.timer
  }

  /** ec_master_enter_idle brings the thread back exactly if it has finished suspending itself. */
  lemma ResumeLostIff(s: State)
    requires Inv(s) && s.caller == FlagCleared
    ensures Stuck(Next(s, CallerStep)) <==> s.thread == Suspending
    ensures Next(s, CallerStep).thread == Waiting <==> s.thread == Suspended
  {
  }

  /** Once the resume is lost, nobody ever sends again, and no later start gets past its wait loop. */
  lemma {:induction false} StuckForever(s: State, steps: seq<Step>)
    requires Stuck(s)
    ensures var r := Run(s, steps);
      Stuck(r) && r.threadSends == s.threadSends && r.cyclicSends == s.cyclicSends && !HandedOver(r)
    decreases |steps|
  {
    if steps == [] {
    } else {
      StuckForever(Next(s, steps[0]), steps[1..]);
    }
  }

  lemma {:induction false} RunAppend(s: State, a: seq<Step>, b: seq<Step>)
    ensures Run(s, a + b) == Run(Run(s, a), b)
    decreases |a|
  {
    if a == [] {
      assert a + b == b;
    } else {
      assert (a + b)[1..] == a[1..] + b;
      RunAppend(Next(s, a[0]), a[1..], b);
    }
  }

  ghost predicate Reaches(s: State, t: State) {
    exists steps :: Run(s, steps) == t
  }

  lemma ReachesItself(s: State)
    ensures Reaches(s, s)
  {
    assert Run(s, []) == s;
  }

  lemma ReachesBy(s: State, step: Step, t: State)
    requires Reaches(Next(s, step), t)
    ensures Reaches(s, t)
  {
    hide Next;
    var rest :| Run(Next(s, step), rest) == t;
    var steps := [step] + rest;
    assert steps[1..] == rest;
    assert Run(s, steps) == t;
  }

  /** The thread has seen the flag and is about to suspend itself; ec_master_start waits for it. */
  const SEEN: State := State(Suspending, Spinning, false, true, false, false, 1, 0)
  const STARTED: State := State(Suspending, Outside, false, true, true, true, 1, 0)
  const STOPPED: State := State(Suspending, Outside, false, false, false, false, 1, 0)

  /** The wait loop ends, and the master has started; the thread has not moved. */
  lemma StartEnds()
    ensures Reaches(SEEN, STARTED)
  {
    hide Reaches;
    ReachesItself(STARTED);
    ReachesBy(State(Suspending, TimerStarted, false, true, true, false, 1, 0), CallerStep, STARTED);
    ReachesBy(State(Suspending, Released, false, true, false, false, 1, 0), CallerStep, STARTED);
    ReachesBy(SEEN, CallerStep, STARTED);
  }

  /** The master stops; the thread has still not moved. */
  lemma StopEnds()
    ensures Reaches(STARTED, STOPPED)
  {
    hide Reaches;
    ReachesItself(STOPPED);
    ReachesBy(State(Suspending, FlagCleared, false, false, false, false, 1, 0), CallerStep, STOPPED);
    ReachesBy(State(Suspending, PhaseIdle, false, false, false, false, 1, 0), CallerStep, STOPPED);
    ReachesBy(State(Suspending, TimerStopped, false, true, false, false, 1, 0), CallerStep, STOPPED);
    ReachesBy(State(Suspending, Stopping, false, true, true, false, 1, 0), CallerStep, STOPPED);
    ReachesBy(STARTED, Stop, STOPPED);
  }

  /** The wait loop is reached, and the thread sees and clears the flag. */
  lemma FlagSeen()
    ensures Reaches(INITIAL, SEEN)
  {
    hide Reaches;
    ReachesItself(SEEN);
    ReachesBy(State(Clearing, Spinning, true, true, false, false, 1, 0), ThreadStep, SEEN);
    ReachesBy(State(Checking, Spinning, true, true, false, false, 1, 0), ThreadStep, SEEN);
    ReachesBy(State(Sending, Spinning, true, true, false, false, 0, 0), ThreadStep, SEEN);
    ReachesBy(State(Waiting, Spinning, true, true, false, false, 0, 0), ThreadStep, SEEN);
    ReachesBy(State(Waiting, PhaseSet, false, true, false, false, 0, 0), CallerStep, SEEN);
    ReachesBy(State(Waiting, Entered, false, false, false, false, 0, 0), CallerStep, SEEN);
    ReachesBy(INITIAL, Start, SEEN);
  }

  /** It does happen: the thread clears the flag, and before it suspends itself the master has started and stopped. */
  lemma LostResume()
    ensures exists steps :: Stuck(Run(INITIAL, steps)) && Run(INITIAL, steps).caller == Outside
  {
    hide Run;
    FlagSeen();
    StartEnds();
    StopEnds();
    var a :| Run(INITIAL, a) == SEEN;
    var b :| Run(SEEN, b) == STARTED;
    var c :| Run(STARTED, c) == STOPPED;
    RunAppend(INITIAL, a, b);
    RunAppend(INITIAL, a + b, c);
    assert Stuck(Run(INITIAL, a + b + c));
  }

  // ----- who does send -----

  function Ticks(n: nat): (t: seq<Step>)
    ensures |t| == n
  {
    seq(n, i => Tick)
  }

  /** While the master operates every tick of the timer sends once. */
  lemma {:induction false} EveryTickSends(s: State, n: nat)
    requires s.timer && s.operation
    ensures Run(s, Ticks(n)) == s.(cyclicSends := s.cyclicSends + n)
    decreases n
  {
    if n == 0 {
    } else {
      assert Ticks(n)[1..] == Ticks(n - 1);
      EveryTickSends(Next(s, Tick), n - 1);
    }
  }

  /** A master that starts while the thread has time to suspend itself, operates, and stops: before and afterwards the
      thread sends, and the cyclic handler in between. */
  lemma ThreadHandlerThread()
    ensures Reaches(INITIAL, State(Sending, Outside, false, false, false, false, 1, 1))
  {
    hide Reaches;
    ReachesItself(State(Sending, Outside, false, false, false, false, 1, 1));
    var t := State(Sending, Outside, false, false, false, false, 1, 1);
    ReachesBy(State(Waiting, Outside, false, false, false, false, 1, 1), ThreadStep, t);
    ReachesBy(State(Suspended, FlagCleared, false, false, false, false, 1, 1), CallerStep, t);
    ReachesBy(State(Suspended, PhaseIdle, false, false, false, false, 1, 1), CallerStep, t);
    ReachesBy(State(Suspended, TimerStopped, false, true, false, false, 1, 1), CallerStep, t);
    ReachesBy(State(Suspended, Stopping, false, true, true, false, 1, 1), CallerStep, t);
    ReachesBy(State(Suspended, Outside, false, true, true, true, 1, 1), Stop, t);
    ReachesBy(State(Suspended, Outside, false, true, true, true, 1, 0), Tick, t);
    ReachesBy(STARTED, ThreadStep, t);
    FlagSeen();
    StartEnds();
    Joined(INITIAL, SEEN, STARTED);
    Joined(INITIAL, STARTED, t);
  }

  lemma Joined(a: State, b: State, c: State)
    requires Reaches(a, b) && Reaches(b, c)
    ensures Reaches(a, c)
  {
    hide Next;
    var s :| Run(a, s) == b;
    var t :| Run(b, t) == c;
    RunAppend(a, s, t);
  }
}
