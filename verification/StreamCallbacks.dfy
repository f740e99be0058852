/**
 Which of the stream's own functions the task calls around each event it reports: the initialisation
 of the context, the signal that the data end, and the cleanup of the context.
 */
module StreamCallbacks {
  import opened Common
  import opened StreamSpec
  import opened StreamRuns
  import opened StreamCalls

  datatype Callback = InitContext | SignalEnd | CleanUp

  // What a step calls
  function CallsAt(w: World, s: Step): seq<Callback> {
    if !s.Task? then []
    else match w.place
      case CtxInit => [InitContext]
      case SendEnd => [SignalEnd]
      case CleanupIdle => [CleanUp]
      case CleanupEnd => [CleanUp]
      case CleanupDestroyed => [CleanUp]
      case _ => []
  }

  function Callbacks(w: World, run: seq<Step>): seq<Callback>
    requires CanRun(w, run)
    decreases |run|
  {
    if run == [] then [] else CallsAt(w, run[0]) + Callbacks(Next(w, run[0]), run[1..])
  }

  // From these places on the task goes straight to where it waits, ends or moves data: in how many
  // steps, with which calls and with which event.
  datatype Ahead = Ahead(steps: nat, calls: seq<Callback>, event: Option<Event>, to: Place)

  function Straight(p: Place): Ahead {
    match p
    case CtxInit => Ahead(5, [InitContext], Some(EvStarted), WhileRun)
    case ClrPauseLoad => Ahead(4, [], Some(EvStarted), WhileRun)
    case ClrPauseStore => Ahead(3, [], Some(EvStarted), WhileRun)
    case SetRunning => Ahead(2, [], Some(EvStarted), WhileRun)
    case EmitStarted => Ahead(1, [], Some(EvStarted), WhileRun)
    case EmitFailed => Ahead(2, [], Some(EvFailed), Take)
    case CleanupIdle => Ahead(2, [CleanUp], None, Take)
    case EmitPaused => Ahead(3, [], Some(EvPaused), Take)
    case SetPaused => Ahead(2, [], None, Take)
    case SendEnd => Ahead(4, [SignalEnd, CleanUp], Some(EvStopped), Take)
    case CleanupEnd => Ahead(3, [CleanUp], Some(EvStopped), Take)
    case EmitStopped => Ahead(2, [], Some(EvStopped), Take)
    case SetStopped => Ahead(1, [], None, Take)
    case EmitDestroyed => Ahead(3, [CleanUp], Some(EvDestroyed), Done)
    case CleanupDestroyed => Ahead(2, [CleanUp], None, Done)
    case SetDestroyed => Ahead(1, [], None, Done)
    case _ => Ahead(0, [], None, p)
  }

  function AsSeq(e: Option<Event>): seq<Event> {
    if e.Some? then [e.value] else []
  }

  lemma {:induction false} StraightMoves(w: World, a: Answer)
    requires TaskEnabled(w, a) && !a.InitFails? && Straight(w.place).steps > 0
    ensures var s, t := Straight(w.place), Straight(Goes(w, a));
      t.steps == s.steps - 1 && t.to == s.to && s.calls == CallsAt(w, Task(a)) + t.calls
  {
  }

  lemma {:induction false} StraightEvents(w: World, a: Answer)
    requires TaskEnabled(w, a) && !a.InitFails? && Straight(w.place).steps > 0
    ensures var s, t := Straight(w.place), Straight(Goes(w, a));
      if EventAt(w.place).Some? then s.event == EventAt(w.place) && t.event.None? else s.event == t.event
  {
  }

  lemma {:induction false} StraightStep(w: World, a: Answer)
    requires TaskEnabled(w, a) && !a.InitFails? && Straight(w.place).steps > 0
    ensures var v, s, t := TaskNext(w, a), Straight(w.place), Straight(Goes(w, a));
      && v.place == Goes(w, a) && t.steps == s.steps - 1 && t.to == s.to
      && s.calls == CallsAt(w, Task(a)) + t.calls && w.events + AsSeq(s.event) == v.events + AsSeq(t.event)
  {
    StraightMoves(w, a);
    StraightEvents(w, a);
    TaskEmits(w, a);
    assert forall s: seq<Event> :: s + [] == s;
  }

  lemma {:induction false} EffectWaits(w: World, c: Caller)
    requires CallerEnabled(w, c)
    ensures var v := Effect(w, c); v.place == w.place && v.state == w.state && v.events == w.events
  {
  }

  lemma {:induction false} CallsWait(w: World, s: Step)
    requires Enabled(w, s) && !s.Task?
    ensures var v := Next(w, s); v.place == w.place && v.state == w.state && v.events == w.events && CallsAt(w, s) == []
  {
    if s.Proceed? {
      EffectWaits(w, w.callers[s.id]);
    }
  }

  // However the callers come in between
  lemma {:induction false} GoesStraight(w: World, run: seq<Step>)
    requires CanRun(w, run) && Task(InitFails) !in run && TaskSteps(run) == Straight(w.place).steps
    ensures var v, s := Final(w, run), Straight(w.place);
      v.place == s.to && v.events == w.events + AsSeq(s.event) && Callbacks(w, run) == s.calls
    decreases |run|
  {
    if run != [] {
      assert run[0] in run;
      if run[0].Task? {
        StraightStep(w, run[0].answer);
      } else {
        CallsWait(w, run[0]);
      }
      assert forall s :: s in run[1..] ==> s in run;
      GoesStraight(Next(w, run[0]), run[1..]);
    }
  }

  // The first step of the run is the task's, and `n` more of them follow, however the callers come
  // in between.
  predicate Runs(w: World, run: seq<Step>, n: nat) {
    CanRun(w, run) && run != [] && run[0].Task? && TaskSteps(run) == n + 1
  }

  // The events reported and the functions called in a run, and where it ends
  predicate Amounts(w: World, run: seq<Step>, calls: seq<Callback>, events: seq<Event>, to: Place)
    requires CanRun(w, run)
  {
    Callbacks(w, run) == calls && Final(w, run).events == w.events + events && Final(w, run).place == to
  }

  lemma {:induction false} ThenStraight(w: World, run: seq<Step>, n: nat)
    requires Runs(w, run, n) && Task(InitFails) !in run[1..]
    requires CallsAt(w, run[0]) == [] && Next(w, run[0]).events == w.events
    requires Straight(Goes(w, run[0].answer)).steps == n
    ensures var s := Straight(Goes(w, run[0].answer)); Amounts(w, run, s.calls, AsSeq(s.event), s.to)
  {
    GoesStraight(Next(w, run[0]), run[1..]);
  }

  /**
   A start initialises the context, unless the pause flag is set when the task looks at it; STARTED
   is reported either way.
   */
  lemma {:induction false} StartInitialisesIff(w: World, run: seq<Step>)
    requires w.place.ChkPause? && Runs(w, run, if w.flags.pause then 4 else 5) && Task(InitFails) !in run
    ensures Amounts(w, run, if w.flags.pause then [] else [InitContext], [EvStarted], WhileRun)
  {
    assert forall s :: s in run[1..] ==> s in run;
    ThenStraight(w, run, if w.flags.pause then 4 else 5);
  }

  /** A failed initialisation is not cleaned up. */
  lemma {:induction false} FailureCleansNothing(w: World, run: seq<Step>)
    requires w.place.CtxInit? && Runs(w, run, 2) && run[0].answer.InitFails? && Task(InitFails) !in run[1..]
    ensures Amounts(w, run, [InitContext], [EvFailed], Take)
  {
    GoesStraight(Next(w, run[0]), run[1..]);
  }

  /** A wakeup without the run flag cleans up, and reports nothing. */
  lemma {:induction false} IdleCleansUp(w: World, run: seq<Step>)
    requires w.place.ChkRun? && !w.flags.run && Runs(w, run, 2) && Task(InitFails) !in run
    ensures Amounts(w, run, [CleanUp], [], Take)
  {
    assert forall s :: s in run[1..] ==> s in run;
    ThenStraight(w, run, 2);
  }

  /** A pause keeps the context. */
  lemma {:induction false} PauseKeepsContext(w: World, run: seq<Step>)
    requires w.place.EndChkPause? && w.flags.pause && Runs(w, run, 3) && Task(InitFails) !in run
    ensures Amounts(w, run, [], [EvPaused], Take)
  {
    assert forall s :: s in run[1..] ==> s in run;
    ThenStraight(w, run, 3);
  }

  /** A stop cleans up, and before that a reader whose run flag is clear signals the end of the data. */
  lemma {:induction false} StopSignalsIff(w: World, run: seq<Step>)
    requires w.place.EndChkRun? && Runs(w, run, if !w.flags.run && w.reader then 4 else 3) && Task(InitFails) !in run
    ensures Amounts(w, run, if !w.flags.run && w.reader then [SignalEnd, CleanUp] else [CleanUp], [EvStopped], Take)
  {
    assert forall s :: s in run[1..] ==> s in run;
    ThenStraight(w, run, if !w.flags.run && w.reader then 4 else 3);
  }

  /** The end of the task cleans up after it is reported. */
  lemma {:induction false} EndCleansUp(w: World, run: seq<Step>)
    requires (w.place.ChkDestroy? || w.place.EndChkDestroy?) && w.flags.destroy && Runs(w, run, 3) && Task(InitFails) !in run
    ensures Amounts(w, run, [CleanUp], [EvDestroyed], Done)
  {
    assert forall s :: s in run[1..] ==> s in run;
    ThenStraight(w, run, 3);
  }

  // ------------------------------------------------------------- what a start or resume call does

  // Calls of functions before the task looks at the pause flag
  function Before(p: Place): seq<Callback> {
    if p.CleanupIdle? then [CleanUp] else []
  }

  lemma {:induction false} StartingStep(w: World, a: Answer)
    requires Starting(w) && StartRank(w.place) > 6 && TaskEnabled(w, a)
    ensures var v := TaskNext(w, a);
      && v.events == w.events && v.flags == w.flags && Starting(v) && StartRank(v.place) == StartRank(w.place) - 1
      && Before(w.place) == CallsAt(w, Task(a)) + Before(v.place)
  {
  }

  lemma {:induction false} StartingNext(w: World, s: Step)
    requires Starting(w) && Calm(w) && Enabled(w, s) && !s.Begin?
    requires if s.Task? then StartRank(w.place) > 6 else StartRank(w.place) >= 6
    ensures var v := Next(w, s);
      && v.events == w.events && v.flags == w.flags && Starting(v) && Calm(v)
      && StartRank(v.place) == StartRank(w.place) - (if s.Task? then 1 else 0)
      && Before(w.place) == CallsAt(w, s) + Before(v.place)
  {
    if s.Task? {
      StartingStep(w, s.answer);
      TaskStaysCalm(w, s.answer);
    } else {
      CallersStayCalm(w, s.id);
    }
  }

  // In a calm world the pause flag stays as it is until the task looks at it.
  lemma {:induction false} StartingCalls(w: World, run: seq<Step>)
    requires Starting(w) && Calm(w) && StartRank(w.place) >= 6
    requires CanRun(w, run) && NoBegin(run) && Task(InitFails) !in run
    requires TaskSteps(run) == StartRank(w.place) - if w.flags.pause then 1 else 0
    ensures Amounts(w, run, Before(w.place) + (if w.flags.pause then [] else [InitContext]), [EvStarted], WhileRun)
    decreases |run|
  {
    assert run[0] in run;
    if w.place.ChkPause? && run[0].Task? {
      StartInitialisesIff(w, run);
    } else {
      StartingNext(w, run[0]);
      assert forall s :: s in run[1..] ==> s in run;
      StartingCalls(Next(w, run[0]), run[1..]);
    }
  }

  // Once the call has stored the cleared pause flag
  predicate Unpaused(w: World, id: nat, call: Call) {
    id in w.callers && (w.callers[id].k >= (if call.Start? then 2 else 1) ==> !w.flags.pause)
  }

  lemma {:induction false} TaskSetsNoPause(w: World, a: Answer, done: bool, given: bool)
    requires OnItsWay(w, done, given) && TaskEnabled(w, a)
    ensures TaskNext(w, a).flags.pause ==> w.flags.pause
  {
  }

  lemma {:induction false} CallClearsPause(w: World, id: nat, call: Call)
    requires Launching(w, id, call) && Unpaused(w, id, call) && Enabled(w, Proceed(id))
    ensures Unpaused(Next(w, Proceed(id)), id, call)
  {
    EffectBounds(w, w.callers[id]);
    assert Next(w, Proceed(id)).callers[id] == Onward(w, w.callers[id]);
  }

  lemma {:induction false} StepStaysUnpaused(w: World, id: nat, call: Call, s: Step)
    requires Launching(w, id, call) && Unpaused(w, id, call) && Enabled(w, s) && !s.Begin?
    ensures Unpaused(Next(w, s), id, call)
  {
    match s
    case Task(a) =>
      TaskSetsNoPause(w, a, RunSet(w.callers[id]), Returned(w, id));
      CallsStay(w, a);
    case Proceed(j) =>
      if j == id {
        CallClearsPause(w, id, call);
      } else {
        OthersGive(w, id, j);
      }
  }

  lemma {:induction false} RunStaysUnpaused(w: World, id: nat, call: Call, run: seq<Step>)
    requires Launching(w, id, call) && Unpaused(w, id, call) && CanRun(w, run) && NoBegin(run)
    requires Final(w, run).events == w.events
    ensures Unpaused(Final(w, run), id, call)
    decreases |run|
  {
    if run != [] {
      assert run[0] in run;
      LaunchingStep(w, id, call, run[0]);
      StepStaysUnpaused(w, id, call, run[0]);
      EventsGrow(Next(w, run[0]), run[1..]);
      RunStaysUnpaused(Next(w, run[0]), id, call, run[1..]);
    }
  }

  /**
   A start call, and likewise a resume call of a paused stream, whose context has not been cleaned
   up: if the task has not looked at the pause flag before the call returns, the context is
   initialised before STARTED is reported, in every interleaving in which that succeeds.
   */
  lemma {:induction false} CallInitialises(w: World, id: nat, call: Call, run: seq<Step>, more: seq<Step>)
    requires Inv(w) && w.place.Take? && Calm(w) && !w.flags.destroy
    requires call.Start? || (call.Resume? && w.flags.run)
    requires CallRuns(w, id, call, run) && Returned(After(w, id, call, run), id)
    requires var u := After(w, id, call, run);
      && u.events == w.events && StartRank(u.place) >= 6
      && CanRun(u, more) && NoBegin(more) && Task(InitFails) !in more && TaskSteps(more) == StartRank(u.place)
    ensures var u := After(w, id, call, run);
      Amounts(u, more, Before(u.place) + [InitContext], [EvStarted], WhileRun)
  {
    Begins(w, id, call);
    var b := Next(w, Begin(id, call));
    var u := Final(b, run);
    LaunchingRun(b, id, call, run);
    RunStaysUnpaused(b, id, call, run);
    ReturnedIsCalm(u, id, call);
    StartingCalls(u, more);
  }

  // ---------------------------------------------------------------- what a stop of a paused stream does

  // The task's steps from the semaphore on until it waits again, without the run flag
  function QuietRank(p: Place): nat {
    match p
    case ChkDestroy => 4
    case ChkRun => 3
    case CleanupIdle => 2
    case SetStopped => 1
    case _ => 0
  }

  // The stop call `id` is the only one under way. The task waits until the call gives the semaphore,
  // and then finds both flags clear.
  predicate Quieting(w: World, id: nat) {
    && id in w.callers && w.callers[id].call.Stop? && CallerOk(w, w.callers[id]) && OthersDone(w, id)
    && w.snap.None? && !w.flags.destroy
    && var c := w.callers[id];
    && (c.k >= 1 ==> !w.flags.run) && (c.k >= 2 ==> !w.flags.pause)
    && (c.snap.Some? ==> !c.snap.value.destroy && (c.k >= 1 ==> !c.snap.value.run))
    && (w.place.Take? || (QuietRank(w.place) > 0 && w.sem == 0))
    && (c.k < 3 ==> w.place.Take? && w.sem == 0) && w.sem <= 1
  }

  function QuietLeft(w: World, id: nat): nat
    requires id in w.callers
  {
    if w.place.Take? && (w.sem == 1 || w.callers[id].k < 3) then 5 else QuietRank(w.place)
  }

  lemma {:induction false} QuietTask(w: World, id: nat, a: Answer)
    requires Quieting(w, id) && TaskEnabled(w, a)
    ensures var v := TaskNext(w, a);
      && v.events == w.events && Quieting(v, id) && QuietLeft(v, id) == QuietLeft(w, id) - 1
      && CallsAt(w, Task(a)) == if w.place.CleanupIdle? then [CleanUp] else []
  {
  }

  lemma {:induction false} QuietCall(w: World, id: nat, j: nat)
    requires Quieting(w, id) && Enabled(w, Proceed(j))
    ensures var v := Next(w, Proceed(j));
      v.events == w.events && Quieting(v, id) && QuietLeft(v, id) == QuietLeft(w, id)
  {
    var v := Next(w, Proceed(j));
    EffectBounds(w, w.callers[id]);
    assert v.callers[id] == Onward(w, w.callers[id]);
    assert forall j :: j in w.callers && j != id ==> v.callers[j] == w.callers[j];
  }

  lemma {:induction false} QuietRun(w: World, id: nat, run: seq<Step>)
    requires Quieting(w, id) && CanRun(w, run) && NoBegin(run) && TaskSteps(run) == QuietLeft(w, id)
    ensures Amounts(w, run, if QuietLeft(w, id) >= 2 then [CleanUp] else [], [], Take)
    ensures Returned(Final(w, run), id) && Final(w, run).flags == Flags(false, false, false)
    decreases |run|
  {
    if run != [] {
      assert run[0] in run;
      if run[0].Task? {
        QuietTask(w, id, run[0].answer);
      } else {
        QuietCall(w, id, run[0].id);
      }
      QuietRun(Next(w, run[0]), id, run[1..]);
    }
  }

  /**
   A stop call made while the task waits, as it does for a paused stream, with no other call under
   way: the context is cleaned up, both flags end up clear, and nothing is reported.
   */
  lemma {:induction false} StopWhileWaiting(w: World, id: nat, run: seq<Step>)
    requires Inv(w) && w.place.Take? && w.sem == 0 && OthersDone(w, id) && !w.flags.destroy
    requires CallRuns(w, id, Stop, run) && TaskSteps(run) == 5
    ensures var b := Next(w, Begin(id, Stop));
      && Amounts(b, run, [CleanUp], [], Take)
      && Returned(Final(b, run), id) && Final(b, run).flags == Flags(false, false, false)
  {
    var b := Next(w, Begin(id, Stop));
    assert forall j :: j in b.callers && j != id ==> b.callers[j] == w.callers[j];
    QuietRun(b, id, run);
  }

  // ------------------------------------------------------------------------------- the state

  // The state that goes with the place of the task
  predicate StateFits(s: State, p: Place) {
    match s
    case Init => p.SetStopped?
    case Running =>
      || InRun(p) || p.SetStopped? || p.EmitDestroyed? || p.CleanupDestroyed? || p.SetDestroyed?
    case Stopped => !InRun(p) && !p.Done?
    case Paused => p.SetStopped?
    case Destroyed => p.Done?
  }

  predicate InRun(p: Place) {
    || p.EmitStarted? || p.WhileRun? || p.Io? || p.ClrRunLoad? || p.ClrRunStore? || p.LoopChkPause? || p.LoopChkDestroy?
    || p.EndChkDestroy? || p.EndChkPause? || p.EmitPaused? || p.SetPaused?
    || p.EndChkRun? || p.SendEnd? || p.CleanupEnd? || p.EmitStopped?
  }

  function StateAfter(w: World): State {
    match w.place
    case SetStopped => Stopped
    case SetRunning => Running
    case SetPaused => Paused
    case SetDestroyed => Destroyed
    case _ => w.state
  }

  lemma {:induction false} TaskSetsState(w: World, a: Answer)
    requires TaskEnabled(w, a)
    ensures Does(w, a).state == StateAfter(w)
  {
    match w.place
    case SetStopped =>
    case SetRunning =>
    case SetPaused =>
    case SetDestroyed =>
    case _ =>
  }

  lemma {:induction false} StateStillFits(w: World, a: Answer)
    requires StateFits(w.state, w.place) && TaskEnabled(w, a)
    ensures StateFits(StateAfter(w), Goes(w, a))
  {
  }

  lemma {:induction false} StepKeepsState(w: World, s: Step)
    requires StateFits(w.state, w.place) && Enabled(w, s)
    ensures StateFits(Next(w, s).state, Next(w, s).place)
    ensures w.place.SetPaused? && s.Task? ==> Next(w, s).state.Paused?
  {
    if s.Task? {
      TaskSetsState(w, s.answer);
      StateStillFits(w, s.answer);
    } else {
      CallsWait(w, s);
    }
  }

  /** After PAUSED is reported the state is PAUSED, until the next step of the task. */
  lemma {:induction false} PausedForAMoment(w: World, run: seq<Step>)
    requires w.place.SetPaused? && CanRun(w, run) && TaskSteps(run) == 1
    ensures Final(w, run).state.Paused? && Final(w, run).place.SetStopped?
    decreases |run|
  {
    if run[0].Task? {
      StaysThere(Next(w, run[0]), run[1..]);
    } else {
      CallsWait(w, run[0]);
      PausedForAMoment(Next(w, run[0]), run[1..]);
    }
  }

  lemma {:induction false} StaysThere(w: World, run: seq<Step>)
    requires CanRun(w, run) && TaskSteps(run) == 0
    ensures Final(w, run).place == w.place && Final(w, run).state == w.state
    decreases |run|
  {
    if run != [] {
      CallsWait(w, run[0]);
      StaysThere(Next(w, run[0]), run[1..]);
    }
  }

  /**
   In every interleaving the state is RUNNING from before STARTED is reported until after the end
   of the run is, it is STOPPED when the task waits, and DESTROYED exactly when the task has ended;
   it is PAUSED only for a moment before the task waits again.
   */
  lemma {:induction false} StateFollows(reader: bool, wakeups: nat, run: seq<Step>)
    requires CanRun(Initial(reader, wakeups), run)
    ensures var v := Final(Initial(reader, wakeups), run);
      && (InRun(v.place) ==> v.state.Running?) && (v.place.Take? ==> v.state.Stopped?)
      && (v.state.Destroyed? <==> v.place.Done?) && (v.state.Paused? ==> v.place.SetStopped?)
      && StateFits(v.state, v.place)
  {
    RunKeepsState(Initial(reader, wakeups), run);
  }

  lemma {:induction false} RunKeepsState(w: World, run: seq<Step>)
    requires CanRun(w, run) && StateFits(w.state, w.place)
    ensures StateFits(Final(w, run).state, Final(w, run).place)
    decreases |run|
  {
    if run != [] {
      StepKeepsState(w, run[0]);
      RunKeepsState(Next(w, run[0]), run[1..]);
    }
  }
}
