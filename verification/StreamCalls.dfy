/**
 What a call comes to, from its first step on: start, stop, pause and resume interleaved in any way
 with the task, while the other calls write no flag.
 */
module StreamCalls {
  import opened StreamSpec
  import opened StreamRuns

  // Of the other calls only clearing the buffer and giving the semaphore is left.
  predicate OthersCalm(w: World, id: nat) {
    forall j :: j in w.callers && j != id ==> CalmCaller(w.callers[j])
  }

  predicate Returned(w: World, id: nat) {
    id in w.callers && w.callers[id].k == |Program(w.callers[id].call)|
  }

  // The call `id` is under way, and no destroy flag is set or about to be.
  predicate Under(w: World, id: nat, call: Call) {
    && id in w.callers && w.callers[id].call == call && !call.Destroy? && CallerOk(w, w.callers[id])
    && OthersCalm(w, id)
    && !w.flags.destroy && (w.snap.Some? ==> !w.snap.value.destroy)
    && (w.callers[id].snap.Some? ==> !w.callers[id].snap.value.destroy)
  }

  // A call that has returned leaves only calm ones.
  lemma {:induction false} ReturnedIsCalm(w: World, id: nat, call: Call)
    requires Under(w, id, call) && Returned(w, id)
    ensures Calm(w)
  {
    assert CalmCaller(w.callers[id]);
  }

  lemma {:induction false} OthersGive(w: World, id: nat, j: nat)
    requires OthersCalm(w, id) && j != id && Enabled(w, Proceed(j))
    ensures var v := Next(w, Proceed(j));
      && OthersCalm(v, id) && (v.sem == w.sem || v.sem == 1)
      && v == w.(sem := v.sem, callers := v.callers)
      && (id in w.callers ==> id in v.callers && v.callers[id] == w.callers[id])
  {
    assert CalmCaller(w.callers[j]);
  }

  // The run `run` of a call that begins in `w`
  predicate CallRuns(w: World, id: nat, call: Call, run: seq<Step>) {
    MayBegin(w, id, call) && CanRun(Next(w, Begin(id, call)), run) && NoBegin(run)
  }

  function After(w: World, id: nat, call: Call, run: seq<Step>): World
    requires CallRuns(w, id, call, run)
  {
    Final(Next(w, Begin(id, call)), run)
  }

  lemma {:induction false} Begins(w: World, id: nat, call: Call)
    requires Inv(w) && Calm(w) && MayBegin(w, id, call) && !call.Destroy? && !w.flags.destroy
    requires w.snap.Some? ==> !w.snap.value.destroy
    ensures Under(Next(w, Begin(id, call)), id, call)
  {
    var v := Next(w, Begin(id, call));
    forall j | j in v.callers && j != id ensures CalmCaller(v.callers[j]) {
      assert v.callers[j] == w.callers[j];
    }
  }

  predicate Has(c: Call, op: Op) {
    exists i :: 0 <= i < |Program(c)| && Program(c)[i] == op
  }

  // Every call but a pause wakes the task. A start call alone clears the buffer, once, and before
  // that.
  lemma {:induction false} ClearsAndWakes(c: Call)
    ensures Has(c, Give) <==> !c.Pause?
    ensures Has(c, Zero) <==> c.Start?
    ensures forall i, j :: 0 <= i < |Program(c)| && 0 <= j < |Program(c)| ==>
      (Program(c)[i].Zero? && Program(c)[j].Zero? ==> i == j) && (Program(c)[i].Zero? && Program(c)[j].Give? ==> i < j)
  {
    var p := Program(c);
    match c
    case Start => assert p[2] == Zero && p[3] == Give;
    case Stop => assert p[2] == Give;
    case Pause =>
    case Resume => assert p[1] == Give;
    case Destroy => assert p[1] == Give;
  }

  // Steps of a call until it returns
  function Remaining(c: Caller): int {
    2 * (|Program(c.call)| - c.k) - (if c.snap.Some? then 1 else 0)
  }

  // Such a call never waits: whatever has happened, it goes on until it returns.
  lemma {:induction false} CallGoesOn(w: World, id: nat, call: Call)
    requires Under(w, id, call)
    ensures Returned(w, id) <==> Remaining(w.callers[id]) == 0
    ensures !Returned(w, id) ==>
      && Enabled(w, Proceed(id)) && id in Next(w, Proceed(id)).callers
      && 0 <= Remaining(Next(w, Proceed(id)).callers[id]) < Remaining(w.callers[id])
  {
    if !Returned(w, id) {
      EffectBounds(w, w.callers[id]);
      assert Next(w, Proceed(id)).callers[id] == Onward(w, w.callers[id]);
    }
  }

  // ------------------------------------------------------------------------- start and resume

  // The run flag is set: by the start call, or since before the resume call.
  predicate RunSet(c: Caller) {
    c.call.Resume? || c.k >= 1
  }

  // The task is on its way to a start, or waits for one; `done` tells that the run flag has been
  // set, and `given` that the semaphore has been given after that.
  predicate OnItsWay(w: World, done: bool, given: bool) {
    && !w.flags.destroy && StartRank(w.place) > 0
    && (w.snap.Some? <==> w.place.ClrPauseStore?)
    && (w.snap.Some? ==> w.snap.value.run && !w.snap.value.destroy)
    && (done || StartRank(w.place) <= 6 ==> w.flags.run)
    && (given && StartRank(w.place) >= 9 ==> w.sem == 1)
  }

  predicate Launching(w: World, id: nat, call: Call) {
    && (call.Start? || call.Resume?) && Under(w, id, call)
    && OnItsWay(w, RunSet(w.callers[id]), Returned(w, id))
    && (RunSet(w.callers[id]) && w.callers[id].snap.Some? ==> w.callers[id].snap.value.run)
  }

  lemma {:induction false} StaysOnItsWay(w: World, a: Answer, done: bool, given: bool)
    requires OnItsWay(w, done, given) && (given ==> done) && TaskEnabled(w, a)
    ensures var v := TaskNext(w, a);
      if w.place.EmitStarted? then v.events == w.events + [EvStarted]
      else if w.place.EmitFailed? then v.events == w.events + [EvFailed]
      else v.events == w.events && OnItsWay(v, done, given) && (v.place.EmitFailed? ==> a.InitFails?)
  {
  }

  // A step of the task leaves the calls as they are.
  lemma {:induction false} CallsStay(w: World, a: Answer)
    requires TaskEnabled(w, a)
    ensures TaskNext(w, a).callers == w.callers
  {
  }

  lemma {:induction false} LaunchingTask(w: World, id: nat, call: Call, a: Answer)
    requires Launching(w, id, call) && TaskEnabled(w, a)
    ensures var v := TaskNext(w, a);
      if w.place.EmitStarted? then v.events == w.events + [EvStarted]
      else if w.place.EmitFailed? then v.events == w.events + [EvFailed]
      else v.events == w.events && Launching(v, id, call) && (v.place.EmitFailed? ==> a.InitFails?)
  {
    CallsStay(w, a);
    StaysOnItsWay(w, a, RunSet(w.callers[id]), Returned(w, id));
  }

  lemma {:induction false} LaunchingCall(w: World, id: nat, call: Call)
    requires Launching(w, id, call) && Enabled(w, Proceed(id))
    ensures var v := Next(w, Proceed(id)); v.events == w.events && v.place == w.place && Launching(v, id, call)
  {
    var v := Next(w, Proceed(id));
    EffectBounds(w, w.callers[id]);
    assert forall j :: j in w.callers && j != id ==> v.callers[j] == w.callers[j];
    assert v.callers[id] == Onward(w, w.callers[id]);
  }

  lemma {:induction false} LaunchingStep(w: World, id: nat, call: Call, s: Step)
    requires Launching(w, id, call) && Enabled(w, s) && !s.Begin?
    ensures var v := Next(w, s);
      || v.events == w.events + [EvStarted]
      || (v.events == w.events + [EvFailed] && w.place.EmitFailed?)
      || (v.events == w.events && Launching(v, id, call)
          && (v.place.EmitFailed? ==> w.place.EmitFailed? || s == Task(InitFails)))
  {
    match s
    case Task(a) => LaunchingTask(w, id, call, a);
    case Proceed(j) =>
      if j == id {
        LaunchingCall(w, id, call);
      } else {
        OthersGive(w, id, j);
      }
  }

  lemma {:induction false} LaunchingRun(w: World, id: nat, call: Call, run: seq<Step>)
    requires Launching(w, id, call) && CanRun(w, run) && NoBegin(run)
    ensures var v := Final(w, run);
      || w.events + [EvStarted] <= v.events
      || (w.events + [EvFailed] <= v.events && (w.place.EmitFailed? || Task(InitFails) in run))
      || (v.events == w.events && Launching(v, id, call)
          && (v.place.EmitFailed? ==> w.place.EmitFailed? || Task(InitFails) in run))
    decreases |run|
  {
    if run != [] {
      assert run[0] in run;
      LaunchingStep(w, id, call, run[0]);
      var v := Next(w, run[0]);
      if v.events == w.events {
        LaunchingRun(v, id, call, run[1..]);
        assert Task(InitFails) in run[1..] ==> Task(InitFails) in run;
      } else {
        EventsGrow(v, run[1..]);
      }
    }
  }

  // STARTED is the next event, or FAILED, and that only if an initialisation has failed.
  predicate StartsNext(w: World, v: World, run: seq<Step>) {
    w.events + [EvStarted] <= v.events || (w.events + [EvFailed] <= v.events && Task(InitFails) in run)
  }

  // A start call, or a resume call of a stream that is paused with its run flag set, made while
  // the task waits: up to its return and in every interleaving from there on, STARTED is reported
  // next, after at most 11 further steps of the task; or FAILED, and only after a failed
  // initialisation.
  lemma {:induction false} StartCallIsFollowed(w: World, id: nat, call: Call, run: seq<Step>, more: seq<Step>)
    requires Inv(w) && w.place.Take? && Calm(w) && !w.flags.destroy
    requires call.Start? || (call.Resume? && w.flags.run)
    requires CallRuns(w, id, call, run) && Returned(After(w, id, call, run), id)
    requires CanRun(After(w, id, call, run), more) && NoBegin(more)
    ensures var u := After(w, id, call, run);
      var v := Final(u, more);
      || StartsNext(w, v, run + more)
      || (v.events == w.events && TaskEnabled(v, Fine) && TaskSteps(more) < 11)
  {
    Begins(w, id, call);
    var b := Next(w, Begin(id, call));
    LaunchingRun(b, id, call, run);
    var u := Final(b, run);
    assert forall s :: s in run || s in more ==> s in run + more;
    if u.events == w.events {
      ReturnedIsCalm(u, id, call);
      assert Starting(u);
      StartIsFollowed(u, more);
    } else {
      EventsGrow(u, more);
    }
  }

  // ------------------------------------------------------------------------------------- stop

  // The task moves data or winds up, and no pause is asked for; `cleared` tells that the run flag
  // has been cleared.
  predicate OnItsWayOut(w: World, cleared: bool) {
    && !w.flags.destroy && !w.flags.pause && StopRank(w.place) > 0
    && (w.snap.Some? <==> w.place.ClrRunStore?)
    && (w.snap.Some? ==> !w.snap.value.pause && !w.snap.value.destroy)
    && (cleared ==> !w.flags.run)
  }

  predicate Halting(w: World, id: nat) {
    && Under(w, id, Stop) && OnItsWayOut(w, w.callers[id].k >= 1)
    && (w.callers[id].snap.Some? ==> !w.callers[id].snap.value.pause)
    && (w.callers[id].k >= 1 && w.callers[id].snap.Some? ==> !w.callers[id].snap.value.run)
  }

  lemma {:induction false} StaysOnItsWayOut(w: World, a: Answer, cleared: bool)
    requires OnItsWayOut(w, cleared) && TaskEnabled(w, a)
    ensures var v := TaskNext(w, a);
      if w.place.EmitStopped? then v.events == w.events + [EvStopped] else v.events == w.events && OnItsWayOut(v, cleared)
  {
  }

  lemma {:induction false} HaltingTask(w: World, id: nat, a: Answer)
    requires Halting(w, id) && TaskEnabled(w, a)
    ensures var v := TaskNext(w, a);
      if w.place.EmitStopped? then v.events == w.events + [EvStopped] else v.events == w.events && Halting(v, id)
  {
    CallsStay(w, a);
    StaysOnItsWayOut(w, a, w.callers[id].k >= 1);
  }

  lemma {:induction false} HaltingCall(w: World, id: nat)
    requires Halting(w, id) && Enabled(w, Proceed(id))
    ensures var v := Next(w, Proceed(id)); v.events == w.events && Halting(v, id)
  {
    var v := Next(w, Proceed(id));
    EffectBounds(w, w.callers[id]);
    assert forall j :: j in w.callers && j != id ==> v.callers[j] == w.callers[j];
    assert v.callers[id] == Onward(w, w.callers[id]);
  }

  lemma {:induction false} HaltingStep(w: World, id: nat, s: Step)
    requires Halting(w, id) && Enabled(w, s) && !s.Begin?
    ensures var v := Next(w, s); v.events == w.events + [EvStopped] || (v.events == w.events && Halting(v, id))
  {
    match s
    case Task(a) => HaltingTask(w, id, a);
    case Proceed(j) =>
      if j == id {
        HaltingCall(w, id);
      } else {
        OthersGive(w, id, j);
      }
  }

  lemma {:induction false} HaltingRun(w: World, id: nat, run: seq<Step>)
    requires Halting(w, id) && CanRun(w, run) && NoBegin(run)
    ensures var v := Final(w, run); w.events + [EvStopped] <= v.events || (v.events == w.events && Halting(v, id))
    decreases |run|
  {
    if run != [] {
      assert run[0] in run;
      HaltingStep(w, id, run[0]);
      var v := Next(w, run[0]);
      if v.events == w.events {
        HaltingRun(v, id, run[1..]);
      } else {
        EventsGrow(v, run[1..]);
      }
    }
  }

  // The task moves data: it is in its loop, and no pause or destroy is asked for.
  predicate MovesData(w: World) {
    InLoop(w.place) && !w.flags.pause && !w.flags.destroy
  }

  // A stop call made while the stream moves data: STOPPED is reported next in every interleaving,
  // after at most 12 steps of the task from its return on.
  lemma {:induction false} StopCallIsFollowed(w: World, id: nat, run: seq<Step>, more: seq<Step>)
    requires Inv(w) && MovesData(w) && Calm(w)
    requires CallRuns(w, id, Stop, run) && Returned(After(w, id, Stop, run), id)
    requires CanRun(After(w, id, Stop, run), more) && NoBegin(more)
    ensures var v := Final(After(w, id, Stop, run), more);
      || w.events + [EvStopped] <= v.events
      || (v.events == w.events && TaskEnabled(v, Fine) && TaskSteps(more) < 12)
  {
    Begins(w, id, Stop);
    var b := Next(w, Begin(id, Stop));
    HaltingRun(b, id, run);
    var u := Final(b, run);
    if u.events == w.events {
      ReturnedIsCalm(u, id, Stop);
      assert Stopping(u);
      StopIsFollowed(u, more);
    } else {
      EventsGrow(u, more);
    }
  }

  // ------------------------------------------------------------------------------------ pause

  predicate NoEnd(run: seq<Step>) {
    Task(Ends) !in run
  }

  predicate InLoop(p: Place) {
    p.WhileRun? || p.Io? || p.LoopChkPause? || p.LoopChkDestroy?
  }

  // The task moves data until it sees the pause flag, which `done` tells about.
  predicate OnItsWayToPause(w: World, done: bool) {
    && w.snap.None? && w.flags.run && !w.flags.destroy && w.flags.pause == done
    && (InLoop(w.place) || (done && PauseRank(w.place) > 0 && !w.place.ClrRunLoad? && !w.place.ClrRunStore?))
  }

  predicate Holding(w: World, id: nat) {
    && Under(w, id, Pause) && OnItsWayToPause(w, w.callers[id].k == 1)
    && (w.callers[id].snap.Some? ==> w.callers[id].snap.value.run)
  }

  lemma {:induction false} StaysOnItsWayToPause(w: World, a: Answer, done: bool)
    requires OnItsWayToPause(w, done) && TaskEnabled(w, a) && !a.Ends?
    ensures var v := TaskNext(w, a);
      if w.place.EmitPaused? then v.events == w.events + [EvPaused] else v.events == w.events && OnItsWayToPause(v, done)
  {
  }

  lemma {:induction false} HoldingTask(w: World, id: nat, a: Answer)
    requires Holding(w, id) && TaskEnabled(w, a) && !a.Ends?
    ensures var v := TaskNext(w, a);
      if w.place.EmitPaused? then v.events == w.events + [EvPaused] else v.events == w.events && Holding(v, id)
  {
    CallsStay(w, a);
    StaysOnItsWayToPause(w, a, w.callers[id].k == 1);
  }

  lemma {:induction false} HoldingCall(w: World, id: nat)
    requires Holding(w, id) && Enabled(w, Proceed(id))
    ensures var v := Next(w, Proceed(id)); v.events == w.events && Holding(v, id)
  {
    var v := Next(w, Proceed(id));
    EffectBounds(w, w.callers[id]);
    assert forall j :: j in w.callers && j != id ==> v.callers[j] == w.callers[j];
    assert v.callers[id] == Onward(w, w.callers[id]);
  }

  lemma {:induction false} HoldingStep(w: World, id: nat, s: Step)
    requires Holding(w, id) && Enabled(w, s) && !s.Begin? && s != Task(Ends)
    ensures var v := Next(w, s); v.events == w.events + [EvPaused] || (v.events == w.events && Holding(v, id))
  {
    match s
    case Task(a) => HoldingTask(w, id, a);
    case Proceed(j) =>
      if j == id {
        HoldingCall(w, id);
      } else {
        OthersGive(w, id, j);
      }
  }

  lemma {:induction false} HoldingRun(w: World, id: nat, run: seq<Step>)
    requires Holding(w, id) && CanRun(w, run) && NoBegin(run) && NoEnd(run)
    ensures var v := Final(w, run); w.events + [EvPaused] <= v.events || (v.events == w.events && Holding(v, id))
    decreases |run|
  {
    if run != [] {
      assert run[0] in run;
      HoldingStep(w, id, run[0]);
      var v := Next(w, run[0]);
      if v.events == w.events {
        HoldingRun(v, id, run[1..]);
      } else {
        EventsGrow(v, run[1..]);
      }
    }
  }

  // A pause call made while the stream moves data, which do not end before it returns: PAUSED is
  // reported next in every interleaving, whether the data end later or not, after at most 9 steps
  // of the task from its return on and two for each wakeup of the reader.
  lemma {:induction false} PauseCallIsFollowed(w: World, id: nat, run: seq<Step>, more: seq<Step>)
    requires Inv(w) && MovesData(w) && w.flags.run && Calm(w)
    requires CallRuns(w, id, Pause, run) && NoEnd(run) && Returned(After(w, id, Pause, run), id)
    requires CanRun(After(w, id, Pause, run), more) && NoBegin(more)
    ensures var u := After(w, id, Pause, run);
      var v := Final(u, more);
      || w.events + [EvPaused] <= v.events
      || (v.events == w.events && TaskEnabled(v, Fine) && TaskSteps(more) < 9 + 2 * u.wakeups)
  {
    Begins(w, id, Pause);
    var b := Next(w, Begin(id, Pause));
    HoldingRun(b, id, run);
    var u := Final(b, run);
    if u.events == w.events {
      ReturnedIsCalm(u, id, Pause);
      assert Pausing(u);
      PauseIsFollowed(u, more);
    } else {
      EventsGrow(u, more);
    }
  }
}
