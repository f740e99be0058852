/** What every interleaving of the stream task with its callers keeps. */
module StreamRuns {
  import opened Common
  import opened StreamSpec

  // No destroy call has stored its flag yet.
  predicate NoDestroyYet(w: World) {
    forall id :: id in w.callers && w.callers[id].call.Destroy? ==> w.callers[id].k == 0
  }

  predicate Clear(w: World) {
    && !w.flags.destroy
    && (w.snap.Some? ==> !w.snap.value.destroy)
    && (forall id :: id in w.callers && w.callers[id].snap.Some? ==> !w.callers[id].snap.value.destroy)
  }

  predicate CallerOk(w: World, c: Caller) {
    && c.k <= |Program(c.call)|
    && (c.snap.Some? ==> c.k < |Program(c.call)| && Program(c.call)[c.k].Set?)
    && (c.call.Destroy? && c.k >= 3 ==> w.state.Destroyed?)
  }

  predicate CallersOk(w: World) {
    forall id :: id in w.callers ==> CallerOk(w, w.callers[id])
  }

  predicate OneDestroy(w: World) {
    forall i, j :: i in w.callers && j in w.callers ==>
      (w.callers[i].call.Destroy? && w.callers[j].call.Destroy? ==> i == j)
  }

  predicate TaskOk(w: World) {
    && w.sem <= 1
    && (w.state.Destroyed? <==> w.place.Done?)
    && (w.snap.Some? <==> w.place.ClrPauseStore? || w.place.ClrRunStore?)
    && (!w.bufLive || !w.semLive ==> w.place.Done?)
  }

  predicate Inv(w: World) {
    && CallersOk(w) && OneDestroy(w) && TaskOk(w)
    && (NoDestroyYet(w) ==> Clear(w))
  }

  lemma InitialInv(reader: bool, wakeups: nat)
    ensures Inv(Initial(reader, wakeups))
  {
  }

  lemma {:induction false} TaskKeepsTaskOk(w: World, a: Answer)
    requires TaskOk(w) && TaskEnabled(w, a)
    ensures TaskOk(TaskNext(w, a))
  {
  }

  lemma {:induction false} TaskLeavesCallers(w: World, a: Answer)
    requires TaskOk(w) && TaskEnabled(w, a)
    ensures TaskNext(w, a).callers == w.callers
    ensures w.state.Destroyed? ==> TaskNext(w, a).state.Destroyed?
  {
  }

  lemma {:induction false} TaskKeepsClear(w: World, a: Answer)
    requires TaskOk(w) && TaskEnabled(w, a) && Clear(w)
    ensures Clear(TaskNext(w, a))
  {
    TaskLeavesCallers(w, a);
    var v := TaskNext(w, a);
    if w.place.ClrPauseStore? || w.place.ClrRunStore? {
      assert v.snap.None?;
    } else if !w.place.ClrPauseLoad? && !w.place.ClrRunLoad? {
      assert v.flags == w.flags && v.snap == w.snap;
    }
  }

  lemma {:induction false} TaskKeepsInv(w: World, a: Answer)
    requires Inv(w) && TaskEnabled(w, a)
    ensures Inv(TaskNext(w, a))
  {
    TaskKeepsTaskOk(w, a);
    TaskLeavesCallers(w, a);
    if NoDestroyYet(w) {
      TaskKeepsClear(w, a);
    }
    var v := TaskNext(w, a);
    forall id | id in v.callers ensures CallerOk(v, v.callers[id]) {
      assert CallerOk(w, w.callers[id]);
    }
  }

  lemma {:induction false} BeginKeepsInv(w: World, id: nat, c: Call)
    requires Inv(w) && MayBegin(w, id, c)
    ensures Inv(Next(w, Begin(id, c)))
  {
    var v := Next(w, Begin(id, c));
    forall j | j in v.callers ensures CallerOk(v, v.callers[j]) {
      assert j != id ==> CallerOk(w, w.callers[j]);
    }
    if NoDestroyYet(v) {
      forall j | j in w.callers && w.callers[j].call.Destroy? ensures w.callers[j].k == 0 {
        assert v.callers[j] == w.callers[j];
      }
      forall j | j in v.callers && v.callers[j].snap.Some? ensures !v.callers[j].snap.value.destroy {
        assert j != id && w.callers[j] == v.callers[j];
      }
    }
  }

  // What an operation of the call `c` can change: `e` is the world and `o` the call after it.
  predicate Bounded(w: World, c: Caller, e: World, o: Caller) {
    && e.place == w.place && e.state == w.state && e.snap == w.snap
    && e.reader == w.reader && e.wakeups == w.wakeups
    && (e.sem == w.sem || e.sem == 1)
    && (e.bufLive != w.bufLive || e.semLive != w.semLive ==> w.state.Destroyed?)
    && (c.snap.None? ==> e.flags == w.flags)
    && (c.snap.Some? ==> e.flags.destroy == (c.call.Destroy? || c.snap.value.destroy))
    && (c.snap.Some? ==> o.snap.None?)
    && CallerOk(w, o) && o.call == c.call
    && (if o.snap.Some? then o.snap.value == w.flags && o.k == c.k else o.k == c.k + 1)
  }

  lemma {:induction false} EffectBounds(w: World, c: Caller)
    requires CallerEnabled(w, c) && CallerOk(w, c)
    ensures Bounded(w, c, Effect(w, c), Onward(w, c))
  {
  }

  lemma {:induction false} BoundedKeepsClear(w: World, id: nat, e: World, o: Caller)
    requires NoDestroyYet(w) ==> Clear(w)
    requires id in w.callers && Bounded(w, w.callers[id], e, o)
    ensures var v := e.(callers := w.callers[id := o]); NoDestroyYet(v) ==> Clear(v)
  {
    var v := e.(callers := w.callers[id := o]);
    if NoDestroyYet(v) {
      assert v.callers[id] == o;
      assert forall j :: j in w.callers && j != id ==> v.callers[j] == w.callers[j];
      assert NoDestroyYet(w);
    }
  }

  lemma {:induction false} BoundedKeepsInv(w: World, id: nat, e: World, o: Caller)
    requires Inv(w) && id in w.callers && Bounded(w, w.callers[id], e, o)
    ensures Inv(e.(callers := w.callers[id := o]))
  {
    var v := e.(callers := w.callers[id := o]);
    BoundedKeepsClear(w, id, e, o);
    forall j | j in v.callers ensures CallerOk(v, v.callers[j]) {
      assert j != id ==> CallerOk(w, w.callers[j]);
    }
  }

  lemma {:induction false} ProceedKeepsInv(w: World, id: nat)
    requires Inv(w) && Enabled(w, Proceed(id))
    ensures Inv(CallerNext(w, id))
  {
    var c := w.callers[id];
    assert CallerOk(w, c);
    EffectBounds(w, c);
    BoundedKeepsInv(w, id, Effect(w, c), Onward(w, c));
  }

  lemma {:induction false} StepKeepsInv(w: World, s: Step)
    requires Inv(w) && Enabled(w, s)
    ensures Inv(Next(w, s))
  {
    match s
    case Task(a) => TaskKeepsInv(w, a);
    case Begin(id, c) => BeginKeepsInv(w, id, c);
    case Proceed(id) => ProceedKeepsInv(w, id);
  }

  lemma {:induction false} RunKeepsInv(w: World, run: seq<Step>)
    requires Inv(w) && CanRun(w, run)
    ensures Inv(Final(w, run))
    decreases |run|
  {
    if run != [] {
      StepKeepsInv(w, run[0]);
      RunKeepsInv(Next(w, run[0]), run[1..]);
    }
  }

  // The task takes the semaphore and lets callbacks fill the buffer only at these places.
  predicate TouchesSem(w: World) {
    w.place.Take?
  }

  predicate TouchesBuf(w: World) {
    w.place.Io?
  }

  // In every run, with or without lost requests, the task uses neither after it is freed.
  lemma {:induction false} NoUseAfterFree(reader: bool, wakeups: nat, run: seq<Step>)
    requires CanRun(Initial(reader, wakeups), run)
    ensures var w := Final(Initial(reader, wakeups), run);
      && (TouchesSem(w) ==> w.semLive)
      && (TouchesBuf(w) ==> w.bufLive)
      && (!w.semLive || !w.bufLive ==> w.state.Destroyed? && forall a :: !TaskEnabled(w, a))
  {
    InitialInv(reader, wakeups);
    RunKeepsInv(Initial(reader, wakeups), run);
    UsesLiveOnly(Final(Initial(reader, wakeups), run));
  }

  lemma {:induction false} UsesLiveOnly(w: World)
    requires TaskOk(w)
    ensures TouchesSem(w) ==> w.semLive
    ensures TouchesBuf(w) ==> w.bufLive
    ensures !w.semLive || !w.bufLive ==> w.state.Destroyed? && forall a :: !TaskEnabled(w, a)
  {
  }

  // The destroy flag is set, and so it is in every byte still to be stored.
  predicate Kept(w: World) {
    && w.flags.destroy
    && (w.snap.Some? ==> w.snap.value.destroy)
    && (forall id :: id in w.callers && w.callers[id].snap.Some? ==> w.callers[id].snap.value.destroy)
  }

  lemma {:induction false} TaskKeepsKept(w: World, a: Answer)
    requires Kept(w) && TaskOk(w) && TaskEnabled(w, a)
    ensures Kept(TaskNext(w, a))
  {
    TaskKeepsBits(w, a);
    TaskLeavesCallers(w, a);
  }

  lemma {:induction false} TaskKeepsBits(w: World, a: Answer)
    requires w.flags.destroy && (w.snap.Some? ==> w.snap.value.destroy) && TaskOk(w) && TaskEnabled(w, a)
    ensures var v := TaskNext(w, a); v.flags.destroy && (v.snap.Some? ==> v.snap.value.destroy)
  {
    if w.place.ClrPauseStore? || w.place.ClrRunStore? {
      assert TaskNext(w, a).snap.None?;
    } else if w.place.ClrPauseLoad? || w.place.ClrRunLoad? {
    } else {
      assert TaskNext(w, a).flags == w.flags;
    }
  }

  lemma {:induction false} BoundedKeepsKept(w: World, id: nat, e: World, o: Caller)
    requires Kept(w) && id in w.callers && Bounded(w, w.callers[id], e, o)
    ensures Kept(e.(callers := w.callers[id := o]))
  {
  }

  lemma {:induction false} CallerKeepsKept(w: World, id: nat)
    requires Kept(w) && Enabled(w, Proceed(id)) && CallersOk(w)
    ensures Kept(CallerNext(w, id))
  {
    var c := w.callers[id];
    assert CallerOk(w, c);
    EffectBounds(w, c);
    BoundedKeepsKept(w, id, Effect(w, c), Onward(w, c));
  }

  lemma {:induction false} StepKeepsKept(w: World, s: Step)
    requires Kept(w) && Inv(w) && Enabled(w, s)
    ensures Kept(Next(w, s)) && Inv(Next(w, s))
  {
    StepKeepsInv(w, s);
    match s
    case Task(a) => TaskKeepsKept(w, a);
    case Begin(id, c) =>
      assert forall j :: j in w.callers ==> j != id;
    case Proceed(id) => CallerKeepsKept(w, id);
  }

  lemma {:induction false} RunKeepsKept(w: World, run: seq<Step>)
    requires Kept(w) && Inv(w) && CanRun(w, run)
    ensures Kept(Final(w, run))
    decreases |run|
  {
    if run != [] {
      StepKeepsKept(w, run[0]);
      RunKeepsKept(Next(w, run[0]), run[1..]);
    }
  }

  // The call `id` is about to store the destroy flag.
  predicate StoringDestroy(w: World, id: nat) {
    id in w.callers && w.callers[id].call.Destroy? && w.callers[id].k == 0 && w.callers[id].snap.Some?
  }

  // Nobody else is between the load and the store of a flag.
  predicate NoOtherWrite(w: World, id: nat) {
    && !w.place.ClrPauseStore? && !w.place.ClrRunStore?
    && (forall j :: j in w.callers && j != id ==> w.callers[j].snap.None?)
  }

  ghost predicate NeverLost(w: World) {
    forall run :: CanRun(w, run) ==> Final(w, run).flags.destroy
  }

  lemma {:induction false} LostToTask(w: World)
    requires TaskOk(w) && w.snap.Some? && !w.snap.value.destroy
    ensures !NeverLost(w)
  {
    var run := [Task(Fine)];
    assert run[1..] == [];
    assert CanRun(Next(w, run[0]), run[1..]);
    assert CanRun(w, run);
    assert Final(w, run) == Next(w, run[0]);
  }

  lemma {:induction false} LostToCaller(w: World, j: nat)
    requires CallersOk(w) && j in w.callers && !w.callers[j].call.Destroy?
    requires w.callers[j].snap.Some? && !w.callers[j].snap.value.destroy
    ensures !NeverLost(w)
  {
    assert CallerOk(w, w.callers[j]);
    var run := [Proceed(j)];
    assert run[1..] == [];
    assert CanRun(Next(w, run[0]), run[1..]);
    assert CanRun(w, run);
    assert Final(w, run) == Next(w, run[0]);
  }

  // A destroy request stays set in every continuation exactly if nobody else is in the middle of
  // writing a flag when it is stored.
  lemma {:induction false} DestroyKeptIff(w: World, id: nat)
    requires Inv(w) && StoringDestroy(w, id)
    ensures NeverLost(Next(w, Proceed(id))) <==> NoOtherWrite(w, id)
  {
    var v := Next(w, Proceed(id));
    assert NoDestroyYet(w) by {
      forall j | j in w.callers && w.callers[j].call.Destroy? ensures w.callers[j].k == 0 {
        assert j == id;
      }
    }
    ProceedKeepsInv(w, id);
    assert forall j :: j in w.callers && j != id ==> v.callers[j] == w.callers[j];
    if NoOtherWrite(w, id) {
      assert Kept(v);
      forall run | CanRun(v, run) ensures Final(v, run).flags.destroy {
        RunKeepsKept(v, run);
      }
    } else if w.snap.Some? {
      LostToTask(v);
    } else {
      var j :| j in w.callers && j != id && w.callers[j].snap.Some?;
      assert !w.callers[j].call.Destroy?;
      LostToCaller(v, j);
    }
  }

  // Once the semaphore has been given, the task finds it, or has already seen the flag.
  predicate Leaving(p: Place) {
    p.ChkDestroy? || p.EmitDestroyed? || p.CleanupDestroyed? || p.SetDestroyed? || p.Done?
  }

  predicate Asked(w: World) {
    Kept(w) && (w.sem == 1 || Leaving(w.place))
  }

  // Steps of the task until it is done, at most, if it is not woken on the way
  function Rank(p: Place): nat {
    match p
    case Done => 0
    case SetDestroyed => 1
    case CleanupDestroyed => 2
    case EmitDestroyed => 3
    case ChkDestroy => 4
    case Take => 5
    case SetStopped => 6
    case CleanupIdle => 7
    case EmitFailed => 7
    case EmitStopped => 7
    case SetPaused => 7
    case CleanupEnd => 8
    case EmitPaused => 8
    case SendEnd => 9
    case EndChkRun => 10
    case EndChkPause => 11
    case EndChkDestroy => 4
    case LoopChkDestroy => 5
    case LoopChkPause => 6
    case ClrRunStore => 7
    case ClrRunLoad => 8
    case Io => 9
    case WhileRun => 10
    case EmitStarted => 11
    case SetRunning => 12
    case ClrPauseStore => 13
    case ClrPauseLoad => 14
    case CtxInit => 15
    case ChkPause => 16
    case ChkRun => 17
  }

  function Budget(w: World): nat {
    Rank(w.place) + 2 * w.wakeups
  }

  function TaskSteps(run: seq<Step>): nat {
    if run == [] then 0 else (if run[0].Task? then 1 else 0) + TaskSteps(run[1..])
  }

  lemma {:induction false} TaskProgress(w: World, a: Answer)
    requires Asked(w) && TaskOk(w) && TaskEnabled(w, a)
    ensures var v := TaskNext(w, a); Budget(v) < Budget(w) && (v.sem == 1 || Leaving(v.place))
  {
  }

  lemma {:induction false} OthersWait(w: World, s: Step)
    requires Asked(w) && Inv(w) && Enabled(w, s) && !s.Task?
    ensures var v := Next(w, s); Budget(v) == Budget(w) && (v.sem == 1 || Leaving(v.place))
  {
    if s.Proceed? {
      assert CallerOk(w, w.callers[s.id]);
      EffectBounds(w, w.callers[s.id]);
    }
  }

  // The task is never blocked on an empty semaphore: it can always go on until it is done.
  lemma {:induction false} NeverBlocked(w: World)
    requires Asked(w) && Inv(w)
    ensures w.place.Take? ==> w.sem == 1
    ensures !w.place.Done? ==> TaskEnabled(w, Fine)
    ensures w.place.Done? <==> w.state.Destroyed?
  {
  }

  // After the flag has been kept and the semaphore given, every interleaving lets the task make
  // at most Budget steps, it is never blocked before it is done, and a run with that many steps
  // of the task has reached DESTROYED.
  lemma {:induction false} DestroyCompletes(w: World, run: seq<Step>)
    requires Asked(w) && Inv(w) && CanRun(w, run)
    ensures var v := Final(w, run);
      && Asked(v) && Inv(v)
      && TaskSteps(run) + Budget(v) <= Budget(w)
      && (v.state.Destroyed? || TaskEnabled(v, Fine))
      && (TaskSteps(run) >= Budget(w) ==> v.state.Destroyed?)
    decreases |run|
  {
    if run != [] {
      StepKeepsKept(w, run[0]);
      if run[0].Task? {
        TaskProgress(w, run[0].answer);
      } else {
        OthersWait(w, run[0]);
      }
      DestroyCompletes(Next(w, run[0]), run[1..]);
    } else {
      NeverBlocked(w);
    }
  }

  lemma BudgetBound(w: World)
    ensures Budget(w) <= 17 + 2 * w.wakeups
  {
  }

  // The destroy call is past its xSemaphoreGive.
  predicate HasGiven(w: World, id: nat) {
    id in w.callers && w.callers[id].call.Destroy? && w.callers[id].k >= 2
  }

  predicate AskedBy(w: World, id: nat) {
    Kept(w) && (HasGiven(w, id) ==> Asked(w))
  }

  lemma {:induction false} StepKeepsAsked(w: World, id: nat, s: Step)
    requires AskedBy(w, id) && Inv(w) && id in w.callers && Enabled(w, s)
    ensures AskedBy(Next(w, s), id) && id in Next(w, s).callers
    ensures Next(w, s).callers[id].call == w.callers[id].call
  {
    StepKeepsKept(w, s);
    var v := Next(w, s);
    match s
    case Task(a) =>
      TaskLeavesCallers(w, a);
      if HasGiven(w, id) {
        TaskProgress(w, a);
      }
    case Begin(j, c) =>
      assert v.callers[id] == w.callers[id];
    case Proceed(j) =>
      assert CallerOk(w, w.callers[j]);
      EffectBounds(w, w.callers[j]);
      if j != id {
        assert v.callers[id] == w.callers[id];
      }
  }

  lemma {:induction false} RunKeepsAsked(w: World, id: nat, run: seq<Step>)
    requires AskedBy(w, id) && Inv(w) && id in w.callers && CanRun(w, run)
    ensures AskedBy(Final(w, run), id) && Inv(Final(w, run))
    decreases |run|
  {
    if run != [] {
      StepKeepsAsked(w, id, run[0]);
      StepKeepsInv(w, run[0]);
      RunKeepsAsked(Next(w, run[0]), id, run[1..]);
    }
  }

  // No destroy request is lost: it is stored while nobody else writes a flag in `w`, any steps
  // follow until the call has given the semaphore, and then any steps again.
  lemma {:induction false} DestroyHonoured(w: World, id: nat, run: seq<Step>, more: seq<Step>)
    requires Inv(w) && StoringDestroy(w, id) && NoOtherWrite(w, id)
    requires CanRun(Next(w, Proceed(id)), run)
    requires HasGiven(Final(Next(w, Proceed(id)), run), id)
    requires CanRun(Final(Next(w, Proceed(id)), run), more)
    ensures var u := Final(Next(w, Proceed(id)), run);
      var v := Final(u, more);
      && TaskSteps(more) <= 17 + 2 * u.wakeups
      && (v.place.Take? ==> v.sem == 1)
      && (v.state.Destroyed? || TaskEnabled(v, Fine))
      && (TaskSteps(more) >= 17 + 2 * u.wakeups ==> v.state.Destroyed?)
  {
    var s := Next(w, Proceed(id));
    ProceedKeepsInv(w, id);
    assert forall j :: j in w.callers && j != id ==> s.callers[j] == w.callers[j];
    assert Kept(s);
    assert !HasGiven(s, id);
    RunKeepsAsked(s, id, run);
    var u := Final(s, run);
    BudgetBound(u);
    DestroyCompletes(u, more);
    NeverBlocked(Final(u, more));
  }

  lemma {:induction false} Append(w: World, run: seq<Step>, s: Step)
    requires CanRun(w, run) && Enabled(Final(w, run), s)
    ensures CanRun(w, run + [s]) && Final(w, run + [s]) == Next(Final(w, run), s)
    decreases |run|
  {
    if run == [] {
      assert [s][1..] == [];
      assert run + [s] == [s];
      assert CanRun(Next(w, s), []);
    } else {
      assert (run + [s])[1..] == run[1..] + [s];
      Append(Next(w, run[0]), run[1..], s);
    }
  }

  // A pause call that overlaps a destroy call, up to the destroy call's xSemaphoreGive
  function Overlapped(w: World): World {
    w.(flags := Flags(w.flags.run, true, w.flags.destroy), sem := 1,
       callers := map[0 := Caller(Pause, 1, None), 1 := Caller(Destroy, 2, None)])
  }

  // The same calls up to the store of the destroy flag; the pause call has loaded its byte.
  function HalfWay(w: World): World {
    w.(flags := Flags(w.flags.run, w.flags.pause, true),
       callers := map[0 := Caller(Pause, 0, Some(w.flags)), 1 := Caller(Destroy, 1, None)])
  }

  lemma {:induction false} OverlapStarts(w: World) returns (run: seq<Step>)
    requires w == Initial(w.reader, w.wakeups)
    ensures CanRun(w, run) && Final(w, run) == HalfWay(w)
  {
    run := [];
    Append(w, run, Begin(0, Pause));
    run := run + [Begin(0, Pause)];
    Append(w, run, Proceed(0));
    run := run + [Proceed(0)];
    Append(w, run, Begin(1, Destroy));
    run := run + [Begin(1, Destroy)];
    Append(w, run, Proceed(1));
    run := run + [Proceed(1)];
    Append(w, run, Proceed(1));
    run := run + [Proceed(1)];
    assert Final(w, run).callers == HalfWay(w).callers;
  }

  lemma {:induction false} Overlap(w: World) returns (run: seq<Step>)
    requires w == Initial(w.reader, w.wakeups)
    ensures CanRun(w, run) && Final(w, run) == Overlapped(w)
  {
    run := OverlapStarts(w);
    Append(w, run, Proceed(0));
    run := run + [Proceed(0)];
    Append(w, run, Proceed(1));
    run := run + [Proceed(1)];
    assert Final(w, run).callers == Overlapped(w).callers;
  }

  lemma {:induction false} TaskAlone(w: World, run: seq<Step>, n: nat) returns (longer: seq<Step>)
    requires CanRun(w, run)
    requires forall i {:trigger Solo(Final(w, run), i)} :: 0 <= i < n ==> TaskEnabled(Solo(Final(w, run), i), Fine)
    ensures CanRun(w, longer) && Final(w, longer) == Solo(Final(w, run), n)
  {
    longer := run;
    for i := 0 to n
      invariant CanRun(w, longer) && Final(w, longer) == Solo(Final(w, run), i)
    {
      Append(w, longer, Task(Fine));
      longer := longer + [Task(Fine)];
    }
  }

  // `n` steps of the task in a row
  function Solo(w: World, n: nat): World {
    if n == 0 then w
    else
      var v := Solo(w, n - 1);
      if TaskEnabled(v, Fine) then TaskNext(v, Fine) else v
  }

  // Overlapping calls can lose a destroy request for good: the destroy call waits, the task is
  // blocked on an empty semaphore, and nothing moves unless yet another call comes.
  lemma {:induction false} LostDestroy(reader: bool, wakeups: nat) returns (run: seq<Step>)
    ensures CanRun(Initial(reader, wakeups), run)
    ensures var v := Final(Initial(reader, wakeups), run);
      && v.place.Take? && v.sem == 0 && !v.flags.destroy
      && 1 in v.callers && v.callers[1] == Caller(Destroy, 2, None)
      && (forall s :: Enabled(v, s) ==> s.Begin?)
  {
    var w := Initial(reader, wakeups);
    run := Overlap(w);
    BackToTake(Overlapped(w));
    run := TaskAlone(w, run, 6);
  }

  // From its start the task finds no flag but the pause set, and comes to wait again.
  lemma {:induction false} BackToTake(o: World)
    requires o.place.SetStopped? && o.sem == 1 && !o.flags.run && !o.flags.destroy
    ensures forall i :: 0 <= i < 6 ==> TaskEnabled(Solo(o, i), Fine)
    ensures Solo(o, 6) == o.(place := Take, state := Stopped, sem := 0)
  {
    assert Solo(o, 1) == o.(place := Take, state := Stopped);
    assert Solo(o, 2) == o.(place := ChkDestroy, state := Stopped, sem := 0);
    assert Solo(o, 3) == o.(place := ChkRun, state := Stopped, sem := 0);
    assert Solo(o, 4) == o.(place := CleanupIdle, state := Stopped, sem := 0);
    assert Solo(o, 5) == o.(place := SetStopped, state := Stopped, sem := 0);
  }

  // ------------------------------------------------------------------------------------ events

  function Last(s: seq<Event>): Event
    requires s != []
  {
    s[|s| - 1]
  }

  function Front(s: seq<Event>): seq<Event>
    requires s != []
  {
    s[..|s| - 1]
  }

  // STARTED has been reported, and no end of that run yet.
  predicate Open(s: seq<Event>) {
    s != [] && (Last(s).EvStarted? || (Last(s).EvFailed? && Open(Front(s))))
  }

  // Runs do not overlap: each STARTED is followed by one STOPPED or PAUSED before the next
  // STARTED or FAILED, and nothing comes after DESTROYED.
  predicate InOrder(s: seq<Event>) {
    s == [] ||
    (InOrder(Front(s)) && EvDestroyed !in Front(s) &&
     match Last(s)
     case EvStarted => !Open(Front(s))
     case EvFailed => !Open(Front(s))
     case EvStopped => Open(Front(s))
     case EvPaused => Open(Front(s))
     case EvDestroyed => true)
  }

  predicate Between(p: Place) {
    || p.WhileRun? || p.Io? || p.ClrRunLoad? || p.ClrRunStore? || p.LoopChkPause? || p.LoopChkDestroy?
    || p.EndChkDestroy? || p.EndChkPause? || p.EmitPaused? || p.EndChkRun? || p.SendEnd? || p.CleanupEnd?
    || p.EmitStopped?
  }

  predicate Ending(p: Place) {
    p.CleanupDestroyed? || p.SetDestroyed? || p.Done?
  }

  predicate EventsFit(s: seq<Event>, p: Place) {
    && InOrder(s)
    && (EvDestroyed in s <==> Ending(p))
    && (Open(s) ==> Between(p) || p.EmitDestroyed?)
    && (Between(p) ==> Open(s))
  }

  predicate EventsOk(w: World) {
    EventsFit(w.events, w.place)
  }

  lemma {:induction false} EventSnoc(s: seq<Event>, e: Event)
    ensures Open(s + [e]) <==> e.EvStarted? || (e.EvFailed? && Open(s))
    ensures EvDestroyed in s + [e] <==> EvDestroyed in s || e.EvDestroyed?
    ensures InOrder(s + [e]) <==>
      && InOrder(s) && EvDestroyed !in s
      && (e.EvStarted? || e.EvFailed? ==> !Open(s))
      && (e.EvStopped? || e.EvPaused? ==> Open(s))
  {
    assert Front(s + [e]) == s;
  }

  function EventAt(p: Place): Option<Event> {
    match p
    case EmitStarted => Some(EvStarted)
    case EmitFailed => Some(EvFailed)
    case EmitPaused => Some(EvPaused)
    case EmitStopped => Some(EvStopped)
    case EmitDestroyed => Some(EvDestroyed)
    case _ => None
  }

  lemma {:induction false} TaskEmits(w: World, a: Answer)
    requires TaskEnabled(w, a)
    ensures TaskNext(w, a).events == if EventAt(w.place).Some? then w.events + [EventAt(w.place).value] else w.events
  {
  }

  // How a step of the task, from `p` to `q`, stands to the time between a start and its end
  predicate Moves(p: Place, q: Place) {
    && (Ending(q) <==> Ending(p) || p.EmitDestroyed?)
    && (Between(q) ==> Between(p) || p.EmitStarted?)
    && (Between(p) ==> Between(q) || q.EmitDestroyed? || p.EmitPaused? || p.EmitStopped?)
    && (p.EmitStarted? ==> Between(q))
    && (p.EmitPaused? || p.EmitStopped? ==> !Between(q) && !q.EmitDestroyed?)
    && (p.EmitDestroyed? ==> !Between(q) && !q.EmitDestroyed?)
  }

  lemma {:induction false} TaskMoves(w: World, a: Answer)
    requires TaskEnabled(w, a)
    ensures Moves(w.place, Goes(w, a))
  {
  }

  lemma {:induction false} MovesFit(s: seq<Event>, p: Place, q: Place)
    requires EventsFit(s, p) && Moves(p, q) && !p.Done?
    ensures EventsFit(if EventAt(p).Some? then s + [EventAt(p).value] else s, q)
  {
    if EventAt(p).Some? {
      EventSnoc(s, EventAt(p).value);
    }
  }

  lemma {:induction false} StepKeepsEvents(w: World, s: Step)
    requires EventsOk(w) && Enabled(w, s)
    ensures EventsOk(Next(w, s)) && w.events <= Next(w, s).events
  {
    if s.Task? {
      TaskEmits(w, s.answer);
      TaskMoves(w, s.answer);
      MovesFit(w.events, w.place, Goes(w, s.answer));
    }
  }

  lemma {:induction false} RunKeepsEvents(w: World, run: seq<Step>)
    requires EventsOk(w) && CanRun(w, run)
    ensures EventsOk(Final(w, run)) && w.events <= Final(w, run).events
    decreases |run|
  {
    if run != [] {
      StepKeepsEvents(w, run[0]);
      RunKeepsEvents(Next(w, run[0]), run[1..]);
    }
  }

  // In every run, whatever the callers do: runs are reported one after the other, each with its
  // start and one end; DESTROYED is reported once, as the last event, before the state says so.
  lemma {:induction false} EventsInOrder(reader: bool, wakeups: nat, run: seq<Step>)
    requires CanRun(Initial(reader, wakeups), run)
    ensures var w := Final(Initial(reader, wakeups), run);
      && InOrder(w.events)
      && (w.state.Destroyed? ==> w.events != [] && Last(w.events).EvDestroyed?)
  {
    var w := Initial(reader, wakeups);
    RunKeepsEvents(w, run);
    InitialInv(reader, wakeups);
    RunKeepsInv(w, run);
    DestroyedIsLast(Final(w, run).events);
  }

  lemma {:induction false} DestroyedIsLast(s: seq<Event>)
    requires InOrder(s)
    ensures EvDestroyed in s ==> Last(s).EvDestroyed?
  {
    if s != [] {
      assert s == Front(s) + [Last(s)];
    }
  }

  // ------------------------------------------------------------------- what commands come to

  // Only clearing the buffer and giving the semaphore are left of the calls so far.
  predicate Calm(w: World) {
    forall id :: id in w.callers ==> CalmCaller(w.callers[id])
  }

  predicate CalmCaller(c: Caller) {
    c.snap.None? && forall i :: c.k <= i < |Program(c.call)| ==> Program(c.call)[i].Zero? || Program(c.call)[i].Give?
  }

  predicate NoBegin(run: seq<Step>) {
    forall s :: s in run ==> !s.Begin?
  }

  // What the callers of a calm world can do is to give the semaphore.
  lemma {:induction false} CallersStayCalm(w: World, id: nat)
    requires Calm(w) && Enabled(w, Proceed(id))
    ensures var v := Next(w, Proceed(id));
      && Calm(v) && (v.sem == w.sem || v.sem == 1)
      && v == w.(sem := v.sem, callers := v.callers)
  {
    assert CalmCaller(w.callers[id]);
  }

  lemma {:induction false} TaskStaysCalm(w: World, a: Answer)
    requires Calm(w) && TaskEnabled(w, a)
    ensures Calm(TaskNext(w, a))
  {
  }

  // The task is on its way to report the end of the run: no flag is set, and none comes back with
  // the byte that the task has loaded. The number of steps it needs at most.
  predicate Stopping(w: World) {
    && w.flags == Flags(false, false, false) && StopRank(w.place) > 0
    && (w.snap.Some? <==> w.place.ClrRunStore?)
    && (w.snap.Some? ==> !w.snap.value.pause && !w.snap.value.destroy)
  }

  function StopRank(p: Place): nat {
    match p
    case EmitStopped => 1
    case CleanupEnd => 2
    case SendEnd => 3
    case EndChkRun => 4
    case EndChkPause => 5
    case EndChkDestroy => 6
    case WhileRun => 7
    case LoopChkDestroy => 8
    case LoopChkPause => 9
    case ClrRunStore => 10
    case ClrRunLoad => 11
    case Io => 12
    case _ => 0
  }

  lemma {:induction false} StopProgress(w: World, a: Answer)
    requires Stopping(w) && TaskEnabled(w, a)
    ensures var v := TaskNext(w, a);
      if w.place.EmitStopped? then v.events == w.events + [EvStopped]
      else v.events == w.events && Stopping(v) && StopRank(v.place) < StopRank(w.place)
  {
  }

  // Once a stop has cleared the flags of a stream that moves data, STOPPED is reported next in
  // every interleaving in which no call begins, after at most 12 steps of the task, whatever its
  // callbacks answer; the task never has to wait on the way.
  lemma {:induction false} StopIsFollowed(w: World, run: seq<Step>)
    requires Stopping(w) && Calm(w) && CanRun(w, run) && NoBegin(run)
    ensures var v := Final(w, run);
      || w.events + [EvStopped] <= v.events
      || (v.events == w.events && TaskEnabled(v, Fine) && TaskSteps(run) + StopRank(v.place) <= StopRank(w.place) <= 12)
    ensures TaskSteps(run) >= StopRank(w.place) ==> w.events + [EvStopped] <= Final(w, run).events
    decreases |run|
  {
    if run != [] {
      assert run[0] in run;
      var v := Next(w, run[0]);
      if run[0].Task? {
        StopProgress(w, run[0].answer);
        TaskStaysCalm(w, run[0].answer);
      } else {
        CallersStayCalm(w, run[0].id);
      }
      if v.events == w.events {
        StopIsFollowed(v, run[1..]);
      } else {
        EventsGrow(v, run[1..]);
      }
    }
  }

  lemma {:induction false} EventsGrow(w: World, run: seq<Step>)
    requires CanRun(w, run)
    ensures w.events <= Final(w, run).events
    decreases |run|
  {
    if run != [] {
      EventsGrow(Next(w, run[0]), run[1..]);
    }
  }

  // The same for a pause, which the end of the loop looks at before the run flag
  predicate Pausing(w: World) {
    && w.flags.pause && !w.flags.destroy && PauseRank(w.place) > 0
    && (w.snap.Some? <==> w.place.ClrRunStore?)
    && (w.snap.Some? ==> w.snap.value.pause && !w.snap.value.destroy)
  }

  function PauseRank(p: Place): nat {
    match p
    case EmitPaused => 1
    case EndChkPause => 2
    case EndChkDestroy => 3
    case LoopChkPause => 4
    case ClrRunStore => 5
    case ClrRunLoad => 6
    case Io => 7
    case WhileRun => 8
    case LoopChkDestroy => 9
    case _ => 0
  }

  function PauseBudget(w: World): nat {
    PauseRank(w.place) + 2 * w.wakeups
  }

  lemma {:induction false} PauseProgress(w: World, a: Answer)
    requires Pausing(w) && TaskEnabled(w, a)
    ensures var v := TaskNext(w, a);
      if w.place.EmitPaused? then v.events == w.events + [EvPaused]
      else v.events == w.events && Pausing(v) && PauseBudget(v) < PauseBudget(w)
  {
  }

  // Once a pause has set its flag while the stream moves data, PAUSED is reported next in every
  // interleaving in which no call begins, even if the data end, after at most 9 steps of the task
  // and two for each wakeup of the reader.
  lemma {:induction false} PauseIsFollowed(w: World, run: seq<Step>)
    requires Pausing(w) && Calm(w) && CanRun(w, run) && NoBegin(run)
    ensures var v := Final(w, run);
      || w.events + [EvPaused] <= v.events
      || (v.events == w.events && TaskEnabled(v, Fine) && TaskSteps(run) + PauseBudget(v) <= PauseBudget(w))
    ensures TaskSteps(run) >= PauseBudget(w) ==> w.events + [EvPaused] <= Final(w, run).events
    ensures PauseBudget(w) <= 9 + 2 * w.wakeups
    decreases |run|
  {
    if run != [] {
      assert run[0] in run;
      var v := Next(w, run[0]);
      if run[0].Task? {
        PauseProgress(w, run[0].answer);
        TaskStaysCalm(w, run[0].answer);
      } else {
        CallersStayCalm(w, run[0].id);
      }
      if v.events == w.events {
        PauseIsFollowed(v, run[1..]);
      } else {
        EventsGrow(v, run[1..]);
      }
    }
  }

  // The task is on its way to a start: the run flag is set and stays, and the semaphore has been
  // given or already taken.
  predicate Starting(w: World) {
    && w.flags.run && !w.flags.destroy && StartRank(w.place) > 0
    && (w.snap.Some? <==> w.place.ClrPauseStore?)
    && (w.snap.Some? ==> w.snap.value.run && !w.snap.value.destroy)
    && (StartRank(w.place) >= 9 ==> w.sem == 1)
  }

  function StartRank(p: Place): nat {
    match p
    case EmitStarted => 1
    case EmitFailed => 1
    case SetRunning => 2
    case ClrPauseStore => 3
    case ClrPauseLoad => 4
    case CtxInit => 5
    case ChkPause => 6
    case ChkRun => 7
    case ChkDestroy => 8
    case Take => 9
    case SetStopped => 10
    case CleanupIdle => 11
    case _ => 0
  }

  lemma {:induction false} StartProgress(w: World, a: Answer)
    requires Starting(w) && TaskEnabled(w, a)
    ensures var v := TaskNext(w, a);
      if w.place.EmitStarted? then v.events == w.events + [EvStarted]
      else if w.place.EmitFailed? then v.events == w.events + [EvFailed]
      else
        && v.events == w.events && Starting(v) && StartRank(v.place) < StartRank(w.place)
        && (v.place.EmitFailed? ==> a.InitFails?)
  {
  }

  // Once a start has set the run flag and given the semaphore of a stream that waits, STARTED is
  // reported next in every interleaving in which no call begins, after at most 11 steps of the
  // task; or else FAILED, and only if the initialisation of its context fails.
  lemma {:induction false} StartIsFollowed(w: World, run: seq<Step>)
    requires Starting(w) && Calm(w) && CanRun(w, run) && NoBegin(run)
    ensures var v := Final(w, run);
      || w.events + [EvStarted] <= v.events
      || (w.events + [EvFailed] <= v.events && (w.place.EmitFailed? || Task(InitFails) in run))
      || (v.events == w.events && Starting(v) && TaskEnabled(v, Fine)
          && TaskSteps(run) + StartRank(v.place) <= StartRank(w.place) <= 11)
    decreases |run|
  {
    if run != [] {
      assert run[0] in run;
      StartStep(w, run[0]);
      var v := Next(w, run[0]);
      if v.events == w.events {
        StartIsFollowed(v, run[1..]);
        assert Task(InitFails) in run[1..] ==> Task(InitFails) in run;
      } else {
        EventsGrow(v, run[1..]);
      }
    }
  }

  lemma {:induction false} StartStep(w: World, s: Step)
    requires Starting(w) && Calm(w) && Enabled(w, s) && !s.Begin?
    ensures var v := Next(w, s);
      || (v.events == w.events + [EvStarted] && s.Task?)
      || (v.events == w.events + [EvFailed] && s.Task? && w.place.EmitFailed?)
      || (v.events == w.events && Starting(v) && Calm(v)
          && StartRank(v.place) + (if s.Task? then 1 else 0) <= StartRank(w.place)
          && (v.place.EmitFailed? ==> w.place.EmitFailed? || s == Task(InitFails)))
  {
    if s.Task? {
      StartProgress(w, s.answer);
      TaskStaysCalm(w, s.answer);
    } else {
      CallersStayCalm(w, s.id);
    }
  }

  // -------------------------------------------------------- when a caller may destroy the stream

  // Every call but the destroy call `id` has returned.
  predicate OthersDone(w: World, id: nat) {
    forall j :: j in w.callers && j != id ==> w.callers[j].k == |Program(w.callers[j].call)|
  }

  // Between two looks at the semaphore with nothing to do
  predicate Resting(w: World) {
    && !w.flags.run
    && (w.place.SetPaused? || w.place.SetStopped? || w.place.Take? || w.place.ChkDestroy? || w.place.ChkRun?
        || w.place.CleanupIdle?)
  }

  // The run flag is not set; or the task has itself put it back with the byte it had loaded
  // before, and with it a clear pause flag, and is in the run that follows.
  predicate WindingDown(w: World) {
    || !w.flags.run
    || (!w.flags.pause
        && (w.place.SetRunning? || w.place.EmitStarted? || w.place.WhileRun? || w.place.Io? || w.place.ClrRunLoad?
            || w.place.ClrRunStore? || w.place.LoopChkPause? || w.place.LoopChkDestroy?))
  }

  // The application has been told since the first `n` events that a run is over, or that none
  // has begun, and of nothing after that.
  predicate ToldOver(s: seq<Event>, n: nat) {
    |s| > n && (Last(s).EvStopped? || Last(s).EvPaused? || Last(s).EvFailed?)
  }

  lemma {:induction false} TaskWindsDown(w: World, a: Answer, n: nat)
    requires WindingDown(w) && TaskOk(w) && Clear(w) && TaskEnabled(w, a)
    requires ToldOver(w.events, n) ==> Resting(w)
    ensures var v := TaskNext(w, a); WindingDown(v) && (ToldOver(v.events, n) ==> Resting(v))
  {
    TaskEmits(w, a);
    if EventAt(w.place).Some? {
      assert Last(TaskNext(w, a).events) == EventAt(w.place).value;
    }
  }

  // A step after which no destroy call has stored its flag yet
  lemma {:induction false} StepWindsDown(w: World, id: nat, s: Step, n: nat)
    requires Inv(w) && Enabled(w, s) && OthersDone(w, id) && (s.Begin? ==> s.id == id)
    requires id in w.callers ==> w.callers[id].call.Destroy?
    requires s.Begin? ==> s.call.Destroy?
    requires WindingDown(w) && (ToldOver(w.events, n) ==> Resting(w)) && NoDestroyYet(Next(w, s))
    ensures var v := Next(w, s);
      && OthersDone(v, id) && WindingDown(v) && (ToldOver(v.events, n) ==> Resting(v))
      && (id in v.callers ==> v.callers[id].call.Destroy?)
  {
    var v := Next(w, s);
    NotYetBefore(w, s);
    match s
    case Task(a) =>
      TaskWindsDown(w, a, n);
      TaskLeavesCallers(w, a);
    case Begin(_, _) =>
    case Proceed(j) =>
      assert CallerOk(w, w.callers[j]);
      assert j == id;
      EffectBounds(w, w.callers[id]);
      assert v.callers[id] == Onward(w, w.callers[id]);
      assert v.callers[id].k == 0;
  }

  lemma {:induction false} NotYetBefore(w: World, s: Step)
    requires Inv(w) && Enabled(w, s) && NoDestroyYet(Next(w, s))
    ensures NoDestroyYet(w)
  {
    var v := Next(w, s);
    forall j | j in w.callers && w.callers[j].call.Destroy? ensures w.callers[j].k == 0 {
      if s.Proceed? {
        assert CallerOk(w, w.callers[s.id]);
        EffectBounds(w, w.callers[s.id]);
      } else if s.Task? {
        TaskLeavesCallers(w, s.answer);
      }
      assert j in v.callers && v.callers[j].call == w.callers[j].call && v.callers[j].k >= w.callers[j].k;
    }
  }

  lemma {:induction false} NotYetAllAlong(w: World, run: seq<Step>)
    requires Inv(w) && CanRun(w, run) && NoDestroyYet(Final(w, run))
    ensures NoDestroyYet(w)
    decreases |run|
  {
    if run != [] {
      StepKeepsInv(w, run[0]);
      NotYetAllAlong(Next(w, run[0]), run[1..]);
      NotYetBefore(w, run[0]);
    }
  }

  // The destroy call `id` begins at some point of the run, and no other call does.
  predicate OnlyDestroy(run: seq<Step>, id: nat) {
    forall s :: s in run && s.Begin? ==> s == Begin(id, Destroy)
  }

  lemma {:induction false} RunWindsDown(w: World, id: nat, run: seq<Step>, n: nat)
    requires Inv(w) && CanRun(w, run) && OthersDone(w, id) && OnlyDestroy(run, id)
    requires id in w.callers ==> w.callers[id].call.Destroy?
    requires WindingDown(w) && (ToldOver(w.events, n) ==> Resting(w)) && NoDestroyYet(Final(w, run))
    ensures var v := Final(w, run); OthersDone(v, id) && (ToldOver(v.events, n) ==> Resting(v)) && Inv(v)
    decreases |run|
  {
    if run != [] {
      assert run[0] in run;
      var v := Next(w, run[0]);
      StepKeepsInv(w, run[0]);
      NotYetAllAlong(v, run[1..]);
      StepWindsDown(w, id, run[0], n);
      RunWindsDown(v, id, run[1..], n);
    }
  }

  // What a caller can go by to destroy a stream without risk: every other call has returned, the
  // run flag is 0, no other call begins, and the application has been told since that the run is
  // over. Then no other write of a flag is under way when the destroy flag is stored, so that it
  // stays set in every continuation.
  lemma {:induction false} SafeAfterReport(u: World, id: nat, run: seq<Step>)
    requires Inv(u) && OthersDone(u, id) && id !in u.callers && !u.flags.run
    requires CanRun(u, run) && OnlyDestroy(run, id) && StoringDestroy(Final(u, run), id)
    requires ToldOver(Final(u, run).events, |u.events|)
    ensures NoOtherWrite(Final(u, run), id) && NeverLost(Next(Final(u, run), Proceed(id)))
  {
    RunKeepsInv(u, run);
    var w := Final(u, run);
    assert NoDestroyYet(w) by {
      forall j | j in w.callers && w.callers[j].call.Destroy? ensures w.callers[j].k == 0 {
        assert j == id;
      }
    }
    RunWindsDown(u, id, run, |u.events|);
    forall j | j in w.callers && j != id ensures w.callers[j].snap.None? {
      assert CallerOk(w, w.callers[j]);
    }
    DestroyKeptIff(w, id);
  }

  // A stream for which no start call has been made has no run flag anywhere, and its task rests.
  predicate NeverRun(w: World) {
    && (w.snap.Some? ==> !w.snap.value.run) && Resting(w)
    && (forall j :: j in w.callers ==> NoStart(w.callers[j]))
  }

  predicate NoStart(c: Caller) {
    !c.call.Start? && (c.snap.Some? ==> !c.snap.value.run)
  }

  lemma {:induction false} TaskNeverRuns(w: World, a: Answer)
    requires NeverRun(w) && Clear(w) && TaskOk(w) && TaskEnabled(w, a)
    ensures NeverRun(TaskNext(w, a))
  {
  }

  lemma {:induction false} CallerNeverRuns(w: World, id: nat)
    requires NeverRun(w) && Enabled(w, Proceed(id)) && CallersOk(w)
    ensures NeverRun(CallerNext(w, id))
  {
    var c := w.callers[id];
    assert NoStart(c) && CallerOk(w, c);
    EffectBounds(w, c);
    assert !Effect(w, c).flags.run && NoStart(Onward(w, c));
  }

  lemma {:induction false} RunNeverRuns(w: World, run: seq<Step>)
    requires Inv(w) && NeverRun(w) && CanRun(w, run) && NoDestroyYet(Final(w, run))
    requires forall s :: s in run && s.Begin? ==> !s.call.Start?
    ensures NeverRun(Final(w, run))
    decreases |run|
  {
    NotYetAllAlong(w, run);
    if run != [] {
      assert run[0] in run;
      StepKeepsInv(w, run[0]);
      match run[0] {
        case Task(a) => TaskNeverRuns(w, a);
        case Begin(_, _) =>
        case Proceed(id) => CallerNeverRuns(w, id);
      }
      RunNeverRuns(Next(w, run[0]), run[1..]);
    }
  }

  // The other thing to go by: the stream has never been started, and every other call has
  // returned.
  lemma {:induction false} SafeUntilStarted(reader: bool, wakeups: nat, id: nat, run: seq<Step>)
    requires CanRun(Initial(reader, wakeups), run) && forall s :: s in run && s.Begin? ==> !s.call.Start?
    requires var w := Final(Initial(reader, wakeups), run); StoringDestroy(w, id) && OthersDone(w, id)
    ensures var w := Final(Initial(reader, wakeups), run); NoOtherWrite(w, id) && NeverLost(Next(w, Proceed(id)))
  {
    InitialInv(reader, wakeups);
    RunKeepsInv(Initial(reader, wakeups), run);
    var w := Final(Initial(reader, wakeups), run);
    assert NoDestroyYet(w) by {
      forall j | j in w.callers && w.callers[j].call.Destroy? ensures w.callers[j].k == 0 {
        assert j == id;
      }
    }
    RunNeverRuns(Initial(reader, wakeups), run);
    forall j | j in w.callers && j != id ensures w.callers[j].snap.None? {
      assert CallerOk(w, w.callers[j]);
    }
    DestroyKeptIff(w, id);
  }

  // ------------------------------------------------------ what calls do after a destroy call frees

  // The call still has to clear the buffer, or to give the semaphore.
  predicate HasLeft(c: Caller, op: Op) {
    exists i :: c.k <= i < |Program(c.call)| && Program(c.call)[i] == op
  }

  // The step executes `op`.
  predicate Executes(w: World, s: Step, op: Op) {
    && s.Proceed? && s.id in w.callers && CallerEnabled(w, w.callers[s.id])
    && Program(w.callers[s.id].call)[w.callers[s.id].k] == op
  }

  // What the operation works on has been freed.
  predicate Freed(w: World, op: Op) {
    (op.Zero? ==> !w.bufLive) && (op.Give? ==> !w.semLive)
  }

  // In some continuation in which no call begins, a call executes the operation on freed memory.
  ghost predicate UsesFreed(w: World, op: Op) {
    exists run, s :: CanRun(w, run) && NoBegin(run) && Freed(Final(w, run), op) && Executes(Final(w, run), s, op)
  }

  lemma {:induction false} FreedStays(w: World, run: seq<Step>, op: Op)
    requires CanRun(w, run) && Freed(w, op)
    ensures Freed(Final(w, run), op)
    decreases |run|
  {
    if run != [] {
      FreedStays(Next(w, run[0]), run[1..], op);
    }
  }

  lemma {:induction false} ExecutesWhatIsLeft(w: World, s: Step, op: Op)
    requires Executes(w, s, op)
    ensures HasLeft(w.callers[s.id], op)
  {
  }

  // A call that is under way gets to its operation if the other threads let it.
  lemma {:induction false} GetsThere(w: World, id: nat, i: nat, op: Op) returns (run: seq<Step>)
    requires op.Zero? || op.Give?
    requires CallersOk(w) && id in w.callers && w.callers[id].k <= i < |Program(w.callers[id].call)|
    requires Program(w.callers[id].call)[i] == op
    ensures CanRun(w, run) && NoBegin(run) && Executes(Final(w, run), Proceed(id), op)
    decreases i - w.callers[id].k, w.callers[id].snap.None?
  {
    var c := w.callers[id];
    assert CallerOk(w, c);
    if c.k == i {
      run := [];
    } else {
      NoAwaitBefore(c.call, i);
      var v := Next(w, Proceed(id));
      EffectBounds(w, c);
      assert v.callers[id] == Onward(w, c);
      forall j | j in v.callers ensures CallerOk(v, v.callers[j]) {
        assert j != id ==> CallerOk(w, w.callers[j]);
      }
      var rest := GetsThere(v, id, i, op);
      run := [Proceed(id)] + rest;
      assert run[0] == Proceed(id) && run[1..] == rest;
    }
  }

  lemma {:induction false} NoAwaitBefore(c: Call, i: nat)
    requires i < |Program(c)| && (Program(c)[i].Zero? || Program(c)[i].Give?)
    ensures forall j :: 0 <= j < i ==> !Program(c)[j].Await?
  {
  }

  // No call has it left: then none gets it back.
  lemma {:induction false} NoneLeftStays(w: World, run: seq<Step>, op: Op)
    requires CallersOk(w) && Inv(w) && CanRun(w, run) && NoBegin(run)
    requires forall id :: id in w.callers ==> !HasLeft(w.callers[id], op)
    ensures forall id :: id in Final(w, run).callers ==> !HasLeft(Final(w, run).callers[id], op)
    decreases |run|
  {
    if run != [] {
      assert run[0] in run;
      var v := Next(w, run[0]);
      StepKeepsInv(w, run[0]);
      forall id | id in v.callers ensures !HasLeft(v.callers[id], op) {
        if run[0].Task? {
          TaskLeavesCallers(w, run[0].answer);
        } else if id == run[0].id {
          assert CallerOk(w, w.callers[id]);
          EffectBounds(w, w.callers[id]);
          assert v.callers[id].call == w.callers[id].call && v.callers[id].k >= w.callers[id].k;
        } else {
          assert v.callers[id] == w.callers[id];
        }
        assert !HasLeft(w.callers[id], op);
      }
      NoneLeftStays(v, run[1..], op);
    }
  }

  // Once its memory is freed, the operation is executed in some continuation exactly if some call
  // that is under way has it left.
  lemma {:induction false} UsesFreedIff(w: World, op: Op)
    requires Inv(w) && (op.Zero? || op.Give?) && Freed(w, op)
    ensures UsesFreed(w, op) <==> exists id :: id in w.callers && HasLeft(w.callers[id], op)
  {
    if exists id :: id in w.callers && HasLeft(w.callers[id], op) {
      var id :| id in w.callers && HasLeft(w.callers[id], op);
      var i :| w.callers[id].k <= i < |Program(w.callers[id].call)| && Program(w.callers[id].call)[i] == op;
      var run := GetsThere(w, id, i, op);
      FreedStays(w, run, op);
    } else {
      forall run, s | CanRun(w, run) && NoBegin(run) ensures !Executes(Final(w, run), s, op) {
        NoneLeftStays(w, run, op);
        if Executes(Final(w, run), s, op) {
          ExecutesWhatIsLeft(Final(w, run), s, op);
        }
      }
    }
  }

  // The destroy call `id` is about to free the buffer, and after it the semaphore.
  predicate AboutToFree(w: World, id: nat, op: Op) {
    && id in w.callers && w.callers[id].call.Destroy?
    && (op.Zero? ==> w.callers[id].k == 3) && (op.Give? ==> w.callers[id].k == 4)
  }

  // A start call that has not cleared the buffer yet does so in some continuation although a
  // destroy call has freed it, and a start, stop or resume call that has not given the semaphore
  // yet gives a freed one, exactly if there is such a call when the destroy call frees them and
  // no other begins later.
  lemma {:induction false} CallsUseFreedIff(w: World, id: nat, op: Op)
    requires Inv(w) && (op.Zero? || op.Give?) && AboutToFree(w, id, op)
    ensures Enabled(w, Proceed(id))
    ensures var v := Next(w, Proceed(id));
      Freed(v, op) && (UsesFreed(v, op) <==> exists j :: j in w.callers && j != id && HasLeft(w.callers[j], op))
  {
    assert CallerOk(w, w.callers[id]);
    StepKeepsInv(w, Proceed(id));
    var v := Next(w, Proceed(id));
    UsesFreedIff(v, op);
    assert !HasLeft(v.callers[id], op);
    assert forall j :: j in w.callers && j != id ==> v.callers[j] == w.callers[j];
  }
}
