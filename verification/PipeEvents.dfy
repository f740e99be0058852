/**
 The reports of the pipeline's state. Each event comes from a task of its own (an input stream,
 a codec, an output stream), which updates the state under the lock. Only after it has released
 the lock it compares the state with the one before and reports it, in three separate reads.
 */
module PipeEvents {
  import opened Common
  import opened PipeSpec

  // What a task has read since its locked part. C does not say which state is read first.
  datatype Look = Look(was: Option<PipeState>, now: Option<PipeState>)

  // A change of state, and how often the application has been told the state while it lasted
  datatype Change = Change(state: PipeState, told: nat)

  // tasks: those between the release of the lock and the end of the callback
  datatype World = World(pipe: Pipe, tasks: map<nat, Look>, history: seq<Change>)

  datatype Step = Lock(task: nat, ev: Event) | ReadOld(task: nat) | ReadState(task: nat) | Tell(task: nat)

  predicate Enabled(w: World, s: Step) {
    match s
    case Lock(t, _) => t !in w.tasks
    case ReadOld(t) => t in w.tasks && w.tasks[t].was.None?
    case ReadState(t) => t in w.tasks && w.tasks[t].now.None?
    case Tell(t) => t in w.tasks && w.tasks[t].was.Some? && w.tasks[t].now.Some?
  }

  // A task that has read the same state twice is done.
  function Seen(w: World, t: nat, look: Look): World {
    if look.was.Some? && look.was == look.now then w.(tasks := w.tasks - {t}) else w.(tasks := w.tasks[t := look])
  }

  function Last(h: seq<Change>): Change
    requires h != []
  {
    h[|h| - 1]
  }

  function Front(h: seq<Change>): seq<Change>
    requires h != []
  {
    h[..|h| - 1]
  }

  function Counted(h: seq<Change>): seq<Change> {
    if h == [] then [] else Front(h) + [Last(h).(told := Last(h).told + 1)]
  }

  function Next(w: World, s: Step): World
    requires Enabled(w, s)
  {
    match s
    case Lock(t, ev) =>
      var next := Target(w.pipe.state, ev);
      World(Locked(w.pipe, ev), w.tasks[t := Look(None, None)],
            if next != w.pipe.state then w.history + [Change(next, 0)] else w.history)
    case ReadOld(t) => Seen(w, t, w.tasks[t].(was := Some(w.pipe.oldState)))
    case ReadState(t) => Seen(w, t, w.tasks[t].(now := Some(w.pipe.state)))
    case Tell(t) => World(Notified(w.pipe), w.tasks - {t}, Counted(w.history))
  }

  predicate CanRun(w: World, run: seq<Step>)
    decreases |run|
  {
    run == [] || (Enabled(w, run[0]) && CanRun(Next(w, run[0]), run[1..]))
  }

  function Final(w: World, run: seq<Step>): World
    requires CanRun(w, run)
    decreases |run|
  {
    if run == [] then w else Final(Next(w, run[0]), run[1..])
  }

  // ------------------------------------------------------------------ what has been reported

  function Times(s: PipeState, n: nat): (r: seq<PipeState>)
    ensures |r| == n
  {
    if n == 0 then [] else Times(s, n - 1) + [s]
  }

  // The reports that the history amounts to
  function Told(h: seq<Change>): seq<PipeState>
    decreases |h|
  {
    if h == [] then [] else Told(Front(h)) + Times(Last(h).state, Last(h).told)
  }

  function Now(h: seq<Change>): PipeState {
    if h == [] then Inited else Last(h).state
  }

  // Each change is one from the state before it.
  predicate Chain(h: seq<Change>)
    decreases |h|
  {
    h == [] || (Chain(Front(h)) && Last(h).state != Now(Front(h)) && !Last(h).state.Resumed?)
  }

  // A state that has been read, if it has been
  predicate Is(read: Option<PipeState>, s: PipeState) {
    read.Some? ==> read.value == s
  }

  // A task that has read both has found them different; before the first change all are INITED.
  predicate LookOk(w: World, look: Look) {
    && (look.was.Some? ==> look.was != look.now)
    && (w.history == [] ==> Is(look.was, Inited) && Is(look.now, Inited))
  }

  predicate Inv(w: World) {
    && Chain(w.history)
    && w.pipe.state == Now(w.history)
    && w.pipe.notes == Told(w.history)
    && (w.history == [] ==> w.pipe.oldState.Inited?)
    && (forall t :: t in w.tasks ==> LookOk(w, w.tasks[t]))
  }

  function Begun(p: Pipe): World {
    World(p, map[], [])
  }

  predicate IsNew(p: Pipe) {
    p.state.Inited? && p.oldState.Inited? && p.notes == []
  }

  lemma {:induction false} Snoc(h: seq<Change>, c: Change)
    ensures Front(h + [c]) == h && Last(h + [c]) == c
    ensures Told(h + [c]) == Told(h) + Times(c.state, c.told)
    ensures Chain(h + [c]) <==> Chain(h) && c.state != Now(h) && !c.state.Resumed?
    ensures Now(h + [c]) == c.state
  {
    assert Front(h + [c]) == h;
  }

  lemma {:induction false} CountedOnce(h: seq<Change>)
    requires h != []
    ensures Told(Counted(h)) == Told(h) + [Now(h)]
    ensures Chain(h) ==> Chain(Counted(h))
    ensures Now(Counted(h)) == Now(h) && |Counted(h)| == |h| && Front(Counted(h)) == Front(h)
    ensures Last(Counted(h)) == Change(Last(h).state, Last(h).told + 1)
  {
    var c := Last(h);
    Snoc(Front(h), c.(told := c.told + 1));
    assert Times(c.state, c.told + 1) == Times(c.state, c.told) + [c.state];
    Regroup(Told(Front(h)), Times(c.state, c.told), [c.state]);
  }

  lemma {:induction false} Regroup(a: seq<PipeState>, b: seq<PipeState>, c: seq<PipeState>)
    ensures a + b + c == a + (b + c)
  {
  }

  lemma {:induction false} StepKeepsInv(w: World, s: Step)
    requires Inv(w) && Enabled(w, s)
    ensures Inv(Next(w, s))
  {
    match s
    case Lock(t, ev) => LockKeepsInv(w, t, ev);
    case ReadOld(t) =>
    case ReadState(t) =>
    case Tell(t) =>
      assert LookOk(w, w.tasks[t]);
      CountedOnce(w.history);
  }

  lemma {:induction false} LockKeepsInv(w: World, t: nat, ev: Event)
    requires Inv(w) && t !in w.tasks
    ensures Inv(Next(w, Lock(t, ev)))
  {
    var next := Target(w.pipe.state, ev);
    Snoc(w.history, Change(next, 0));
    assert Told(w.history) + Times(next, 0) == Told(w.history);
    forall u | u in w.tasks ensures LookOk(Next(w, Lock(t, ev)), w.tasks[u]) {
      assert LookOk(w, w.tasks[u]);
    }
  }

  // In every interleaving of the tasks the application is told, in the order of the changes, each
  // state as often as tasks tell it while it lasts, and nothing else; the pipeline is never in the
  // state Resumed.
  lemma {:induction false} EveryRun(w: World, run: seq<Step>)
    requires Inv(w) && CanRun(w, run)
    ensures var v := Final(w, run);
      && v.pipe.notes == Told(v.history) && Chain(v.history) && v.pipe.state == Now(v.history)
      && !v.pipe.state.Resumed? && Inv(v)
    decreases |run|
  {
    if run != [] {
      StepKeepsInv(w, run[0]);
      EveryRun(Next(w, run[0]), run[1..]);
    }
  }

  // ------------------------------------------------------------ what an event makes possible

  predicate ReportsStart(ev: Event) {
    ev.StreamStarted? || ev.CodecStarted?
  }

  predicate ReportsStop(ev: Event) {
    ev.StreamStopped? || ev.CodecStopped?
  }

  predicate ReportsPause(ev: Event) {
    ev.StreamPaused? || ev.CodecPaused?
  }

  predicate Accepts(p: Pipe, next: PipeState) {
    Command(p, next).err.ESP_OK?
  }

  // Every call that rewires the pipeline fails, and leaves it as it is.
  ghost predicate RefusesRewiring(p: Pipe) {
    && (forall fn :: p.blocks != [] ==> SetInputCb(p, fn) == Outcome(p, ESP_ERR_INVALID_STATE))
    && (forall id, ok :: CodecKnown(p) ==> SetCodec(p, id, ok) == Outcome(p, ESP_ERR_INVALID_STATE))
    && (forall id, rbOk, ok :: StreamKnown(p, id) ==>
          SetInputStream(p, id, rbOk, ok) == Outcome(p, ESP_ERR_INVALID_STATE))
  }

  // No such call fails for the state the pipeline is in, and each can succeed.
  ghost predicate AllowsRewiring(p: Pipe) {
    && (forall fn :: p.blocks != [] ==> SetInputCb(p, fn).err.ESP_OK?)
    && (forall id, ok :: CodecKnown(p) ==> (SetCodec(p, id, ok).err.ESP_OK? <==> CanSetCodec(p, id, ok)))
    && (forall id, rbOk, ok :: StreamKnown(p, id) ==>
          !SetInputStream(p, id, rbOk, ok).err.ESP_ERR_INVALID_STATE?
          && (p.blocks[0].btype.StreamBlock? ==>
                (SetInputStream(p, id, rbOk, ok).err.ESP_OK? <==> ok || p.blocks[0].cfg == id)))
  }

  predicate CodecKnown(p: Pipe) {
    CodecAt(p.blocks) < |p.blocks| ==> p.blocks[CodecAt(p.blocks)].cfg in p.env.codecs
  }

  predicate CanSetCodec(p: Pipe, id: nat, ok: bool) {
    CodecAt(p.blocks) < |p.blocks| && (ok || p.blocks[CodecAt(p.blocks)].cfg == id)
  }

  predicate StreamKnown(p: Pipe, id: nat) {
    && p.blocks != [] && id in p.env.streams
    && (p.blocks[0].btype.StreamBlock? ==> p.blocks[0].cfg in p.env.streams)
  }

  // In a new or stopped pipeline a start and rewiring are accepted and nothing else; in a paused one
  // a resume, in one that plays a pause and a stop. A refused command does nothing.
  lemma {:induction false} AcceptsIff(p: Pipe, next: PipeState)
    ensures p.state.Inited? || p.state.Stopped? ==> (Accepts(p, next) <==> next.Started?) && AllowsRewiring(p)
    ensures p.state.Paused? ==> (Accepts(p, next) <==> next.Resumed?) && RefusesRewiring(p)
    ensures p.state.Started? || p.state.Resumed? ==>
      (Accepts(p, next) <==> next.Paused? || next.Stopped?) && RefusesRewiring(p)
    ensures !Accepts(p, next) ==> Command(p, next) == Commanded([], ESP_FAIL)
  {
  }

  // After the locked part for a stopped event exactly a start is accepted, and rewiring; for a
  // paused event exactly a resume; for a started event exactly a pause and a stop. Any other event
  // leaves what is accepted as it was, and none touches the blocks, the environment or the record.
  lemma {:induction false} AfterEvent(p: Pipe, ev: Event, next: PipeState)
    ensures var q := Locked(p, ev);
      && (ReportsStop(ev) ==> q.state.Stopped? && (Accepts(q, next) <==> next.Started?) && AllowsRewiring(q))
      && (ReportsPause(ev) ==> q.state.Paused? && (Accepts(q, next) <==> next.Resumed?) && RefusesRewiring(q))
      && (ReportsStart(ev) ==>
            q.state.Started? && (Accepts(q, next) <==> next.Paused? || next.Stopped?) && RefusesRewiring(q))
      && (ev.Other? ==> q.state == p.state)
      && q == p.(oldState := p.state, state := q.state)
  {
    AcceptsIff(Locked(p, ev), next);
  }

  // The last event of a run that reports a start, a stop or a pause
  function LastEvent(run: seq<Step>): Option<Event> {
    if run == [] then None
    else
      var rest := LastEvent(run[1..]);
      if rest.None? && run[0].Lock? && !run[0].ev.Other? then Some(run[0].ev) else rest
  }

  // In every interleaving the state, and what a task that tells anything next tells, is what the
  // last event to take the lock has reported, whichever task it came from.
  lemma {:induction false} LastEventDecides(w: World, run: seq<Step>, t: nat)
    requires CanRun(w, run)
    ensures var v := Final(w, run);
      && (LastEvent(run).None? ==> v.pipe.state == w.pipe.state)
      && (LastEvent(run).Some? ==>
            var ev := LastEvent(run).value;
            && (ReportsStart(ev) <==> v.pipe.state.Started?)
            && (ReportsStop(ev) <==> v.pipe.state.Stopped?)
            && (ReportsPause(ev) <==> v.pipe.state.Paused?))
      && (Enabled(v, Tell(t)) ==> Next(v, Tell(t)).pipe.notes == v.pipe.notes + [v.pipe.state])
    decreases |run|
  {
    if run != [] {
      LastEventDecides(Next(w, run[0]), run[1..], t);
    }
  }

  // ---------------------------------------------------------------- when a task tells anything

  predicate NotBy(run: seq<Step>, t: nat) {
    forall s :: s in run ==> s.task != t
  }

  lemma {:induction false} OthersLeave(w: World, run: seq<Step>, t: nat)
    requires CanRun(w, run) && NotBy(run, t) && t in w.tasks
    ensures t in Final(w, run).tasks && Final(w, run).tasks[t] == w.tasks[t]
    decreases |run|
  {
    if run != [] {
      assert run[0] in run;
      OthersLeave(Next(w, run[0]), run[1..], t);
    }
  }

  // A task tells the application exactly if the old state, when it reads it, differs from the
  // state, when it reads that; whatever other tasks do before, between and after, and in
  // whichever order it reads them.
  lemma {:induction false} TellsIff(w: World, t: nat, a: seq<Step>, b: seq<Step>, oldFirst: bool)
    requires t in w.tasks && w.tasks[t] == Look(None, None) && NotBy(a, t) && NotBy(b, t)
    requires CanRun(w, a)
    ensures var first, second := if oldFirst then ReadOld(t) else ReadState(t), if oldFirst then ReadState(t) else ReadOld(t);
      var u := Final(w, a);
      && Enabled(u, first)
      && (CanRun(Next(u, first), b) ==>
            var v := Final(Next(u, first), b);
            && Enabled(v, second)
            && var was, now := if oldFirst then u.pipe.oldState else v.pipe.oldState, if oldFirst then v.pipe.state else u.pipe.state;
            && (t in Next(v, second).tasks <==> was != now)
            && (Enabled(Next(v, second), Tell(t)) <==> was != now))
  {
    OthersLeave(w, a, t);
    var first := if oldFirst then ReadOld(t) else ReadState(t);
    var u := Next(Final(w, a), first);
    if CanRun(u, b) {
      OthersLeave(u, b, t);
    }
  }

  // Without a locked part in between, that is what the callback does in one go.
  lemma {:induction false} InOneGo(w: World, t: nat)
    requires t in w.tasks && w.tasks[t] == Look(None, None)
    ensures Enabled(w, ReadOld(t)) && Enabled(Next(w, ReadOld(t)), ReadState(t))
    ensures var v := Next(Next(w, ReadOld(t)), ReadState(t));
      var x := if Enabled(v, Tell(t)) then Next(v, Tell(t)) else v;
      x.pipe == Reported(w.pipe) && x.tasks == w.tasks - {t}
  {
    var u := Next(w, ReadOld(t));
    var v := Next(u, ReadState(t));
    if Enabled(v, Tell(t)) {
      assert Next(v, Tell(t)).tasks == w.tasks - {t};
    } else {
      assert v.tasks == w.tasks - {t};
    }
  }

  // -------------------------------------------------------------- how often a change is told

  // The state stays as it is.
  predicate Lasts(w: World, run: seq<Step>)
    requires CanRun(w, run)
    decreases |run|
  {
    run == [] || (Next(w, run[0]).pipe.state == w.pipe.state && Lasts(Next(w, run[0]), run[1..]))
  }

  function Tells(run: seq<Step>): nat {
    if run == [] then 0 else (if run[0].Tell? then 1 else 0) + Tells(run[1..])
  }

  lemma {:induction false} TimesFront(s: PipeState, n: nat)
    requires n > 0
    ensures Times(s, n) == [s] + Times(s, n - 1)
    decreases n
  {
    if n > 1 {
      TimesFront(s, n - 1);
    }
  }

  lemma {:induction false} ToldWhileItLasts(w: World, run: seq<Step>)
    requires CanRun(w, run) && Lasts(w, run) && w.history != []
    ensures var v := Final(w, run);
      && v.pipe.state == w.pipe.state
      && v.pipe.notes == w.pipe.notes + Times(w.pipe.state, Tells(run))
      && v.history == Front(w.history) + [Change(Last(w.history).state, Last(w.history).told + Tells(run))]
    decreases |run|
  {
    if run == [] {
      assert w.history == Front(w.history) + [Last(w.history)];
    } else {
      var v := Next(w, run[0]);
      if run[0].Tell? {
        CountedOnce(w.history);
        TimesFront(w.pipe.state, Tells(run));
        Regroup(w.pipe.notes, [w.pipe.state], Times(w.pipe.state, Tells(run[1..])));
      }
      ToldWhileItLasts(v, run[1..]);
    }
  }

  // The changes that have been followed by another one
  function Closed(h: seq<Change>): seq<Change> {
    if h == [] then [] else Front(h)
  }

  lemma {:induction false} ClosedStays(w: World, run: seq<Step>)
    requires CanRun(w, run)
    ensures Closed(w.history) <= Closed(Final(w, run).history)
    decreases |run|
  {
    if run != [] {
      if run[0].Tell? && w.history != [] {
        CountedOnce(w.history);
      }
      ClosedStays(Next(w, run[0]), run[1..]);
    }
  }

  // A change by task `t`, then any steps while the state lasts, the next change, and then
  // anything: the application has been told of the change exactly as often as tasks have told
  // it anything while it lasted, so the change is lost exactly if none has.
  lemma {:induction false} ToldUpToNextChange(w: World, t: nat, e: Event, mid: seq<Step>, u: nat, f: Event, rest: seq<Step>)
    requires t !in w.tasks && Target(w.pipe.state, e) != w.pipe.state
    requires CanRun(Next(w, Lock(t, e)), mid) && Lasts(Next(w, Lock(t, e)), mid)
    requires var v := Final(Next(w, Lock(t, e)), mid);
      u !in v.tasks && Target(v.pipe.state, f) != v.pipe.state && CanRun(Next(v, Lock(u, f)), rest)
    ensures var next := Target(w.pipe.state, e);
      var v := Final(Next(w, Lock(t, e)), mid);
      var z := Final(Next(v, Lock(u, f)), rest);
      && v.pipe.state == next && v.pipe.notes == w.pipe.notes + Times(next, Tells(mid))
      && |w.history| < |z.history| && z.history[|w.history|] == Change(next, Tells(mid))
  {
    var a := Next(w, Lock(t, e));
    ToldWhileItLasts(a, mid);
    var v := Final(a, mid);
    var b := Next(v, Lock(u, f));
    assert Front(a.history) == w.history && Front(b.history) == v.history;
    ClosedStays(b, rest);
    assert v.history[|w.history|] == Change(Target(w.pipe.state, e), Tells(mid));
  }

  // ------------------------------------------------------------- when the record is the history

  function States(h: seq<Change>): (r: seq<PipeState>)
    ensures |r| == |h|
    decreases |h|
  {
    if h == [] then [] else States(Front(h)) + [Last(h).state]
  }

  predicate OnceEach(h: seq<Change>) {
    forall c :: c in h ==> c.told == 1
  }

  lemma {:induction false} OnceEachSnoc(h: seq<Change>)
    requires h != []
    ensures OnceEach(h) <==> OnceEach(Front(h)) && Last(h).told == 1
  {
    assert h == Front(h) + [Last(h)];
  }

  // No state comes twice in a row.
  predicate Varied(s: seq<PipeState>) {
    forall i :: 0 < i < |s| ==> s[i] != s[i - 1]
  }

  lemma {:induction false} StatesVary(h: seq<Change>)
    requires Chain(h)
    ensures Varied(States(h)) && (h != [] ==> States(h)[|h| - 1] == Now(h))
    decreases |h|
  {
    if h != [] {
      StatesVary(Front(h));
    }
  }

  lemma {:induction false} TwiceInARow(t: seq<PipeState>, s: PipeState, n: nat)
    requires n >= 2
    ensures !Varied(t + Times(s, n))
  {
    var u := t + Times(s, n);
    assert Times(s, n) == Times(s, n - 2) + [s] + [s];
    assert u[|u| - 1] == Times(s, n)[n - 1] && u[|u| - 2] == Times(s, n)[n - 2];
  }

  // A record without a state twice in a row is no longer than the history, and as long only if
  // it is the history.
  lemma {:induction false} VariedIsShort(h: seq<Change>)
    requires Varied(Told(h))
    ensures |Told(h)| <= |h|
    ensures |Told(h)| == |h| ==> OnceEach(h)
    decreases |h|
  {
    if h != [] {
      var n, t := Last(h).told, Told(h);
      if n >= 2 {
        TwiceInARow(Told(Front(h)), Last(h).state, n);
      }
      assert Told(Front(h)) == t[..|t| - n];
      VariedIsShort(Front(h));
      OnceEachSnoc(h);
    }
  }

  lemma {:induction false} OnceEachTold(h: seq<Change>)
    requires OnceEach(h)
    ensures Told(h) == States(h)
    decreases |h|
  {
    if h != [] {
      OnceEachSnoc(h);
      OnceEachTold(Front(h));
      assert Times(Last(h).state, 1) == [Last(h).state];
    }
  }

  // What the application has been told is the history of the states, in every run from a new
  // pipeline on, if and only if each state has been told exactly once while it lasted.
  lemma {:induction false} RecordIff(p: Pipe, run: seq<Step>)
    requires IsNew(p) && CanRun(Begun(p), run)
    ensures var v := Final(Begun(p), run); v.pipe.notes == States(v.history) <==> OnceEach(v.history)
  {
    EveryRun(Begun(p), run);
    var v := Final(Begun(p), run);
    StatesVary(v.history);
    if v.pipe.notes == States(v.history) {
      VariedIsShort(v.history);
    }
    if OnceEach(v.history) {
      OnceEachTold(v.history);
    }
  }

  // ------------------------------------------------------------------------- tasks that race

  // No task takes the lock before the one that had it last is done.
  predicate Serial(w: World, run: seq<Step>)
    requires CanRun(w, run)
    decreases |run|
  {
    run == [] || ((run[0].Lock? ==> w.tasks == map[]) && Serial(Next(w, run[0]), run[1..]))
  }

  // The only task there is, if any, has read the states there are.
  predicate AloneAt(w: World, t: nat) {
    && w.tasks.Keys == {t}
    && Is(w.tasks[t].was, w.pipe.oldState) && Is(w.tasks[t].now, w.pipe.state)
  }

  // The last change has been told, unless it is still to be told by the task that made it.
  predicate UpToDate(h: seq<Change>, pending: bool) {
    h == [] || (OnceEach(Front(h)) && Last(h).told == if pending then 0 else 1)
  }

  ghost predicate SerialInv(w: World) {
    && Inv(w)
    && (w.tasks == map[] || exists t :: AloneAt(w, t))
    && UpToDate(w.history, w.tasks != map[] && w.pipe.oldState != w.pipe.state)
  }

  lemma {:induction false} SerialLock(w: World, t: nat, ev: Event)
    requires SerialInv(w) && w.tasks == map[]
    ensures SerialInv(Next(w, Lock(t, ev)))
  {
    var v := Next(w, Lock(t, ev));
    LockKeepsInv(w, t, ev);
    assert v.tasks == map[t := Look(None, None)];
    assert AloneAt(v, t);
    StillUpToDate(w.history, Change(Target(w.pipe.state, ev), 0));
  }

  lemma {:induction false} StillUpToDate(h: seq<Change>, c: Change)
    requires UpToDate(h, false) && c.told == 0
    ensures UpToDate(h + [c], true)
  {
    Snoc(h, c);
    if h != [] {
      OnceEachSnoc(h);
    }
  }

  lemma {:induction false} SerialRest(w: World, s: Step)
    requires SerialInv(w) && Enabled(w, s) && !s.Lock?
    ensures SerialInv(Next(w, s))
  {
    StepKeepsInv(w, s);
    var v := Next(w, s);
    assert s.task in w.tasks;
    var t: nat :| AloneAt(w, t);
    assert s.task in w.tasks.Keys;
    assert s.task == t && LookOk(w, w.tasks[t]);
    if t in v.tasks {
      assert v.tasks.Keys == {t} && AloneAt(v, t);
    } else {
      assert v.tasks == map[];
    }
    if s.Tell? {
      CountedOnce(w.history);
    }
  }

  lemma {:induction false} SerialRun(w: World, run: seq<Step>)
    requires SerialInv(w) && CanRun(w, run) && Serial(w, run)
    ensures SerialInv(Final(w, run))
    decreases |run|
  {
    if run != [] {
      if run[0].Lock? {
        SerialLock(w, run[0].task, run[0].ev);
      } else {
        SerialRest(w, run[0]);
      }
      SerialRun(Next(w, run[0]), run[1..]);
    }
  }

  // If no task takes the lock before the one that had it last is done, then once all are done the
  // application has been told of every change once, and of the current state last.
  lemma {:induction false} SerialRecord(p: Pipe, run: seq<Step>)
    requires IsNew(p) && CanRun(Begun(p), run) && Serial(Begun(p), run) && Final(Begun(p), run).tasks == map[]
    ensures var v := Final(Begun(p), run);
      && v.pipe.notes == States(v.history) && Varied(v.pipe.notes)
      && (v.pipe.notes != [] ==> v.pipe.notes[|v.pipe.notes| - 1] == v.pipe.state)
      && (v.pipe.notes == [] ==> v.pipe.state.Inited?)
  {
    SerialRun(Begun(p), run);
    var v := Final(Begun(p), run);
    if v.history != [] {
      OnceEachSnoc(v.history);
    }
    OnceEachTold(v.history);
    StatesVary(v.history);
  }

  // Every task has read nothing but the current state, and the old one is the same.
  predicate Blind(w: World) {
    && w.pipe.oldState == w.pipe.state && w.history != []
    && forall t :: t in w.tasks ==> Is(w.tasks[t].was, w.pipe.state) && Is(w.tasks[t].now, w.pipe.state)
  }

  // From there on the last change is not told any more, whatever comes.
  lemma {:induction false} BlindStays(w: World, run: seq<Step>)
    requires Blind(w) && Inv(w) && CanRun(w, run)
    ensures w.history <= Final(w, run).history
    decreases |run|
  {
    if run != [] {
      var s := run[0];
      StepKeepsInv(w, s);
      if s.task in w.tasks {
        assert LookOk(w, w.tasks[s.task]);
      }
      var v := Next(w, s);
      if v.history == w.history {
        BlindStays(v, run[1..]);
      } else {
        assert Closed(v.history) == w.history;
        ClosedStays(v, run[1..]);
      }
    }
  }

  // A change whose task is overtaken by another one with the same state to report is never told,
  // whatever comes after.
  lemma {:induction false} OvertakenIsLost(w: World, a: nat, b: nat, e: Event, f: Event, run: seq<Step>)
    requires Inv(w) && w.tasks == map[] && a != b
    requires Target(w.pipe.state, e) != w.pipe.state
    requires Target(Target(w.pipe.state, e), f) == Target(w.pipe.state, e)
    ensures Enabled(Next(w, Lock(a, e)), Lock(b, f))
    ensures var v := Next(Next(w, Lock(a, e)), Lock(b, f));
      && v.pipe.state == Target(w.pipe.state, e) && v.pipe.notes == w.pipe.notes
      && (CanRun(v, run) ==> w.history + [Change(v.pipe.state, 0)] <= Final(v, run).history)
  {
    var u := Next(w, Lock(a, e));
    var v := Next(u, Lock(b, f));
    LockKeepsInv(w, a, e);
    LockKeepsInv(u, b, f);
    if CanRun(v, run) {
      BlindStays(v, run);
    }
  }

  lemma {:induction false} Append(w: World, run: seq<Step>, s: Step)
    requires CanRun(w, run) && Enabled(Final(w, run), s)
    ensures CanRun(w, run + [s]) && Final(w, run + [s]) == Next(Final(w, run), s)
    decreases |run|
  {
    if run == [] {
      assert [s][1..] == [] && run + [s] == [s];
      assert CanRun(Next(w, s), []);
    } else {
      assert (run + [s])[1..] == run[1..] + [s];
      Append(Next(w, run[0]), run[1..], s);
    }
  }

  // Both ends of a new pipeline start, and the application is told of nothing.
  lemma {:induction false} StartIsLost(p: Pipe) returns (run: seq<Step>)
    requires IsNew(p)
    ensures CanRun(Begun(p), run)
    ensures var v := Final(Begun(p), run); v.tasks == map[] && v.pipe.state.Started? && v.pipe.notes == []
  {
    var w := Begun(p);
    run := [];
    Append(w, run, Lock(0, StreamStarted));
    run := run + [Lock(0, StreamStarted)];
    Append(w, run, Lock(1, CodecStarted));
    run := run + [Lock(1, CodecStarted)];
    run := ComparesEqual(w, run, 0);
    run := ComparesEqual(w, run, 1);
    assert Final(w, run).tasks == map[];
  }

  // A task compares when the last locked part was no change.
  lemma {:induction false} ComparesEqual(w: World, run: seq<Step>, t: nat) returns (longer: seq<Step>)
    requires CanRun(w, run)
    requires var v := Final(w, run); t in v.tasks && v.tasks[t] == Look(None, None) && v.pipe.oldState == v.pipe.state
    ensures CanRun(w, longer)
    ensures Final(w, longer) == Final(w, run).(tasks := Final(w, run).tasks - {t})
  {
    Append(w, run, ReadOld(t));
    longer := run + [ReadOld(t)];
    Append(w, longer, ReadState(t));
    longer := longer + [ReadState(t)];
    assert Final(w, longer).tasks == Final(w, run).tasks - {t};
  }

  // A task compares and tells when the last locked part was a change.
  lemma {:induction false} ComparesUnequal(w: World, run: seq<Step>, t: nat) returns (longer: seq<Step>)
    requires CanRun(w, run)
    requires var v := Final(w, run); t in v.tasks && v.tasks[t] == Look(None, None) && v.pipe.oldState != v.pipe.state
    ensures CanRun(w, longer)
    ensures var v := Final(w, run);
      Final(w, longer) == World(Notified(v.pipe), v.tasks - {t}, Counted(v.history))
  {
    Append(w, run, ReadOld(t));
    longer := run + [ReadOld(t)];
    Append(w, longer, ReadState(t));
    longer := longer + [ReadState(t)];
    Append(w, longer, Tell(t));
    longer := longer + [Tell(t)];
    assert Final(w, longer).tasks == Final(w, run).tasks - {t};
  }

  // A task that comes late with its comparison reports another task's change a second time.
  lemma {:induction false} ToldTwice(w: World, a: nat, b: nat, e: Event) returns (run: seq<Step>)
    requires Inv(w) && a in w.tasks && w.tasks[a] == Look(None, None) && b !in w.tasks
    requires Target(w.pipe.state, e) != w.pipe.state
    ensures CanRun(w, run)
    ensures Final(w, run).pipe.notes == w.pipe.notes + [Target(w.pipe.state, e), Target(w.pipe.state, e)]
  {
    run := [];
    Append(w, run, Lock(b, e));
    run := run + [Lock(b, e)];
    run := ComparesUnequal(w, run, a);
    run := ComparesUnequal(w, run, b);
  }

  // A change that is undone between the two reads of its task is lost, and the state before it is
  // told a second time: a stop and a start on a started pipeline leave the record at STARTED alone.
  lemma {:induction false} LostBetweenReads(w: World, a: nat, b: nat, e: Event, f: Event) returns (run: seq<Step>)
    requires Inv(w) && w.tasks == map[] && a != b
    requires Target(w.pipe.state, e) != w.pipe.state && Target(Target(w.pipe.state, e), f) == w.pipe.state
    ensures CanRun(w, run)
    ensures var v := Final(w, run);
      && v.tasks == map[] && v.pipe.notes == w.pipe.notes + [w.pipe.state]
      && v.history == w.history + [Change(Target(w.pipe.state, e), 0), Change(w.pipe.state, 1)]
  {
    run := [];
    Append(w, run, Lock(a, e));
    run := run + [Lock(a, e)];
    Append(w, run, ReadOld(a));
    run := run + [ReadOld(a)];
    Append(w, run, Lock(b, f));
    run := run + [Lock(b, f)];
    Append(w, run, ReadState(a));
    run := run + [ReadState(a)];
    assert Final(w, run).tasks == map[b := Look(None, None)];
    run := ComparesUnequal(w, run, b);
    assert Final(w, run).tasks == map[];
  }
}
