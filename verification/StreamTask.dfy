/**
 The audio stream: a worker task and any number of threads that call start, stop, pause, resume
 or destroy, in small interleaved steps. The three flags are bit-fields of one byte, so a write
 of one of them is a load of the byte and, later, a store of the byte with one bit changed.
 */
module StreamSpec {
  import opened Common

  datatype Field = RunBit | PauseBit | DestroyBit

  datatype Flags = Flags(run: bool, pause: bool, destroy: bool)

  function Put(f: Flags, b: Field, v: bool): Flags {
    match b
    case RunBit => f.(run := v)
    case PauseBit => f.(pause := v)
    case DestroyBit => f.(destroy := v)
  }

  datatype State = Init | Running | Stopped | Paused | Destroyed

  // The events the task reports
  datatype Event = EvStarted | EvStopped | EvPaused | EvFailed | EvDestroyed

  // Where the task is in audio_stream_task; each place is one access to what others also see,
  // or one call of a callback.
  datatype Place =
    | SetStopped | Take | ChkDestroy | ChkRun | CleanupIdle
    | ChkPause | CtxInit | EmitFailed | ClrPauseLoad | ClrPauseStore | SetRunning | EmitStarted
    | WhileRun | Io | ClrRunLoad | ClrRunStore | LoopChkPause | LoopChkDestroy
    | EndChkDestroy | EndChkPause | EmitPaused | SetPaused
    | EndChkRun | SendEnd | CleanupEnd | EmitStopped
    | EmitDestroyed | CleanupDestroyed | SetDestroyed | Done

  datatype Call = Start | Stop | Pause | Resume | Destroy

  datatype Op = Set(field: Field, value: bool) | Zero | Give | Await | FreeBuf | FreeSem

  function Program(c: Call): (p: seq<Op>)
    ensures forall i :: 0 <= i < |p| && p[i].Set? && p[i].field.DestroyBit? ==> c.Destroy? && i == 0 && p[i].value
    ensures forall i :: 0 <= i < |p| && (p[i].FreeBuf? || p[i].FreeSem?) ==> c.Destroy? && i >= 3
  {
    match c
    case Start => [Set(RunBit, true), Set(PauseBit, false), Zero, Give]
    case Stop => [Set(RunBit, false), Set(PauseBit, false), Give]
    case Pause => [Set(PauseBit, true)]
    case Resume => [Set(PauseBit, false), Give]
    case Destroy => [Set(DestroyBit, true), Give, Await, FreeBuf, FreeSem]
  }

  // A call in progress: `k` operations are behind it; `snap` is the byte it has loaded and not
  // stored yet.
  datatype Caller = Caller(call: Call, k: nat, snap: Option<Flags>)

  // sem: the count of the control semaphore, at most 1; wakeups: how often the reader can still
  // be woken from outside (-3); callers: every call so far, by a number of its own
  datatype World = World(place: Place, state: State, flags: Flags, snap: Option<Flags>, sem: nat,
                         reader: bool, wakeups: nat, bufLive: bool, semLive: bool,
                         callers: map<nat, Caller>, events: seq<Event>)

  function Initial(reader: bool, wakeups: nat): World {
    World(SetStopped, Init, Flags(false, false, false), None, 0, reader, wakeups, true, true, map[], [])
  }

  // What the callbacks of the task answer
  datatype Answer = Fine | InitFails | Woken | Ends

  datatype Step = Task(answer: Answer) | Begin(id: nat, call: Call) | Proceed(id: nat)

  predicate TaskEnabled(w: World, a: Answer) {
    match w.place
    case Take => w.sem > 0 && a.Fine?
    case CtxInit => a.Fine? || a.InitFails?
    case Io => a.Fine? || (a.Woken? && w.wakeups > 0) || a.Ends?
    case Done => false
    case _ => a.Fine?
  }

  function Emit(w: World, e: Event): World {
    w.(events := w.events + [e])
  }

  // The task's own store of a flag, always of 0
  function Store(w: World, b: Field): World {
    w.(flags := Put(w.snap.GetOr(w.flags), b, false), snap := None)
  }

  // Where a step of the task leads
  function Goes(w: World, a: Answer): Place {
    match w.place
    case SetStopped => Take
    case Take => ChkDestroy
    case ChkDestroy => if w.flags.destroy then EmitDestroyed else ChkRun
    case ChkRun => if w.flags.run then ChkPause else CleanupIdle
    case CleanupIdle => SetStopped
    case ChkPause => if w.flags.pause then ClrPauseLoad else CtxInit
    case CtxInit => if a.InitFails? then EmitFailed else ClrPauseLoad
    case EmitFailed => SetStopped
    case ClrPauseLoad => ClrPauseStore
    case ClrPauseStore => SetRunning
    case SetRunning => EmitStarted
    case EmitStarted => WhileRun
    case WhileRun => if w.flags.run then Io else EndChkDestroy
    case Io => if a.Woken? then WhileRun else if a.Ends? then ClrRunLoad else LoopChkPause
    case ClrRunLoad => ClrRunStore
    case ClrRunStore => LoopChkPause
    case LoopChkPause => if w.flags.pause then EndChkDestroy else LoopChkDestroy
    case LoopChkDestroy => if w.flags.destroy then EndChkDestroy else WhileRun
    case EndChkDestroy => if w.flags.destroy then EmitDestroyed else EndChkPause
    case EndChkPause => if w.flags.pause then EmitPaused else EndChkRun
    case EmitPaused => SetPaused
    case SetPaused => SetStopped
    case EndChkRun => if !w.flags.run && w.reader then SendEnd else CleanupEnd
    case SendEnd => CleanupEnd
    case CleanupEnd => EmitStopped
    case EmitStopped => SetStopped
    case EmitDestroyed => CleanupDestroyed
    case CleanupDestroyed => SetDestroyed
    case SetDestroyed => Done
    case Done => Done
  }

  // What a step of the task changes besides
  function Does(w: World, a: Answer): World
    requires TaskEnabled(w, a)
  {
    match w.place
    case SetStopped => w.(state := Stopped)
    case Take => w.(sem := w.sem - 1)
    case ClrPauseLoad => w.(snap := Some(w.flags))
    case ClrPauseStore => Store(w, PauseBit)
    case SetRunning => w.(state := Running)
    case Io => if a.Woken? then w.(wakeups := w.wakeups - 1) else w
    case ClrRunLoad => w.(snap := Some(w.flags))
    case ClrRunStore => Store(w, RunBit)
    case SetPaused => w.(state := Paused)
    case SetDestroyed => w.(state := Destroyed)
    case EmitStarted => Emit(w, EvStarted)
    case EmitFailed => Emit(w, EvFailed)
    case EmitPaused => Emit(w, EvPaused)
    case EmitStopped => Emit(w, EvStopped)
    case EmitDestroyed => Emit(w, EvDestroyed)
    case _ => w
  }

  function TaskNext(w: World, a: Answer): World
    requires TaskEnabled(w, a)
  {
    Does(w, a).(place := Goes(w, a))
  }

  predicate CallerEnabled(w: World, c: Caller) {
    c.k < |Program(c.call)| && (Program(c.call)[c.k].Await? ==> w.state.Destroyed?)
  }

  // One operation of a call: a Set takes two steps, every other operation one.
  function Onward(w: World, c: Caller): Caller
    requires CallerEnabled(w, c)
  {
    if Program(c.call)[c.k].Set? && c.snap.None? then c.(snap := Some(w.flags))
    else Caller(c.call, c.k + 1, None)
  }

  function Effect(w: World, c: Caller): World
    requires CallerEnabled(w, c)
  {
    match Program(c.call)[c.k]
    case Set(b, v) => if c.snap.None? then w else w.(flags := Put(c.snap.value, b, v))
    case Give => w.(sem := 1)
    case FreeBuf => w.(bufLive := false)
    case FreeSem => w.(semLive := false)
    case _ => w
  }

  function CallerNext(w: World, id: nat): World
    requires id in w.callers && CallerEnabled(w, w.callers[id])
  {
    var c := w.callers[id];
    Effect(w, c).(callers := w.callers[id := Onward(w, c)])
  }

  // audio_stream_destroy is called once.
  predicate MayBegin(w: World, id: nat, c: Call) {
    && id !in w.callers
    && (c.Destroy? ==> forall j :: j in w.callers ==> !w.callers[j].call.Destroy?)
  }

  predicate Enabled(w: World, s: Step) {
    match s
    case Task(a) => TaskEnabled(w, a)
    case Begin(id, c) => MayBegin(w, id, c)
    case Proceed(id) => id in w.callers && CallerEnabled(w, w.callers[id])
  }

  function Next(w: World, s: Step): World
    requires Enabled(w, s)
  {
    match s
    case Task(a) => TaskNext(w, a)
    case Begin(id, c) => w.(callers := w.callers[id := Caller(c, 0, None)])
    case Proceed(id) => CallerNext(w, id)
  }

  predicate CanRun(w: World, run: seq<Step>)
    decreases |run|
  {
    run == [] || (Enabled(w, run[0]) && CanRun(Next(w, run[0]), run[1..]))
  }

  function Final(w: World, run: seq<Step>): World
    requires CanRun(w, run)
    decreases |run|
  {
    if run == [] then w else Final(Next(w, run[0]), run[1..])
  }
}
