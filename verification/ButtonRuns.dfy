/**
 Whole runs of the button: any interleaving of pin edges, timer firings, waiting and
 registration calls. Armed timers fire in deadline order, possibly late. Of two with the same
 deadline the one armed first fires first: an edge arms the push timer before those of the long
 presses.
 */
module ButtonRuns {
  import opened Common
  import opened ButtonSpec

  datatype Step =
    | Wait(us: nat)
    | Pin(level: bool)
    | PushTimer
    | ReleaseTimer
    | SerialPress
    | LongPress(k: nat)
    | AddLongPress(sec: nat, cb: bool)
    | SetSerialPress(sec: nat, ticks: nat, cb: bool)
    | SetCb(kind: CallbackKind, cb: bool)

  predicate NotBefore(due: Option<nat>, t: nat) {
    due.Some? ==> t <= due.value
  }

  predicate NoneBefore(b: Button, t: nat) {
    && NotBefore(b.pushDue, t) && NotBefore(b.releaseDue, t) && NotBefore(SerialDue(b.serial), t)
    && forall i :: 0 <= i < |b.press| ==> NotBefore(b.press[i].due, t)
  }

  predicate Expired(b: Button, due: Option<nat>) {
    due.Some? && due.value <= b.now && NoneBefore(b, due.value)
  }

  predicate Enabled(b: Button, s: Step) {
    match s
    case PushTimer => Expired(b, b.pushDue)
    case ReleaseTimer => Expired(b, b.releaseDue)
    case SerialPress => Expired(b, SerialDue(b.serial))
    case LongPress(k) => k < |b.press| && Expired(b, b.press[k].due) && b.press[k].due != b.pushDue
    case _ => true
  }

  function Apply(b: Button, s: Step): (r: Button)
    requires b.tickMs > 0 && Enabled(b, s)
    ensures r.tickMs == b.tickMs && r.glitch == b.glitch
    ensures b.now <= r.now
  {
    match s
    case Wait(us) => b.(now := b.now + us)
    case Pin(level) => PinEdge(b, level)
    case PushTimer => FirePush(b)
    case ReleaseTimer => FireRelease(b)
    case SerialPress => FireSerial(b)
    case LongPress(k) => FirePress(b, k)
    case AddLongPress(sec, cb) => AddPress(b, sec, cb)
    case SetSerialPress(sec, ticks, cb) => SetSerial(b, sec, ticks, cb)
    case SetCb(kind, cb) => SetCallback(b, kind, cb)
  }

  predicate Run(b: Button, steps: seq<Step>)
    requires b.tickMs > 0
    decreases |steps|
  {
    steps == [] || (Enabled(b, steps[0]) && Run(Apply(b, steps[0]), steps[1..]))
  }

  function Final(b: Button, steps: seq<Step>): Button
    requires b.tickMs > 0 && Run(b, steps)
    decreases |steps|
  {
    if steps == [] then b else Final(Apply(b, steps[0]), steps[1..])
  }

  // ---- Properties of a log, stated on the entries before each event ----

  datatype Class = Edges | Modes | Pushes

  predicate InClass(e: Event, c: Class) {
    match c
    case Edges => e.Edge?
    case Modes => e.ToPush? || e.ToPressed? || e.ToIdle?
    case Pushes => e.ToPush?
  }

  // Index of the last entry of a class, -1 when there is none
  function LastOf(log: seq<Entry>, c: Class): (r: int)
    ensures -1 <= r < |log|
    ensures r >= 0 ==> InClass(log[r].what, c)
  {
    if log == [] then -1
    else if InClass(log[|log| - 1].what, c) then |log| - 1
    else LastOf(log[..|log| - 1], c)
  }

  lemma {:induction false} LastOfIsLast(log: seq<Entry>, c: Class)
    ensures forall j :: LastOf(log, c) < j < |log| ==> !InClass(log[j].what, c)
  {
    if log != [] && !InClass(log[|log| - 1].what, c) {
      LastOfIsLast(log[..|log| - 1], c);
      assert forall j :: LastOf(log, c) < j < |log| - 1 ==> log[j] == log[..|log| - 1][j];
    }
  }

  function ModeOf(log: seq<Entry>): Status {
    var m := LastOf(log, Modes);
    if m < 0 || log[m].what.ToIdle? then Idle
    else if log[m].what.ToPush? then Push
    else Pressed
  }

  // At the end of `log` the pin has kept `level` since its last edge, at least `us` ago.
  predicate Held(log: seq<Entry>, at: nat, level: bool, us: nat) {
    var e := LastOf(log, Edges);
    e >= 0 && log[e].what == Edge(level) && log[e].at + us <= at
  }

  // What may have come before an entry
  predicate EntryOk(before: seq<Entry>, x: Entry, glitch: nat) {
    match x.what
    case Edge(_) => true
    case ToPush => Held(before, x.at, true, glitch)
    case CbPush => Held(before, x.at, true, glitch) && ModeOf(before) == Push
    case ToPressed(_, period) => Held(before, x.at, true, period)
    case CbLong(_, period) => Held(before, x.at, true, period) && ModeOf(before) == Pressed
    case ToIdle => Held(before, x.at, false, glitch)
    case CbTap => Held(before, x.at, false, glitch) && ModeOf(before) == Push
    case CbRelease => Held(before, x.at, false, glitch) && ModeOf(before) != Idle
    case CbSerial => ModeOf(before) != Idle
  }

  predicate LogOk(log: seq<Entry>, glitch: nat) {
    log == [] || (LogOk(log[..|log| - 1], glitch) && EntryOk(log[..|log| - 1], log[|log| - 1], glitch))
  }

  // The push handler has run, and found the button down, since the last edge.
  predicate PushSeen(log: seq<Entry>) {
    LastOf(log, Edges) < LastOf(log, Pushes)
  }

  predicate PushFirst(log: seq<Entry>) {
    log == [] ||
    (PushFirst(log[..|log| - 1]) &&
     (log[|log| - 1].what.ToPressed? || log[|log| - 1].what.CbLong? ==> PushSeen(log[..|log| - 1])))
  }

  lemma {:induction false} Snoc(log: seq<Entry>, x: Entry, glitch: nat)
    ensures LogOk(log + [x], glitch) <==> LogOk(log, glitch) && EntryOk(log, x, glitch)
    ensures PushFirst(log + [x]) <==> PushFirst(log) && (x.what.ToPressed? || x.what.CbLong? ==> PushSeen(log))
    ensures ModeOf(log + [x]) == match x.what
                                 case ToPush => Push
                                 case ToPressed(_, _) => Pressed
                                 case ToIdle => Idle
                                 case _ => ModeOf(log)
    ensures LastOf(log + [x], Edges) == if x.what.Edge? then |log| else LastOf(log, Edges)
    ensures LastOf(log + [x], Pushes) == if x.what.ToPush? then |log| else LastOf(log, Pushes)
  {
    assert (log + [x])[..|log + [x]| - 1] == log;
  }

  // ---- The invariant of all runs ----

  ghost predicate Inv(b: Button) {
    && b.tickMs > 0
    && LogOk(b.log, b.glitch)
    && b.status == ModeOf(b.log)
    && (SerialDue(b.serial).Some? ==> b.status != Idle)
    && var e := LastOf(b.log, Edges);
    if e < 0 then NeverArmed(b) else b.log[e].what == Edge(b.active) && b.log[e].at <= b.now && Armed(b, b.log[e].at)
  }

  predicate NeverArmed(b: Button) {
    b.pushDue.None? && b.releaseDue.None? && forall i :: 0 <= i < |b.press| ==> b.press[i].due.None?
  }

  predicate Armed(b: Button, edge: nat) {
    if b.active then
      && (b.pushDue.Some? ==> b.pushDue.value == edge + b.glitch)
      && forall i :: 0 <= i < |b.press| && b.press[i].due.Some? ==> b.press[i].due.value == edge + b.press[i].period
    else
      b.releaseDue.Some? ==> b.releaseDue.value >= edge + b.glitch
  }

  lemma {:induction false} StepKeepsInv(b: Button, s: Step)
    requires Inv(b) && Enabled(b, s)
    ensures Inv(Apply(b, s))
  {
    match s
    case Pin(level) => PinKeepsInv(b, level);
    case PushTimer => PushKeepsInv(b);
    case ReleaseTimer => ReleaseKeepsInv(b);
    case LongPress(k) => LongPressKeepsInv(b, k);
    case _ => OtherKeepsInv(b, s);
  }

  lemma {:induction false} OtherKeepsInv(b: Button, s: Step)
    requires Inv(b) && Enabled(b, s)
    requires s.SerialPress? || s.Wait? || s.AddLongPress? || s.SetSerialPress? || s.SetCb?
    ensures Inv(Apply(b, s))
  {
    match s
    case SerialPress => SerialKeepsInv(b);
    case AddLongPress(sec, cb) => AddKeepsInv(b, sec, cb);
    case _ =>
  }

  lemma {:induction false} SerialKeepsInv(b: Button)
    requires Inv(b) && SerialDue(b.serial).Some?
    ensures Inv(FireSerial(b))
  {
    Snoc(b.log, Entry(b.now, CbSerial), b.glitch);
  }

  lemma {:induction false} AddKeepsInv(b: Button, sec: nat, cb: bool)
    requires Inv(b)
    ensures Inv(AddPress(b, sec, cb))
  {
  }

  lemma {:induction false} PinKeepsInv(b: Button, level: bool)
    requires Inv(b)
    ensures Inv(PinEdge(b, level))
  {
    Snoc(b.log, Entry(b.now, Edge(level)), b.glitch);
  }

  lemma {:induction false} PushKeepsInv(b: Button)
    requires Inv(b) && b.pushDue.Some? && b.pushDue.value <= b.now
    ensures Inv(FirePush(b))
  {
    var x := Entry(b.now, ToPush);
    Snoc(b.log, x, b.glitch);
    Snoc(b.log + [x], Entry(b.now, CbPush), b.glitch);
  }

  lemma {:induction false} LongPressKeepsInv(b: Button, k: nat)
    requires Inv(b) && k < |b.press| && b.press[k].due.Some? && b.press[k].due.value <= b.now
    ensures Inv(FirePress(b, k))
  {
    var t := b.press[k];
    var x := Entry(b.now, ToPressed(t.sec, t.period));
    Snoc(b.log, x, b.glitch);
    Snoc(b.log + [x], Entry(b.now, CbLong(t.sec, t.period)), b.glitch);
  }

  lemma {:induction false} ReleaseKeepsInv(b: Button)
    requires Inv(b) && b.releaseDue.Some? && b.releaseDue.value <= b.now
    ensures Inv(FireRelease(b))
  {
    if !b.active {
      ReleaseLogOk(b);
    }
  }

  predicate Up(log: seq<Entry>, at: nat, glitch: nat, status: Status) {
    LogOk(log, glitch) && ModeOf(log) == status && Held(log, at, false, glitch)
  }

  lemma {:induction false} StillUp(log: seq<Entry>, at: nat, glitch: nat, status: Status, e: Event)
    requires Up(log, at, glitch, status) && EntryOk(log, Entry(at, e), glitch)
    requires e.CbTap? || e.CbRelease?
    ensures Up(log + [Entry(at, e)], at, glitch, status)
    ensures LastOf(log + [Entry(at, e)], Edges) == LastOf(log, Edges)
  {
    Snoc(log, Entry(at, e), glitch);
  }

  lemma {:induction false} ReleaseLogOk(b: Button)
    requires Up(b.log, b.now, b.glitch, b.status)
    ensures LogOk(ReleaseLog(b), b.glitch) && ModeOf(ReleaseLog(b)) == Idle
    ensures LastOf(ReleaseLog(b), Edges) == LastOf(b.log, Edges)
  {
    var tap := LogIf(b, b.cbs.tap && b.status == Push, CbTap);
    if b.cbs.tap && b.status == Push {
      StillUp(b.log, b.now, b.glitch, b.status, CbTap);
    }
    assert Up(tap.log, b.now, b.glitch, b.status) && LastOf(tap.log, Edges) == LastOf(b.log, Edges);
    var rel := LogIf(tap, b.cbs.release && b.status != Idle, CbRelease);
    if b.cbs.release && b.status != Idle {
      StillUp(tap.log, b.now, b.glitch, b.status, CbRelease);
    }
    assert Up(rel.log, b.now, b.glitch, b.status) && LastOf(rel.log, Edges) == LastOf(b.log, Edges);
    Snoc(rel.log, Entry(b.now, ToIdle), b.glitch);
  }

  lemma {:induction false} RunKeepsInv(b: Button, steps: seq<Step>)
    requires Inv(b) && Run(b, steps)
    ensures Inv(Final(b, steps))
    decreases |steps|
  {
    if steps != [] {
      StepKeepsInv(b, steps[0]);
      RunKeepsInv(Apply(b, steps[0]), steps[1..]);
    }
  }

  lemma {:induction false} FinalKeepsConfig(b: Button, steps: seq<Step>)
    requires b.tickMs > 0 && Run(b, steps)
    ensures Final(b, steps).glitch == b.glitch && Final(b, steps).tickMs == b.tickMs
    decreases |steps|
  {
    if steps != [] {
      FinalKeepsConfig(Apply(b, steps[0]), steps[1..]);
    }
  }

  lemma {:induction false} LogOkEverywhere(log: seq<Entry>, glitch: nat, k: nat)
    requires LogOk(log, glitch) && k < |log|
    ensures EntryOk(log[..k], log[k], glitch)
    decreases |log|
  {
    var front := log[..|log| - 1];
    if k < |front| {
      LogOkEverywhere(front, glitch, k);
      assert front[..k] == log[..k] && front[k] == log[k];
    }
  }

  // For `us` before entry `k` the pin has kept `level`: it went there that long ago or longer,
  // and no edge has come since.
  ghost predicate Steady(log: seq<Entry>, k: nat, level: bool, us: nat)
    requires k < |log|
  {
    exists e :: 0 <= e < k && log[e].what == Edge(level) && log[e].at + us <= log[k].at && NoEdge(log, e + 1, k)
  }

  predicate NoEdge(log: seq<Entry>, from: nat, to: nat)
    requires to <= |log|
  {
    forall j :: from <= j < to ==> !log[j].what.Edge?
  }

  // The hold times: what the pin has done before each report and each change of the state
  ghost predicate HeldLong(log: seq<Entry>, k: nat, glitch: nat)
    requires k < |log|
  {
    match log[k].what
    case ToPush => Steady(log, k, true, glitch)
    case CbPush => Steady(log, k, true, glitch)
    case ToPressed(_, period) => Steady(log, k, true, period)
    case CbLong(_, period) => Steady(log, k, true, period)
    case ToIdle => Steady(log, k, false, glitch)
    case CbTap => Steady(log, k, false, glitch)
    case CbRelease => Steady(log, k, false, glitch)
    case Edge(_) => true
    case CbSerial => true
  }

  lemma {:induction false} HeldIsSteady(log: seq<Entry>, k: nat, level: bool, us: nat)
    requires k < |log| && Held(log[..k], log[k].at, level, us)
    ensures Steady(log, k, level, us)
  {
    LastOfIsLast(log[..k], Edges);
    var e := LastOf(log[..k], Edges);
    forall j | e + 1 <= j < k ensures !log[j].what.Edge? {
      assert !InClass(log[..k][j].what, Edges);
    }
    assert log[e] == log[..k][e] && NoEdge(log, e + 1, k);
  }

  lemma {:induction false} EntryIsHeldLong(log: seq<Entry>, k: nat, glitch: nat)
    requires k < |log| && EntryOk(log[..k], log[k], glitch)
    ensures HeldLong(log, k, glitch)
  {
    match log[k].what
    case ToPush => HeldIsSteady(log, k, true, glitch);
    case CbPush => HeldIsSteady(log, k, true, glitch);
    case ToPressed(_, period) => HeldIsSteady(log, k, true, period);
    case CbLong(_, period) => HeldIsSteady(log, k, true, period);
    case ToIdle => HeldIsSteady(log, k, false, glitch);
    case CbTap => HeldIsSteady(log, k, false, glitch);
    case CbRelease => HeldIsSteady(log, k, false, glitch);
    case Edge(_) =>
    case CbSerial =>
  }

  /** Debouncing, hold times and event order, in every run of every button. */
  lemma {:induction false} EveryRun(b: Button, steps: seq<Step>)
    requires Fresh(b) && Run(b, steps)
    ensures var f := Final(b, steps);
            && (forall k :: 0 <= k < |f.log| ==> HeldLong(f.log, k, b.glitch))
            && (forall k :: 0 <= k < |f.log| ==> EntryOk(f.log[..k], f.log[k], b.glitch))
            && f.status == ModeOf(f.log)
            && (SerialDue(f.serial).Some? ==> f.status != Idle)
  {
    RunKeepsInv(b, steps);
    FinalKeepsConfig(b, steps);
    var f := Final(b, steps);
    forall k | 0 <= k < |f.log|
      ensures EntryOk(f.log[..k], f.log[k], b.glitch) && HeldLong(f.log, k, b.glitch)
    {
      LogOkEverywhere(f.log, b.glitch, k);
      EntryIsHeldLong(f.log, k, b.glitch);
    }
  }

  // ---- The push handler comes before any long press ----

  // While the button is down the push timer is armed or the push handler has run for this edge.
  predicate PushDoneOrArmed(b: Button) {
    b.active && LastOf(b.log, Edges) >= 0 ==>
      b.pushDue.Some? || (PushSeen(b.log) && b.status != Idle)
  }

  predicate LongerThanGlitch(b: Button) {
    forall i :: 0 <= i < |b.press| ==> b.press[i].period >= b.glitch
  }

  lemma {:induction false} PushLogs(b: Button)
    requires b.active
    ensures PushSeen(FirePush(b).log) && (PushFirst(b.log) ==> PushFirst(FirePush(b).log))
  {
    var x := Entry(b.now, ToPush);
    Snoc(b.log, x, b.glitch);
    Snoc(b.log + [x], Entry(b.now, CbPush), b.glitch);
  }

  lemma {:induction false} LongPressLogs(b: Button, k: nat)
    requires b.active && k < |b.press| && PushSeen(b.log)
    ensures PushSeen(FirePress(b, k).log) && (PushFirst(b.log) ==> PushFirst(FirePress(b, k).log))
  {
    var t := b.press[k];
    var x := Entry(b.now, ToPressed(t.sec, t.period));
    Snoc(b.log, x, b.glitch);
    Snoc(b.log + [x], Entry(b.now, CbLong(t.sec, t.period)), b.glitch);
  }

  lemma {:induction false} LongPressKeepsPushDone(b: Button, k: nat)
    requires k < |b.press| && PushDoneOrArmed(b)
    ensures PushDoneOrArmed(FirePress(b, k))
  {
    var t := b.press[k];
    var x := Entry(b.now, ToPressed(t.sec, t.period));
    Snoc(b.log, x, b.glitch);
    Snoc(b.log + [x], Entry(b.now, CbLong(t.sec, t.period)), b.glitch);
  }

  lemma {:induction false} StepKeepsPushDone(b: Button, s: Step)
    requires Inv(b) && Enabled(b, s) && PushDoneOrArmed(b)
    ensures PushDoneOrArmed(Apply(b, s))
  {
    match s
    case PushTimer =>
      if b.active {
        PushLogs(b);
      }
    case SerialPress => Snoc(b.log, Entry(b.now, CbSerial), b.glitch);
    case LongPress(k) => LongPressKeepsPushDone(b, k);
    case _ =>
  }

  lemma {:induction false} StepKeepsPushFirst(b: Button, s: Step)
    requires Inv(b) && Enabled(b, s) && PushDoneOrArmed(b) && LongerThanGlitch(b)
    requires PushFirst(b.log)
    ensures PushFirst(Apply(b, s).log)
  {
    match s
    case Pin(level) => Snoc(b.log, Entry(b.now, Edge(level)), b.glitch);
    case PushTimer =>
      if b.active {
        PushLogs(b);
      }
    case ReleaseTimer => ReleaseKeepsPushFirst(b);
    case SerialPress => Snoc(b.log, Entry(b.now, CbSerial), b.glitch);
    case LongPress(k) =>
      if b.active {
        PushCameFirst(b, k);
        LongPressLogs(b, k);
      }
    case _ =>
  }

  // A long press whose deadline is reached finds the push timer fired.
  lemma {:induction false} PushCameFirst(b: Button, k: nat)
    requires Inv(b) && Enabled(b, LongPress(k)) && PushDoneOrArmed(b) && LongerThanGlitch(b) && b.active
    ensures PushSeen(b.log)
  {
    assert b.press[k].period >= b.glitch;
  }

  lemma {:induction false} ReleaseKeepsPushFirst(b: Button)
    requires PushFirst(b.log)
    ensures PushFirst(ReleaseLog(b))
  {
    var tap := LogIf(b, b.cbs.tap && b.status == Push, CbTap);
    Snoc(b.log, Entry(b.now, CbTap), b.glitch);
    var rel := LogIf(tap, b.cbs.release && b.status != Idle, CbRelease);
    Snoc(tap.log, Entry(b.now, CbRelease), b.glitch);
    Snoc(rel.log, Entry(b.now, ToIdle), b.glitch);
  }

  predicate AddsLonger(steps: seq<Step>, tickMs: nat, glitch: nat)
    requires tickMs > 0
  {
    forall i :: 0 <= i < |steps| && steps[i].AddLongPress? && steps[i].sec != 0 ==>
                  PressPeriod(steps[i].sec, tickMs) >= glitch
  }

  lemma {:induction false} StepKeepsLonger(b: Button, s: Step)
    requires b.tickMs > 0 && Enabled(b, s) && LongerThanGlitch(b)
    requires s.AddLongPress? && s.sec != 0 ==> PressPeriod(s.sec, b.tickMs) >= b.glitch
    ensures LongerThanGlitch(Apply(b, s))
  {
  }

  lemma {:induction false} RunKeepsPushFirst(b: Button, steps: seq<Step>)
    requires Inv(b) && Run(b, steps) && PushDoneOrArmed(b) && LongerThanGlitch(b) && PushFirst(b.log)
    requires AddsLonger(steps, b.tickMs, b.glitch)
    ensures PushFirst(Final(b, steps).log)
    decreases |steps|
  {
    if steps != [] {
      StepKeepsInv(b, steps[0]);
      StepKeepsPushDone(b, steps[0]);
      StepKeepsPushFirst(b, steps[0]);
      StepKeepsLonger(b, steps[0]);
      RunKeepsPushFirst(Apply(b, steps[0]), steps[1..]);
    }
  }

  lemma {:induction false} PushFirstEverywhere(log: seq<Entry>, k: nat)
    requires PushFirst(log) && k < |log| && (log[k].what.ToPressed? || log[k].what.CbLong?)
    ensures PushSeen(log[..k])
    decreases |log|
  {
    var front := log[..|log| - 1];
    if k < |front| {
      PushFirstEverywhere(front, k);
      assert front[..k] == log[..k] && front[k] == log[k];
    }
  }

  /** A long press is reported only after the push of the same edge, if its period is the glitch time or more. */
  lemma {:induction false} PushPrecedesLongPress(b: Button, steps: seq<Step>, k: nat)
    requires Fresh(b) && Run(b, steps) && AddsLonger(steps, b.tickMs, b.glitch)
    requires k < |Final(b, steps).log|
    requires Final(b, steps).log[k].what.ToPressed? || Final(b, steps).log[k].what.CbLong?
    ensures PushSeen(Final(b, steps).log[..k])
  {
    RunKeepsPushFirst(b, steps);
    PushFirstEverywhere(Final(b, steps).log, k);
  }

  predicate OnlyAdds(steps: seq<Step>, sec: nat) {
    forall i :: 0 <= i < |steps| && steps[i].AddLongPress? ==> steps[i].sec == sec
  }

  // With a period below the glitch time, a long press may fire with no push before it.
  lemma {:induction false} ShortPeriodSkipsPush(b: Button, sec: nat) returns (steps: seq<Step>)
    requires Fresh(b) && sec != 0 && PressPeriod(sec, b.tickMs) < b.glitch
    ensures Run(b, steps) && OnlyAdds(steps, sec)
    ensures !PushFirst(Final(b, steps).log)
  {
    var p := PressPeriod(sec, b.tickMs);
    var b1 := Apply(b, AddLongPress(sec, true));
    var b2 := Apply(b1, Pin(true));
    PressTimerArmed(b, sec);
    steps := FiresFirst(b2, sec, p);
    SkippedPush(b, sec, p, b.now + p);
    RunCons(b1, Pin(true), steps);
    steps := [Pin(true)] + steps;
    RunCons(b, AddLongPress(sec, true), steps);
    steps := [AddLongPress(sec, true)] + steps;
  }

  lemma {:induction false} PressTimerArmed(b: Button, sec: nat)
    requires Fresh(b) && sec != 0
    ensures var p := PressPeriod(sec, b.tickMs);
            var c := Apply(Apply(b, AddLongPress(sec, true)), Pin(true));
            && c.active && c.now == b.now && c.pushDue == Some(b.now + b.glitch)
            && c.releaseDue.None? && c.serial.None?
            && c.press == [PressTimer(sec, p, true, Some(b.now + p))]
            && c.log == [Entry(b.now, Edge(true))]
  {
  }

  // Waiting for the long press, which is due before the push, and its handler
  lemma {:induction false} FiresFirst(c: Button, sec: nat, p: nat) returns (steps: seq<Step>)
    requires c.tickMs > 0 && c.active && c.pushDue == Some(c.now + c.glitch) && p < c.glitch
    requires c.releaseDue.None? && c.serial.None? && c.press == [PressTimer(sec, p, true, Some(c.now + p))]
    ensures Run(c, steps) && OnlyAdds(steps, sec) && forall s :: s in steps ==> !s.AddLongPress?
    ensures Final(c, steps).log == c.log + [Entry(c.now + p, ToPressed(sec, p))] + [Entry(c.now + p, CbLong(sec, p))]
  {
    var d := Apply(c, Wait(p));
    RunCons(d, LongPress(0), []);
    RunCons(c, Wait(p), [LongPress(0)] + []);
    steps := [Wait(p)] + ([LongPress(0)] + []);
  }

  lemma {:induction false} RunCons(b: Button, s: Step, rest: seq<Step>)
    requires b.tickMs > 0 && Enabled(b, s) && Run(Apply(b, s), rest)
    ensures Run(b, [s] + rest) && Final(b, [s] + rest) == Final(Apply(b, s), rest)
  {
    assert ([s] + rest)[1..] == rest;
  }

  lemma {:induction false} SkippedPush(b: Button, sec: nat, p: nat, at: nat)
    ensures !PushFirst([Entry(b.now, Edge(true))] + [Entry(at, ToPressed(sec, p))] + [Entry(at, CbLong(sec, p))])
  {
    var edge := [Entry(b.now, Edge(true))];
    Snoc(edge, Entry(at, ToPressed(sec, p)), b.glitch);
    Snoc(edge + [Entry(at, ToPressed(sec, p))], Entry(at, CbLong(sec, p)), b.glitch);
  }

  /** Exactly the long presses whose 32-bit period is the glitch time or more always come after the push. */
  lemma {:induction false} PushFirstIff(b: Button, sec: nat)
    requires Fresh(b) && sec != 0
    ensures (forall steps | Run(b, steps) && OnlyAdds(steps, sec) :: PushFirst(Final(b, steps).log))
            <==> PressPeriod(sec, b.tickMs) >= b.glitch
  {
    if PressPeriod(sec, b.tickMs) >= b.glitch {
      forall steps | Run(b, steps) && OnlyAdds(steps, sec)
        ensures PushFirst(Final(b, steps).log)
      {
        RunKeepsPushFirst(b, steps);
      }
    } else {
      var steps := ShortPeriodSkipsPush(b, sec);
    }
  }

  /**
   The period programmed for a long press is the requested number of seconds if and only if that
   is at most 4294 and a whole number of ticks.
   */
  lemma {:induction false} PressPeriodExact(sec: nat, tickMs: nat)
    requires tickMs > 0
    ensures PressPeriod(sec, tickMs) == sec * 1_000_000 <==> sec <= 4294 && sec * 1000 % tickMs == 0
  {
    if sec <= 4294 {
      var ms := sec * 1000;
      WholeTicks(ms, tickMs);
      NoWrap(sec, 1000);
      NoWrap(ms / tickMs, tickMs);
      NoWrap(ms / tickMs * tickMs, 1000);
    } else {
      assert PressPeriod(sec, tickMs) < WORD;
    }
  }

  lemma {:induction false} WholeTicks(ms: nat, tickMs: nat)
    requires tickMs > 0
    ensures 0 <= ms / tickMs * tickMs <= ms
    ensures ms / tickMs * tickMs == ms <==> ms % tickMs == 0
  {
    assert ms == tickMs * (ms / tickMs) + ms % tickMs;
  }

  lemma {:induction false} NoWrap(a: nat, b: nat)
    requires a * b < WORD
    ensures Mul32(a, b) == a * b
  {
  }

  // 4295 s: the press fires after 32.7 ms, inside the default glitch time of 50 ms.
  lemma {:induction false} OverflowingPress(b: Button) returns (steps: seq<Step>)
    requires Fresh(b) && b.tickMs == 10 && b.glitch == PeriodUs(50 / 10, 10)
    ensures Run(b, steps) && !PushFirst(Final(b, steps).log)
  {
    assert PressPeriod(4295, 10) == 32704 && b.glitch == 50000;
    steps := ShortPeriodSkipsPush(b, 4295);
  }

  // ---- Settling, when timers fire on time ----

  predicate OnTime(b: Button, s: Step) {
    s.Wait? ==> NoneBefore(b, b.now + s.us)
  }

  predicate RunOnTime(b: Button, steps: seq<Step>)
    requires b.tickMs > 0
    decreases |steps|
  {
    steps == [] || (Enabled(b, steps[0]) && OnTime(b, steps[0]) && RunOnTime(Apply(b, steps[0]), steps[1..]))
  }

  predicate Quiet(b: Button) {
    b.status == Idle && SerialDue(b.serial).None? && forall i :: 0 <= i < |b.press| ==> b.press[i].due.None?
  }

  predicate Settling(b: Button) {
    && NoneBefore(b, b.now)
    && var e := LastOf(b.log, Edges);
    && (e < 0 ==> Quiet(b) && b.pushDue.None?)
    && (!b.active && 0 <= e ==>
          && (b.pushDue.Some? ==> b.pushDue.value <= b.log[e].at + b.glitch)
          && (Quiet(b) || (b.releaseDue.Some? && b.releaseDue.value <= b.log[e].at + 2 * b.glitch)))
  }

  lemma {:induction false} StepKeepsSettling(b: Button, s: Step)
    requires Inv(b) && Enabled(b, s) && OnTime(b, s) && Settling(b)
    ensures Settling(Apply(b, s))
  {
    match s
    case Pin(level) => PinKeepsSettling(b, level);
    case PushTimer => PushKeepsSettling(b);
    case ReleaseTimer => ReleaseKeepsSettling(b);
    case LongPress(k) => LongPressKeepsSettling(b, k);
    case _ => OtherKeepsSettling(b, s);
  }

  lemma {:induction false} OtherKeepsSettling(b: Button, s: Step)
    requires Inv(b) && Enabled(b, s) && OnTime(b, s) && Settling(b)
    requires s.SerialPress? || s.Wait? || s.AddLongPress? || s.SetSerialPress? || s.SetCb?
    ensures Settling(Apply(b, s))
  {
    match s
    case SerialPress => SerialKeepsSettling(b);
    case AddLongPress(sec, cb) => AddKeepsSettling(b, sec, cb);
    case Wait(us) => WaitKeepsSettling(b, us);
    case _ =>
  }

  lemma {:induction false} SerialKeepsSettling(b: Button)
    requires Inv(b) && SerialDue(b.serial).Some? && Settling(b)
    ensures Settling(FireSerial(b))
  {
    Snoc(b.log, Entry(b.now, CbSerial), b.glitch);
  }

  lemma {:induction false} AddKeepsSettling(b: Button, sec: nat, cb: bool)
    requires Inv(b) && Settling(b)
    ensures Settling(AddPress(b, sec, cb))
  {
  }

  lemma {:induction false} WaitKeepsSettling(b: Button, us: nat)
    requires Settling(b) && NoneBefore(b, b.now + us)
    ensures Settling(b.(now := b.now + us))
  {
  }

  lemma {:induction false} PinKeepsSettling(b: Button, level: bool)
    requires Inv(b) && Settling(b)
    ensures Settling(PinEdge(b, level))
  {
    Snoc(b.log, Entry(b.now, Edge(level)), b.glitch);
  }

  lemma {:induction false} PushKeepsSettling(b: Button)
    requires Inv(b) && Expired(b, b.pushDue) && Settling(b)
    ensures Settling(FirePush(b))
  {
    var x := Entry(b.now, ToPush);
    Snoc(b.log, x, b.glitch);
    Snoc(b.log + [x], Entry(b.now, CbPush), b.glitch);
  }

  lemma {:induction false} LongPressKeepsSettling(b: Button, k: nat)
    requires Inv(b) && k < |b.press| && Expired(b, b.press[k].due) && Settling(b)
    ensures Settling(FirePress(b, k))
  {
    var t := b.press[k];
    var x := Entry(b.now, ToPressed(t.sec, t.period));
    Snoc(b.log, x, b.glitch);
    Snoc(b.log + [x], Entry(b.now, CbLong(t.sec, t.period)), b.glitch);
  }

  lemma {:induction false} ReleaseKeepsSettling(b: Button)
    requires Inv(b) && Expired(b, b.releaseDue) && Settling(b)
    ensures Settling(FireRelease(b))
  {
    if !b.active {
      ReleaseLogOk(b);
      ReleaseQuiets(b);
    }
  }

  lemma {:induction false} ReleaseQuiets(b: Button)
    requires !b.active && NoneBefore(b, b.now)
    ensures Quiet(FireRelease(b)) && NoneBefore(FireRelease(b), b.now)
  {
  }

  lemma {:induction false} RunSettles(b: Button, steps: seq<Step>)
    requires Inv(b) && Settling(b) && PushDoneOrArmed(b) && RunOnTime(b, steps)
    ensures Run(b, steps)
    ensures Inv(Final(b, steps)) && Settling(Final(b, steps)) && PushDoneOrArmed(Final(b, steps))
    decreases |steps|
  {
    if steps != [] {
      StepKeepsInv(b, steps[0]);
      StepKeepsSettling(b, steps[0]);
      StepKeepsPushDone(b, steps[0]);
      RunSettles(Apply(b, steps[0]), steps[1..]);
    }
  }

  /**
   With timers on time, an inactive pin settles to IDLE within two glitch times, an active one to
   a press within one.
   */
  lemma {:induction false} Settles(b: Button, steps: seq<Step>)
    requires Fresh(b) && RunOnTime(b, steps)
    ensures Run(b, steps)
    ensures var f := Final(b, steps);
            var e := LastOf(f.log, Edges);
            && (!f.active && (0 <= e ==> f.log[e].at + 2 * b.glitch < f.now) ==> Quiet(f))
            && (f.active && 0 <= e && f.log[e].at + b.glitch < f.now ==> PushSeen(f.log) && f.status != Idle)
  {
    RunSettles(b, steps);
    FinalKeepsConfig(b, steps);
  }

  // No serial or long-press timer fires within the glitch time from now.
  predicate NothingElse(b: Button) {
    && NotBefore(SerialDue(b.serial), b.now + b.glitch)
    && forall i :: 0 <= i < |b.press| ==> NotBefore(b.press[i].due, b.now + b.glitch)
  }

  /** Holding the button for the glitch time reports one push and starts the serial timer. */
  lemma {:induction false} PushIsReported(b: Button, hold: nat)
    requires b.tickMs > 0 && b.cbs.push && b.glitch <= hold
    requires forall i :: 0 <= i < |b.press| ==> b.press[i].period >= b.glitch
    requires NotBefore(SerialDue(b.serial), b.now + b.glitch) && NotBefore(b.releaseDue, b.now + b.glitch)
    ensures var steps := [Pin(true)] + ([Wait(hold)] + ([PushTimer] + []));
            && Run(b, steps)
            && var f := Final(b, steps);
            var due := if b.serial.Some? then Some(b.now + hold + b.serial.value.threshold) else None;
            && f == b.(active := true, now := b.now + hold, status := Push, pushDue := None, releaseDue := None,
                       press := Rearm(b.press, b.now), serial := WithSerialDue(b.serial, due), log := f.log)
            && f.log == b.log + [Entry(b.now, Edge(true)), Entry(f.now, ToPush), Entry(f.now, CbPush)]
  {
    var b1 := Apply(b, Pin(true));
    var b2 := Apply(b1, Wait(hold));
    RunCons(b2, PushTimer, []);
    RunCons(b1, Wait(hold), [PushTimer] + []);
    RunCons(b, Pin(true), [Wait(hold)] + ([PushTimer] + []));
  }

  /**
   Letting go after a push, and before any long press, reports a tap and then the release, and
   stops the long-press and serial timers.
   */
  lemma {:induction false} TapIsReported(b: Button, rest: nat)
    requires b.tickMs > 0 && b.cbs.tap && b.cbs.release && b.status == Push && b.glitch <= rest
    requires NotBefore(b.pushDue, b.now + b.glitch) && NothingElse(b)
    ensures var steps := [Pin(false)] + ([Wait(rest)] + ([ReleaseTimer] + []));
            && Run(b, steps)
            && var f := Final(b, steps);
            && f == b.(active := false, now := b.now + rest, status := Idle, releaseDue := None,
                       press := Disarm(b.press), serial := WithSerialDue(b.serial, None), log := f.log)
            && f.log == b.log + [Entry(b.now, Edge(false)), Entry(f.now, CbTap), Entry(f.now, CbRelease),
                                 Entry(f.now, ToIdle)]
  {
    var b1 := Apply(b, Pin(false));
    var b2 := Apply(b1, Wait(rest));
    RunCons(b2, ReleaseTimer, []);
    RunCons(b1, Wait(rest), [ReleaseTimer] + []);
    RunCons(b, Pin(false), [Wait(rest)] + ([ReleaseTimer] + []));
  }

  /** Holding the button until the deadline of a long press, the next to fire, reports that long press. */
  lemma {:induction false} LongPressIsReported(b: Button, k: nat)
    requires b.tickMs > 0 && b.active && k < |b.press| && b.press[k].hasCb
    requires b.press[k].due.Some? && b.now <= b.press[k].due.value && NoneBefore(b, b.press[k].due.value)
    requires b.press[k].due != b.pushDue
    ensures var t := b.press[k];
            var steps := [Wait(t.due.value - b.now)] + ([LongPress(k)] + []);
            && Run(b, steps)
            && var f := Final(b, steps);
            && f == b.(now := t.due.value, status := Pressed, press := b.press[k := t.(due := None)], log := f.log)
            && f.log == b.log + [Entry(f.now, ToPressed(t.sec, t.period)), Entry(f.now, CbLong(t.sec, t.period))]
  {
    var wait := Wait(b.press[k].due.value - b.now);
    var b1 := Apply(b, wait);
    RunCons(b1, LongPress(k), []);
    RunCons(b, wait, [LongPress(k)] + []);
  }

  // `k` serial callbacks, the first at `from` and one per interval after it
  function Beats(from: nat, interval: nat, k: nat): seq<Entry>
    decreases k
  {
    if k == 0 then [] else [Entry(from, CbSerial)] + Beats(from + interval, interval, k - 1)
  }

  lemma {:induction false} OnTimeCons(b: Button, s: Step, rest: seq<Step>)
    requires b.tickMs > 0 && Enabled(b, s) && OnTime(b, s) && Run(Apply(b, s), rest) && RunOnTime(Apply(b, s), rest)
    ensures Run(b, [s] + rest) && RunOnTime(b, [s] + rest) && Final(b, [s] + rest) == Final(Apply(b, s), rest)
  {
    assert ([s] + rest)[1..] == rest;
  }

  // Nothing but the serial timer is armed, and it is not overdue.
  predicate OnlySerial(b: Button) {
    && b.tickMs > 0 && b.serial.Some? && b.serial.value.hasCb
    && b.serial.value.due.Some? && b.now <= b.serial.value.due.value
    && b.pushDue.None? && b.releaseDue.None? && forall i :: 0 <= i < |b.press| ==> b.press[i].due.None?
  }

  function Beat(b: Button): Button
    requires OnlySerial(b)
  {
    FireSerial(b.(now := b.serial.value.due.value))
  }

  lemma {:induction false} BeatGoesOn(b: Button)
    requires OnlySerial(b)
    ensures var c, s := Beat(b), b.serial.value;
            && OnlySerial(c) && c.log == b.log + [Entry(s.due.value, CbSerial)]
            && c.serial == Some(s.(due := Some(s.due.value + s.interval)))
  {
  }

  lemma {:induction false} OneBeat(b: Button, rest: seq<Step>) returns (steps: seq<Step>)
    requires OnlySerial(b) && Run(Beat(b), rest) && RunOnTime(Beat(b), rest)
    ensures RunOnTime(b, steps) && Run(b, steps) && Final(b, steps) == Final(Beat(b), rest)
  {
    var wait := Wait(b.serial.value.due.value - b.now);
    var b1 := Apply(b, wait);
    OnTimeCons(b1, SerialPress, rest);
    OnTimeCons(b, wait, [SerialPress] + rest);
    steps := [wait] + ([SerialPress] + rest);
  }

  lemma {:induction false} BeatsGrow(log: seq<Entry>, at: nat, interval: nat, k: nat)
    requires k > 0
    ensures log + [Entry(at, CbSerial)] + Beats(at + interval, interval, k - 1) == log + Beats(at, interval, k)
  {
  }

  /**
   While the button is held and nothing else is armed, the serial callback comes when it is due
   and then once per interval, for as long as one likes.
   */
  lemma {:induction false} SerialBeats(b: Button, k: nat) returns (steps: seq<Step>)
    requires OnlySerial(b)
    ensures RunOnTime(b, steps) && Run(b, steps)
    ensures Final(b, steps).log == b.log + Beats(b.serial.value.due.value, b.serial.value.interval, k)
    decreases k
  {
    if k == 0 {
      steps := [];
      assert b.log + [] == b.log;
    } else {
      BeatGoesOn(b);
      var rest := SerialBeats(Beat(b), k - 1);
      steps := OneBeat(b, rest);
      BeatsGrow(b.log, b.serial.value.due.value, b.serial.value.interval, k);
    }
  }

  /** A push arms the serial timer for the requested number of seconds up to 4294 s only. */
  lemma {:induction false} SerialThresholdExact(b: Button, sec: nat, ticks: nat)
    ensures var f := FirePush(SetSerial(b, sec, ticks, true).(active := true));
            SerialDue(f.serial) == Some(b.now + sec * 1_000_000) <==> sec <= 4294
  {
    var us := Mul32(Mul32(sec, 1000), 1000);
    assert us < WORD;
    if sec <= 4294 {
      assert Mul32(sec, 1000) == sec * 1000;
    }
  }

  /** The interval programmed for the serial callback is the requested number of ticks up to 4294967 ms only. */
  lemma {:induction false} SerialIntervalExact(b: Button, sec: nat, ticks: nat)
    ensures SetSerial(b, sec, ticks, true).serial.value.interval == ticks * b.tickMs * 1000
            <==> ticks * b.tickMs <= 4294967
  {
    var ms := ticks * b.tickMs;
    if ms <= 4294967 {
      NoWrap(ticks, b.tickMs);
      NoWrap(ms, 1000);
    } else {
      assert Mul32(Mul32(ticks, b.tickMs), 1000) < WORD <= ms * 1000;
    }
  }

  // A new button on which the serial callback has been registered and which has been pushed
  function Pushed(b: Button, sec: nat, ticks: nat): Button {
    FirePush(Touched(b, sec, ticks).(now := b.now + b.glitch))
  }

  function Touched(b: Button, sec: nat, ticks: nat): Button {
    PinEdge(SetSerial(b, sec, ticks, true), true)
  }

  lemma {:induction false} PushedState(b: Button, sec: nat, ticks: nat)
    requires Fresh(b) && sec <= 4294 && ticks * b.tickMs <= 4294967
    ensures var c, push := Pushed(b, sec, ticks), b.now + b.glitch;
      && OnlySerial(c) && c.serial.value.due == Some(push + sec * 1_000_000)
      && c.serial.value.interval == ticks * b.tickMs * 1000
      && c.log == [Entry(b.now, Edge(true)), Entry(push, ToPush)] + (if b.cbs.push then [Entry(push, CbPush)] else [])
  {
    SerialIntervalExact(b, sec, ticks);
    NoWrap(sec, 1000);
    NoWrap(sec * 1000, 1000);
  }

  lemma {:induction false} PushTimerOnTime(b: Button, rest: seq<Step>)
    requires b.tickMs > 0 && b.pushDue == Some(b.now) && NoneBefore(b, b.now)
    requires Run(FirePush(b), rest) && RunOnTime(FirePush(b), rest)
    ensures var steps := [PushTimer] + rest;
      RunOnTime(b, steps) && Run(b, steps) && Final(b, steps) == Final(FirePush(b), rest)
  {
    OnTimeCons(b, PushTimer, rest);
  }

  lemma {:induction false} WaitOnTime(b: Button, us: nat, rest: seq<Step>)
    requires b.tickMs > 0 && NoneBefore(b, b.now + us)
    requires var c := b.(now := b.now + us); Run(c, rest) && RunOnTime(c, rest)
    ensures var steps := [Wait(us)] + rest;
      RunOnTime(b, steps) && Run(b, steps) && Final(b, steps) == Final(b.(now := b.now + us), rest)
  {
    OnTimeCons(b, Wait(us), rest);
  }

  lemma {:induction false} TouchedIsReached(b: Button, sec: nat, ticks: nat, rest: seq<Step>)
    requires Fresh(b) && Run(Touched(b, sec, ticks), rest) && RunOnTime(Touched(b, sec, ticks), rest)
    ensures var steps := [SetSerialPress(sec, ticks, true)] + ([Pin(true)] + rest);
      RunOnTime(b, steps) && Run(b, steps) && Final(b, steps) == Final(Touched(b, sec, ticks), rest)
  {
    OnTimeCons(Apply(b, SetSerialPress(sec, ticks, true)), Pin(true), rest);
    OnTimeCons(b, SetSerialPress(sec, ticks, true), [Pin(true)] + rest);
  }

  lemma {:induction false} NothingBeforePush(b: Button, sec: nat, ticks: nat)
    requires Fresh(b)
    ensures var c := Touched(b, sec, ticks);
      c.tickMs > 0 && c.now == b.now && c.pushDue == Some(b.now + b.glitch) && NoneBefore(c, b.now + b.glitch)
  {
    assert Rearm([], b.now) == [];
  }

  lemma {:induction false} PushedIsReached(b: Button, sec: nat, ticks: nat, rest: seq<Step>) returns (steps: seq<Step>)
    requires Fresh(b) && Run(Pushed(b, sec, ticks), rest) && RunOnTime(Pushed(b, sec, ticks), rest)
    ensures RunOnTime(b, steps) && Run(b, steps) && Final(b, steps) == Final(Pushed(b, sec, ticks), rest)
  {
    var c := Touched(b, sec, ticks);
    NothingBeforePush(b, sec, ticks);
    PushTimerOnTime(c.(now := b.now + b.glitch), rest);
    WaitOnTime(c, b.glitch, [PushTimer] + rest);
    var tail := [Wait(b.glitch)] + ([PushTimer] + rest);
    TouchedIsReached(b, sec, ticks, tail);
    steps := [SetSerialPress(sec, ticks, true)] + ([Pin(true)] + tail);
  }

  /**
   A serial callback that is registered, with times that do not overflow, comes that many seconds
   after the push and then at the interval asked for, as long as the button is held.
   */
  lemma {:induction false} RegisteredBeats(b: Button, sec: nat, ticks: nat, k: nat) returns (steps: seq<Step>)
    requires Fresh(b) && sec <= 4294 && ticks * b.tickMs <= 4294967
    ensures RunOnTime(b, steps) && Run(b, steps)
    ensures var push := b.now + b.glitch;
            Final(b, steps).log ==
            [Entry(b.now, Edge(true)), Entry(push, ToPush)] + (if b.cbs.push then [Entry(push, CbPush)] else []) +
            Beats(push + sec * 1_000_000, ticks * b.tickMs * 1000, k)
  {
    PushedState(b, sec, ticks);
    var rest := SerialBeats(Pushed(b, sec, ticks), k);
    steps := PushedIsReached(b, sec, ticks, rest);
  }
}
