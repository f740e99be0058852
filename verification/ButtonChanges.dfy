/** What each step of a run changes, timer by timer, and what registered callbacks come to. */
module ButtonChanges {
  import opened Common
  import opened ButtonSpec
  import opened ButtonRuns

  // The release is confirmed: the release timer fires while the pin is inactive.
  predicate Releases(b: Button, s: Step) {
    s.ReleaseTimer? && !b.active
  }

  // The push is confirmed.
  predicate Pushes(b: Button, s: Step) {
    s.PushTimer? && b.active
  }

  /**
   The deadlines of push and release: an edge to active starts the one, an edge to inactive the
   other, and a push that does not hold starts the other as well. Nothing else but their own firing
   changes them, and a push that holds, which stops the release.
   */
  lemma {:induction false} DebounceChanges(b: Button, s: Step)
    requires b.tickMs > 0 && Enabled(b, s)
    ensures var r := Apply(b, s);
      && r.pushDue == (if s == Pin(true) then Some(b.now + b.glitch) else if s.PushTimer? then None else b.pushDue)
      && r.releaseDue == (if s == Pin(false) || (s.PushTimer? && !b.active) then Some(b.now + b.glitch)
                          else if s.PushTimer? || s.ReleaseTimer? then None else b.releaseDue)
      && r.status == (if Pushes(b, s) then Push else if Releases(b, s) then Idle
                      else if s.LongPress? && b.active then Pressed else b.status)
  {
  }

  /**
   Registering a callback changes that one alone, and keeps the timers that run: the list of long
   presses grows at its head, and a serial callback registered again beats when it was due.
   */
  lemma {:induction false} RegisteringChanges(b: Button, s: Step)
    requires b.tickMs > 0 && Enabled(b, s)
    ensures var r := Apply(b, s);
      && r.cbs.push == (if s.SetCb? && s.kind.OnPush? then s.cb else b.cbs.push)
      && r.cbs.release == (if s.SetCb? && s.kind.OnRelease? then s.cb else b.cbs.release)
      && r.cbs.tap == (if s.SetCb? && s.kind.OnTap? then s.cb else b.cbs.tap)
      && |r.press| == |b.press| + (if s.AddLongPress? && s.sec != 0 then 1 else 0)
      && (s.AddLongPress? && s.sec != 0 ==>
            r.press[0] == PressTimer(s.sec, PressPeriod(s.sec, b.tickMs), s.cb, None) && r.press[1..] == b.press)
      && (s.SetSerialPress? ==> r.serial.Some? && r.serial.value.hasCb == s.cb && SerialDue(r.serial) == SerialDue(b.serial))
  {
  }

  /**
   A deadline of a long press is set by an edge to active, one period from it; it goes when it
   fires or when the release is confirmed, and nothing else changes it: not an edge to inactive.
   */
  lemma {:induction false} PressChanges(b: Button, s: Step, k: nat)
    requires b.tickMs > 0 && Enabled(b, s) && k < |b.press|
    ensures var r := Apply(b, s);
      var t := r.press[k + |r.press| - |b.press|];
      && t == b.press[k].(due := t.due)
      && t.due == (if s == Pin(true) then Some(b.now + b.press[k].period)
                   else if s == LongPress(k) || Releases(b, s) then None else b.press[k].due)
  {
  }

  /** The serial timer is set by a push and by its own firing, and goes when the release is confirmed. */
  lemma {:induction false} SerialChanges(b: Button, s: Step)
    requires b.tickMs > 0 && Enabled(b, s) && b.serial.Some?
    ensures var r, t := Apply(b, s), b.serial.value;
      SerialDue(r.serial) == if Pushes(b, s) then Some(b.now + t.threshold)
                             else if s.SerialPress? then Some(b.now + t.interval)
                             else if Releases(b, s) then None else t.due
  {
  }

  // No edge to active, no firing of a long press and no confirmed release
  predicate LeavesPresses(b: Button, steps: seq<Step>)
    requires b.tickMs > 0 && Run(b, steps)
    decreases |steps|
  {
    steps == [] ||
    (steps[0] != Pin(true) && !steps[0].LongPress? && !Releases(b, steps[0])
     && LeavesPresses(Apply(b, steps[0]), steps[1..]))
  }

  /**
   However the contact bounces to inactive, and whatever else happens: until the release is
   confirmed a long press keeps its deadline.
   */
  lemma {:induction false} PressSurvives(b: Button, steps: seq<Step>, k: nat)
    requires b.tickMs > 0 && Run(b, steps) && LeavesPresses(b, steps) && k < |b.press|
    ensures var f := Final(b, steps); |f.press| >= |b.press| && f.press[k + |f.press| - |b.press|] == b.press[k]
    decreases |steps|
  {
    if steps != [] {
      PressChanges(b, steps[0], k);
      RegisteringChanges(b, steps[0]);
      var r := Apply(b, steps[0]);
      PressSurvives(r, steps[1..], k + |r.press| - |b.press|);
    }
  }

  function If(c: bool, e: Entry): seq<Entry> {
    if c then [e] else []
  }

  // What a step reports
  function Reports(b: Button, s: Step): seq<Entry>
    requires b.tickMs > 0 && Enabled(b, s)
  {
    match s
    case Pin(level) => [Entry(b.now, Edge(level))]
    case PushTimer => if b.active then [Entry(b.now, ToPush)] + If(b.cbs.push, Entry(b.now, CbPush)) else []
    case ReleaseTimer =>
      if b.active then []
      else If(b.cbs.tap && b.status.Push?, Entry(b.now, CbTap)) + If(b.cbs.release && !b.status.Idle?, Entry(b.now, CbRelease))
           + [Entry(b.now, ToIdle)]
    case SerialPress => If(b.serial.value.hasCb, Entry(b.now, CbSerial))
    case LongPress(k) =>
      var t := b.press[k];
      if b.active then [Entry(b.now, ToPressed(t.sec, t.period))] + If(t.hasCb, Entry(b.now, CbLong(t.sec, t.period)))
      else []
    case _ => []
  }

  // Nothing is reported but what is registered, and the records of edges and changes of state.
  lemma {:induction false} ReportsMade(b: Button, s: Step)
    requires b.tickMs > 0 && Enabled(b, s)
    ensures Apply(b, s).log == b.log + Reports(b, s)
  {
    match s
    case ReleaseTimer => ReleaseReports(b);
    case LongPress(k) => LongPressReports(b, k);
    case _ =>
  }

  lemma {:induction false} ReleaseReports(b: Button)
    requires b.tickMs > 0 && Enabled(b, ReleaseTimer)
    ensures FireRelease(b).log == b.log + Reports(b, ReleaseTimer)
  {
  }

  lemma {:induction false} LongPressReports(b: Button, k: nat)
    requires b.tickMs > 0 && Enabled(b, LongPress(k))
    ensures FirePress(b, k).log == b.log + Reports(b, LongPress(k))
  {
  }

  // ------------------------------------------------------------------- from registering to reports

  // It goes down and stays down until the push is confirmed.
  function Down(b: Button): Button {
    b.(active := true, now := b.now + b.glitch, status := Push, pushDue := None, releaseDue := None,
       press := Rearm(b.press, b.now), log := b.log + DownLog(b))
  }

  function DownLog(b: Button): seq<Entry> {
    [Entry(b.now, Edge(true)), Entry(b.now + b.glitch, ToPush)] + If(b.cbs.push, Entry(b.now + b.glitch, CbPush))
  }

  predicate AtRest(b: Button) {
    && b.tickMs > 0 && b.pushDue.None? && b.releaseDue.None? && b.serial.None? && b.status.Idle?
    && forall i :: 0 <= i < |b.press| ==> b.press[i].due.None? && b.press[i].period >= b.glitch
  }

  lemma {:induction false} Confirms(b: Button)
    requires AtRest(b)
    ensures var a := PinEdge(b, true).(now := b.now + b.glitch);
      Enabled(a, PushTimer) && FirePush(a) == Down(b)
  {
    var a := PinEdge(b, true).(now := b.now + b.glitch);
    assert a.press == Rearm(b.press, b.now);
    assert FirePush(a).log == b.log + DownLog(b);
  }

  lemma {:induction false} DownRun(b: Button, rest: seq<Step>)
    requires AtRest(b) && Run(Down(b), rest)
    ensures var steps := [Pin(true)] + ([Wait(b.glitch)] + ([PushTimer] + rest));
      Run(b, steps) && Final(b, steps) == Final(Down(b), rest)
  {
    var b1 := Apply(b, Pin(true));
    var b2 := Apply(b1, Wait(b.glitch));
    Confirms(b);
    RunCons(b2, PushTimer, rest);
    RunCons(b1, Wait(b.glitch), [PushTimer] + rest);
    RunCons(b, Pin(true), [Wait(b.glitch)] + ([PushTimer] + rest));
  }

  lemma {:induction false} LongPressAhead(a: Button, sec: nat)
    requires AtRest(a) && a.press == [PressTimer(sec, sec * 1_000_000, true, None)] && a.glitch <= sec * 1_000_000
    ensures var rest := [Wait(sec * 1_000_000 - a.glitch)] + ([LongPress(0)] + []);
      Run(Down(a), rest) && Final(Down(a), rest).log == a.log + HeldLog(a, sec)
  {
    assert Down(a).press == [PressTimer(sec, sec * 1_000_000, true, Some(a.now + sec * 1_000_000))];
    LongPressIsReported(Down(a), 0);
  }

  // What a button that goes down and stays down reports up to its long press
  function HeldLog(b: Button, sec: nat): seq<Entry> {
    var at := b.now + sec * 1_000_000;
    DownLog(b) + [Entry(at, ToPressed(sec, sec * 1_000_000)), Entry(at, CbLong(sec, sec * 1_000_000))]
  }

  lemma {:induction false} HoldRun(a: Button, sec: nat) returns (steps: seq<Step>)
    requires AtRest(a) && a.press == [PressTimer(sec, sec * 1_000_000, true, None)] && a.glitch <= sec * 1_000_000
    ensures Run(a, steps) && Final(a, steps).log == a.log + HeldLog(a, sec)
  {
    var rest := [Wait(sec * 1_000_000 - a.glitch)] + ([LongPress(0)] + []);
    LongPressAhead(a, sec);
    DownRun(a, rest);
    steps := [Pin(true)] + ([Wait(a.glitch)] + ([PushTimer] + rest));
  }

  lemma {:induction false} Registered(b: Button, sec: nat) returns (a: Button)
    requires Fresh(b) && 0 < sec <= 4294 && sec * 1000 % b.tickMs == 0
    ensures a == b.(press := [PressTimer(sec, sec * 1_000_000, true, None)]) && AddPress(b, sec, true) == a
  {
    PressPeriodExact(sec, b.tickMs);
    a := AddPress(b, sec, true);
  }

  /**
   A long press that is registered for up to 4294 seconds, a whole number of ticks, is reported that
   many seconds after the button goes down and stays down.
   */
  lemma {:induction false} RegisteredLongPress(b: Button, sec: nat) returns (steps: seq<Step>)
    requires Fresh(b) && 0 < sec <= 4294 && sec * 1000 % b.tickMs == 0 && b.glitch <= sec * 1_000_000
    ensures Run(b, steps) && Final(b, steps).log == HeldLog(b, sec)
  {
    var a := Registered(b, sec);
    var held := HoldRun(a, sec);
    RunCons(b, AddLongPress(sec, true), held);
    steps := [AddLongPress(sec, true)] + held;
  }
}
