/**
 The debounced push button (`components/button/button/button.c`, esp_timer build).

 `Button` is one button together with what it observes: the clock, the pin and a log of
 every pin edge, every change of the three-valued state and every user callback. The
 functions are the handlers; each runs atomically. Timers are one-shot deadlines in
 microseconds.
 */
module ButtonSpec {
  import opened Common

  // Intervals are products of uint32_t values and wrap around.
  const WORD: nat := 0x1_0000_0000

  function Mul32(a: nat, b: nat): nat {
    a * b % WORD
  }

  // press_sec * 1000 / portTICK_PERIOD_MS
  function TicksOfSec(sec: nat, tickMs: nat): nat
    requires tickMs > 0
  {
    Mul32(sec, 1000) / tickMs
  }

  // interval * portTICK_PERIOD_MS * 1000
  function PeriodUs(ticks: nat, tickMs: nat): nat {
    Mul32(Mul32(ticks, tickMs), 1000)
  }

  function PressPeriod(sec: nat, tickMs: nat): nat
    requires tickMs > 0
  {
    PeriodUs(TicksOfSec(sec, tickMs), tickMs)
  }

  datatype Status = Idle | Push | Pressed

  datatype Event =
    | Edge(active: bool)
    | ToPush
    | ToPressed(sec: nat, period: nat)
    | ToIdle
    | CbPush
    | CbLong(sec: nat, period: nat)
    | CbTap
    | CbRelease
    | CbSerial

  datatype Entry = Entry(at: nat, what: Event)

  datatype PressTimer = PressTimer(sec: nat, period: nat, hasCb: bool, due: Option<nat>)

  datatype SerialTimer = SerialTimer(threshold: nat, interval: nat, hasCb: bool, due: Option<nat>)

  // Which of the push, release and tap callbacks are registered.
  datatype Callbacks = Callbacks(push: bool, release: bool, tap: bool)

  datatype CallbackKind = OnPush | OnRelease | OnTap

  datatype Button = Button(
    tickMs: nat,
    glitch: nat,
    now: nat,
    active: bool,
    status: Status,
    cbs: Callbacks,
    pushDue: Option<nat>,
    releaseDue: Option<nat>,
    serial: Option<SerialTimer>,
    press: seq<PressTimer>,
    log: seq<Entry>)

  // A button just created: no timer is armed, whatever the level of the pin.
  predicate Fresh(b: Button) {
    && b.tickMs > 0
    && b.status == Idle
    && b.pushDue.None? && b.releaseDue.None? && b.serial.None?
    && b.press == [] && b.log == []
  }

  function Log(b: Button, e: Event): Button {
    b.(log := b.log + [Entry(b.now, e)])
  }

  function LogIf(b: Button, c: bool, e: Event): Button {
    if c then Log(b, e) else b
  }

  function Rearm(press: seq<PressTimer>, now: nat): (r: seq<PressTimer>)
    ensures |r| == |press|
    ensures forall i :: 0 <= i < |r| ==> r[i] == press[i].(due := Some(now + press[i].period))
  {
    seq(|press|, i requires 0 <= i < |press| => press[i].(due := Some(now + press[i].period)))
  }

  function Disarm(press: seq<PressTimer>): (r: seq<PressTimer>)
    ensures |r| == |press|
    ensures forall i :: 0 <= i < |r| ==> r[i] == press[i].(due := None)
  {
    seq(|press|, i requires 0 <= i < |press| => press[i].(due := None))
  }

  function SerialDue(s: Option<SerialTimer>): Option<nat> {
    if s.Some? then s.value.due else None
  }

  function WithSerialDue(s: Option<SerialTimer>, due: Option<nat>): Option<SerialTimer> {
    if s.Some? then Some(s.value.(due := due)) else None
  }

  // button_gpio_isr_handler, reading the level the pin has now
  function Isr(b: Button): Button {
    if b.active then
      b.(pushDue := Some(b.now + b.glitch), press := Rearm(b.press, b.now))
    else
      b.(releaseDue := Some(b.now + b.glitch))
  }

  // An edge interrupt. Edges that come too fast may leave the level as it was.
  function PinEdge(b: Button, level: bool): Button {
    Isr(Log(b.(active := level), Edge(level)))
  }

  // button_tap_psh_cb
  function FirePush(b: Button): Button {
    var b := b.(pushDue := None, releaseDue := None);
    if b.active then
      var due := if b.serial.Some? then Some(b.now + b.serial.value.threshold) else None;
      LogIf(Log(b.(status := Push, serial := WithSerialDue(b.serial, due)), ToPush), b.cbs.push, CbPush)
    else
      b.(releaseDue := Some(b.now + b.glitch))
  }

  // What button_tap_rls_cb reports when the button is up
  function ReleaseLog(b: Button): seq<Entry> {
    var tap := LogIf(b, b.cbs.tap && b.status == Push, CbTap);
    var rel := LogIf(tap, b.cbs.release && b.status != Idle, CbRelease);
    Log(rel, ToIdle).log
  }

  // button_tap_rls_cb
  function FireRelease(b: Button): Button {
    if b.active then b.(releaseDue := None)
    else
      b.(releaseDue := None, press := Disarm(b.press), serial := WithSerialDue(b.serial, None),
         status := Idle, log := ReleaseLog(b))
  }

  // button_press_serial_cb
  function FireSerial(b: Button): Button
    requires b.serial.Some?
  {
    var s := b.serial.value;
    LogIf(b.(serial := Some(s.(due := Some(b.now + s.interval)))), s.hasCb, CbSerial)
  }

  // button_press_cb
  function FirePress(b: Button, k: nat): Button
    requires k < |b.press|
  {
    var t := b.press[k];
    var b := b.(press := b.press[k := t.(due := None)]);
    if b.active then
      LogIf(Log(b.(status := Pressed), ToPressed(t.sec, t.period)), t.hasCb, CbLong(t.sec, t.period))
    else b
  }

  // iot_button_add_custom_cb; zero seconds are rejected
  function AddPress(b: Button, sec: nat, hasCb: bool): Button
    requires b.tickMs > 0
  {
    if sec == 0 then b
    else b.(press := [PressTimer(sec, PressPeriod(sec, b.tickMs), hasCb, None)] + b.press)
  }

  // iot_button_set_serial_cb
  function SetSerial(b: Button, sec: nat, ticks: nat, hasCb: bool): Button {
    b.(serial := Some(SerialTimer(Mul32(Mul32(sec, 1000), 1000), PeriodUs(ticks, b.tickMs), hasCb,
                                  SerialDue(b.serial))))
  }

  // iot_button_set_evt_cb for the push, release and tap events
  function SetCallback(b: Button, kind: CallbackKind, hasCb: bool): Button {
    b.(cbs := match kind
              case OnPush => b.cbs.(push := hasCb)
              case OnRelease => b.cbs.(release := hasCb)
              case OnTap => b.cbs.(tap := hasCb))
  }
}

/** The button driver in the form the source has: an object whose handlers update its fields. */
module ButtonDriver {
  import opened Common
  import opened ButtonSpec

  class ButtonDev {
    const tickMs: nat
    const glitch: nat
    var now: nat        // esp_timer clock
    var active: bool    // gpio_get_level(io_num) == active_level
    var status: Status
    var cbs: Callbacks
    var pushDue: Option<nat>
    var releaseDue: Option<nat>
    var serial: Option<SerialTimer>
    var press: seq<PressTimer>
    var log: seq<Entry>

    function Model(): Button
      reads this
    {
      Button(tickMs, glitch, now, active, status, cbs, pushDue, releaseDue, serial, press, log)
    }

    // iot_button_create. The glitch time goes through the tick count like every interval.
    constructor (tickMs: nat, glitchMs: nat, now: nat, level: bool)
      requires tickMs > 0
      ensures Fresh(Model())
      ensures this.tickMs == tickMs && glitch == PeriodUs(glitchMs / tickMs, tickMs)
      ensures this.now == now && active == level && cbs == Callbacks(false, false, false)
    {
      this.tickMs := tickMs;
      this.glitch := PeriodUs(glitchMs / tickMs, tickMs);
      this.now := now;
      active := level;
      status := Idle;
      cbs := Callbacks(false, false, false);
      pushDue, releaseDue, serial, press, log := None, None, None, [], [];
    }

    method Emit(e: Event)
      modifies this`log
      ensures log == old(log) + [Entry(now, e)]
    {
      log := log + [Entry(now, e)];
    }

    // The walk over the list of long-press timers that stops and restarts each of them
    method RearmAll()
      modifies this`press
      ensures press == Rearm(old(press), now)
    {
      var i := 0;
      while i < |press|
        invariant 0 <= i <= |press| == |old(press)|
        invariant forall j :: 0 <= j < i ==> press[j] == Rearm(old(press), now)[j]
        invariant forall j :: i <= j < |press| ==> press[j] == old(press)[j]
      {
        press := press[i := press[i].(due := Some(now + press[i].period))];
        i := i + 1;
      }
    }

    // The walk over the same list that stops each timer
    method DisarmAll()
      modifies this`press
      ensures press == Disarm(old(press))
    {
      var i := 0;
      while i < |press|
        invariant 0 <= i <= |press| == |old(press)|
        invariant forall j :: 0 <= j < i ==> press[j] == Disarm(old(press))[j]
        invariant forall j :: i <= j < |press| ==> press[j] == old(press)[j]
      {
        press := press[i := press[i].(due := None)];
        i := i + 1;
      }
    }

    method GpioIsrHandler()
      modifies this`pushDue, this`releaseDue, this`press
      ensures Model() == Isr(old(Model()))
    {
      if active {
        pushDue := Some(now + glitch);
        RearmAll();
      } else {
        releaseDue := Some(now + glitch);
      }
    }

    method TapPushCb()
      modifies this
      ensures Model() == FirePush(old(Model()))
    {
      pushDue := None;
      releaseDue := None;
      if active {
        status := Push;
        if serial.Some? {
          serial := Some(serial.value.(due := Some(now + serial.value.threshold)));
        }
        Emit(ToPush);
        if cbs.push {
          Emit(CbPush);
        }
      } else {
        releaseDue := Some(now + glitch);
      }
    }

    method TapReleaseCb()
      modifies this
      ensures Model() == FireRelease(old(Model()))
    {
      releaseDue := None;
      if !active {
        DisarmAll();
        if serial.Some? {
          serial := Some(serial.value.(due := None));
        }
        if cbs.tap && status == Push {
          Emit(CbTap);
        }
        if cbs.release && status != Idle {
          Emit(CbRelease);
        }
        status := Idle;
        Emit(ToIdle);
      }
    }

    method PressSerialCb()
      requires serial.Some?
      modifies this
      ensures Model() == FireSerial(old(Model()))
    {
      if serial.value.hasCb {
        Emit(CbSerial);
      }
      serial := Some(serial.value.(due := None));
      serial := Some(serial.value.(due := Some(now + serial.value.interval)));
    }

    method PressCb(k: nat)
      requires k < |press|
      modifies this
      ensures Model() == FirePress(old(Model()), k)
    {
      press := press[k := press[k].(due := None)];
      if active {
        status := Pressed;
        Emit(ToPressed(press[k].sec, press[k].period));
        if press[k].hasCb {
          Emit(CbLong(press[k].sec, press[k].period));
        }
      }
    }

    method AddCustomCb(sec: nat, hasCb: bool) returns (ok: bool)
      requires tickMs > 0
      modifies this`press
      ensures ok == (sec != 0)
      ensures Model() == AddPress(old(Model()), sec, hasCb)
    {
      if sec == 0 {
        return false;
      }
      var timer := PressTimer(sec, PressPeriod(sec, tickMs), hasCb, None);
      press := [timer] + press;
      return true;
    }

    method SetSerialCb(sec: nat, ticks: nat, hasCb: bool)
      modifies this`serial
      ensures Model() == SetSerial(old(Model()), sec, ticks, hasCb)
    {
      var due := None;
      if serial.Some? {
        due := serial.value.due;
      }
      serial := Some(SerialTimer(Mul32(Mul32(sec, 1000), 1000), PeriodUs(ticks, tickMs), hasCb, due));
    }
  }
}
