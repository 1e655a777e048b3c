/**
 * The app's state record `FlameTunnelState` and the handlers that act on it:
 * `process_ir` (emit the record, remember the value), `input_cb` (the
 * press/release state machine on Back and Ok) and `draw` (which texts the
 * screen shows). Each handler is one atomic step; the tick count and the
 * IR seed are parameters.
 */
module FlameTunnel {
  import opened Word32
  import opened Decimal
  import opened Emission
  import Entropy

  /** Elapsed ticks at or above which a release counts as a hold. */
  const HOLD_TIME_MS: u32 := 1000

  datatype InputType = Press | Release | Short | Long | Repeat
  datatype InputKey = Up | Down | Right | Left | Ok | Back
  datatype InputEvent = InputEvent(kind: InputType, key: InputKey)

  /** The fields of FlameTunnelState that the handlers read and write. */
  datatype Fields = Fields(
    running: bool,
    logToFile: bool,
    lastRng: u32,
    inMenu: bool,
    backPressedTime: u32,
    okPressedTime: u32)

  /** The values the app entry point gives the record before any handler runs. */
  const Initial := Fields(true, false, 0, false, 0, 0)

  /** `now - pressed >= HOLD_TIME_MS` with uint32_t subtraction. */
  predicate IsHold(now: u32, pressed: u32) {
    Sub(now, pressed) >= HOLD_TIME_MS
  }

  /**
   * A release k ticks after the press, on the wrapping tick counter, is a
   * hold exactly when k is at least 1000.
   */
  lemma HoldIsElapsedTicks(pressed: u32, now: u32, k: u32)
    requires Add(pressed, k) == now
    ensures IsHold(now, pressed) <==> k >= HOLD_TIME_MS
  {
  }

  /** Exactly 1000 ticks is a hold, 999 is not, also across a tick-counter wrap. */
  lemma HoldBoundary(pressed: u32)
    ensures IsHold(Add(pressed, 1000), pressed)
    ensures !IsHold(Add(pressed, 999), pressed)
  {
  }

  /** input_cb on the record, for an event delivered at tick `now`. */
  function OnInput(s: Fields, ev: InputEvent, now: u32): (r: Fields)
    // a press stamps the pressed key's time and nothing else
    ensures ev.kind == Press ==>
      r == s.(backPressedTime := if ev.key == Back then now else s.backPressedTime,
              okPressedTime := if ev.key == Ok then now else s.okPressedTime)
    // a Back release stops the app on a hold and does nothing otherwise
    ensures ev == InputEvent(Release, Back) ==>
      r == if IsHold(now, s.backPressedTime) then s.(running := false) else s
    // an Ok release toggles the menu on a hold, and the log flag on a short press inside the menu
    ensures ev == InputEvent(Release, Ok) ==>
      r == if IsHold(now, s.okPressedTime) then s.(inMenu := !s.inMenu)
           else if s.inMenu then s.(logToFile := !s.logToFile)
           else s
    // every other event changes nothing
    ensures ev.kind != Press && ev != InputEvent(Release, Back) && ev != InputEvent(Release, Ok) ==> r == s
  {
    if ev.kind == Press then
      var back := if ev.key == Back then now else s.backPressedTime;
      var ok := if ev.key == Ok then now else s.okPressedTime;
      s.(backPressedTime := back, okPressedTime := ok)
    else if ev.kind == Release then
      if ev.key == Back && IsHold(now, s.backPressedTime) then s.(running := false)
      else if ev.key == Ok && IsHold(now, s.okPressedTime) then s.(inMenu := !s.inMenu)
      else if s.inMenu && ev.key == Ok then s.(logToFile := !s.logToFile)
      else s
    else s
  }

  /** The record-level effect of process_ir: only the last value changes. */
  function OnIr(s: Fields, rng: u32): (r: Fields)
    ensures r.lastRng == rng
    ensures r.running == s.running && r.logToFile == s.logToFile && r.inMenu == s.inMenu
    ensures r.backPressedTime == s.backPressedTime && r.okPressedTime == s.okPressedTime
  {
    s.(lastRng := rng)
  }

  /** One event delivered to the record: an IR signal or an input event. */
  datatype Action =
    | Signal(seed: u32, times: seq<u32>)
    | Input(ev: InputEvent, now: u32)

  function Step(s: Fields, a: Action): Fields {
    match a
    case Signal(seed, times) => OnIr(s, Entropy.Fold(seed, times))
    case Input(ev, now) => OnInput(s, ev, now)
  }

  function Run(s: Fields, acts: seq<Action>): Fields
    decreases |acts|
  {
    if acts == [] then s else Run(Step(s, acts[0]), acts[1..])
  }

  /** Once stopped, the app never runs again: running only ever goes from true to false. */
  lemma {:induction false} RunningNeverRestarts(s: Fields, acts: seq<Action>)
    ensures Run(s, acts).running ==> s.running
    decreases |acts|
  {
    if acts != [] {
      RunningNeverRestarts(Step(s, acts[0]), acts[1..]);
    }
  }

  predicate IsBackRelease(a: Action) {
    a.Input? && a.ev == InputEvent(Release, Back)
  }

  /** Only a Back release can stop a running app. */
  lemma {:induction false} OnlyBackReleaseStops(s: Fields, acts: seq<Action>)
    requires s.running && !Run(s, acts).running
    ensures exists i :: 0 <= i < |acts| && IsBackRelease(acts[i])
    decreases |acts|
  {
    var next := Step(s, acts[0]);
    if next.running {
      OnlyBackReleaseStops(next, acts[1..]);
      var i :| 0 <= i < |acts[1..]| && IsBackRelease(acts[1..][i]);
      assert IsBackRelease(acts[i + 1]);
    } else {
      assert IsBackRelease(acts[0]);
    }
  }

  predicate IsPress(a: Action) {
    a.Input? && a.ev.kind == Press
  }

  /** Release events and IR signals never touch the press timestamps. */
  lemma {:induction false} PressTimesOnlyChangeOnPress(s: Fields, acts: seq<Action>)
    requires forall i :: 0 <= i < |acts| ==> !IsPress(acts[i])
    ensures Run(s, acts).backPressedTime == s.backPressedTime
    ensures Run(s, acts).okPressedTime == s.okPressedTime
    decreases |acts|
  {
    if acts != [] {
      assert !IsPress(acts[0]);
      PressTimesOnlyChangeOnPress(Step(s, acts[0]), acts[1..]);
    }
  }

  /** The value of the latest IR signal in acts, or `current` when there is none. */
  function LatestValue(current: u32, acts: seq<Action>): u32
    decreases |acts|
  {
    if acts == [] then current
    else if acts[|acts| - 1].Signal? then
      Entropy.Fold(acts[|acts| - 1].seed, acts[|acts| - 1].times)
    else LatestValue(current, acts[..|acts| - 1])
  }

  lemma {:induction false} RunAppend(s: Fields, acts: seq<Action>, a: Action)
    ensures Run(s, acts + [a]) == Step(Run(s, acts), a)
    decreases |acts|
  {
    if acts != [] {
      assert (acts + [a])[1..] == acts[1..] + [a];
      RunAppend(Step(s, acts[0]), acts[1..], a);
    }
  }

  /** The shown value is always the one derived from the most recent IR signal. */
  lemma {:induction false} LastRngIsLatestSignal(s: Fields, acts: seq<Action>)
    ensures Run(s, acts).lastRng == LatestValue(s.lastRng, acts)
    decreases |acts|
  {
    if acts != [] {
      var init := acts[..|acts| - 1];
      assert acts == init + [acts[|acts| - 1]];
      RunAppend(s, init, acts[|acts| - 1]);
      LastRngIsLatestSignal(s, init);
    }
  }

  /** Ok held 1500 ticks opens the menu; a 300-tick Ok press in the menu turns logging on. */
  lemma OpenMenuThenEnableLog()
    ensures var s := Run(Initial, [Input(InputEvent(Press, Ok), 0), Input(InputEvent(Release, Ok), 1500),
                                   Input(InputEvent(Press, Ok), 2000), Input(InputEvent(Release, Ok), 2300)]);
            s.inMenu && s.logToFile && s.running
  {
    var s1 := OnInput(Initial, InputEvent(Press, Ok), 0);
    var s2 := OnInput(s1, InputEvent(Release, Ok), 1500);
    var s3 := OnInput(s2, InputEvent(Press, Ok), 2000);
    var s4 := OnInput(s3, InputEvent(Release, Ok), 2300);
    assert s4.inMenu && s4.logToFile && s4.running;
  }

  /** A Back release 999 ticks after its press leaves the app running. */
  lemma ShortBackPressKeepsRunning()
    ensures Run(Initial, [Input(InputEvent(Press, Back), 0), Input(InputEvent(Release, Back), 999)]).running
  {
    var s1 := OnInput(Initial, InputEvent(Press, Back), 0);
    var s2 := OnInput(s1, InputEvent(Release, Back), 999);
    assert s2.running;
  }

  /**
   * Press times start at 0 and are never cleared, so a Back release with no
   * press before it is measured from tick 0 and stops the app once the tick
   * counter has reached 1000.
   */
  lemma ReleaseWithoutPressMeasuredFromZero(now: u32)
    requires now >= 1000
    ensures !OnInput(Initial, InputEvent(Release, Back), now).running
  {
  }

  /** What the screen shows: the menu view or the normal view. */
  datatype View =
    | MenuView(title: string, status: string)
    | NormalView(title: string, readout: string)

  /** The text selection of draw. */
  function Draw(s: Fields): (v: View)
    ensures v.MenuView? <==> s.inMenu
    ensures v.MenuView? ==> v.title == "Config Menu"
    ensures v.MenuView? ==> (v.status == "Log ON" <==> s.logToFile) && v.status in {"Log ON", "Log OFF"}
    ensures v.NormalView? ==> v.title == "Flame Tunnel"
    ensures v.NormalView? ==> 6 <= |v.readout| <= 10 && AllDigits(v.readout)
    ensures v.NormalView? ==> DecimalValue(v.readout) == s.lastRng
    ensures v.NormalView? ==> v.readout == ZeroPad(DecimalString(s.lastRng), READOUT_WIDTH)
  {
    if s.inMenu then MenuView("Config Menu", if s.logToFile then "Log ON" else "Log OFF")
    else NormalView("Flame Tunnel", Readout(s.lastRng))
  }

  /** The serial port behind serial_handle: the records transmitted so far. */
  class SerialPort {
    var sent: seq<string>

    constructor ()
      ensures sent == []
    {
      sent := [];
    }

    /** furi_hal_serial_tx. */
    method Tx(data: string)
      modifies this
      ensures sent == old(sent) + [data]
    {
      sent := sent + [data];
    }
  }

  /** The log destination: the records written to it, in order. */
  class LogStorage {
    var writes: seq<string>

    constructor ()
      ensures writes == []
    {
      writes := [];
    }

    /** Open the log, stream_write the record, close it. */
    method Write(data: string)
      modifies this
      ensures writes == old(writes) + [data]
    {
      writes := writes + [data];
    }
  }

  /** FlameTunnelState: the record the IR callback, the input callback and draw share. */
  class FlameTunnelState {
    const serial: SerialPort
    var running: bool
    var logToFile: bool
    var lastRng: u32
    var inMenu: bool
    var backPressedTime: u32
    var okPressedTime: u32

    function Snapshot(): Fields
      reads this
    {
      Fields(running, logToFile, lastRng, inMenu, backPressedTime, okPressedTime)
    }

    /** The initial values of the app entry point; serial is the acquired USART handle. */
    constructor (serial: SerialPort)
      ensures this.serial == serial && Snapshot() == Initial
    {
      this.serial := serial;
      running := true;
      logToFile := false;
      lastRng := 0;
      inMenu := false;
      backPressedTime := 0;
      okPressedTime := 0;
    }

    /** process_ir: send the record, log it when logging is on, remember the value. */
    method ProcessIr(rng: u32, storage: LogStorage)
      modifies this, serial, storage
      ensures Snapshot() == OnIr(old(Snapshot()), rng)
      ensures serial.sent == old(serial.sent) + [RecordText(rng)]
      ensures storage.writes == old(storage.writes) + (if old(logToFile) then [RecordText(rng)] else [])
    {
      var f := FormatRecord(rng);
      assert f.buf[..f.ret] == f.buf;
      serial.Tx(f.buf[..f.ret]);
      if logToFile {
        storage.Write(f.buf[..f.ret]);
      }
      lastRng := rng;
    }

    /** ir_callback: derive the value from the signal, then process it. */
    method IrCallback(seed: u32, times: seq<u32>, storage: LogStorage)
      modifies this, serial, storage
      ensures Snapshot() == Step(old(Snapshot()), Signal(seed, times))
      ensures serial.sent == old(serial.sent) + [RecordText(Entropy.Fold(seed, times))]
      ensures storage.writes == old(storage.writes)
                               + (if old(logToFile) then [RecordText(Entropy.Fold(seed, times))] else [])
    {
      var rng := Entropy.GenerateRng(seed, times);
      ProcessIr(rng, storage);
    }

    /** input_cb, for an event delivered at tick `now`. */
    method InputCb(ev: InputEvent, now: u32)
      modifies this
      ensures Snapshot() == OnInput(old(Snapshot()), ev, now)
    {
      if ev.kind == Press {
        if ev.key == Back {
          backPressedTime := now;
        }
        if ev.key == Ok {
          okPressedTime := now;
        }
      } else if ev.kind == Release {
        if ev.key == Back && Sub(now, backPressedTime) >= HOLD_TIME_MS {
          running := false;
        } else if ev.key == Ok && Sub(now, okPressedTime) >= HOLD_TIME_MS {
          inMenu := !inMenu;
        } else if inMenu && ev.key == Ok {
          logToFile := !logToFile;
        }
      }
    }

    /** draw: the texts the screen shows for the current record. */
    function View(): (v: View)
      reads this
      ensures v.MenuView? <==> inMenu
      ensures v.MenuView? ==> v.title == "Config Menu" && (v.status == "Log ON" <==> logToFile)
      ensures v.NormalView? ==> v.title == "Flame Tunnel"
      ensures v.NormalView? ==> v.readout == ZeroPad(DecimalString(lastRng), READOUT_WIDTH)
    {
      Draw(Snapshot())
    }
  }
}
