/** The cabinet lock: four debounced inputs, a timed solenoid pulse and a
    seven-state machine driven by ticks and operator commands.

    `Lock` is the controller's state as a value with one step function per call;
    `LockController` holds the same fields and updates them in place.
 */
module CabinetLock {
  import opened Words

  const PULSE_MS: nat := 1500
  const REED_DEBOUNCE_MS: nat := 200
  const LATCH_DEBOUNCE_MS: nat := 200
  const IR_DEBOUNCE_MS: nat := 500
  const MORTISE_DEBOUNCE_MS: nat := 200

  datatype State = Initializing | Secure | Unlocked | Accessing | Alarm | Lockout | Commissioning

  datatype Trigger =
    | NoTrigger | SignedCommand | MortiseKey | AutoUnlock | DoorClose | AlarmTimeout
    | LockoutEntered | LockoutCleared | Commission | InitAck | EmergencyUnlock

  /** One debounced input: the held value and the time of its last confirmation. */
  datatype Input = Input(held: bool, time: U32, init: bool)

  /** One reading of the four pins: closed, locked, broken, active. */
  datatype Pins = Pins(reed: bool, latch: bool, ir: bool, mortise: bool)

  /** `suspends` and `resumes` count the calls made to the health watchdog. */
  datatype Lock = Lock(
    state: State, trigger: Trigger, stateStartMs: U32,
    reed: Input, latch: Input, ir: Input, mortise: Input,
    pin: bool, active: bool, solenoidStartMs: U32,
    suspends: nat, resumes: nat)

  function Sampled(d: Input, raw: bool, now: U32, debounceMs: nat): Input {
    if !d.init then Input(raw, now, true)
    else if raw == d.held then d.(time := now)
    else if Elapsed(now, d.time) >= debounceMs then Input(raw, now, true)
    else d
  }

  predicate Closed(l: Lock) {
    l.reed.held && l.latch.held
  }

  /** Power-up: everything off, no input sampled yet. */
  function Begun(now: U32): Lock {
    Lock(Initializing, NoTrigger, now,
         Input(false, 0, false), Input(false, 0, false), Input(true, 0, false), Input(false, 0, false),
         false, false, 0, 0, 0)
  }

  function InputsRead(l: Lock, pins: Pins, now: U32): Lock {
    l.(reed := Sampled(l.reed, pins.reed, now, REED_DEBOUNCE_MS),
       latch := Sampled(l.latch, pins.latch, now, LATCH_DEBOUNCE_MS),
       ir := Sampled(l.ir, pins.ir, now, IR_DEBOUNCE_MS),
       mortise := Sampled(l.mortise, pins.mortise, now, MORTISE_DEBOUNCE_MS))
  }

  function PulseEnded(l: Lock): Lock {
    l.(pin := false, active := false, resumes := l.resumes + 1)
  }

  function Entered(l: Lock, state: State, trigger: Trigger, now: U32): Lock {
    l.(state := state, trigger := trigger, stateStartMs := now)
  }

  function PulseTimed(l: Lock, now: U32): (t: Lock)
    ensures t == l || t == PulseEnded(l)
  {
    if l.active && Elapsed(now, l.solenoidStartMs) >= PULSE_MS then PulseEnded(l) else l
  }

  /** The state machine proper: it touches nothing but the state, its time and trigger. */
  function Settled(l: Lock, now: U32, autoRelockMs: nat): (t: Lock)
    ensures t == l.(state := t.state, trigger := t.trigger, stateStartMs := t.stateStartMs)
  {
    match l.state
    case Secure =>
      if !l.reed.held then Entered(l, Alarm, AlarmTimeout, now)
      else if !l.latch.held then Entered(l, Unlocked, SignedCommand, now)
      else l
    case Unlocked =>
      if Closed(l) then Entered(l, State.Secure, DoorClose, now)
      else if l.mortise.held then Entered(l, Alarm, MortiseKey, now)
      else if autoRelockMs > 0 && Elapsed(now, l.stateStartMs) >= autoRelockMs then l.(trigger := AutoUnlock)
      else l
    case Accessing =>
      if Closed(l) then Entered(l, State.Secure, DoorClose, now)
      else if l.mortise.held then Entered(l, Alarm, MortiseKey, now)
      else l
    case Alarm => if Closed(l) then Entered(l, State.Secure, AlarmTimeout, now) else l
    case _ => l
  }

  /** One tick.  The inputs are sampled at `sampledAt`, a second reading of the clock. */
  function Ticked(l: Lock, now: U32, sampledAt: U32, pins: Pins, autoRelockMs: nat): Lock {
    Settled(PulseTimed(InputsRead(l, pins, sampledAt), now), now, autoRelockMs)
  }

  function Actuated(l: Lock, trigger: Trigger, now: U32): Lock {
    Entered(l, Unlocked, trigger, now)
      .(solenoidStartMs := now, active := true, pin := true, suspends := l.suspends + 1)
  }

  predicate UnlockAccepted(l: Lock, token: string, authentic: bool) {
    token != "" && l.state != Lockout && authentic
  }

  function LockoutSet(l: Lock, enabled: bool, now: U32): Lock {
    if enabled then Entered(if l.active then PulseEnded(l) else l, Lockout, LockoutEntered, now)
    else Entered(l, if Closed(l) then State.Secure else Alarm, LockoutCleared, now)
  }

  function CommissioningStarted(l: Lock, now: U32): Lock {
    if l.state == Lockout then l else Entered(l, Commissioning, Commission, now)
  }

  function InitAcked(l: Lock, now: U32): Lock {
    if l.state == Lockout then l
    else Entered(l, if Closed(l) then State.Secure else Alarm, InitAck, now)
  }

  class LockController {
    const autoRelockMs: nat
    var state: State
    var lastTrigger: Trigger
    var stateStartMs: U32
    var reed: Input
    var latch: Input
    var ir: Input
    var mortise: Input
    var solenoidPin: bool
    var solenoidActive: bool
    var solenoidStartMs: U32
    var suspends: nat
    var resumes: nat

    ghost function View(): Lock
      reads this
    {
      Lock(state, lastTrigger, stateStartMs, reed, latch, ir, mortise,
           solenoidPin, solenoidActive, solenoidStartMs, suspends, resumes)
    }

    constructor (now: U32, autoRelockMs: nat)
      ensures View() == Begun(now) && this.autoRelockMs == autoRelockMs
    {
      this.autoRelockMs := autoRelockMs;
      state, lastTrigger, stateStartMs := Initializing, NoTrigger, now;
      reed, latch := Input(false, 0, false), Input(false, 0, false);
      ir, mortise := Input(true, 0, false), Input(false, 0, false);
      solenoidPin, solenoidActive, solenoidStartMs := false, false, 0;
      suspends, resumes := 0, 0;
    }

    method ReadInput(d: Input, raw: bool, now: U32, debounceMs: nat) returns (r: Input)
      ensures r == Sampled(d, raw, now, debounceMs)
    {
      r := d;
      if !d.init {
        r := Input(raw, now, true);
      } else if raw != d.held {
        if Elapsed(now, d.time) >= debounceMs {
          r := r.(held := raw, time := now);
        }
      } else {
        r := r.(time := now);
      }
    }

    method ReadGpio(pins: Pins, now: U32)
      modifies `reed, `latch, `ir, `mortise
      ensures View() == InputsRead(old(View()), pins, now)
    {
      reed := ReadInput(reed, pins.reed, now, REED_DEBOUNCE_MS);
      latch := ReadInput(latch, pins.latch, now, LATCH_DEBOUNCE_MS);
      ir := ReadInput(ir, pins.ir, now, IR_DEBOUNCE_MS);
      mortise := ReadInput(mortise, pins.mortise, now, MORTISE_DEBOUNCE_MS);
    }

    method TimePulse(now: U32)
      modifies `solenoidPin, `solenoidActive, `resumes
      ensures View() == PulseTimed(old(View()), now)
    {
      if solenoidActive && Elapsed(now, solenoidStartMs) >= PULSE_MS {
        solenoidPin := false;
        solenoidActive := false;
        resumes := resumes + 1;
      }
    }

    method Settle(now: U32)
      modifies `state, `stateStartMs, `lastTrigger
      ensures View() == Settled(old(View()), now, autoRelockMs)
    {
      var secure := reed.held && latch.held;
      match state {
        case Secure =>
          if !secure {
            if !reed.held {
              state, stateStartMs, lastTrigger := Alarm, now, AlarmTimeout;
            } else if !latch.held {
              state, stateStartMs, lastTrigger := Unlocked, now, SignedCommand;
            }
          }
        case Unlocked =>
          if autoRelockMs > 0 && Elapsed(now, stateStartMs) >= autoRelockMs {
            lastTrigger := AutoUnlock;
          }
          if secure {
            state, stateStartMs, lastTrigger := State.Secure, now, DoorClose;
          } else if mortise.held {
            state, stateStartMs, lastTrigger := Alarm, now, MortiseKey;
          }
        case Accessing =>
          if secure {
            state, stateStartMs, lastTrigger := State.Secure, now, DoorClose;
          } else if mortise.held {
            state, stateStartMs, lastTrigger := Alarm, now, MortiseKey;
          }
        case Alarm =>
          if secure {
            state, stateStartMs, lastTrigger := State.Secure, now, AlarmTimeout;
          }
        case Initializing =>
        case Lockout =>
        case Commissioning =>
      }
    }

    method Tick(now: U32, sampledAt: U32, pins: Pins)
      modifies this
      ensures View() == Ticked(old(View()), now, sampledAt, pins, autoRelockMs)
    {
      ReadGpio(pins, sampledAt);
      TimePulse(now);
      Settle(now);
    }

    method HandleUnlock(token: string, authentic: bool, now: U32) returns (ok: bool)
      modifies this
      ensures ok == UnlockAccepted(old(View()), token, authentic)
      ensures View() == if ok then Actuated(old(View()), SignedCommand, now) else old(View())
    {
      if token == "" || state == Lockout || !authentic {
        return false;
      }
      solenoidStartMs := now;
      solenoidActive := true;
      suspends := suspends + 1;
      solenoidPin := true;
      state, stateStartMs, lastTrigger := Unlocked, solenoidStartMs, SignedCommand;
      return true;
    }

    method SetLockout(enabled: bool, now: U32)
      modifies this
      ensures View() == LockoutSet(old(View()), enabled, now)
    {
      if enabled {
        if solenoidActive {
          solenoidPin := false;
          solenoidActive := false;
          resumes := resumes + 1;
        }
        state, lastTrigger := Lockout, LockoutEntered;
      } else {
        var secure := reed.held && latch.held;
        state := if secure then State.Secure else Alarm;
        lastTrigger := LockoutCleared;
      }
      stateStartMs := now;
    }

    method StartCommissioning(now: U32) returns (ok: bool)
      modifies this
      ensures ok == (old(state) != Lockout)
      ensures View() == CommissioningStarted(old(View()), now)
    {
      if state == Lockout {
        return false;
      }
      state, stateStartMs, lastTrigger := Commissioning, now, Commission;
      return true;
    }

    method AckInitialization(now: U32) returns (ok: bool)
      modifies this
      ensures ok == (old(state) != Lockout)
      ensures View() == InitAcked(old(View()), now)
    {
      if state == Lockout {
        return false;
      }
      var secure := reed.held && latch.held;
      state := if secure then State.Secure else Alarm;
      stateStartMs, lastTrigger := now, InitAck;
      return true;
    }

    method HandleEmergencyUnlock(now: U32)
      modifies this
      ensures View() == Actuated(old(View()), EmergencyUnlock, now)
    {
      solenoidStartMs := now;
      solenoidActive := true;
      suspends := suspends + 1;
      solenoidPin := true;
      state, stateStartMs, lastTrigger := Unlocked, now, EmergencyUnlock;
    }
  }
}
