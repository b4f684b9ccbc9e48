/** The cabinet lock against a transition table: what every tick and every command does to
    the state, its time and its trigger, and who can ever have raised the pin.
 */
module CabinetLockCalls {
  import opened Words
  import opened CabinetLock
  import opened CabinetLockRuns

  // ---- Ticks -----------------------------------------------------------------

  predicate Parked(state: State) {
    state in {Initializing, Lockout, Commissioning}
  }

  /** The state a tick leads to, by what the debounced inputs then say. */
  function Reaction(state: State, reed: bool, latch: bool, mortise: bool): State {
    if Parked(state) then state
    else if reed && latch then State.Secure
    else if state == State.Secure then if reed then Unlocked else Alarm
    else if mortise then Alarm
    else state
  }

  /** The trigger recorded for a transition. */
  function Reason(from: State, to: State): Trigger {
    match to
    case Secure => if from == Alarm then AlarmTimeout else DoorClose
    case Unlocked => SignedCommand
    case _ => if from == State.Secure then AlarmTimeout else MortiseKey
  }

  /** Every tick follows the table, stamps the transition, and changes neither when there
      is none; the one exception is the note that an unlocked lock is overdue to close. */
  lemma TickFollowsTable(l: Lock, op: Op, relock: nat)
    requires op.Tick?
    ensures var t := Step(l, op, relock);
            var overdue := l.state == Unlocked && relock > 0 && Elapsed(Stamp(op.at), l.stateStartMs) >= relock;
            && t.state == Reaction(l.state, t.reed.held, t.latch.held, t.mortise.held)
            && t.stateStartMs == (if t.state == l.state then l.stateStartMs else Stamp(op.at))
            && t.trigger == (if t.state != l.state then Reason(l.state, t.state)
                             else if overdue then AutoUnlock else l.trigger)
  {
  }

  /** After none of the ticks does the lock read closed and locked. */
  ghost predicate NeverClosed(l: Lock, ticks: seq<Op>, relock: nat) {
    forall k :: 0 < k <= |ticks| ==> !Closed(RunFrom(l, ticks[..k], relock))
  }

  lemma NeverClosedPrefix(l: Lock, ticks: seq<Op>, relock: nat)
    requires ticks != [] && NeverClosed(l, ticks, relock)
    ensures NeverClosed(l, ticks[..|ticks| - 1], relock) && !Closed(RunFrom(l, ticks, relock))
  {
    var n := |ticks| - 1;
    assert forall k :: 0 < k <= n ==> ticks[..n][..k] == ticks[..k];
    assert ticks[..n + 1] == ticks;
  }

  /** An alarm lasts over every run of ticks that does not see the door closed and locked;
      no input clears it otherwise. */
  lemma {:induction false} AlarmHolds(l: Lock, ticks: seq<Op>, relock: nat)
    requires l.state == Alarm && (forall op <- ticks :: op.Tick?) && NeverClosed(l, ticks, relock)
    ensures var t := RunFrom(l, ticks, relock);
            t.state == Alarm && t.trigger == l.trigger && t.stateStartMs == l.stateStartMs
  {
    if ticks != [] {
      var n := |ticks| - 1;
      NeverClosedPrefix(l, ticks, relock);
      AlarmHolds(l, ticks[..n], relock);
      TickFollowsTable(RunFrom(l, ticks[..n], relock), ticks[n], relock);
    }
  }

  /** The tick that does see it ends the alarm. */
  lemma AlarmEnds(l: Lock, op: Op, relock: nat)
    requires l.state == Alarm && op.Tick?
    ensures Step(l, op, relock).state == State.Secure <==> Closed(Step(l, op, relock))
  {
    TickFollowsTable(l, op, relock);
  }

  /** The parked states outlast every run of ticks. */
  lemma {:induction false} ParkedStays(l: Lock, ticks: seq<Op>, relock: nat)
    requires Parked(l.state) && (forall op <- ticks :: op.Tick?)
    ensures var t := RunFrom(l, ticks, relock);
            t.state == l.state && t.trigger == l.trigger && t.stateStartMs == l.stateStartMs
  {
    if ticks != [] {
      var n := |ticks| - 1;
      ParkedStays(l, ticks[..n], relock);
      TickFollowsTable(RunFrom(l, ticks[..n], relock), ticks[n], relock);
    }
  }

  /** Some tick of the run has read the mortise key. */
  predicate MortiseRead(l: Lock, ticks: seq<Op>, relock: nat) {
    ticks != [] && (MortiseRead(l, ticks[..|ticks| - 1], relock) || RunFrom(l, ticks, relock).mortise.held)
  }

  /** An unlocked lock over a run of ticks that never sees it closed: it is in ALARM from
      the first tick on that reads the mortise key, and it stays UNLOCKED without one. */
  lemma {:induction false} OpenUntilMortise(l: Lock, ticks: seq<Op>, relock: nat)
    requires l.state == Unlocked && (forall op <- ticks :: op.Tick?) && NeverClosed(l, ticks, relock)
    ensures var t := RunFrom(l, ticks, relock);
            && t.state == (if MortiseRead(l, ticks, relock) then Alarm else Unlocked)
            && (t.state == Unlocked ==> t.stateStartMs == l.stateStartMs)
  {
    if ticks != [] {
      var n := |ticks| - 1;
      NeverClosedPrefix(l, ticks, relock);
      OpenUntilMortise(l, ticks[..n], relock);
      TickFollowsTable(RunFrom(l, ticks[..n], relock), ticks[n], relock);
    }
  }

  // ---- Commands --------------------------------------------------------------

  /** What a command asks for is refused in LOCKOUT, unless it is one of the two exits. */
  predicate Granted(l: Lock, op: Op) {
    match op
    case Unlock(_, token, authentic) => token != "" && authentic && l.state != Lockout
    case StartCommissioning(_) => l.state != Lockout
    case AckInitialization(_) => l.state != Lockout
    case _ => true
  }

  function Target(l: Lock, op: Op): State
    requires !op.Tick?
  {
    match op
    case Unlock(_, _, _) => Unlocked
    case EmergencyUnlock(_) => Unlocked
    case StartCommissioning(_) => Commissioning
    case AckInitialization(_) => if l.reed.held && l.latch.held then State.Secure else Alarm
    case SetLockout(_, enabled) =>
      if enabled then Lockout else if l.reed.held && l.latch.held then State.Secure else Alarm
  }

  function Cause(op: Op): Trigger
    requires !op.Tick?
  {
    match op
    case Unlock(_, _, _) => SignedCommand
    case EmergencyUnlock(_) => Trigger.EmergencyUnlock
    case StartCommissioning(_) => Commission
    case AckInitialization(_) => InitAck
    case SetLockout(_, enabled) => if enabled then LockoutEntered else LockoutCleared
  }

  /** A refused command changes nothing.  A granted one leads to its target at once, for
      its cause and as of now; it leaves the inputs alone, and the pin too unless it is an
      unlock, which raises it, or a lockout, which drops it. */
  lemma CommandFollowsTable(l: Lock, op: Op, relock: nat)
    requires !op.Tick?
    ensures var t := Step(l, op, relock);
            && (!Granted(l, op) ==> t == l)
            && (Granted(l, op) ==>
                  && t.state == Target(l, op) && t.trigger == Cause(op) && t.stateStartMs == Stamp(op.at)
                  && t.reed == l.reed && t.latch == l.latch && t.ir == l.ir && t.mortise == l.mortise
                  && (op.Unlock? || op.EmergencyUnlock? ==> t.pin && t.active && t.solenoidStartMs == Stamp(op.at))
                  && (op.SetLockout? && op.enabled && l.pin == l.active ==> !t.pin)
                  && (op.StartCommissioning? || op.AckInitialization? || (op.SetLockout? && !op.enabled) ==>
                        t.pin == l.pin && t.active == l.active && t.solenoidStartMs == l.solenoidStartMs))
  {
  }

  /** Call `j` of the run was an emergency unlock, or an unlock with a token and a valid
      signature while the lock was not in LOCKOUT. */
  predicate Authorises(ops: seq<Op>, relock: nat, j: nat)
    requires j < |ops|
  {
    match ops[j]
    case EmergencyUnlock(_) => true
    case Unlock(_, token, authentic) => token != "" && authentic && Run(ops[..j], relock).state != Lockout
    case _ => false
  }

  /** In every run the pin is high only after such a call. */
  lemma {:induction false} PinNeedsAuthority(ops: seq<Op>, relock: nat)
    ensures Run(ops, relock).pin ==> exists j :: 0 <= j < |ops| && Authorises(ops, relock, j)
  {
    if ops != [] && Run(ops, relock).pin {
      var n := |ops| - 1;
      var before := Run(ops[..n], relock);
      assert Run(ops, relock) == Step(before, ops[n], relock);
      if before.pin {
        PinNeedsAuthority(ops[..n], relock);
        var j :| 0 <= j < n && Authorises(ops[..n], relock, j);
        assert ops[..n][..j] == ops[..j];
        assert Authorises(ops, relock, j);
      } else {
        assert Authorises(ops, relock, n);
      }
    }
  }

  /** Power-up waits in INITIALIZING for the first command, whatever the inputs say. */
  lemma WaitsForCommand(ticks: seq<Op>, relock: nat)
    requires forall op <- ticks :: op.Tick?
    ensures Run(ticks, relock).state == Initializing && !Run(ticks, relock).pin
  {
    ParkedStays(Begun(0), ticks, relock);
    if Run(ticks, relock).pin {
      PinNeedsAuthority(ticks, relock);
    }
  }
}
