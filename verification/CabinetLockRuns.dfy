/** Safety of the cabinet lock over whole runs, and what its debounced inputs and its
    solenoid pulse mean in true time rather than in wrapping milliseconds.
 */
module CabinetLockRuns {
  import opened Words
  import opened CabinetLock

  /** A call, with the true time at which it is made. */
  datatype Op =
    | Tick(at: nat, sampledAt: nat, pins: Pins)
    | Unlock(at: nat, token: string, authentic: bool)
    | SetLockout(at: nat, enabled: bool)
    | StartCommissioning(at: nat)
    | AckInitialization(at: nat)
    | EmergencyUnlock(at: nat)

  function Step(l: Lock, op: Op, relock: nat): Lock {
    var now := Stamp(op.at);
    match op
    case Tick(_, sampledAt, pins) => Ticked(l, now, Stamp(sampledAt), pins, relock)
    case Unlock(_, token, authentic) =>
      if UnlockAccepted(l, token, authentic) then Actuated(l, SignedCommand, now) else l
    case SetLockout(_, enabled) => LockoutSet(l, enabled, now)
    case StartCommissioning(_) => CommissioningStarted(l, now)
    case AckInitialization(_) => InitAcked(l, now)
    case EmergencyUnlock(_) => Actuated(l, Trigger.EmergencyUnlock, now)
  }

  function RunFrom(l: Lock, ops: seq<Op>, relock: nat): Lock {
    if ops == [] then l else Step(RunFrom(l, ops[..|ops| - 1], relock), ops[|ops| - 1], relock)
  }

  /** A run from power-up, which is time zero. */
  function Run(ops: seq<Op>, relock: nat): Lock {
    RunFrom(Begun(0), ops, relock)
  }

  // ---- State safety ----------------------------------------------------------

  ghost predicate Safe(l: Lock) {
    && (l.state == Secure ==> Closed(l))
    && l.state != Accessing
    && (l.state == Lockout ==> !l.active)
    && l.pin == l.active
    && l.resumes <= l.suspends
    && (l.active ==> l.resumes < l.suspends)
  }

  lemma TickSafe(l: Lock, now: U32, sampledAt: U32, pins: Pins, relock: nat)
    requires Safe(l)
    ensures var t := Ticked(l, now, sampledAt, pins, relock);
            && Safe(t)
            && t.suspends == l.suspends
            && t.resumes == l.resumes + if l.active && !t.active then 1 else 0
  {
    var timed := PulseTimed(InputsRead(l, pins, sampledAt), now);
    var t := Settled(timed, now, relock);
    assert t.state == Secure ==> Closed(timed);
    assert t.state == Lockout <==> l.state == Lockout;
  }

  lemma StepSafe(l: Lock, op: Op, relock: nat)
    requires Safe(l)
    ensures Safe(Step(l, op, relock))
  {
    if op.Tick? {
      TickSafe(l, Stamp(op.at), Stamp(op.sampledAt), op.pins, relock);
    }
  }

  /** At every call boundary SECURE means closed and locked, ACCESSING is unreachable,
      and LOCKOUT keeps the solenoid off. */
  lemma {:induction false} AlwaysSafe(ops: seq<Op>, relock: nat)
    ensures Safe(Run(ops, relock))
  {
    if ops != [] {
      AlwaysSafe(ops[..|ops| - 1], relock);
      StepSafe(Run(ops[..|ops| - 1], relock), ops[|ops| - 1], relock);
    }
  }

  /** After a tick that ends outside the three parked states, SECURE is exact. */
  lemma TickSettles(ops: seq<Op>, relock: nat)
    requires ops != [] && ops[|ops| - 1].Tick?
    ensures var l := Run(ops, relock);
            l.state in {Initializing, Lockout, Commissioning} || (l.state == Secure <==> Closed(l))
  {
    AlwaysSafe(ops[..|ops| - 1], relock);
  }

  predicate LeavesLockout(op: Op) {
    op.EmergencyUnlock? || (op.SetLockout? && !op.enabled)
  }

  /** A single call leaves LOCKOUT if and only if it is one of the two that may. */
  lemma LockoutExits(l: Lock, op: Op, relock: nat)
    requires l.state == Lockout
    ensures Step(l, op, relock).state != Lockout <==> LeavesLockout(op)
  {
  }

  /** So lockout survives every run of the other calls, with the solenoid off throughout. */
  lemma {:induction false} LockoutIsSticky(before: seq<Op>, ops: seq<Op>, relock: nat)
    requires Run(before, relock).state == Lockout
    requires forall op <- ops :: !LeavesLockout(op)
    ensures var l := Run(before + ops, relock);
            l.state == Lockout && !l.pin && l.suspends == Run(before, relock).suspends
  {
    AlwaysSafe(before + ops, relock);
    if ops == [] {
      assert before + ops == before;
    } else {
      var n := |ops| - 1;
      assert before + ops == (before + ops[..n]) + [ops[n]];
      assert (before + ops)[..|before + ops| - 1] == before + ops[..n];
      LockoutIsSticky(before, ops[..n], relock);
      LockoutExits(Run(before + ops[..n], relock), ops[n], relock);
    }
  }

  // ---- Opening after an actuation --------------------------------------------

  predicate Actuates(l: Lock, op: Op) {
    op.EmergencyUnlock? || (op.Unlock? && UnlockAccepted(l, op.token, op.authentic))
  }

  /** From one call boundary to the next the lock has gone from SECURE to ALARM because the
      door is open. */
  predicate DoorAlarm(before: Lock, after: Lock) {
    before.state == Secure && after.state == Alarm && after.trigger == AlarmTimeout
  }

  /** After an actuation, ticks only: the last of them raises the door alarm exactly when
      it reads the door open and the tick before, also after the actuation, still read it
      closed and locked.  The pin is then still high exactly when no tick has found the
      pulse over: the door that the pulse let open is taken for a forced one. */
  lemma OpeningRaisesAlarm(l: Lock, act: Op, ticks: seq<Op>, relock: nat)
    requires Actuates(l, act) && ticks != [] && (forall op <- ticks :: op.Tick?)
    ensures var n, s := |ticks| - 1, Step(l, act, relock);
            var before, after := RunFrom(s, ticks[..n], relock), RunFrom(s, ticks, relock);
            && (DoorAlarm(before, after) <==> n > 0 && Closed(before) && !after.reed.held)
            && (after.pin <==> forall k :: 0 <= k <= n ==> !TimedOver(ticks[k], act.at))
  {
    var n, s := |ticks| - 1, Step(l, act, relock);
    assert forall op <- ticks[..n] :: op.Tick? by {
      assert forall k :: 0 <= k < n ==> ticks[..n][k] == ticks[k];
    }
    TicksOnly(s, ticks[..n], relock);
    TicksOnly(s, ticks, relock);
    TicksEndPulse(s, act.at, ticks, relock);
    var before := RunFrom(s, ticks[..n], relock);
    TickMoves(before, ticks[n], relock);
  }

  /** The tick finds a pulse that began at true time `start` over, as the counter reads. */
  predicate TimedOver(op: Op, start: nat) {
    Elapsed(Stamp(op.at), Stamp(start)) >= PULSE_MS
  }

  lemma TickMoves(l: Lock, op: Op, relock: nat)
    requires op.Tick? && l.state in {State.Secure, Unlocked, Alarm}
    ensures var t := Step(l, op, relock);
            && t.state in {State.Secure, Unlocked, Alarm} && (t.state == Secure <==> Closed(t))
            && (DoorAlarm(l, t) <==> l.state == Secure && !t.reed.held)
  {
  }

  lemma {:induction false} TicksOnly(l: Lock, ticks: seq<Op>, relock: nat)
    requires l.state == Unlocked && (forall op <- ticks :: op.Tick?)
    ensures var t := RunFrom(l, ticks, relock);
            && t.state in {State.Secure, Unlocked, Alarm}
            && (t.state == Secure <==> ticks != [] && Closed(t))
  {
    if ticks != [] {
      var n := |ticks| - 1;
      TicksOnly(l, ticks[..n], relock);
      TickMoves(RunFrom(l, ticks[..n], relock), ticks[n], relock);
    }
  }

  lemma {:induction false} TicksEndPulse(l: Lock, start: nat, ticks: seq<Op>, relock: nat)
    requires l.pin && l.active && l.solenoidStartMs == Stamp(start) && (forall op <- ticks :: op.Tick?)
    ensures var t := RunFrom(l, ticks, relock);
            && t.pin == t.active && t.solenoidStartMs == l.solenoidStartMs
            && (t.pin <==> forall k :: 0 <= k < |ticks| ==> !TimedOver(ticks[k], start))
  {
    if ticks != [] {
      var n := |ticks| - 1;
      TicksEndPulse(l, start, ticks[..n], relock);
      assert forall k :: 0 <= k < n ==> ticks[..n][k] == ticks[k];
    }
  }

  /** A closed door, an accepted unlock, a tick before the door moves, a tick after it:
      the lock is in ALARM, its pin still high. */
  lemma AuthorisedOpeningAlarms(relock: nat)
    ensures var closed, open := Pins(true, true, false, false), Pins(false, false, false, false);
            var start := [Tick(500, 500, closed), AckInitialization(600)];
            var unlocked := start + [Unlock(1000, "token", true)];
            var ended := Run(unlocked + [Tick(1050, 1050, closed)] + [Tick(1250, 1250, open)], relock);
            && Actuates(Run(start, relock), Unlock(1000, "token", true))
            && Run(unlocked + [Tick(1050, 1050, closed)], relock).state == Secure
            && ended.state == Alarm && ended.trigger == AlarmTimeout && ended.pin
  {
    var closed, open := Pins(true, true, false, false), Pins(false, false, false, false);
    var start := [Tick(500, 500, closed), AckInitialization(600)];
    assert start == [] + [Tick(500, 500, closed)] + [AckInitialization(600)];
    RunExtends([], Tick(500, 500, closed), relock);
    RunExtends([] + [Tick(500, 500, closed)], AckInitialization(600), relock);
    var unlocked := start + [Unlock(1000, "token", true)];
    RunExtends(start, Unlock(1000, "token", true), relock);
    RunExtends(unlocked, Tick(1050, 1050, closed), relock);
    RunExtends(unlocked + [Tick(1050, 1050, closed)], Tick(1250, 1250, open), relock);
  }

  lemma RunExtends(ops: seq<Op>, op: Op, relock: nat)
    ensures Run(ops + [op], relock) == Step(Run(ops, relock), op, relock)
  {
    assert (ops + [op])[..|ops|] == ops;
  }

  // ---- The solenoid pulse ----------------------------------------------------

  /** A call that ends a pulse begun at `start`. */
  predicate Ends(op: Op, start: nat) {
    (op.SetLockout? && op.enabled) || (op.Tick? && op.at - start >= PULSE_MS)
  }

  /** Call `i` is the latest actuation and nothing since has ended its pulse. */
  ghost predicate Live(ops: seq<Op>, relock: nat, i: nat) {
    && i < |ops| && Actuates(Run(ops[..i], relock), ops[i])
    && forall j :: i < j < |ops| ==> Continues(ops, relock, ops[i].at, j)
  }

  /** Call `j` neither restarts nor ends a pulse begun at `start`. */
  predicate Continues(ops: seq<Op>, relock: nat, start: nat, j: nat)
    requires j < |ops|
  {
    !Actuates(Run(ops[..j], relock), ops[j]) && !Ends(ops[j], start)
  }

  ghost predicate PulseDue(ops: seq<Op>, relock: nat) {
    exists i: nat :: Live(ops, relock, i)
  }

  function LastTick(ops: seq<Op>): nat {
    if ops == [] then 0
    else var last := ops[|ops| - 1]; if last.Tick? then last.at else LastTick(ops[..|ops| - 1])
  }

  /** Times do not run backwards, and the tick comes round at least every `gap` ms. */
  ghost predicate Paced(ops: seq<Op>, gap: nat) {
    && (forall j :: 0 < j < |ops| ==> ops[j - 1].at <= ops[j].at)
    && (forall j :: 0 <= j < |ops| && ops[j].Tick? ==> ops[j].at - LastTick(ops[..j]) <= gap)
  }

  lemma PacedPrefix(ops: seq<Op>, gap: nat, n: nat)
    requires n <= |ops| && Paced(ops, gap)
    ensures Paced(ops[..n], gap)
  {
    forall j | 0 <= j < n
      ensures ops[..n][..j] == ops[..j]
    {
    }
  }

  lemma {:induction false} InOrder(ops: seq<Op>, gap: nat, i: nat, j: nat)
    requires Paced(ops, gap) && i <= j < |ops|
    ensures ops[i].at <= ops[j].at
    decreases j
  {
    if i < j {
      InOrder(ops, gap, i, j - 1);
    }
  }

  /** The live actuation, found by scanning the run. */
  function LiveIndex(ops: seq<Op>, relock: nat): (r: Option<nat>)
    ensures r.Some? ==> r.value < |ops|
  {
    if ops == [] then None else
      var n := |ops| - 1;
      if Actuates(Run(ops[..n], relock), ops[n]) then Some(n) else
        var i := LiveIndex(ops[..n], relock);
        if i.Some? && Ends(ops[n], ops[i.value].at) then None else i
  }

  lemma {:induction false} LiveIndexFinds(ops: seq<Op>, relock: nat, i: nat)
    ensures LiveIndex(ops, relock) == Some(i) <==> Live(ops, relock, i)
  {
    if ops != [] {
      var n := |ops| - 1;
      assert ops[..n] + [ops[n]] == ops;
      LiveIndexFinds(ops[..n], relock, i);
      if i < n {
        LivePrefix(ops, relock, i);
      }
    }
  }

  lemma ContinuesPrefix(ops: seq<Op>, relock: nat, start: nat, n: nat, j: nat)
    requires j < n <= |ops|
    ensures Continues(ops[..n], relock, start, j) == Continues(ops, relock, start, j)
  {
    assert ops[..n][..j] == ops[..j];
  }

  lemma LivePrefix(ops: seq<Op>, relock: nat, i: nat)
    requires ops != [] && i < |ops| - 1
    ensures var n := |ops| - 1;
            Live(ops, relock, i) <==> Live(ops[..n], relock, i) && Continues(ops, relock, ops[i].at, n)
  {
    var n := |ops| - 1;
    assert ops[..n][..i] == ops[..i];
    forall j | i < j < n
      ensures Continues(ops[..n], relock, ops[i].at, j) == Continues(ops, relock, ops[i].at, j)
    {
      ContinuesPrefix(ops, relock, ops[i].at, n, j);
    }
  }

  ghost predicate Timed(l: Lock, ops: seq<Op>, live: Option<nat>)
    requires live.Some? ==> live.value < |ops|
  {
    && l.active == live.Some?
    && (live.Some? ==> l.solenoidStartMs == Stamp(ops[live.value].at)
                       && LastTick(ops) < ops[live.value].at + PULSE_MS)
  }

  /** With ticks at most 2^32 - 1500 ms apart the wrapping clock never misses the end
      of a pulse. */
  lemma {:induction false} PinFollowsPulse(ops: seq<Op>, relock: nat, gap: nat)
    requires Paced(ops, gap) && gap + PULSE_MS <= TWO32
    ensures Timed(Run(ops, relock), ops, LiveIndex(ops, relock))
  {
    if ops != [] {
      var n := |ops| - 1;
      PacedPrefix(ops, gap, n);
      PinFollowsPulse(ops[..n], relock, gap);
      var l, live := Run(ops[..n], relock), LiveIndex(ops[..n], relock);
      assert Run(ops, relock) == Step(l, ops[n], relock);
      LastTickInOrder(ops, gap, n);
      assert ops[..n + 1] == ops;
      if live.Some? {
        InOrder(ops, gap, live.value, n);
        StepTimed(l, ops, live.value, relock, gap);
      } else {
        StepIdle(l, ops[n], relock);
      }
    }
  }

  lemma StepTimed(l: Lock, ops: seq<Op>, i: nat, relock: nat, gap: nat)
    requires i < |ops| - 1 && ops[i].at <= ops[|ops| - 1].at && gap + PULSE_MS <= TWO32
    requires l.active && l.solenoidStartMs == Stamp(ops[i].at)
    requires LastTick(ops[..|ops| - 1]) < ops[i].at + PULSE_MS
    requires ops[|ops| - 1].Tick? ==> ops[|ops| - 1].at - LastTick(ops[..|ops| - 1]) <= gap
    ensures var t, op := Step(l, ops[|ops| - 1], relock), ops[|ops| - 1];
            if Actuates(l, op) then t.active && t.solenoidStartMs == Stamp(op.at)
            else t.active == !Ends(op, ops[i].at) && t.solenoidStartMs == l.solenoidStartMs
  {
    var op := ops[|ops| - 1];
    if op.Tick? {
      ElapsedOfStamps(op.at, ops[i].at);
    }
  }

  lemma StepIdle(l: Lock, op: Op, relock: nat)
    requires !l.active
    ensures var t := Step(l, op, relock);
            t.active == Actuates(l, op) && (t.active ==> t.solenoidStartMs == Stamp(op.at))
  {
  }

  lemma {:induction false} LastTickInOrder(ops: seq<Op>, gap: nat, n: nat)
    requires Paced(ops, gap) && n < |ops|
    ensures LastTick(ops[..n + 1]) <= ops[n].at
  {
    assert ops[..n + 1][..n] == ops[..n];
    if !ops[n].Tick? && n > 0 {
      LastTickInOrder(ops, gap, n - 1);
    }
  }

  ghost predicate PinExact(gap: nat, relock: nat) {
    forall ops :: Paced(ops, gap) ==> (Run(ops, relock).pin <==> PulseDue(ops, relock))
  }

  /** The bound on the tick gap is exact: any larger one admits a run whose solenoid
      stays energised past the end of its pulse. */
  lemma PulseExact(gap: nat, relock: nat)
    ensures PinExact(gap, relock) <==> gap + PULSE_MS <= TWO32
  {
    if gap + PULSE_MS <= TWO32 {
      forall ops | Paced(ops, gap)
        ensures Run(ops, relock).pin <==> PulseDue(ops, relock)
      {
        PinFollowsPulse(ops, relock, gap);
        AlwaysSafe(ops, relock);
        forall i: nat {
          LiveIndexFinds(ops, relock, i);
        }
        assert LiveIndex(ops, relock).Some? ==> Live(ops, relock, LiveIndex(ops, relock).value);
      }
    } else {
      MissedEnd(gap, relock);
    }
  }

  /** A tick just before the end of the pulse, and the next one a full wrap later. */
  lemma MissedEnd(gap: nat, relock: nat)
    requires gap + PULSE_MS > TWO32
    ensures !PinExact(gap, relock)
  {
    var open := Pins(false, false, false, false);
    var first, second, third := Op.EmergencyUnlock(0), Tick(PULSE_MS - 1, 0, open), Tick(TWO32, 0, open);
    var ops := [first, second, third];
    assert ops[..2] == [first, second] && ops[..1] == [first] && ops[..0] == [];
    assert [first, second][..1] == [first] && [first][..0] == [];
    assert Run([], relock) == Begun(0);
    assert Run([first], relock).active && Run([first], relock).solenoidStartMs == 0;
    assert Run([first, second], relock).active && Run([first, second], relock).solenoidStartMs == 0;
    assert Stamp(TWO32) == 0;
    assert Run(ops, relock) == Step(Run([first, second], relock), third, relock);
    assert LastTick([first, second]) == PULSE_MS - 1;
    assert LastTick([first]) == LastTick([]) == 0;
    assert Paced(ops, gap);
    forall i: nat
      ensures !Live(ops, relock, i)
    {
      if i == 0 {
        assert !Continues(ops, relock, ops[0].at, 2);
      }
    }
    AlwaysSafe(ops, relock);
  }

  // ---- Watchdog suspensions --------------------------------------------------

  /** Call `j` actuates the solenoid although its pin is already high. */
  predicate OverlapsAt(ops: seq<Op>, relock: nat, j: nat)
    requires j < |ops|
  {
    Actuates(Run(ops[..j], relock), ops[j]) && Run(ops[..j], relock).pin
  }

  /** Actuations made while an earlier pulse was still running. */
  function Overlaps(ops: seq<Op>, relock: nat): nat {
    if ops == [] then 0 else
      var n := |ops| - 1;
      var l := Run(ops[..n], relock);
      Overlaps(ops[..n], relock) + if l.active && Actuates(l, ops[n]) then 1 else 0
  }

  /** Each overlapping actuation leaves one suspension that nothing resumes. */
  lemma {:induction false} SuspensionsLeakByOverlap(ops: seq<Op>, relock: nat)
    ensures var l := Run(ops, relock);
            l.suspends - l.resumes == (if l.pin then 1 else 0) + Overlaps(ops, relock)
  {
    if ops != [] {
      var n := |ops| - 1;
      SuspensionsLeakByOverlap(ops[..n], relock);
      AlwaysSafe(ops[..n], relock);
      AlwaysSafe(ops, relock);
      StepSuspends(Run(ops[..n], relock), ops[n], relock);
      assert Run(ops, relock) == Step(Run(ops[..n], relock), ops[n], relock);
    }
  }

  /** Two unlocks a millisecond apart: once the pulse is over the watchdog is still
      suspended, and no later tick resumes it. */
  lemma OverlapLeaks(relock: nat)
    ensures var l := Run([EmergencyAt(0), EmergencyAt(1), Tick(2000, 2000, Pins(false, false, false, false))], relock);
            !l.pin && l.suspends == 2 && l.resumes == 1
  {
    var tick := Tick(2000, 2000, Pins(false, false, false, false));
    assert [EmergencyAt(0), EmergencyAt(1), tick] == [] + [EmergencyAt(0)] + [EmergencyAt(1)] + [tick];
    RunExtends([], EmergencyAt(0), relock);
    RunExtends([] + [EmergencyAt(0)], EmergencyAt(1), relock);
    RunExtends([] + [EmergencyAt(0)] + [EmergencyAt(1)], tick, relock);
  }

  function EmergencyAt(at: nat): Op {
    Op.EmergencyUnlock(at)
  }

  /** Suspensions beyond the one the running pulse holds. */
  function Leaked(l: Lock): int {
    l.suspends - l.resumes - if l.active then 1 else 0
  }

  lemma StepSuspends(l: Lock, op: Op, relock: nat)
    requires Safe(l)
    ensures Leaked(Step(l, op, relock)) == Leaked(l) + if l.active && Actuates(l, op) then 1 else 0
  {
    if op.Tick? {
      TickSafe(l, Stamp(op.at), Stamp(op.sampledAt), op.pins, relock);
    }
  }

  /** The lock holds one suspension while the pin is high and none while it is low
      exactly in the runs whose pulses never overlap. */
  lemma SuspensionsBalance(ops: seq<Op>, relock: nat)
    ensures var l := Run(ops, relock);
            l.suspends - l.resumes == (if l.pin then 1 else 0) <==>
            forall j :: 0 <= j < |ops| ==> !OverlapsAt(ops, relock, j)
  {
    SuspensionsLeakByOverlap(ops, relock);
    NoOverlaps(ops, relock);
  }

  lemma {:induction false} NoOverlaps(ops: seq<Op>, relock: nat)
    ensures Overlaps(ops, relock) == 0 <==> forall j :: 0 <= j < |ops| ==> !OverlapsAt(ops, relock, j)
  {
    if ops != [] {
      var n := |ops| - 1;
      NoOverlaps(ops[..n], relock);
      forall j | 0 <= j < n
        ensures OverlapsAt(ops[..n], relock, j) == OverlapsAt(ops, relock, j)
      {
        assert ops[..n][..j] == ops[..j];
      }
      OverlapsStep(ops, relock);
    }
  }

  lemma OverlapsStep(ops: seq<Op>, relock: nat)
    requires ops != []
    ensures var n := |ops| - 1;
            Overlaps(ops, relock) == Overlaps(ops[..n], relock) + if OverlapsAt(ops, relock, n) then 1 else 0
  {
    AlwaysSafe(ops[..|ops| - 1], relock);
  }
}
