/** What the health watchdog guarantees over whole runs, in true time, and the exact
    points where its 32-bit stamps or its two clock readings break a guarantee.
 */
module HealthWatchdogRuns {
  import opened Words
  import opened HealthWatchdog

  /** A call with the true time at which it is made. */
  datatype Op =
    | Begin(at: nat)
    | SetEnabled(at: nat, i: nat, enabled: bool)
    | MarkHealthy(at: nat, i: nat)
    | MarkBusy(at: nat, i: nat)
    | MarkIdle(at: nat, i: nat)
    | Suspend(at: nat)
    | Resume(at: nat)
    | Tick(at: nat, sense: Sense)
  {
    predicate Valid() {
      Tick? ==> sense.Valid() && sense.now == at
    }
  }

  function Step(w: Watchdog, op: Op): (v: Watchdog)
    requires w.Valid() && op.Valid()
    ensures v.Valid()
  {
    match op
    case Begin(at) => Begun(w, at)
    case SetEnabled(at, i, enabled) => Enabled(w, i, enabled, at)
    case MarkHealthy(at, i) => Healthy(w, i, at)
    case MarkBusy(at, i) => Busied(w, i, true, at)
    case MarkIdle(at, i) => Busied(w, i, false, at)
    case Suspend(_) => Suspended(w)
    case Resume(at) => Resumed(w, at)
    case Tick(_, sense) => Ticked(w, sense).state
  }

  predicate ValidOps(ops: seq<Op>) {
    forall op <- ops :: op.Valid()
  }

  function Run(ops: seq<Op>): (w: Watchdog)
    requires ValidOps(ops)
    ensures w.Valid()
  {
    if ops == [] then PowerUp() else Step(Run(ops[..|ops| - 1]), ops[|ops| - 1])
  }

  // ---- Invariants ------------------------------------------------------------

  /** Holds whatever the clock does; a first-overdue stamp is missing only where a tick
      has read zero, so with `nonzero` readings overdue and the stamp go together. */
  ghost predicate Sane(r: Record, nonzero: bool) {
    && (r.overdue ==> r.enabled && !r.busy)
    && (r.firstOverdueMs != 0 ==> r.overdue)
    && (nonzero && r.overdue ==> r.firstOverdueMs != 0)
    && r.recoveries <= r.warnings
  }

  /** Every stamp is the stamp of the event it records, at time `t`. */
  ghost predicate Truthful(r: Record, h: Truth, t: nat) {
    && r.lastHealthyMs == Stamp(h.healthyAt)
    && (r.firstOverdueMs != 0 ==>
          && r.firstOverdueMs == Stamp(h.overdueAt) && h.overdueAt <= t
          && (h.healthyAt <= h.overdueAt ==> h.overdueAt - h.healthyAt > r.timeoutMs))
    && Throttled(r, h, t)
  }

  /** Warnings are counted, the last one is stamped, and each is a minute after the one
      before, unless that one was stamped zero. */
  ghost predicate Throttled(r: Record, h: Truth, t: nat) {
    && r.warnings == |h.warnedAt|
    && (forall k :: 0 < k < |h.warnedAt| ==> Spaced(h.warnedAt[k - 1], h.warnedAt[k]))
    && (h.warnedAt != [] ==> h.warnedAt[|h.warnedAt| - 1] <= t)
    && r.lastWarningMs == if h.warnedAt == [] then 0 else Stamp(h.warnedAt[|h.warnedAt| - 1])
  }

  predicate Spaced(a: nat, b: nat) {
    a <= b && (b - a >= WARNING_INTERVAL_MS || Stamp(a) == 0)
  }

  ghost predicate AllSane(w: Watchdog, nonzero: bool)
    requires w.Valid()
  {
    forall i :: 0 <= i < SUBSYSTEMS ==> Sane(w.records[i], nonzero)
  }

  ghost predicate AllTruthful(w: Watchdog, t: nat)
    requires w.Valid()
  {
    forall i :: 0 <= i < SUBSYSTEMS ==> Truthful(w.records[i], w.truth[i], t)
  }

  // ---- Storage writes --------------------------------------------------------

  /** Queueing a warning restarts the clocks of busy subsystems and touches no other, and
      it costs a full suspension counter one level. */
  lemma {:induction false} WrittenEffect(w: Watchdog, ends: seq<nat>)
    requires w.Valid()
    ensures var v := Written(w, ends);
            && v.depth == (if w.depth == 255 && ends != [] then 254 else w.depth)
            && (w.depth > 0 ==> v.records == w.records && v.truth == w.truth)
            && forall k :: 0 <= k < SUBSYSTEMS ==> BusyRefreshed(w, v, k)
  {
    if ends != [] {
      var n := |ends| - 1;
      WrittenEffect(w, ends[..n]);
      var u := Written(w, ends[..n]);
      var v := Resumed(Suspended(u), ends[n]);
      assert Written(w, ends) == v;
      forall k | 0 <= k < SUBSYSTEMS
        ensures BusyRefreshed(w, v, k)
      {
        assert BusyRefreshed(w, u, k);
        RefreshOnce(u, ends[n], k);
      }
    }
  }

  lemma RefreshOnce(w: Watchdog, at: nat, k: nat)
    requires w.Valid() && k < SUBSYSTEMS
    ensures BusyRefreshed(w, Resumed(Suspended(w), at), k)
  {
  }

  /** Record `k` is as it was, or it is busy and was marked healthy at some time. */
  ghost predicate BusyRefreshed(w: Watchdog, v: Watchdog, k: nat)
    requires w.Valid() && v.Valid() && k < SUBSYSTEMS
  {
    || (v.records[k] == w.records[k] && v.truth[k] == w.truth[k])
    || (&& w.records[k].busy
        && v.truth[k] == w.truth[k].(healthyAt := v.truth[k].healthyAt)
        && v.records[k] == w.records[k].(lastHealthyMs := Stamp(v.truth[k].healthyAt)))
  }

  lemma WrittenSane(w: Watchdog, ends: seq<nat>, nonzero: bool)
    requires w.Valid() && AllSane(w, nonzero)
    ensures AllSane(Written(w, ends), nonzero)
  {
    WrittenEffect(w, ends);
    forall k | 0 <= k < SUBSYSTEMS
      ensures Sane(Written(w, ends).records[k], nonzero)
    {
      assert Sane(w.records[k], nonzero) && BusyRefreshed(w, Written(w, ends), k);
    }
  }

  lemma WrittenTruthful(w: Watchdog, ends: seq<nat>, t: nat)
    requires w.Valid() && AllSane(w, false) && AllTruthful(w, t)
    ensures AllTruthful(Written(w, ends), t)
  {
    WrittenEffect(w, ends);
    forall k | 0 <= k < SUBSYSTEMS
      ensures Truthful(Written(w, ends).records[k], Written(w, ends).truth[k], t)
    {
      assert Sane(w.records[k], false) && Truthful(w.records[k], w.truth[k], t);
      assert BusyRefreshed(w, Written(w, ends), k);
    }
  }

  // ---- One visit -------------------------------------------------------------

  lemma FlagTruthful(r: Record, h: Truth, now: nat)
    requires Truthful(r, h, now) && Late(r, now)
    ensures Truthful(Flagged(r, now), if r.firstOverdueMs == 0 then h.(overdueAt := now) else h, now)
  {
    if h.healthyAt <= now {
      ElapsedOfStamps(now, h.healthyAt);
    }
  }

  lemma WarnTruthful(r: Record, h: Truth, now: nat)
    requires Truthful(r, h, now) && WarningDue(r, now)
    ensures Truthful(WarnedRecord(r, now), h.(warnedAt := h.warnedAt + [now]), now)
  {
    if h.warnedAt != [] {
      ElapsedOfStamps(now, h.warnedAt[|h.warnedAt| - 1]);
      assert Spaced(h.warnedAt[|h.warnedAt| - 1], now);
    }
  }

  lemma HealthyTruthful(r: Record, h: Truth, at: nat, t: nat)
    requires Throttled(r, h, t)
    ensures Truthful(HealthyRecord(r, at), h.(healthyAt := at), t)
  {
  }

  /** What a due warning is queued about: the visited record after its warning and the
      recovery attempt. */
  function Handled(w: Watchdog, i: nat, s: Sense): (v: Watchdog)
    requires w.Valid() && s.Valid() && i < SUBSYSTEMS
    ensures v.Valid()
  {
    var warned := Warned(FlagLate(w, i, s.now), i, s.now);
    if Attempted(w, i, s) then Recovered(warned, i, s.recovery[i]) else warned
  }

  lemma HandledSane(w: Watchdog, i: nat, s: Sense, nonzero: bool)
    requires w.Valid() && s.Valid() && i < SUBSYSTEMS && Late(w.records[i], s.now) && AllSane(w, nonzero)
    requires nonzero ==> Stamp(s.now) != 0
    ensures AllSane(FlagLate(w, i, s.now), nonzero) && AllSane(Handled(w, i, s), nonzero)
  {
    var flagged := FlagLate(w, i, s.now);
    assert AllSane(flagged, nonzero);
    var warned := Warned(flagged, i, s.now);
    assert AllSane(warned, nonzero) && warned.records[i].recoveries < warned.records[i].warnings;
    if Attempted(w, i, s) {
      RecoverSane(warned, i, s.recovery[i], nonzero);
    }
  }

  lemma RecoverSane(w: Watchdog, i: nat, r: Recovery, nonzero: bool)
    requires w.Valid() && i < SUBSYSTEMS && AllSane(w, nonzero)
    requires w.records[i].recoveries < w.records[i].warnings
    ensures AllSane(Recovered(w, i, r), nonzero)
  {
    var v := HealedAll(w, r.healed, r.at);
    forall k | 0 <= k < SUBSYSTEMS
      ensures Sane(v.records[k], nonzero) && v.records[k].recoveries == w.records[k].recoveries
           && v.records[k].warnings == w.records[k].warnings
    {
    }
    if r.ok {
      var u := v.(records := v.records[i := v.records[i].(recoveries := v.records[i].recoveries + 1)]);
      assert AllSane(u, nonzero);
      HealthySane(u, i, r.at, nonzero);
      assert Recovered(w, i, r) == Healthy(u, i, r.at);
    }
  }

  lemma HealthySane(w: Watchdog, i: nat, at: nat, nonzero: bool)
    requires w.Valid() && AllSane(w, nonzero)
    ensures AllSane(Healthy(w, i, at), nonzero)
  {
  }

  lemma VisitSane(w: Watchdog, i: nat, s: Sense, nonzero: bool)
    requires w.Valid() && s.Valid() && i < SUBSYSTEMS && Late(w.records[i], s.now) && AllSane(w, nonzero)
    requires nonzero ==> Stamp(s.now) != 0
    ensures AllSane(Visited(w, i, s), nonzero)
  {
    HandledSane(w, i, s, nonzero);
    if WarningDue(w.records[i], s.now) {
      WrittenSane(Handled(w, i, s), s.writes[i], nonzero);
    }
  }

  lemma HandledTruthful(w: Watchdog, i: nat, s: Sense)
    requires w.Valid() && s.Valid() && i < SUBSYSTEMS && Late(w.records[i], s.now)
    requires AllTruthful(w, s.now)
    ensures AllTruthful(FlagLate(w, i, s.now), s.now)
    ensures WarningDue(w.records[i], s.now) ==> AllTruthful(Handled(w, i, s), s.now)
  {
    FlagTruthful(w.records[i], w.truth[i], s.now);
    var flagged := FlagLate(w, i, s.now);
    assert AllTruthful(flagged, s.now);
    if WarningDue(w.records[i], s.now) {
      WarnTruthful(flagged.records[i], flagged.truth[i], s.now);
      assert AllTruthful(Warned(flagged, i, s.now), s.now);
      if Attempted(w, i, s) {
        RecoverTruthful(Warned(flagged, i, s.now), i, s.recovery[i], s.now);
      }
    }
  }

  lemma RecoverTruthful(w: Watchdog, i: nat, r: Recovery, now: nat)
    requires w.Valid() && i < SUBSYSTEMS && AllTruthful(w, now)
    ensures AllTruthful(Recovered(w, i, r), now)
  {
    var v := HealedAll(w, r.healed, r.at);
    forall k | 0 <= k < SUBSYSTEMS
      ensures Truthful(v.records[k], v.truth[k], now)
    {
      HealthyTruthful(w.records[k], w.truth[k], r.at, now);
    }
    if r.ok {
      HealthyTruthful(v.records[i].(recoveries := v.records[i].recoveries + 1), v.truth[i], r.at, now);
    }
  }

  lemma VisitTruthful(w: Watchdog, i: nat, s: Sense)
    requires w.Valid() && s.Valid() && i < SUBSYSTEMS && Late(w.records[i], s.now)
    requires AllSane(w, false) && AllTruthful(w, s.now)
    ensures AllTruthful(Visited(w, i, s), s.now)
  {
    HandledSane(w, i, s, false);
    HandledTruthful(w, i, s);
    if WarningDue(w.records[i], s.now) {
      WrittenTruthful(Handled(w, i, s), s.writes[i], s.now);
    }
  }

  // ---- One call --------------------------------------------------------------

  lemma {:induction false} SweepSane(w: Watchdog, i: nat, s: Sense, nonzero: bool)
    requires w.Valid() && s.Valid() && i <= SUBSYSTEMS && AllSane(w, nonzero)
    requires nonzero ==> Stamp(s.now) != 0
    ensures AllSane(Swept(w, i, s).state, nonzero)
    decreases SUBSYSTEMS - i
  {
    if i < SUBSYSTEMS {
      if Late(w.records[i], s.now) {
        VisitSane(w, i, s, nonzero);
        SweepSane(Visited(w, i, s), i + 1, s, nonzero);
        WrittenSane(Visited(w, i, s), s.lastWrites, nonzero);
      } else {
        SweepSane(w, i + 1, s, nonzero);
      }
    }
  }

  lemma {:induction false} SweepTruthful(w: Watchdog, i: nat, s: Sense)
    requires w.Valid() && s.Valid() && i <= SUBSYSTEMS && AllSane(w, false) && AllTruthful(w, s.now)
    ensures AllTruthful(Swept(w, i, s).state, s.now)
    decreases SUBSYSTEMS - i
  {
    if i < SUBSYSTEMS {
      if Late(w.records[i], s.now) {
        VisitSane(w, i, s, false);
        VisitTruthful(w, i, s);
        SweepTruthful(Visited(w, i, s), i + 1, s);
        WrittenTruthful(Visited(w, i, s), s.lastWrites, s.now);
      } else {
        SweepTruthful(w, i + 1, s);
      }
    }
  }

  lemma StepSane(w: Watchdog, op: Op, nonzero: bool)
    requires w.Valid() && op.Valid() && AllSane(w, nonzero)
    requires nonzero && op.Tick? ==> Stamp(op.at) != 0
    ensures AllSane(Step(w, op), nonzero)
  {
    match op
    case Begin(_) =>
    case SetEnabled(at, i, enabled) =>
      if i < SUBSYSTEMS && enabled {
        var u := w.(records := w.records[i := w.records[i].(enabled := true)]);
        HealthySane(u, i, at, nonzero);
      }
    case MarkHealthy(at, i) => HealthySane(w, i, at, nonzero);
    case MarkBusy(_, _) =>
    case MarkIdle(_, _) =>
    case Suspend(_) =>
    case Resume(_) =>
    case Tick(at, sense) =>
      StartSane(w, sense, nonzero);
      SweepSane(SweepStart(w, sense), 0, sense, nonzero);
  }

  /** The state in which the sweep of a tick starts. */
  function SweepStart(w: Watchdog, s: Sense): (v: Watchdog)
    requires w.Valid()
    ensures v.Valid()
  {
    LinksMarked(if w.started then w else Begun(w, s.now), s)
  }

  lemma StartSane(w: Watchdog, s: Sense, nonzero: bool)
    requires w.Valid() && AllSane(w, nonzero)
    ensures AllSane(SweepStart(w, s), nonzero)
  {
    var begun := if w.started then w else Begun(w, s.now);
    assert AllSane(begun, nonzero);
    var marked := if s.wifi.Some? then Healthy(begun, WIFI, s.wifi.value) else begun;
    if s.wifi.Some? {
      HealthySane(begun, WIFI, s.wifi.value, nonzero);
    }
    if s.mqtt.Some? {
      HealthySane(marked, MQTT, s.mqtt.value, nonzero);
    }
  }

  /** In every reachable state a disabled or busy subsystem is not overdue, a first-overdue
      stamp means overdue, and recoveries never exceed warnings; unless some tick has read
      zero, overdue also means a first-overdue stamp. */
  lemma {:induction false} AlwaysSane(ops: seq<Op>, nonzero: bool)
    requires ValidOps(ops)
    requires nonzero ==> forall op <- ops :: op.Tick? ==> Stamp(op.at) != 0
    ensures AllSane(Run(ops), nonzero)
  {
    if ops != [] {
      AlwaysSane(ops[..|ops| - 1], nonzero);
      StepSane(Run(ops[..|ops| - 1]), ops[|ops| - 1], nonzero);
    }
  }

  lemma BegunTruthful(w: Watchdog, at: nat)
    requires w.Valid()
    ensures AllTruthful(Begun(w, at), at)
  {
    forall k | 0 <= k < SUBSYSTEMS
      ensures Truthful(Begun(w, at).records[k], Begun(w, at).truth[k], at)
    {
    }
  }

  lemma MarkTruthful(w: Watchdog, i: nat, at: nat, t: nat)
    requires w.Valid() && AllTruthful(w, t)
    ensures AllTruthful(Healthy(w, i, at), t)
  {
    if i < SUBSYSTEMS {
      HealthyTruthful(w.records[i], w.truth[i], at, t);
    }
  }

  lemma EnableTruthful(w: Watchdog, i: nat, enabled: bool, at: nat)
    requires w.Valid() && AllTruthful(w, at)
    ensures AllTruthful(Enabled(w, i, enabled, at), at)
  {
    if i < SUBSYSTEMS && enabled {
      MarkTruthful(w.(records := w.records[i := w.records[i].(enabled := true)]), i, at, at);
    }
  }

  lemma BusyTruthful(w: Watchdog, i: nat, busy: bool, at: nat)
    requires w.Valid() && AllTruthful(w, at)
    ensures AllTruthful(Busied(w, i, busy, at), at)
  {
    if i < SUBSYSTEMS {
      MarkTruthful(w.(records := w.records[i := w.records[i].(busy := busy)]), i, at, at);
    }
  }

  lemma ResumeTruthful(w: Watchdog, at: nat)
    requires w.Valid() && AllTruthful(w, at) && AllSane(w, false)
    ensures AllTruthful(Resumed(w, at), at)
  {
    forall k | 0 <= k < SUBSYSTEMS
      ensures Truthful(Resumed(w, at).records[k], Resumed(w, at).truth[k], at)
    {
      assert Sane(w.records[k], false) && Truthful(w.records[k], w.truth[k], at);
    }
  }

  lemma StartTruthful(w: Watchdog, s: Sense)
    requires w.Valid() && AllTruthful(w, s.now)
    ensures AllTruthful(SweepStart(w, s), s.now)
  {
    BegunTruthful(w, s.now);
    var begun := if w.started then w else Begun(w, s.now);
    if s.wifi.Some? {
      MarkTruthful(begun, WIFI, s.wifi.value, s.now);
    }
    if s.mqtt.Some? {
      MarkTruthful(if s.wifi.Some? then Healthy(begun, WIFI, s.wifi.value) else begun, MQTT, s.mqtt.value, s.now);
    }
  }

  lemma StepTruthful(w: Watchdog, op: Op)
    requires w.Valid() && op.Valid() && AllTruthful(w, op.at) && AllSane(w, false)
    ensures AllTruthful(Step(w, op), op.at)
  {
    match op
    case Begin(at) => BegunTruthful(w, at);
    case SetEnabled(at, i, enabled) => EnableTruthful(w, i, enabled, at);
    case MarkHealthy(at, i) => MarkTruthful(w, i, at, at);
    case MarkBusy(at, i) => BusyTruthful(w, i, true, at);
    case MarkIdle(at, i) => BusyTruthful(w, i, false, at);
    case Suspend(_) =>
    case Resume(at) => ResumeTruthful(w, at);
    case Tick(at, sense) =>
      StartSane(w, sense, false);
      StartTruthful(w, sense);
      SweepTruthful(SweepStart(w, sense), 0, sense);
  }

  lemma LaterTruthful(w: Watchdog, t: nat, u: nat)
    requires w.Valid() && t <= u && AllTruthful(w, t)
    ensures AllTruthful(w, u)
  {
  }

  // ---- Runs ------------------------------------------------------------------

  /** Calls are made one after another.  Nothing is said about the later readings of the
      clock inside a tick. */
  ghost predicate OrderedOps(ops: seq<Op>) {
    ValidOps(ops) && forall k :: 0 < k < |ops| ==> ops[k - 1].at <= ops[k].at
  }

  function EndOf(ops: seq<Op>): nat {
    if ops == [] then 0 else ops[|ops| - 1].at
  }

  lemma OrderedPrefix(ops: seq<Op>, n: nat)
    requires OrderedOps(ops) && n < |ops|
    ensures OrderedOps(ops[..n]) && EndOf(ops[..n]) <= ops[n].at
  {
  }

  /** In every reachable state every stamp is the stamp of the event it records. */
  lemma {:induction false} AlwaysTruthful(ops: seq<Op>)
    requires OrderedOps(ops)
    ensures AllTruthful(Run(ops), EndOf(ops))
  {
    if ops != [] {
      var n := |ops| - 1;
      OrderedPrefix(ops, n);
      AlwaysTruthful(ops[..n]);
      AlwaysSane(ops[..n], false);
      LaterTruthful(Run(ops[..n]), EndOf(ops[..n]), ops[n].at);
      StepTruthful(Run(ops[..n]), ops[n]);
    }
  }

  /** Any `n` warnings about one subsystem, none but the last stamped zero, span at least
      `n - 1` minutes, recoveries in between or not. */
  lemma {:induction false} WarningsSpread(ops: seq<Op>, i: nat, a: nat, b: nat)
    requires OrderedOps(ops) && i < SUBSYSTEMS
    requires a <= b < |Run(ops).truth[i].warnedAt|
    ensures var warnedAt := Run(ops).truth[i].warnedAt;
            (forall k :: a <= k < b ==> Stamp(warnedAt[k]) != 0)
            ==> warnedAt[b] - warnedAt[a] >= WARNING_INTERVAL_MS * (b - a)
    decreases b
  {
    AlwaysTruthful(ops);
    assert Truthful(Run(ops).records[i], Run(ops).truth[i], EndOf(ops));
    var warnedAt := Run(ops).truth[i].warnedAt;
    if a < b && forall k :: a <= k < b ==> Stamp(warnedAt[k]) != 0 {
      WarningsSpread(ops, i, a, b - 1);
      assert Spaced(warnedAt[b - 1], warnedAt[b]);
    }
  }

  // ---- Restarts --------------------------------------------------------------

  /** The callback marked subsystem `i` healthy during this visit. */
  predicate HealedNow(w: Watchdog, i: nat, s: Sense)
    requires w.Valid() && s.Valid() && i < SUBSYSTEMS
  {
    Attempted(w, i, s) && (s.recovery[i].ok || i in s.recovery[i].healed)
  }

  lemma {:induction false} RestartIndex(w: Watchdog, i: nat, s: Sense)
    requires w.Valid() && s.Valid() && i <= SUBSYSTEMS && Swept(w, i, s).restarted.Some?
    ensures i <= Swept(w, i, s).restarted.value < SUBSYSTEMS
    decreases SUBSYSTEMS - i
  {
    if !Late(w.records[i], s.now) {
      RestartIndex(w, i + 1, s);
    } else {
      var v := Visited(w, i, s);
      if !(v.depth == 0 && RebootDue(v.records[i], s.now)) {
        RestartIndex(v, i + 1, s);
      }
    }
  }

  /** The visit of `k` in state `at` ended a sweep with outcome `o`. */
  ghost predicate RestartsFrom(at: Watchdog, k: nat, s: Sense, o: Outcome)
    requires at.Valid() && s.Valid() && k < SUBSYSTEMS
  {
    var v := Visited(at, k, s);
    && Late(at.records[k], s.now) && v.depth == 0 && RebootDue(v.records[k], s.now)
    && o == Outcome(Written(v, s.lastWrites), Some(k), true)
  }

  /** The state in which the sweep reached the subsystem it restarted for. */
  lemma {:induction false} RestartVisit(w: Watchdog, i: nat, s: Sense) returns (at: Watchdog)
    requires w.Valid() && s.Valid() && i <= SUBSYSTEMS && Swept(w, i, s).restarted.Some?
    requires AllSane(w, false) && AllTruthful(w, s.now)
    ensures at.Valid() && AllSane(at, false) && AllTruthful(at, s.now)
    ensures Swept(w, i, s).restarted.value < SUBSYSTEMS
    ensures RestartsFrom(at, Swept(w, i, s).restarted.value, s, Swept(w, i, s))
    decreases SUBSYSTEMS - i
  {
    if !Late(w.records[i], s.now) {
      at := RestartVisit(w, i + 1, s);
    } else {
      var v := Visited(w, i, s);
      if v.depth == 0 && RebootDue(v.records[i], s.now) {
        at := w;
      } else {
        VisitSane(w, i, s, false);
        VisitTruthful(w, i, s);
        at := RestartVisit(v, i + 1, s);
      }
    }
  }

  lemma HandledRecord(w: Watchdog, i: nat, s: Sense)
    requires w.Valid() && s.Valid() && i < SUBSYSTEMS && Late(w.records[i], s.now)
    requires WarningDue(w.records[i], s.now)
    ensures VisitedRecord(w, i, s, Handled(w, i, s))
  {
  }

  /** What a visit does to the record that the reboot decision then reads. */
  ghost predicate VisitedRecord(w: Watchdog, i: nat, s: Sense, v: Watchdog)
    requires w.Valid() && s.Valid() && v.Valid() && i < SUBSYSTEMS
  {
    var r, h := v.records[i], v.truth[i];
    && r.enabled && !r.busy
    && (HealedNow(w, i, s) ==> r.firstOverdueMs == 0 && h.healthyAt == s.recovery[i].at)
    && (!HealedNow(w, i, s) ==> r.firstOverdueMs == Flagged(w.records[i], s.now).firstOverdueMs)
  }

  lemma VisitRecord(w: Watchdog, i: nat, s: Sense)
    requires w.Valid() && s.Valid() && i < SUBSYSTEMS && Late(w.records[i], s.now)
    ensures VisitedRecord(w, i, s, Visited(w, i, s))
  {
    if WarningDue(w.records[i], s.now) {
      HandledRecord(w, i, s);
      var v := Handled(w, i, s);
      WrittenEffect(v, s.writes[i]);
      assert Visited(w, i, s) == Written(v, s.writes[i]) && BusyRefreshed(v, Written(v, s.writes[i]), i);
    }
  }

  /** The final tick of a run, up to the visit that restarts. */
  lemma RestartReached(ops: seq<Op>, s: Sense) returns (at: Watchdog)
    requires OrderedOps(ops + [Tick(s.now, s)]) && s.Valid() && ValidOps(ops)
    requires Ticked(Run(ops), s).restarted.Some?
    ensures var i := Ticked(Run(ops), s).restarted.value;
            && i < SUBSYSTEMS && at.Valid() && Late(at.records[i], s.now)
            && AllSane(at, false) && AllTruthful(at, s.now)
            && Ticked(Run(ops), s).state == Written(Visited(at, i, s), s.lastWrites)
            && Visited(at, i, s).depth == 0 && RebootDue(Visited(at, i, s).records[i], s.now)
  {
    TickIsLast(ops, s);
    AlwaysTruthful(ops);
    AlwaysSane(ops, false);
    LaterTruthful(Run(ops), EndOf(ops), s.now);
    StartSane(Run(ops), s, false);
    StartTruthful(Run(ops), s);
    at := RestartVisit(SweepStart(Run(ops), s), 0, s);
  }

  lemma TickIsLast(ops: seq<Op>, s: Sense)
    requires OrderedOps(ops + [Tick(s.now, s)])
    ensures OrderedOps(ops) && EndOf(ops) <= s.now
  {
    var all := ops + [Tick(s.now, s)];
    assert all[..|ops|] == ops && all[|ops|] == Tick(s.now, s);
    OrderedPrefix(all, |ops|);
  }

  /** The visit of `i` led from `w` to a reboot in `v`.  If the callback marked `i` healthy
      in this very tick, all that shows is that the counter reads fifteen minutes or more.
      Otherwise `i` has been overdue for fifteen minutes, and unhealthy for its timeout
      besides, unless it was marked healthy after the reading that found it late. */
  ghost predicate Grounds(w: Watchdog, i: nat, s: Sense, v: Watchdog)
    requires w.Valid() && s.Valid() && v.Valid() && i < SUBSYSTEMS
  {
    var r, h := v.records[i], v.truth[i];
    && r.enabled && !r.busy
    && (HealedNow(w, i, s) ==> h.healthyAt == s.recovery[i].at && Stamp(s.now) >= REBOOT_AFTER_MS)
    && (!HealedNow(w, i, s) ==>
          && r.firstOverdueMs != 0 && s.now - h.overdueAt >= REBOOT_AFTER_MS
          && (h.healthyAt <= h.overdueAt ==> s.now - h.healthyAt > r.timeoutMs + REBOOT_AFTER_MS))
  }

  lemma RebootDecided(w: Watchdog, i: nat, s: Sense)
    requires w.Valid() && s.Valid() && i < SUBSYSTEMS && Late(w.records[i], s.now)
    requires AllSane(w, false) && AllTruthful(w, s.now) && RebootDue(Visited(w, i, s).records[i], s.now)
    ensures Grounds(w, i, s, Visited(w, i, s)) && Grounds(w, i, s, Written(Visited(w, i, s), s.lastWrites))
    ensures VisitedRecord(w, i, s, Written(Visited(w, i, s), s.lastWrites))
  {
    VisitRecord(w, i, s);
    VisitTruthful(w, i, s);
    var r, h := Visited(w, i, s).records[i], Visited(w, i, s).truth[i];
    assert Truthful(r, h, s.now);
    if r.firstOverdueMs != 0 {
      ElapsedOfStamps(s.now, h.overdueAt);
    }
    IdleUnwritten(Visited(w, i, s), s.lastWrites, i);
  }

  lemma IdleUnwritten(w: Watchdog, ends: seq<nat>, i: nat)
    requires w.Valid() && i < SUBSYSTEMS && !w.records[i].busy
    ensures Written(w, ends).records[i] == w.records[i] && Written(w, ends).truth[i] == w.truth[i]
    ensures w.depth == 0 ==> Written(w, ends).depth == 0
  {
    WrittenEffect(w, ends);
    assert BusyRefreshed(w, Written(w, ends), i);
  }

  /** A restart names a subsystem that is enabled and idle while nothing is suspended, and
      it has its grounds in the visit of that subsystem. */
  lemma RestartIsJustified(ops: seq<Op>, s: Sense) returns (at: Watchdog)
    requires OrderedOps(ops + [Tick(s.now, s)]) && s.Valid() && ValidOps(ops)
    requires Ticked(Run(ops), s).restarted.Some?
    ensures var i, w := Ticked(Run(ops), s).restarted.value, Ticked(Run(ops), s).state;
            && i < SUBSYSTEMS && w.depth == 0
            && at.Valid() && w == Written(Visited(at, i, s), s.lastWrites) && Grounds(at, i, s, w)
  {
    at := RestartReached(ops, s);
    var i := Ticked(Run(ops), s).restarted.value;
    RebootDecided(at, i, s);
    VisitRecord(at, i, s);
    IdleUnwritten(Visited(at, i, s), s.lastWrites, i);
  }

  // ---- Readings taken together -----------------------------------------------

  /** The links are marked healthy within `lag` of the tick's own reading, and a callback
      that takes time heals no subsystem that the sweep has still to visit. */
  ghost predicate ReadTogether(s: Sense, lag: nat) {
    && s.Valid()
    && (s.wifi.Some? ==> s.now <= s.wifi.value <= s.now + lag)
    && (s.mqtt.Some? ==> s.now <= s.mqtt.value <= s.now + lag)
    && (forall i :: 0 <= i < SUBSYSTEMS ==>
          s.now <= s.recovery[i].at && (s.recovery[i].at == s.now || forall k <- s.recovery[i].healed :: k <= i))
  }

  /** Everything the call does is over by time `t`. */
  ghost predicate OverBy(op: Op, t: nat) {
    && op.at <= t
    && (op.Tick? && op.sense.Valid() ==>
          && (op.sense.wifi.Some? ==> op.sense.wifi.value <= t)
          && (op.sense.mqtt.Some? ==> op.sense.mqtt.value <= t)
          && AllBy(op.sense.lastWrites, t)
          && (forall i :: 0 <= i < SUBSYSTEMS ==>
                op.sense.recovery[i].at <= t && AllBy(op.sense.writes[i], t)))
  }

  ghost predicate AllBy(ends: seq<nat>, t: nat) {
    forall j :: 0 <= j < |ends| ==> ends[j] <= t
  }

  ghost predicate TogetherOps(ops: seq<Op>, lag: nat) {
    && ValidOps(ops)
    && (forall k :: 0 < k < |ops| ==> OverBy(ops[k - 1], ops[k].at))
    && (forall op <- ops :: op.Tick? ==> ReadTogether(op.sense, lag))
  }

  /** Nothing was healthy after it was found late, or after time `t`; what a sweep has
      still to visit, from `i` on, was not healthy after its reading `now`. */
  ghost predicate InOrder(w: Watchdog, i: nat, now: nat, t: nat)
    requires w.Valid()
  {
    forall k :: 0 <= k < SUBSYSTEMS ==> OneInOrder(w.records[k], w.truth[k], k < i, now, t)
  }

  ghost predicate OneInOrder(r: Record, h: Truth, visited: bool, now: nat, t: nat) {
    && h.healthyAt <= t
    && (r.firstOverdueMs != 0 ==> h.healthyAt <= h.overdueAt)
    && (!visited && !r.busy ==> h.healthyAt <= now)
  }

  lemma {:induction false} WrittenBound(w: Watchdog, ends: seq<nat>, k: nat, t: nat)
    requires w.Valid() && k < SUBSYSTEMS && w.truth[k].healthyAt <= t
    requires AllBy(ends, t)
    ensures Written(w, ends).truth[k].healthyAt <= t
  {
    if ends != [] {
      var n := |ends| - 1;
      WrittenBound(w, ends[..n], k, t);
      assert Written(w, ends) == Resumed(Suspended(Written(w, ends[..n])), ends[n]);
    }
  }

  lemma VisitInOrder(w: Watchdog, i: nat, s: Sense, t: nat)
    requires w.Valid() && ReadTogether(s, 0) && OverBy(Tick(s.now, s), t) && i < SUBSYSTEMS
    requires Late(w.records[i], s.now) && AllSane(w, false) && InOrder(w, i, s.now, t)
    ensures InOrder(Visited(w, i, s), i + 1, s.now, t)
  {
    HandledSane(w, i, s, false);
    HandledInOrder(w, i, s, t);
    if WarningDue(w.records[i], s.now) {
      var v := Handled(w, i, s);
      WrittenEffect(v, s.writes[i]);
      forall k | 0 <= k < SUBSYSTEMS
        ensures BusyRefreshed(v, Visited(w, i, s), k) && Sane(v.records[k], false)
        ensures Visited(w, i, s).truth[k].healthyAt <= t
      {
        WrittenBound(v, s.writes[i], k, t);
      }
    }
  }

  lemma HandledInOrder(w: Watchdog, i: nat, s: Sense, t: nat)
    requires w.Valid() && ReadTogether(s, 0) && OverBy(Tick(s.now, s), t) && i < SUBSYSTEMS
    requires Late(w.records[i], s.now) && InOrder(w, i, s.now, t)
    ensures InOrder(FlagLate(w, i, s.now), i + 1, s.now, t) && InOrder(Handled(w, i, s), i + 1, s.now, t)
  {
    var warned := Warned(FlagLate(w, i, s.now), i, s.now);
    assert InOrder(warned, i + 1, s.now, t);
    if Attempted(w, i, s) {
      RecoveredInOrder(warned, i, s.recovery[i], s.now, t);
    }
  }

  lemma RecoveredInOrder(w: Watchdog, i: nat, r: Recovery, now: nat, t: nat)
    requires w.Valid() && i < SUBSYSTEMS && InOrder(w, i + 1, now, t)
    requires r.at <= t && (r.at <= now || forall k <- r.healed :: k <= i)
    ensures InOrder(Recovered(w, i, r), i + 1, now, t)
  {
    var v := HealedAll(w, r.healed, r.at);
    forall k | 0 <= k < SUBSYSTEMS
      ensures OneInOrder(v.records[k], v.truth[k], k < i + 1, now, t)
    {
      assert OneInOrder(w.records[k], w.truth[k], k < i + 1, now, t);
    }
    if r.ok {
      MarkedInOrder(v, i, r.at, now, t);
    }
  }

  lemma MarkedInOrder(w: Watchdog, i: nat, at: nat, now: nat, t: nat)
    requires w.Valid() && i < SUBSYSTEMS && at <= t && InOrder(w, i + 1, now, t)
    ensures var counted := w.records[i].(recoveries := w.records[i].recoveries + 1);
            InOrder(Healthy(w.(records := w.records[i := counted]), i, at), i + 1, now, t)
  {
  }

  lemma WrittenInOrder(w: Watchdog, ends: seq<nat>, now: nat, t: nat)
    requires w.Valid() && AllSane(w, false) && InOrder(w, SUBSYSTEMS, now, t) && AllBy(ends, t)
    ensures InOrder(Written(w, ends), SUBSYSTEMS, now, t)
  {
    WrittenEffect(w, ends);
    forall k | 0 <= k < SUBSYSTEMS
      ensures OneInOrder(Written(w, ends).records[k], Written(w, ends).truth[k], true, now, t)
    {
      assert BusyRefreshed(w, Written(w, ends), k) && Sane(w.records[k], false);
      assert OneInOrder(w.records[k], w.truth[k], k < SUBSYSTEMS, now, t);
      WrittenBound(w, ends, k, t);
    }
  }

  lemma {:induction false} SweepInOrder(w: Watchdog, i: nat, s: Sense, t: nat)
    requires w.Valid() && ReadTogether(s, 0) && OverBy(Tick(s.now, s), t) && i <= SUBSYSTEMS
    requires AllSane(w, false) && InOrder(w, i, s.now, t)
    ensures InOrder(Swept(w, i, s).state, SUBSYSTEMS, s.now, t)
    decreases SUBSYSTEMS - i
  {
    if i < SUBSYSTEMS {
      if Late(w.records[i], s.now) {
        VisitSane(w, i, s, false);
        VisitInOrder(w, i, s, t);
        SweepInOrder(Visited(w, i, s), i + 1, s, t);
        WrittenInOrder(Visited(w, i, s), s.lastWrites, s.now, t);
      } else {
        SweepInOrder(w, i + 1, s, t);
      }
    }
  }

  lemma StepInOrder(w: Watchdog, op: Op, t: nat)
    requires w.Valid() && op.Valid() && (op.Tick? ==> ReadTogether(op.sense, 0)) && OverBy(op, t)
    requires AllSane(w, false) && InOrder(w, 0, op.at, op.at)
    ensures InOrder(Step(w, op), SUBSYSTEMS, t, t)
  {
    if op.Tick? {
      var start := SweepStart(w, op.sense);
      StartSane(w, op.sense, false);
      StartInOrder(w, op.sense);
      assert OverBy(Tick(op.at, op.sense), t);
      SweepInOrder(start, 0, op.sense, t);
    } else if op.Resume? {
      forall k | 0 <= k < SUBSYSTEMS
        ensures Sane(w.records[k], false)
      {
      }
    }
  }

  lemma StartInOrder(w: Watchdog, s: Sense)
    requires w.Valid() && ReadTogether(s, 0) && InOrder(w, 0, s.now, s.now)
    ensures InOrder(SweepStart(w, s), 0, s.now, s.now)
  {
    var begun := if w.started then w else Begun(w, s.now);
    assert InOrder(begun, 0, s.now, s.now);
  }

  lemma {:induction false} AlwaysInOrder(ops: seq<Op>, t: nat)
    requires TogetherOps(ops, 0) && (ops != [] ==> OverBy(ops[|ops| - 1], t))
    ensures InOrder(Run(ops), 0, t, t)
  {
    if ops != [] {
      var n := |ops| - 1;
      AlwaysInOrder(ops[..n], ops[n].at);
      AlwaysSane(ops[..n], false);
      StepInOrder(Run(ops[..n]), ops[n], t);
    }
  }

  /** If the tick `s` after `ops` restarts the device for a subsystem that it did not heal
      as well, that subsystem has been unhealthy for its timeout and fifteen minutes. */
  ghost predicate RestartInTime(ops: seq<Op>, s: Sense)
    requires ValidOps(ops) && s.Valid()
  {
    var o := Ticked(Run(ops), s);
    o.restarted.Some? && o.restarted.value < SUBSYSTEMS && o.state.records[o.restarted.value].firstOverdueMs != 0 ==>
      var i := o.restarted.value;
      s.now - o.state.truth[i].healthyAt > o.state.records[i].timeoutMs + REBOOT_AFTER_MS
  }

  /** The final tick of a run whose link readings lag by `lag` at most. */
  ghost predicate Lagging(ops: seq<Op>, s: Sense, lag: nat) {
    ValidOps(ops) && s.Valid() && TogetherOps(ops + [Tick(s.now, s)], lag)
  }

  /** The fifteen minutes and the timeout are kept in all runs exactly when the links are
      marked healthy at the tick's own reading. */
  lemma RestartExact(lag: nat)
    ensures (forall ops: seq<Op>, s: Sense :: Lagging(ops, s, lag) ==> RestartInTime(ops, s)) <==> lag == 0
  {
    if lag == 0 {
      forall ops: seq<Op>, s: Sense | Lagging(ops, s, lag)
        ensures RestartInTime(ops, s)
      {
        TogetherInTime(ops, s);
      }
    } else {
      var ops, s := LaggingTooSoon(lag);
    }
  }

  lemma TogetherInTime(ops: seq<Op>, s: Sense)
    requires Lagging(ops, s, 0)
    ensures RestartInTime(ops, s)
  {
    if Ticked(Run(ops), s).restarted.Some? {
      var _ := RestartJustifiedTogether(ops, s);
    }
  }

  lemma LaggingTooSoon(lag: nat) returns (ops: seq<Op>, s: Sense)
    requires lag > 0
    ensures Lagging(ops, s, lag) && !RestartInTime(ops, s)
  {
    ReadLaterThenRestarted();
    var first := Quiet(1000000).(wifi := Some(1000001));
    s := Quiet(1900001);
    ops := [Begin(999000), Tick(1000000, first)];
    LagsByOne(lag);
  }

  lemma LagsByOne(lag: nat)
    requires lag > 0
    ensures var first := Quiet(1000000).(wifi := Some(1000001));
            Lagging([Begin(999000), Tick(1000000, first)], Quiet(1900001), lag)
  {
    var first := Quiet(1000000).(wifi := Some(1000001));
    var ops := [Begin(999000), Tick(1000000, first)] + [Tick(1900001, Quiet(1900001))];
    assert OverBy(ops[0], ops[1].at) && OverBy(ops[1], ops[2].at);
    assert ReadTogether(first, lag) && ReadTogether(Quiet(1900001), lag);
  }

  /** When the clock readings are taken together, a restart is for a subsystem that has
      been unhealthy for its timeout and fifteen minutes more, if and only if the callback
      did not mark it healthy in this very tick. */
  lemma RestartJustifiedTogether(ops: seq<Op>, s: Sense) returns (at: Watchdog)
    requires Lagging(ops, s, 0) && Ticked(Run(ops), s).restarted.Some?
    ensures var i, w := Ticked(Run(ops), s).restarted.value, Ticked(Run(ops), s).state;
            && i < SUBSYSTEMS && at.Valid() && w == Written(Visited(at, i, s), s.lastWrites)
            && (s.now - w.truth[i].healthyAt > w.records[i].timeoutMs + REBOOT_AFTER_MS
                <==> !HealedNow(at, i, s))
            && (HealedNow(at, i, s) <==> w.records[i].firstOverdueMs == 0)
  {
    TogetherIsOrdered(ops, s);
    at := RestartReached(ops, s);
    var i := Ticked(Run(ops), s).restarted.value;
    RebootDecided(at, i, s);
    TickInOrder(ops, s);
  }

  lemma TogetherIsOrdered(ops: seq<Op>, s: Sense)
    requires Lagging(ops, s, 0)
    ensures OrderedOps(ops + [Tick(s.now, s)]) && TogetherOps(ops, 0) && ReadTogether(s, 0)
    ensures ops != [] ==> OverBy(ops[|ops| - 1], s.now)
  {
    var all := ops + [Tick(s.now, s)];
    assert all[|ops|] == Tick(s.now, s) && all[|ops|] in all;
    assert forall k :: 0 <= k < |ops| ==> ops[k] == all[k];
  }

  lemma TickInOrder(ops: seq<Op>, s: Sense)
    requires Lagging(ops, s, 0) && Ticked(Run(ops), s).restarted.Some?
    ensures var w := Ticked(Run(ops), s).state;
            forall i :: 0 <= i < SUBSYSTEMS && w.records[i].firstOverdueMs != 0 ==>
              w.truth[i].healthyAt <= w.truth[i].overdueAt
  {
    TogetherIsOrdered(ops, s);
    AlwaysInOrder(ops, s.now);
    AlwaysSane(ops, false);
    StartSane(Run(ops), s, false);
    StartInOrder(Run(ops), s);
    var t := EndOfTick(s);
    var start := SweepStart(Run(ops), s);
    assert InOrder(start, 0, s.now, t);
    SweepInOrder(start, 0, s, t);
  }

  function Latest(ends: seq<nat>): (t: nat)
    ensures AllBy(ends, t)
  {
    if ends == [] then 0 else
      var n := |ends| - 1;
      var t := Latest(ends[..n]);
      assert forall j :: 0 <= j < n ==> ends[j] == ends[..n][j] <= t;
      if t < ends[n] then ends[n] else t
  }

  /** Some time by which the tick is over. */
  lemma EndOfTick(s: Sense) returns (t: nat)
    requires s.Valid()
    ensures OverBy(Tick(s.now, s), t)
  {
    t := s.now + Latest(s.lastWrites)
         + (if s.wifi.Some? then s.wifi.value else 0) + (if s.mqtt.Some? then s.mqtt.value else 0);
    ghost var links := t;
    var i := 0;
    while i < SUBSYSTEMS
      invariant 0 <= i <= SUBSYSTEMS && links <= t
      invariant forall k :: 0 <= k < i ==> s.recovery[k].at <= t && AllBy(s.writes[k], t)
    {
      t := t + s.recovery[i].at + Latest(s.writes[i]);
      i := i + 1;
    }
  }

  // ---- Where the clock breaks the guarantees ---------------------------------

  /** After a successful recovery the reboot decision compares the clock with zero: the
      device restarts all the same, exactly when the counter reads fifteen minutes. */
  lemma RecoveryRestartsAnyway(w: Watchdog, i: nat, s: Sense)
    requires w.Valid() && s.Valid() && i < SUBSYSTEMS && Late(w.records[i], s.now)
    requires Attempted(w, i, s) && s.recovery[i].ok
    ensures Swept(w, i, s).restarted == Some(i) <==> Stamp(s.now) >= REBOOT_AFTER_MS
  {
    var v := Visited(w, i, s);
    VisitRecord(w, i, s);
    WrittenEffect(Handled(w, i, s), s.writes[i]);
    assert v.records[i].firstOverdueMs == 0 && v.depth == 0;
    if Swept(v, i + 1, s).restarted.Some? {
      RestartIndex(v, i + 1, s);
    }
  }

  /** A link is marked healthy at a second reading of the clock.  When the sweep starts it
      is late exactly when that reading is the later one, by less than the timeout leaves
      of a full turn of the counter. */
  lemma LateIfReadLater(w: Watchdog, s: Sense, i: nat)
    requires w.Valid() && s.Valid() && i in {WIFI, MQTT}
    requires (if i == WIFI then s.wifi else s.mqtt).Some? && s.now <= (if i == WIFI then s.wifi else s.mqtt).value
    ensures var r, read := w.records[i], (if i == WIFI then s.wifi else s.mqtt).value;
            Late(LinksMarked(w, s).records[i], s.now) <==>
            r.enabled && !r.busy && 0 < Stamp(read - s.now) < TWO32 - r.timeoutMs
  {
    var read := (if i == WIFI then s.wifi else s.mqtt).value;
    ElapsedOfStamps(read, s.now);
    ElapsedFlips(Stamp(s.now), Stamp(read));
  }

  /** So a working link can restart the device.  With a warning due and a callback that
      reconnects, the tick restarts for WiFi exactly when the link was marked healthy
      after the tick's own reading and the counter reads fifteen minutes. */
  lemma WorkingLinkRestarts(w: Watchdog, s: Sense)
    requires w.Valid() && s.Valid() && w.started && w.depth == 0 && WarningDue(w.records[WIFI], s.now)
    requires s.callback && s.recovery[WIFI].ok && s.wifi.Some? && s.now <= s.wifi.value
    ensures var r, read := w.records[WIFI], s.wifi.value;
            Ticked(w, s).restarted == Some(WIFI) <==>
            && r.enabled && !r.busy && 0 < Stamp(read - s.now) < TWO32 - r.timeoutMs
            && Stamp(s.now) >= REBOOT_AFTER_MS
  {
    LateIfReadLater(w, s, WIFI);
    var start := SweepStart(w, s);
    if Late(start.records[WIFI], s.now) {
      RecoveryRestartsAnyway(start, WIFI, s);
    } else if Swept(start, 1, s).restarted.Some? {
      RestartIndex(start, 1, s);
    }
  }

  lemma ElapsedFlips(a: U32, b: U32)
    ensures Elapsed(a, b) == if a == b then 0 else TWO32 - Elapsed(b, a)
  {
  }

  /** A visit without recovery leaves first-overdue unset exactly when the counter reads
      zero and it was unset before; overdue is then set without it. */
  lemma OverdueWithoutStamp(w: Watchdog, i: nat, s: Sense)
    requires w.Valid() && s.Valid() && i < SUBSYSTEMS && !HealedNow(w, i, s)
    ensures var r := Visited(w, i, s).records[i];
            r.overdue && (r.firstOverdueMs == 0 <==> Stamp(s.now) == 0 && w.records[i].firstOverdueMs == 0)
  {
    if WarningDue(w.records[i], s.now) {
      var v := Handled(w, i, s);
      WrittenEffect(v, s.writes[i]);
      assert BusyRefreshed(v, Written(v, s.writes[i]), i);
    }
  }

  /** The throttle opens when the counter has moved on by a minute, or at once when the
      previous warning was stamped zero.  It goes by true minutes except then, and except
      when the counter has turned in full and moved on by less than a minute. */
  lemma ThrottleExact(r: Record, warnedAt: nat, now: nat)
    requires r.lastWarningMs == Stamp(warnedAt) && warnedAt <= now
    ensures WarningDue(r, now) <==> Stamp(now - warnedAt) >= WARNING_INTERVAL_MS || Stamp(warnedAt) == 0
    ensures (WarningDue(r, now) <==> now - warnedAt >= WARNING_INTERVAL_MS) <==>
            if Stamp(warnedAt) == 0 then now - warnedAt >= WARNING_INTERVAL_MS
            else now - warnedAt < TWO32 || Stamp(now - warnedAt) >= WARNING_INTERVAL_MS
  {
    ElapsedOfStamps(now, warnedAt);
  }

  // ---- Reachable failures ----------------------------------------------------

  /** A tick with the network down, no callback, and no warning stored. */
  function Quiet(now: nat): (s: Sense)
    ensures s.Valid()
  {
    Sense(now, None, None, false, seq(SUBSYSTEMS, _ => Recovery(false, {}, now)), seq(SUBSYSTEMS, _ => []), [])
  }

  /** What a tick without callback or storage does to WiFi, which the sweep visits first. */
  lemma QuietWifi(w: Watchdog, s: Sense)
    requires w.Valid() && s.Valid() && !s.callback && s.writes == Quiet(s.now).writes && s.lastWrites == []
    ensures var r, v := w.records[WIFI], Swept(w, 0, s).state;
            if Late(r, s.now) then
              var flagged := FlagLate(w, WIFI, s.now);
              var seen := if WarningDue(r, s.now) then Warned(flagged, WIFI, s.now) else flagged;
              && v.records[WIFI] == seen.records[WIFI] && v.truth[WIFI] == seen.truth[WIFI]
              && (w.depth == 0 && RebootDue(v.records[WIFI], s.now) ==> Swept(w, 0, s).restarted == Some(WIFI))
            else v.records[WIFI] == r && v.truth[WIFI] == w.truth[WIFI]
  {
    var next := if Late(w.records[WIFI], s.now) then Visited(w, WIFI, s) else w;
    QuietRest(next, 1, s);
    assert s.writes[WIFI] == [];
  }

  lemma {:induction false} QuietRest(w: Watchdog, i: nat, s: Sense)
    requires w.Valid() && s.Valid() && 0 < i <= SUBSYSTEMS && !s.callback
    requires s.writes == Quiet(s.now).writes && s.lastWrites == []
    ensures Swept(w, i, s).state.records[WIFI] == w.records[WIFI]
    ensures Swept(w, i, s).state.truth[WIFI] == w.truth[WIFI]
    decreases SUBSYSTEMS - i
  {
    if i < SUBSYSTEMS {
      assert s.writes[i] == [];
      QuietRest(if Late(w.records[i], s.now) then Visited(w, i, s) else w, i + 1, s);
    }
  }

  lemma RunAppend(ops: seq<Op>, op: Op)
    requires ValidOps(ops) && op.Valid()
    ensures ValidOps(ops + [op]) && Run(ops + [op]) == Step(Run(ops), op)
  {
    assert (ops + [op])[..|ops|] == ops;
  }

  /** A device that began at time `at`, as far as the examples look at it. */
  lemma BeganAt(at: nat)
    ensures ValidOps([Begin(at)])
    ensures var w := Run([Begin(at)]);
            && w.started && w.depth == 0
            && w.records[WIFI] == Record(TIMEOUTS[WIFI], Stamp(at), 0, 0, 0, 0, false, true, false)
            && w.truth[WIFI] == Truth(at, 0, [])
  {
    assert [Begin(at)][..0] == [];
  }

  /** Sixteen minutes after boot WiFi is found late for the first time, recovers at once,
      and the device restarts although WiFi was overdue for no time. */
  lemma RecoveredThenRestarted()
    ensures var t := 960000;
            var s := Quiet(t).(callback := true, recovery := seq(SUBSYSTEMS, _ => Recovery(true, {}, t)));
            var ops := [Begin(1000)];
            && TogetherOps(ops + [Tick(t, s)], 0) && ValidOps(ops)
            && Ticked(Run(ops), s).restarted == Some(WIFI)
            && Ticked(Run(ops), s).state.records[WIFI].recoveries == 1
            && Ticked(Run(ops), s).state.truth[WIFI].healthyAt == t
  {
    var t := 960000;
    var s := Quiet(t).(callback := true, recovery := seq(SUBSYSTEMS, _ => Recovery(true, {}, t)));
    BeganAt(1000);
    var w := SweepStart(Run([Begin(1000)]), s);
    assert Late(w.records[WIFI], t) && WarningDue(w.records[WIFI], t) && Stamp(t) == t;
    RecoveryRestartsAnyway(w, WIFI, s);
    assert Swept(w, 0, s).state == Visited(w, WIFI, s);
    assert s.writes[WIFI] == [];
  }

  /** The same with WiFi up all the time and marked healthy a millisecond late. */
  lemma WorkingLinkRestarted()
    ensures var t := 960000;
            var s := Quiet(t).(wifi := Some(t + 1), callback := true,
                               recovery := seq(SUBSYSTEMS, _ => Recovery(true, {}, t + 2)));
            ValidOps([Begin(1000)]) && Ticked(Run([Begin(1000)]), s).restarted == Some(WIFI)
  {
    var t := 960000;
    var s := Quiet(t).(wifi := Some(t + 1), callback := true,
                       recovery := seq(SUBSYSTEMS, _ => Recovery(true, {}, t + 2)));
    BeganAt(1000);
    assert Stamp(t) == t && Stamp(1) == 1;
    WorkingLinkRestarts(Run([Begin(1000)]), s);
  }

  /** WiFi is up, but the tick marks it healthy a millisecond after its own reading, and so
      finds it late.  WiFi then fails, and a quarter of an hour later the device restarts,
      its two minutes of grace not yet over. */
  lemma ReadLaterThenRestarted()
    ensures var first, s := Quiet(1000000).(wifi := Some(1000001)), Quiet(1900001);
            var ops := [Begin(999000), Tick(1000000, first)];
            && OrderedOps(ops + [Tick(1900001, s)]) && ValidOps(ops)
            && Run(ops).records[WIFI].overdue
            && Ticked(Run(ops), s).restarted == Some(WIFI)
            && Ticked(Run(ops), s).state.records[WIFI].firstOverdueMs == 1000000
            && s.now - Ticked(Run(ops), s).state.truth[WIFI].healthyAt == REBOOT_AFTER_MS
  {
    var first, s := Quiet(1000000).(wifi := Some(1000001)), Quiet(1900001);
    FoundLateWhenRead();
    var v := Run([Begin(999000), Tick(1000000, first)]);
    assert SweepStart(v, s) == v;
    QuietWifi(v, s);
  }

  lemma FoundLateWhenRead()
    ensures var ops := [Begin(999000), Tick(1000000, Quiet(1000000).(wifi := Some(1000001)))];
            && OrderedOps(ops) && Run(ops).started && Run(ops).depth == 0
            && Run(ops).records[WIFI] == Record(120000, 1000001, 1000000, 1000000, 1, 0, false, true, true)
            && Run(ops).truth[WIFI].healthyAt == 1000001
  {
    var first := Quiet(1000000).(wifi := Some(1000001));
    BeganAt(999000);
    RunAppend([Begin(999000)], Tick(1000000, first));
    assert [Begin(999000)] + [Tick(1000000, first)] == [Begin(999000), Tick(1000000, first)];
    var w := SweepStart(Run([Begin(999000)]), first);
    QuietWifi(w, first);
    QuietDepth(w, 0, first);
  }

  lemma {:induction false} QuietDepth(w: Watchdog, i: nat, s: Sense)
    requires w.Valid() && s.Valid() && i <= SUBSYSTEMS && !s.callback
    requires s.writes == Quiet(s.now).writes && s.lastWrites == []
    ensures Swept(w, i, s).state.depth == w.depth && Swept(w, i, s).state.started == w.started
    decreases SUBSYSTEMS - i
  {
    if i < SUBSYSTEMS {
      assert s.writes[i] == [];
      QuietDepth(if Late(w.records[i], s.now) then Visited(w, i, s) else w, i + 1, s);
    }
  }

  /** A tick at the moment the counter turns to zero leaves WiFi overdue without a stamp. */
  lemma ZeroReading()
    ensures var ops := [Begin(TWO32 - 200000), Tick(TWO32, Quiet(TWO32))];
            && OrderedOps(ops) && Run(ops).started && Run(ops).depth == 0
            && var r, h := Run(ops).records[WIFI], Run(ops).truth[WIFI];
               && r.enabled && !r.busy && r.timeoutMs == 120000 && r.lastHealthyMs == Stamp(TWO32 - 200000)
               && r.overdue && r.firstOverdueMs == 0 && r.lastWarningMs == 0 && h.warnedAt == [TWO32]
  {
    var s, begin := Quiet(TWO32), Begin(TWO32 - 200000);
    BeganAt(TWO32 - 200000);
    RunAppend([begin], Tick(TWO32, s));
    assert [begin] + [Tick(TWO32, s)] == [begin, Tick(TWO32, s)];
    assert Stamp(TWO32) == 0;
    QuietWifi(Run([begin]), s);
    QuietDepth(Run([begin]), 0, s);
  }

  /** And the warning of that tick does not hold back the next one a second later. */
  lemma ZeroStampReopensThrottle()
    ensures var ops := [Begin(TWO32 - 200000), Tick(TWO32, Quiet(TWO32)), Tick(TWO32 + 1000, Quiet(TWO32 + 1000))];
            OrderedOps(ops) && Run(ops).truth[WIFI].warnedAt == [TWO32, TWO32 + 1000]
  {
    var s := Quiet(TWO32 + 1000);
    var ops := [Begin(TWO32 - 200000), Tick(TWO32, Quiet(TWO32))];
    ZeroReading();
    RunAppend(ops, Tick(TWO32 + 1000, s));
    assert ops + [Tick(TWO32 + 1000, s)] == [ops[0], ops[1], Tick(TWO32 + 1000, s)];
    assert Stamp(TWO32 + 1000) == 1000;
    QuietWifi(Run(ops), s);
  }

  lemma WarnedAtFirst()
    ensures var ops := [Begin(1), Tick(130000, Quiet(130000))];
            && OrderedOps(ops) && Run(ops).started && Run(ops).depth == 0
            && Run(ops).records[WIFI] == Record(120000, 1, 130000, 130000, 1, 0, false, true, true)
            && Run(ops).truth[WIFI].warnedAt == [130000]
  {
    var s := Quiet(130000);
    BeganAt(1);
    RunAppend([Begin(1)], Tick(130000, s));
    assert [Begin(1)] + [Tick(130000, s)] == [Begin(1), Tick(130000, s)];
    QuietWifi(Run([Begin(1)]), s);
    QuietDepth(Run([Begin(1)]), 0, s);
  }

  /** A full turn of the counter after a warning, the next one is held back although 49
      days have passed. */
  lemma FullTurnHoldsBack()
    ensures var ops := [Begin(1), Tick(130000, Quiet(130000)), Tick(TWO32 + 131000, Quiet(TWO32 + 131000))];
            && OrderedOps(ops) && Late(Run(ops).records[WIFI], TWO32 + 131000)
            && Run(ops).truth[WIFI].warnedAt == [130000]
  {
    var s := Quiet(TWO32 + 131000);
    var ops := [Begin(1), Tick(130000, Quiet(130000))];
    WarnedAtFirst();
    RunAppend(ops, Tick(TWO32 + 131000, s));
    assert ops + [Tick(TWO32 + 131000, s)] == [ops[0], ops[1], Tick(TWO32 + 131000, s)];
    assert Stamp(TWO32 + 131000) == 131000;
    QuietWifi(Run(ops), s);
  }

  // ---- Nested suspension -----------------------------------------------------

  function SuspendedTimes(w: Watchdog, n: nat): (v: Watchdog)
    requires w.Valid()
    ensures v.Valid()
  {
    if n == 0 then w else Suspended(SuspendedTimes(w, n - 1))
  }

  function ResumedTimes(w: Watchdog, n: nat, at: nat): (v: Watchdog)
    requires w.Valid()
    ensures v.Valid()
  {
    if n == 0 then w else Resumed(ResumedTimes(w, n - 1, at), at)
  }

  lemma {:induction false} SuspendDepth(w: Watchdog, n: nat)
    requires w.Valid()
    ensures SuspendedTimes(w, n).depth == Min(w.depth + n, 255)
  {
    if n > 0 {
      SuspendDepth(w, n - 1);
    }
  }

  lemma {:induction false} ResumeDepth(w: Watchdog, n: nat, at: nat)
    requires w.Valid()
    ensures ResumedTimes(w, n, at).depth == if n <= w.depth then w.depth - n else 0
  {
    if n > 0 {
      ResumeDepth(w, n - 1, at);
    }
  }

  /** `n` nested sections restore the depth exactly when the byte counter has room for
      all of them, or when they started from no suspension at all. */
  lemma NestingRestoresDepth(w: Watchdog, n: nat, at: nat)
    requires w.Valid()
    ensures ResumedTimes(SuspendedTimes(w, n), n, at).depth == w.depth <==> w.depth + n <= 255 || w.depth == 0
  {
    SuspendDepth(w, n);
    ResumeDepth(SuspendedTimes(w, n), n, at);
  }

  /** While anything is suspended a tick restarts nothing and recovers nothing, and only a
      full counter loses a level, to the critical section of a stored warning. */
  lemma {:induction false} SuspensionDefers(w: Watchdog, i: nat, s: Sense)
    requires w.Valid() && s.Valid() && i <= SUBSYSTEMS && w.depth > 0
    ensures var o := Swept(w, i, s);
            && o.restarted.None? && (o.state.depth == w.depth || (w.depth == 255 && o.state.depth == 254))
            && forall k :: 0 <= k < SUBSYSTEMS ==>
                 o.state.records[k].recoveries == w.records[k].recoveries
                 && o.state.truth[k].healthyAt == w.truth[k].healthyAt
    decreases SUBSYSTEMS - i
  {
    if i < SUBSYSTEMS {
      if Late(w.records[i], s.now) {
        WrittenEffect(Handled(w, i, s), s.writes[i]);
        SuspensionDefers(Visited(w, i, s), i + 1, s);
      } else {
        SuspensionDefers(w, i + 1, s);
      }
    }
  }
}
