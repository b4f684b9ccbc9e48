/** What one tick of the health watchdog does to each subsystem, told from the state and
    the inputs at its start alone; and what the other calls do, up to whole runs.
 */
module HealthWatchdogTicks {
  import opened Words
  import opened HealthWatchdog
  import opened HealthWatchdogRuns

  // ---- The fate of one subsystem ---------------------------------------------

  /** Not heard of for longer than its timeout, as the counter reads. */
  predicate Overdue(r: Record, now: nat) {
    r.enabled && !r.busy && Elapsed(Stamp(now), r.lastHealthyMs) > r.timeoutMs
  }

  /** Its last warning is a minute old, as the counter reads, or has no stamp. */
  predicate Warns(r: Record, now: nat) {
    Overdue(r, now) && (r.lastWarningMs == 0 || Elapsed(Stamp(now), r.lastWarningMs) >= 60000)
  }

  /** Its own callback is called, while nothing is suspended, and marks it healthy. */
  predicate Healed(w: Watchdog, k: nat, s: Sense)
    requires w.Valid() && s.Valid() && k < SUBSYSTEMS
  {
    && Warns(w.records[k], s.now) && w.depth == 0 && s.callback
    && (s.recovery[k].ok || k in s.recovery[k].healed)
  }

  /** The quarter of an hour since it was first found late is over; for a subsystem just
      healed, since the counter read zero. */
  predicate Reboots(w: Watchdog, k: nat, s: Sense)
    requires w.Valid() && s.Valid() && k < SUBSYSTEMS
  {
    var r := w.records[k];
    && Overdue(r, s.now) && w.depth == 0
    && (if Healed(w, k, s) then Stamp(s.now) >= 900000
        else r.firstOverdueMs != 0 && Elapsed(Stamp(s.now), r.firstOverdueMs) >= 900000)
  }

  /** No callback of the tick for another subsystem marks `k` healthy. */
  predicate Alone(s: Sense, k: nat)
    requires s.Valid()
  {
    !s.callback || forall j :: 0 <= j < SUBSYSTEMS && j != k ==> k !in s.recovery[j].healed
  }

  /** What becomes of subsystem `k` between `w` and `v`, whatever befalls the others. */
  ghost predicate Fate(w: Watchdog, k: nat, s: Sense, v: Watchdog)
    requires w.Valid() && s.Valid() && v.Valid() && k < SUBSYSTEMS
  {
    var r, h, f, g := w.records[k], w.truth[k], v.records[k], v.truth[k];
    && (!Overdue(r, s.now) ==> f == r && g == h)
    && (Overdue(r, s.now) ==>
          && f.enabled && !f.busy && f.timeoutMs == r.timeoutMs
          && (if Warns(r, s.now)
              then f.warnings == r.warnings + 1 && f.lastWarningMs == Stamp(s.now) && g.warnedAt == h.warnedAt + [s.now]
              else f.warnings == r.warnings && f.lastWarningMs == r.lastWarningMs && g.warnedAt == h.warnedAt)
          && (if Healed(w, k, s)
              then && !f.overdue && f.firstOverdueMs == 0
                   && f.lastHealthyMs == Stamp(s.recovery[k].at) && g.healthyAt == s.recovery[k].at
                   && f.recoveries == r.recoveries + if s.recovery[k].ok then 1 else 0
              else && f.overdue && f.lastHealthyMs == r.lastHealthyMs && g.healthyAt == h.healthyAt
                   && f.firstOverdueMs == (if r.firstOverdueMs == 0 then Stamp(s.now) else r.firstOverdueMs)
                   && f.recoveries == r.recoveries))
  }

  /** A visit of another subsystem leaves an idle one alone. */
  lemma VisitLeaves(w: Watchdog, i: nat, s: Sense, k: nat)
    requires w.Valid() && s.Valid() && i < SUBSYSTEMS && k < SUBSYSTEMS && i != k
    requires !w.records[k].busy && Alone(s, k)
    ensures var v := Visited(w, i, s);
            v.records[k] == w.records[k] && v.truth[k] == w.truth[k] && (v.depth == 0 <==> w.depth == 0)
  {
    if WarningDue(w.records[i], s.now) {
      HandledLeaves(w, i, s, k);
      var v := Handled(w, i, s);
      WrittenEffect(v, s.writes[i]);
      assert BusyRefreshed(v, Written(v, s.writes[i]), k);
    }
  }

  lemma HandledLeaves(w: Watchdog, i: nat, s: Sense, k: nat)
    requires w.Valid() && s.Valid() && i < SUBSYSTEMS && k < SUBSYSTEMS && i != k && Alone(s, k)
    ensures var v := Handled(w, i, s);
            v.records[k] == w.records[k] && v.truth[k] == w.truth[k] && v.depth == w.depth
  {
  }

  lemma HandledFate(w: Watchdog, k: nat, s: Sense)
    requires w.Valid() && s.Valid() && k < SUBSYSTEMS && Late(w.records[k], s.now) && WarningDue(w.records[k], s.now)
    ensures Fate(w, k, s, Handled(w, k, s)) && Handled(w, k, s).depth == w.depth
  {
  }

  lemma VisitFate(w: Watchdog, k: nat, s: Sense)
    requires w.Valid() && s.Valid() && k < SUBSYSTEMS && Late(w.records[k], s.now)
    ensures Fate(w, k, s, Visited(w, k, s)) && (Visited(w, k, s).depth == 0 <==> w.depth == 0)
  {
    if WarningDue(w.records[k], s.now) {
      HandledFate(w, k, s);
      var v := Handled(w, k, s);
      WrittenEffect(v, s.writes[k]);
      assert BusyRefreshed(v, Written(v, s.writes[k]), k);
    }
  }

  /** What the sweep does after it has passed `k` leaves it alone. */
  lemma {:induction false} SweepLeaves(w: Watchdog, i: nat, k: nat, s: Sense)
    requires w.Valid() && s.Valid() && k < i <= SUBSYSTEMS && !w.records[k].busy && Alone(s, k)
    ensures var o := Swept(w, i, s);
            && o.state.records[k] == w.records[k] && o.state.truth[k] == w.truth[k]
            && o.restarted != Some(k)
    decreases SUBSYSTEMS - i
  {
    if i < SUBSYSTEMS {
      if Late(w.records[i], s.now) {
        var v := Visited(w, i, s);
        VisitLeaves(w, i, s, k);
        SweepLeaves(v, i + 1, k, s);
        WrittenLeaves(v, s.lastWrites, k);
      } else {
        SweepLeaves(w, i + 1, k, s);
      }
    }
  }

  lemma WrittenLeaves(w: Watchdog, ends: seq<nat>, k: nat)
    requires w.Valid() && k < SUBSYSTEMS && !w.records[k].busy
    ensures Written(w, ends).records[k] == w.records[k] && Written(w, ends).truth[k] == w.truth[k]
  {
    WrittenEffect(w, ends);
    assert BusyRefreshed(w, Written(w, ends), k);
  }

  /** The sweep from `i` on met no reboot before `k`. */
  predicate ReachesAt(w: Watchdog, i: nat, k: nat, s: Sense)
    requires w.Valid() && s.Valid() && i <= SUBSYSTEMS
  {
    var o := Swept(w, i, s);
    o.restarted.None? || o.restarted.value >= k
  }

  lemma {:induction false} FateFrom(w: Watchdog, i: nat, k: nat, s: Sense)
    requires w.Valid() && s.Valid() && i <= k < SUBSYSTEMS && !w.records[k].busy && Alone(s, k)
    requires ReachesAt(w, i, k, s)
    ensures Fate(w, k, s, Swept(w, i, s).state)
    ensures Swept(w, i, s).restarted == Some(k) <==> Reboots(w, k, s)
    decreases SUBSYSTEMS - i
  {
    if i < k {
      if Late(w.records[i], s.now) {
        VisitLeaves(w, i, s, k);
        FateFrom(Visited(w, i, s), i + 1, k, s);
      } else {
        FateFrom(w, i + 1, k, s);
      }
    } else if Late(w.records[k], s.now) {
      var v := Visited(w, k, s);
      VisitFate(w, k, s);
      RebootFate(w, k, s);
      SweepLeaves(v, k + 1, k, s);
      WrittenLeaves(v, s.lastWrites, k);
    } else {
      SweepLeaves(w, k + 1, k, s);
    }
  }

  lemma RebootFate(w: Watchdog, k: nat, s: Sense)
    requires w.Valid() && s.Valid() && k < SUBSYSTEMS && Late(w.records[k], s.now)
    ensures !Visited(w, k, s).records[k].busy
    ensures Visited(w, k, s).depth == 0 && RebootDue(Visited(w, k, s).records[k], s.now) <==> Reboots(w, k, s)
  {
    VisitFate(w, k, s);
    assert Elapsed(Stamp(s.now), Stamp(s.now)) == 0;
  }

  /** The tick as one subsystem sees it: unless the device restarts for an earlier one,
      an idle subsystem meets its own fate in every tick, whatever the others do, and the
      device restarts for it exactly when its time is up. */
  lemma TickFate(w: Watchdog, k: nat, s: Sense)
    requires w.Valid() && s.Valid() && k < SUBSYSTEMS
    requires !SweepStart(w, s).records[k].busy && Alone(s, k)
    requires Ticked(w, s).restarted.None? || Ticked(w, s).restarted.value >= k
    ensures Fate(SweepStart(w, s), k, s, Ticked(w, s).state)
    ensures Ticked(w, s).restarted == Some(k) <==> Reboots(SweepStart(w, s), k, s)
  {
    FateFrom(SweepStart(w, s), 0, k, s);
  }

  /** So no late subsystem escapes: once one has been overdue for a quarter of an hour with
      nothing suspended, the tick restarts the device, for it or for an earlier one. */
  lemma OverdueRestarts(w: Watchdog, k: nat, s: Sense)
    requires w.Valid() && s.Valid() && k < SUBSYSTEMS
    requires !SweepStart(w, s).records[k].busy && Alone(s, k) && Reboots(SweepStart(w, s), k, s)
    ensures Ticked(w, s).restarted.Some? && Ticked(w, s).restarted.value <= k
  {
    if Ticked(w, s).restarted.None? || Ticked(w, s).restarted.value >= k {
      TickFate(w, k, s);
    }
  }

  /** A callback that marks other subsystems healthy on its way ends their overdue state. */
  lemma CallbackHealsOthers(w: Watchdog, i: nat, s: Sense, k: nat)
    requires w.Valid() && s.Valid() && i < SUBSYSTEMS && k < SUBSYSTEMS && k != i && !w.records[k].busy
    requires Warns(w.records[i], s.now) && w.depth == 0 && s.callback && k in s.recovery[i].healed
    ensures var f, at := Visited(w, i, s).records[k], s.recovery[i].at;
            && f.lastHealthyMs == Stamp(at) && Visited(w, i, s).truth[k].healthyAt == at
            && !f.overdue && f.firstOverdueMs == 0 && f.warnings == w.records[k].warnings
  {
    WrittenLeaves(Handled(w, i, s), s.writes[i], k);
  }

  /** A write to storage that ends the last suspension marks the busy subsystems healthy. */
  lemma WriteMarksBusy(w: Watchdog, ends: seq<nat>, k: nat)
    requires w.Valid() && k < SUBSYSTEMS && w.records[k].busy && w.depth == 0 && ends != []
    ensures Written(w, ends).truth[k].healthyAt == ends[|ends| - 1]
  {
    var n := |ends| - 1;
    WrittenEffect(w, ends[..n]);
    assert BusyRefreshed(w, Written(w, ends[..n]), k);
    assert Written(w, ends) == Resumed(Suspended(Written(w, ends[..n])), ends[n]);
  }

  // ---- Disabled and busy subsystems ------------------------------------------

  /** Record `k` kept its flags and counts, and did not become overdue. */
  ghost predicate LeftAlone(r: Record, f: Record) {
    && f.enabled == r.enabled && f.busy == r.busy && f.timeoutMs == r.timeoutMs
    && f.warnings == r.warnings && f.recoveries == r.recoveries && f.lastWarningMs == r.lastWarningMs
    && (f.overdue ==> r.overdue) && (f.firstOverdueMs != 0 ==> f.firstOverdueMs == r.firstOverdueMs)
  }

  lemma {:induction false} SweepSkips(w: Watchdog, i: nat, k: nat, s: Sense)
    requires w.Valid() && s.Valid() && i <= SUBSYSTEMS && k < SUBSYSTEMS
    requires !w.records[k].enabled || w.records[k].busy
    ensures LeftAlone(w.records[k], Swept(w, i, s).state.records[k]) && Swept(w, i, s).restarted != Some(k)
    decreases SUBSYSTEMS - i
  {
    if i < SUBSYSTEMS {
      if Late(w.records[i], s.now) {
        VisitSkips(w, i, s, k);
        SweepSkips(Visited(w, i, s), i + 1, k, s);
        WrittenSkips(Visited(w, i, s), s.lastWrites, k);
      } else {
        SweepSkips(w, i + 1, k, s);
      }
    }
  }

  lemma WrittenSkips(w: Watchdog, ends: seq<nat>, k: nat)
    requires w.Valid() && k < SUBSYSTEMS
    ensures LeftAlone(w.records[k], Written(w, ends).records[k])
  {
    WrittenEffect(w, ends);
    assert BusyRefreshed(w, Written(w, ends), k);
  }

  lemma VisitSkips(w: Watchdog, i: nat, s: Sense, k: nat)
    requires w.Valid() && s.Valid() && i < SUBSYSTEMS && k < SUBSYSTEMS && i != k
    ensures LeftAlone(w.records[k], Visited(w, i, s).records[k])
  {
    if WarningDue(w.records[i], s.now) {
      var v := Handled(w, i, s);
      HandledSkips(w, i, s, k);
      WrittenEffect(v, s.writes[i]);
      assert BusyRefreshed(v, Written(v, s.writes[i]), k);
    }
  }

  lemma HandledSkips(w: Watchdog, i: nat, s: Sense, k: nat)
    requires w.Valid() && s.Valid() && i < SUBSYSTEMS && k < SUBSYSTEMS
    ensures i != k ==> LeftAlone(w.records[k], Handled(w, i, s).records[k])
    ensures SameFlags(w.records[k], Handled(w, i, s).records[k])
  {
    var warned := Warned(FlagLate(w, i, s.now), i, s.now);
    assert SameFlags(w.records[k], warned.records[k]) && (i != k ==> warned.records[k] == w.records[k]);
    if Attempted(w, i, s) {
      RecoveredSkips(warned, i, s.recovery[i], k);
    }
  }

  lemma RecoveredSkips(w: Watchdog, i: nat, r: Recovery, k: nat)
    requires w.Valid() && i < SUBSYSTEMS && k < SUBSYSTEMS
    ensures i != k ==> LeftAlone(w.records[k], Recovered(w, i, r).records[k])
    ensures SameFlags(w.records[k], Recovered(w, i, r).records[k])
  {
  }

  predicate SameFlags(r: Record, f: Record) {
    f.enabled == r.enabled && f.busy == r.busy && f.timeoutMs == r.timeoutMs
  }

  /** The last word of a run on whether subsystem `i` is watched. */
  function WatchedAfter(ops: seq<Op>, i: nat): bool {
    if ops == [] then true else
      var op := ops[|ops| - 1];
      if op.SetEnabled? && op.i == i then op.enabled else WatchedAfter(ops[..|ops| - 1], i)
  }

  predicate StartedAfter(ops: seq<Op>) {
    exists op <- ops :: op.Begin? || op.Tick?
  }

  /** The last word of a run on whether subsystem `i` is busy. */
  function BusyAfter(ops: seq<Op>, i: nat): bool {
    if ops == [] then false else
      var op, before := ops[|ops| - 1], ops[..|ops| - 1];
      match op
      case Begin(_) => false
      case MarkBusy(_, j) => j == i || BusyAfter(before, i)
      case MarkIdle(_, j) => j != i && BusyAfter(before, i)
      case SetEnabled(_, j, enabled) => (enabled || j != i) && BusyAfter(before, i)
      case Tick(_, _) => StartedAfter(before) && BusyAfter(before, i)
      case _ => BusyAfter(before, i)
  }

  /** The flags that a tick finds in a record are those it leaves. */
  lemma {:induction false} SweepKeepsFlags(w: Watchdog, i: nat, k: nat, s: Sense)
    requires w.Valid() && s.Valid() && i <= SUBSYSTEMS && k < SUBSYSTEMS
    ensures SameFlags(w.records[k], Swept(w, i, s).state.records[k])
    ensures Swept(w, i, s).state.started == w.started
    decreases SUBSYSTEMS - i
  {
    if i < SUBSYSTEMS {
      if Late(w.records[i], s.now) {
        VisitKeepsFlags(w, i, s, k);
        SweepKeepsFlags(Visited(w, i, s), i + 1, k, s);
        var v := Visited(w, i, s);
        WrittenEffect(v, s.lastWrites);
        WrittenStarted(v, s.lastWrites);
        assert BusyRefreshed(v, Written(v, s.lastWrites), k);
      } else {
        SweepKeepsFlags(w, i + 1, k, s);
      }
    }
  }

  lemma VisitKeepsFlags(w: Watchdog, i: nat, s: Sense, k: nat)
    requires w.Valid() && s.Valid() && i < SUBSYSTEMS && k < SUBSYSTEMS
    ensures SameFlags(w.records[k], Visited(w, i, s).records[k])
    ensures Visited(w, i, s).started == w.started
  {
    if WarningDue(w.records[i], s.now) {
      var v := Handled(w, i, s);
      HandledSkips(w, i, s, k);
      WrittenEffect(v, s.writes[i]);
      WrittenStarted(v, s.writes[i]);
      assert BusyRefreshed(v, Written(v, s.writes[i]), k);
    }
  }

  lemma {:induction false} WrittenStarted(w: Watchdog, ends: seq<nat>)
    requires w.Valid()
    ensures Written(w, ends).started == w.started
  {
    if ends != [] {
      WrittenStarted(w, ends[..|ends| - 1]);
    }
  }

  /** Over any run each record is watched and busy as the last call that said so, and has
      the timeout of its subsystem. */
  lemma {:induction false} FlagsAreLast(ops: seq<Op>, i: nat)
    requires ValidOps(ops) && i < SUBSYSTEMS
    ensures var r := Run(ops).records[i];
            && r.enabled == WatchedAfter(ops, i) && r.busy == BusyAfter(ops, i)
            && r.timeoutMs == [120000, 180000, 180000, 600000, 300000, 300000, 30000][i]
    ensures Run(ops).started == StartedAfter(ops)
  {
    if ops != [] {
      var n := |ops| - 1;
      FlagsAreLast(ops[..n], i);
      StartedExtends(ops);
      StepFlags(Run(ops[..n]), ops[n], i);
    }
  }

  lemma StepFlags(w: Watchdog, op: Op, i: nat)
    requires w.Valid() && op.Valid() && i < SUBSYSTEMS
    ensures var r, f := w.records[i], Step(w, op).records[i];
            && f.timeoutMs == r.timeoutMs && Step(w, op).started == (w.started || op.Begin? || op.Tick?)
            && f.enabled == (if op.SetEnabled? && op.i == i then op.enabled else r.enabled)
            && f.busy == (match op
                          case Begin(_) => false
                          case MarkBusy(_, j) => j == i || r.busy
                          case MarkIdle(_, j) => j != i && r.busy
                          case SetEnabled(_, j, enabled) => (enabled || j != i) && r.busy
                          case Tick(_, _) => w.started && r.busy
                          case _ => r.busy)
  {
    if op.Tick? {
      SweepKeepsFlags(SweepStart(w, op.sense), 0, i, op.sense);
      StartFlags(w, op.sense, i);
    }
  }

  lemma StartFlags(w: Watchdog, s: Sense, i: nat)
    requires w.Valid() && i < SUBSYSTEMS
    ensures var r, f := w.records[i], SweepStart(w, s).records[i];
            f.enabled == r.enabled && f.timeoutMs == r.timeoutMs && f.busy == (w.started && r.busy)
    ensures SweepStart(w, s).started
  {
  }

  lemma StartedExtends(ops: seq<Op>)
    requires ops != []
    ensures StartedAfter(ops) <==> StartedAfter(ops[..|ops| - 1]) || ops[|ops| - 1].Begin? || ops[|ops| - 1].Tick?
  {
    var n := |ops| - 1;
    assert ops == ops[..n] + [ops[n]];
  }

  /** A subsystem that is disabled, or busy once the watchdog has started, is not overdue,
      and a further tick neither warns about it, nor recovers it, nor restarts for it. */
  lemma DisabledOrBusyLeftAlone(ops: seq<Op>, i: nat, s: Sense)
    requires ValidOps(ops) && s.Valid() && i < SUBSYSTEMS && StartedAfter(ops)
    requires !WatchedAfter(ops, i) || BusyAfter(ops, i)
    ensures var r, f := Run(ops).records[i], Ticked(Run(ops), s).state.records[i];
            !f.overdue && f.warnings == r.warnings && f.recoveries == r.recoveries
    ensures Ticked(Run(ops), s).restarted != Some(i)
  {
    FlagsAreLast(ops, i);
    AlwaysSane(ops, false);
    assert Sane(Run(ops).records[i], false);
    SweepSkips(SweepStart(Run(ops), s), 0, i, s);
  }

  // ---- The other calls -------------------------------------------------------

  /** The call marks subsystem `i` healthy; the last resume does so for busy ones. */
  predicate Marks(w: Watchdog, op: Op, i: nat)
    requires w.Valid() && i < SUBSYSTEMS
  {
    match op
    case Begin(_) => true
    case SetEnabled(_, j, enabled) => j == i && enabled
    case MarkHealthy(_, j) => j == i
    case MarkBusy(_, j) => j == i
    case MarkIdle(_, j) => j == i
    case Resume(_) => w.depth <= 1 && w.records[i].busy
    case _ => false
  }

  /** Between ticks a record is marked healthy exactly by these calls; they, and being
      disabled, are what ends an overdue state; only a fresh start resets the counts. */
  lemma CallMarks(w: Watchdog, op: Op, i: nat)
    requires w.Valid() && op.Valid() && !op.Tick? && i < SUBSYSTEMS
    ensures var r, f, v := w.records[i], Step(w, op).records[i], Step(w, op);
            var cleared := (Marks(w, op, i) && !op.Resume?) || (op.SetEnabled? && op.i == i);
            && v.truth[i].healthyAt == (if Marks(w, op, i) then op.at else w.truth[i].healthyAt)
            && f.lastHealthyMs == (if Marks(w, op, i) then Stamp(op.at) else r.lastHealthyMs)
            && f.overdue == (r.overdue && !cleared)
            && f.firstOverdueMs == (if cleared then 0 else r.firstOverdueMs)
            && (if op.Begin? then f.warnings == 0 && f.recoveries == 0 && f.lastWarningMs == 0
                else f.warnings == r.warnings && f.recoveries == r.recoveries && f.lastWarningMs == r.lastWarningMs)
  {
  }

  /** A tick starts by marking the links that are up, after a fresh start if there was
      none before, and changes nothing else ahead of its sweep. */
  lemma TickMarks(w: Watchdog, s: Sense, i: nat)
    requires w.Valid() && s.Valid() && i < SUBSYSTEMS
    ensures var r, f := w.records[i], SweepStart(w, s).records[i];
            var link := if i == WIFI then s.wifi else if i == MQTT then s.mqtt else None;
            && (link.Some? ==> SweepStart(w, s).truth[i].healthyAt == link.value && !f.overdue
                               && f.lastHealthyMs == Stamp(link.value))
            && (link.None? && !w.started ==> SweepStart(w, s).truth[i].healthyAt == s.now && !f.overdue
                                             && f.lastHealthyMs == Stamp(s.now))
            && (link.None? && w.started ==> f == r && SweepStart(w, s).truth[i] == w.truth[i])
            && (w.started ==> f.warnings == r.warnings && f.recoveries == r.recoveries
                              && f.lastWarningMs == r.lastWarningMs && f.busy == r.busy)
  {
  }

  // ---- Feeding the hardware watchdog -----------------------------------------

  /** Suspending feeds it, and so does a resume that ends the suspension. */
  lemma SuspensionFeeds(w: Watchdog, at: nat)
    requires w.Valid()
    ensures Suspended(w).feeds == w.feeds + 1
    ensures Resumed(w, at).feeds == w.feeds + if w.depth <= 1 then 1 else 0
  {
  }

  /** Each write to storage feeds it on the way in, and on the way out too unless the write
      is itself inside a suspension. */
  lemma {:induction false} WritesFeed(w: Watchdog, ends: seq<nat>)
    requires w.Valid()
    ensures Written(w, ends).feeds == w.feeds + if w.depth == 0 then 2 * |ends| else |ends|
  {
    if ends != [] {
      var n := |ends| - 1;
      WritesFeed(w, ends[..n]);
      WrittenEffect(w, ends[..n]);
      assert Written(w, ends) == Resumed(Suspended(Written(w, ends[..n])), ends[n]);
    }
  }

  /** A visit makes its writes exactly when it warns: they feed the hardware watchdog and
      mark every busy subsystem healthy. */
  lemma WarningWrites(w: Watchdog, i: nat, s: Sense, k: nat)
    requires w.Valid() && s.Valid() && i < SUBSYSTEMS && k < SUBSYSTEMS && Overdue(w.records[i], s.now)
    ensures var v, ends := Visited(w, i, s), s.writes[i];
            && v.feeds == w.feeds + (if !Warns(w.records[i], s.now) then 0
                                     else if w.depth == 0 then 2 * |ends| else |ends|)
            && (Warns(w.records[i], s.now) && w.records[k].busy && w.depth == 0 && ends != [] ==>
                  v.truth[k].healthyAt == ends[|ends| - 1])
  {
    if Warns(w.records[i], s.now) {
      HandledSkips(w, i, s, k);
      var v := Handled(w, i, s);
      assert v.feeds == w.feeds && v.depth == w.depth;
      WritesFeed(v, s.writes[i]);
      if w.records[k].busy && w.depth == 0 && s.writes[i] != [] {
        WriteMarksBusy(v, s.writes[i], k);
      }
    }
  }

  /** So does the warning before a restart. */
  lemma LastWarningWrites(w: Watchdog, i: nat, s: Sense)
    requires w.Valid() && s.Valid() && i < SUBSYSTEMS && Overdue(w.records[i], s.now) && Reboots(w, i, s)
    ensures Swept(w, i, s).restarted == Some(i)
    ensures Swept(w, i, s).state.feeds == Visited(w, i, s).feeds + 2 * |s.lastWrites|
  {
    RebootFate(w, i, s);
    WritesFeed(Visited(w, i, s), s.lastWrites);
  }

  /** Nothing is written to storage in this tick, and no callback heals another
      subsystem than its own. */
  ghost predicate Undisturbed(s: Sense) {
    && s.Valid() && s.lastWrites == []
    && (forall k :: 0 <= k < SUBSYSTEMS ==> s.writes[k] == [] && Alone(s, k))
  }

  lemma {:induction false} SweepFeeds(w: Watchdog, i: nat, s: Sense)
    requires w.Valid() && Undisturbed(s) && i <= SUBSYSTEMS
    ensures var o := Swept(w, i, s);
            && o.state.feeds == w.feeds && o.state.depth == w.depth
            && (o.restarted.None? ==>
                  (o.anyLate <==> exists k :: i <= k < SUBSYSTEMS && Overdue(w.records[k], s.now)))
    decreases SUBSYSTEMS - i
  {
    if i < SUBSYSTEMS {
      if Late(w.records[i], s.now) {
        assert Overdue(w.records[i], s.now);
        SweepFeeds(Visited(w, i, s), i + 1, s);
      } else {
        SweepFeeds(w, i + 1, s);
      }
    }
  }

  /** A tick feeds the hardware watchdog exactly when it does not restart the device and
      finds no subsystem overdue, or finds monitoring suspended. */
  lemma TickFeeds(w: Watchdog, s: Sense)
    requires w.Valid() && Undisturbed(s)
    ensures var o, start := Ticked(w, s), SweepStart(w, s);
            o.state.feeds == w.feeds +
              if o.restarted.None?
                 && (w.depth > 0 || forall k :: 0 <= k < SUBSYSTEMS ==> !Overdue(start.records[k], s.now))
              then 1 else 0
  {
    SweepFeeds(SweepStart(w, s), 0, s);
  }
}
