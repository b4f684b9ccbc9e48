/** The health watchdog: one record per subsystem, throttled warnings, recovery
    callbacks, reboot escalation, and a nested suspension count.

    The records keep the firmware's 32-bit stamps.  Beside them `truth` keeps the
    true times of the same events; nothing reads it, it is what the properties
    are stated about.
 */
module HealthWatchdog {
  import opened Words

  const SUBSYSTEMS: nat := 7
  const WIFI: nat := 0
  const MQTT: nat := 1
  const TIMEOUTS: seq<U32> := [120000, 180000, 180000, 600000, 300000, 300000, 30000]
  const WARNING_INTERVAL_MS: nat := 60000
  const REBOOT_AFTER_MS: nat := 900000

  datatype Record = Record(
    timeoutMs: U32, lastHealthyMs: U32, firstOverdueMs: U32, lastWarningMs: U32,
    warnings: nat, recoveries: nat, busy: bool, enabled: bool, overdue: bool)

  /** When the subsystem was last marked healthy, when it was first found late after
      that, and every warning about it since `Begin`. */
  datatype Truth = Truth(healthyAt: nat, overdueAt: nat, warnedAt: seq<nat>)

  /** `feeds` counts the resets of the hardware task watchdog. */
  datatype Watchdog = Watchdog(
    started: bool, records: seq<Record>, truth: seq<Truth>, depth: Byte, feeds: nat)
  {
    predicate Valid() {
      |records| == |truth| == SUBSYSTEMS
    }
  }

  /** What a recovery callback does: its verdict, and the subsystems it marks healthy
      on its way, at time `at`. */
  datatype Recovery = Recovery(ok: bool, healed: set<nat>, at: nat)

  /** What one tick reads: the time, the link states with the times at which they are
      marked healthy, the callback's behaviour for each subsystem, and the storage writes
      that queueing its warning takes, by the times at which they end; `lastWrites` are
      those for the warning before a restart. */
  datatype Sense = Sense(
    now: nat, wifi: Option<nat>, mqtt: Option<nat>, callback: bool,
    recovery: seq<Recovery>, writes: seq<seq<nat>>, lastWrites: seq<nat>)
  {
    predicate Valid() {
      |recovery| == |writes| == SUBSYSTEMS
    }
  }

  // ---- One record ------------------------------------------------------------

  function HealthyRecord(r: Record, at: nat): Record {
    r.(lastHealthyMs := Stamp(at), firstOverdueMs := 0, overdue := false)
  }

  function BegunRecord(r: Record, at: nat): Record {
    HealthyRecord(r, at).(lastWarningMs := 0, warnings := 0, recoveries := 0, busy := false)
  }

  function RefreshedRecord(r: Record, at: nat): Record {
    if r.busy then r.(lastHealthyMs := Stamp(at)) else r
  }

  function HealedRecord(r: Record, healed: bool, at: nat): Record {
    if healed then HealthyRecord(r, at) else r
  }

  function DisabledRecord(r: Record): Record {
    r.(enabled := false, firstOverdueMs := 0, overdue := false, busy := false)
  }

  predicate Late(r: Record, now: nat) {
    r.enabled && !r.busy && Elapsed(Stamp(now), r.lastHealthyMs) > r.timeoutMs
  }

  function Flagged(r: Record, now: nat): Record {
    r.(firstOverdueMs := if r.firstOverdueMs == 0 then Stamp(now) else r.firstOverdueMs, overdue := true)
  }

  predicate WarningDue(r: Record, now: nat) {
    r.lastWarningMs == 0 || Elapsed(Stamp(now), r.lastWarningMs) >= WARNING_INTERVAL_MS
  }

  function WarnedRecord(r: Record, now: nat): Record {
    r.(lastWarningMs := Stamp(now), warnings := r.warnings + 1)
  }

  predicate RebootDue(r: Record, now: nat) {
    Elapsed(Stamp(now), r.firstOverdueMs) >= REBOOT_AFTER_MS
  }

  // ---- The whole state -------------------------------------------------------

  function PowerUp(): (w: Watchdog)
    ensures w.Valid()
  {
    Watchdog(false,
             seq(SUBSYSTEMS, i requires 0 <= i < SUBSYSTEMS =>
               Record(TIMEOUTS[i], 0, 0, 0, 0, 0, false, true, false)),
             seq(SUBSYSTEMS, i => Truth(0, 0, [])), 0, 0)
  }

  function Begun(w: Watchdog, at: nat): (v: Watchdog)
    requires w.Valid()
    ensures v.Valid()
  {
    w.(started := true,
       records := seq(SUBSYSTEMS, i requires 0 <= i < SUBSYSTEMS => BegunRecord(w.records[i], at)),
       truth := seq(SUBSYSTEMS, i requires 0 <= i < SUBSYSTEMS => w.truth[i].(healthyAt := at, warnedAt := [])))
  }

  function Healthy(w: Watchdog, i: nat, at: nat): (v: Watchdog)
    requires w.Valid()
    ensures v.Valid()
  {
    if i >= SUBSYSTEMS then w
    else w.(records := w.records[i := HealthyRecord(w.records[i], at)],
            truth := w.truth[i := w.truth[i].(healthyAt := at)])
  }

  function Enabled(w: Watchdog, i: nat, enabled: bool, at: nat): (v: Watchdog)
    requires w.Valid()
    ensures v.Valid()
  {
    if i >= SUBSYSTEMS then w
    else if enabled then Healthy(w.(records := w.records[i := w.records[i].(enabled := true)]), i, at)
    else w.(records := w.records[i := DisabledRecord(w.records[i])])
  }

  function Busied(w: Watchdog, i: nat, busy: bool, at: nat): (v: Watchdog)
    requires w.Valid()
    ensures v.Valid()
  {
    if i >= SUBSYSTEMS then w
    else Healthy(w.(records := w.records[i := w.records[i].(busy := busy)]), i, at)
  }

  function Suspended(w: Watchdog): (v: Watchdog)
    ensures w.Valid() ==> v.Valid()
  {
    w.(depth := if w.depth < 255 then w.depth + 1 else w.depth, feeds := w.feeds + 1)
  }

  /** The last resume restarts the clocks of the busy subsystems. */
  function Resumed(w: Watchdog, at: nat): (v: Watchdog)
    requires w.Valid()
    ensures v.Valid()
  {
    var depth := if w.depth > 0 then w.depth - 1 else 0;
    if depth > 0 then w.(depth := depth)
    else w.(depth := 0, feeds := w.feeds + 1,
            records := seq(SUBSYSTEMS, i requires 0 <= i < SUBSYSTEMS =>
              RefreshedRecord(w.records[i], at)),
            truth := seq(SUBSYSTEMS, i requires 0 <= i < SUBSYSTEMS =>
              if w.records[i].busy then w.truth[i].(healthyAt := at) else w.truth[i]))
  }

  /** Each write to storage is a critical section of its own. */
  function Written(w: Watchdog, ends: seq<nat>): (v: Watchdog)
    requires w.Valid()
    ensures v.Valid()
  {
    if ends == [] then w
    else Resumed(Suspended(Written(w, ends[..|ends| - 1])), ends[|ends| - 1])
  }

  // ---- The tick --------------------------------------------------------------

  function HealedAll(w: Watchdog, healed: set<nat>, at: nat): (v: Watchdog)
    requires w.Valid()
    ensures v.Valid()
  {
    w.(records := seq(SUBSYSTEMS, i requires 0 <= i < SUBSYSTEMS =>
         HealedRecord(w.records[i], i in healed, at)),
       truth := seq(SUBSYSTEMS, i requires 0 <= i < SUBSYSTEMS =>
         if i in healed then w.truth[i].(healthyAt := at) else w.truth[i]))
  }

  function LinksMarked(w: Watchdog, s: Sense): (v: Watchdog)
    requires w.Valid()
    ensures v.Valid()
  {
    var v := if s.wifi.Some? then Healthy(w, WIFI, s.wifi.value) else w;
    if s.mqtt.Some? then Healthy(v, MQTT, s.mqtt.value) else v
  }

  function FlagLate(w: Watchdog, i: nat, now: nat): (v: Watchdog)
    requires w.Valid() && i < SUBSYSTEMS
    ensures v.Valid()
  {
    var first := w.records[i].firstOverdueMs == 0;
    w.(records := w.records[i := Flagged(w.records[i], now)],
       truth := if first then w.truth[i := w.truth[i].(overdueAt := now)] else w.truth)
  }

  function Warned(w: Watchdog, i: nat, now: nat): (v: Watchdog)
    requires w.Valid() && i < SUBSYSTEMS
    ensures v.Valid()
  {
    w.(records := w.records[i := WarnedRecord(w.records[i], now)],
       truth := w.truth[i := w.truth[i].(warnedAt := w.truth[i].warnedAt + [now])])
  }

  predicate Attempted(w: Watchdog, i: nat, s: Sense)
    requires w.Valid() && i < SUBSYSTEMS
  {
    WarningDue(w.records[i], s.now) && w.depth == 0 && s.callback
  }

  function Recovered(w: Watchdog, i: nat, r: Recovery): (v: Watchdog)
    requires w.Valid() && i < SUBSYSTEMS
    ensures v.Valid()
  {
    var v := HealedAll(w, r.healed, r.at);
    if !r.ok then v
    else Healthy(v.(records := v.records[i := v.records[i].(recoveries := v.records[i].recoveries + 1)]), i, r.at)
  }

  /** The visit of one late subsystem, up to the reboot decision. */
  function Visited(w: Watchdog, i: nat, s: Sense): (v: Watchdog)
    requires w.Valid() && s.Valid() && i < SUBSYSTEMS
    ensures v.Valid()
  {
    var flagged := FlagLate(w, i, s.now);
    if !WarningDue(w.records[i], s.now) then flagged else
      var warned := Warned(flagged, i, s.now);
      Written(if Attempted(w, i, s) then Recovered(warned, i, s.recovery[i]) else warned, s.writes[i])
  }

  /** `restarted` is the subsystem that rebooted the device and so ended the tick. */
  datatype Outcome = Outcome(state: Watchdog, restarted: Option<nat>, anyLate: bool)

  function AlsoLate(o: Outcome, late: bool): Outcome {
    o.(anyLate := o.anyLate || late)
  }

  function Swept(w: Watchdog, i: nat, s: Sense): (o: Outcome)
    requires w.Valid() && s.Valid() && i <= SUBSYSTEMS
    ensures o.state.Valid()
    decreases SUBSYSTEMS - i
  {
    if i == SUBSYSTEMS then Outcome(w, None, false)
    else if !Late(w.records[i], s.now) then Swept(w, i + 1, s)
    else
      var v := Visited(w, i, s);
      if v.depth == 0 && RebootDue(v.records[i], s.now) then Outcome(Written(v, s.lastWrites), Some(i), true)
      else AlsoLate(Swept(v, i + 1, s), true)
  }

  function Ticked(w: Watchdog, s: Sense): (o: Outcome)
    requires w.Valid() && s.Valid()
    ensures o.state.Valid()
  {
    var begun := if w.started then w else Begun(w, s.now);
    var o := Swept(LinksMarked(begun, s), 0, s);
    if o.restarted.None? && (!o.anyLate || o.state.depth > 0)
    then o.(state := o.state.(feeds := o.state.feeds + 1)) else o
  }

  // ---- The device's form -----------------------------------------------------

  class WatchdogManager {
    var started: bool
    const records: array<Record>
    var depth: Byte
    var feeds: nat
    ghost var truth: seq<Truth>

    ghost predicate Valid()
      reads this
    {
      records.Length == |truth| == SUBSYSTEMS
    }

    ghost function View(): (w: Watchdog)
      requires Valid()
      reads this, records
      ensures w.Valid()
    {
      Watchdog(started, records[..], truth, depth, feeds)
    }

    constructor ()
      ensures Valid() && fresh(records)
      ensures View() == PowerUp()
    {
      started, depth, feeds := false, 0, 0;
      truth := PowerUp().truth;
      records := new Record[SUBSYSTEMS](i requires 0 <= i < SUBSYSTEMS =>
        Record(TIMEOUTS[i], 0, 0, 0, 0, 0, false, true, false));
    }

    method Begin(at: nat)
      requires Valid()
      modifies this, records
      ensures Valid() && View() == Begun(old(View()), at)
    {
      var i := 0;
      while i < SUBSYSTEMS
        invariant 0 <= i <= SUBSYSTEMS
        invariant forall k :: 0 <= k < i ==> records[k] == BegunRecord(old(records[k]), at)
        invariant forall k :: i <= k < SUBSYSTEMS ==> records[k] == old(records[k])
        modifies records
      {
        records[i] := BegunRecord(records[i], at);
        i := i + 1;
      }
      truth := Begun(old(View()), at).truth;
      started := true;
    }

    method MarkHealthy(i: nat, at: nat)
      requires Valid()
      modifies `truth, records
      ensures Valid() && View() == Healthy(old(View()), i, at)
    {
      if i < SUBSYSTEMS {
        records[i] := records[i].(lastHealthyMs := Stamp(at));
        records[i] := records[i].(firstOverdueMs := 0, overdue := false);
        truth := truth[i := truth[i].(healthyAt := at)];
      }
    }

    method SetEnabled(i: nat, enabled: bool, at: nat)
      requires Valid()
      modifies `truth, records
      ensures Valid() && View() == Enabled(old(View()), i, enabled, at)
    {
      if i < SUBSYSTEMS {
        records[i] := records[i].(enabled := enabled);
        if enabled {
          MarkHealthy(i, at);
        } else {
          records[i] := records[i].(firstOverdueMs := 0, overdue := false, busy := false);
        }
      }
    }

    method MarkBusy(i: nat, at: nat)
      requires Valid()
      modifies `truth, records
      ensures Valid() && View() == Busied(old(View()), i, true, at)
    {
      if i < SUBSYSTEMS {
        records[i] := records[i].(busy := true);
        MarkHealthy(i, at);
      }
    }

    method MarkIdle(i: nat, at: nat)
      requires Valid()
      modifies `truth, records
      ensures Valid() && View() == Busied(old(View()), i, false, at)
    {
      if i < SUBSYSTEMS {
        records[i] := records[i].(busy := false);
        MarkHealthy(i, at);
      }
    }

    method Suspend()
      requires Valid()
      modifies `depth, `feeds
      ensures Valid() && View() == Suspended(old(View()))
    {
      if depth < 255 {
        depth := depth + 1;
      }
      feeds := feeds + 1;
    }

    method Resume(at: nat)
      requires Valid()
      modifies this, records
      ensures Valid() && View() == Resumed(old(View()), at)
    {
      if depth > 0 {
        depth := depth - 1;
      }
      if depth == 0 {
        var i := 0;
        while i < SUBSYSTEMS
          invariant 0 <= i <= SUBSYSTEMS
          invariant forall k :: 0 <= k < i ==> records[k] == RefreshedRecord(old(records[k]), at)
          invariant forall k :: i <= k < SUBSYSTEMS ==> records[k] == old(records[k])
          modifies records
        {
          if records[i].busy {
            records[i] := records[i].(lastHealthyMs := Stamp(at));
          }
          i := i + 1;
        }
        truth := Resumed(old(View()), at).truth;
        feeds := feeds + 1;
      }
    }

    /** Queues a warning, with the storage writes that takes. */
    method PublishWarning(ends: seq<nat>)
      requires Valid()
      modifies this, records
      ensures Valid() && View() == Written(old(View()), ends)
    {
      var i := 0;
      while i < |ends|
        invariant Valid() && 0 <= i <= |ends|
        invariant View() == Written(old(View()), ends[..i])
      {
        assert ends[..i + 1][..i] == ends[..i];
        Suspend();
        Resume(ends[i]);
        i := i + 1;
      }
      assert ends[..i] == ends;
    }

    /** The callback's effect on the records. */
    method Heal(healed: set<nat>, at: nat)
      requires Valid()
      modifies `truth, records
      ensures Valid() && View() == HealedAll(old(View()), healed, at)
    {
      var i := 0;
      while i < SUBSYSTEMS
        invariant 0 <= i <= SUBSYSTEMS
        invariant forall k :: 0 <= k < i ==> records[k] == HealedRecord(old(records[k]), k in healed, at)
        invariant forall k :: i <= k < SUBSYSTEMS ==> records[k] == old(records[k])
        modifies records
      {
        if i in healed {
          records[i] := HealthyRecord(records[i], at);
        }
        i := i + 1;
      }
      truth := HealedAll(old(View()), healed, at).truth;
    }

    method Flag(i: nat, now: nat)
      requires Valid() && i < SUBSYSTEMS
      modifies `truth, records
      ensures Valid() && View() == FlagLate(old(View()), i, now)
    {
      if records[i].firstOverdueMs == 0 {
        records[i] := records[i].(firstOverdueMs := Stamp(now));
        truth := truth[i := truth[i].(overdueAt := now)];
      }
      records[i] := records[i].(overdue := true);
    }

    method Warn(i: nat, now: nat)
      requires Valid() && i < SUBSYSTEMS
      modifies `truth, records
      ensures Valid() && View() == Warned(old(View()), i, now)
    {
      records[i] := records[i].(lastWarningMs := Stamp(now), warnings := records[i].warnings + 1);
      truth := truth[i := truth[i].(warnedAt := truth[i].warnedAt + [now])];
    }

    method Recover(i: nat, r: Recovery)
      requires Valid() && i < SUBSYSTEMS
      modifies `truth, records
      ensures Valid() && View() == Recovered(old(View()), i, r)
    {
      Heal(r.healed, r.at);
      if r.ok {
        records[i] := records[i].(recoveries := records[i].recoveries + 1);
        MarkHealthy(i, r.at);
      }
    }

    method Visit(i: nat, s: Sense)
      requires Valid() && s.Valid() && i < SUBSYSTEMS
      modifies this, records
      ensures Valid() && View() == Visited(old(View()), i, s)
    {
      Flag(i, s.now);
      if records[i].lastWarningMs == 0 || Elapsed(Stamp(s.now), records[i].lastWarningMs) >= WARNING_INTERVAL_MS {
        Warn(i, s.now);
        if depth == 0 && s.callback {
          Recover(i, s.recovery[i]);
        }
        PublishWarning(s.writes[i]);
      }
    }

    method MarkLinks(s: Sense)
      requires Valid()
      modifies `truth, records
      ensures Valid() && View() == LinksMarked(old(View()), s)
    {
      if s.wifi.Some? {
        MarkHealthy(WIFI, s.wifi.value);
      }
      if s.mqtt.Some? {
        MarkHealthy(MQTT, s.mqtt.value);
      }
    }

    method Sweep(s: Sense) returns (restarted: Option<nat>, anyUnsafeOverdue: bool)
      requires Valid() && s.Valid()
      modifies this, records
      ensures Valid() && Swept(old(View()), 0, s) == Outcome(View(), restarted, anyUnsafeOverdue)
    {
      ghost var swept := Swept(View(), 0, s);
      anyUnsafeOverdue := false;
      var i := 0;
      while i < SUBSYSTEMS
        invariant Valid() && 0 <= i <= SUBSYSTEMS
        invariant swept == AlsoLate(Swept(View(), i, s), anyUnsafeOverdue)
      {
        if Late(records[i], s.now) {
          anyUnsafeOverdue := true;
          Visit(i, s);
          if depth == 0 && Elapsed(Stamp(s.now), records[i].firstOverdueMs) >= REBOOT_AFTER_MS {
            PublishWarning(s.lastWrites);
            return Some(i), true;
          }
        }
        i := i + 1;
      }
      return None, anyUnsafeOverdue;
    }

    method Tick(s: Sense) returns (restarted: Option<nat>)
      requires Valid() && s.Valid()
      modifies this, records
      ensures Valid() && restarted == Ticked(old(View()), s).restarted
      ensures View() == Ticked(old(View()), s).state
    {
      if !started {
        Begin(s.now);
      }
      MarkLinks(s);
      var anyUnsafeOverdue;
      restarted, anyUnsafeOverdue := Sweep(s);
      if restarted.None? && (!anyUnsafeOverdue || depth > 0) {
        feeds := feeds + 1;
      }
    }
  }
}
