/** The ePaper wake cycle: an adaptive sleep cadence, a ghosting accumulator and an
    image cache tag, all of which must survive deep sleep in non-volatile storage.

    `Epaper` is the RAM state with its storage and what the panel shows;
    `EpaperDevice` holds the same as fields and runs one cycle per boot.
 */
module EpaperWake {
  import opened Words

  const DEFAULT_WAKE_MIN: U32 := 60
  const MIN_WAKE_MIN: U32 := 5
  const MAX_QUIET_WAKE_MIN: U32 := 720
  const ERROR_BASE_WAKE_MIN: U32 := 15
  const MAX_ERROR_WAKE_MIN: U32 := 240
  const SETUP_RETRY_WAKE_MIN: U32 := 5
  const RETIRED_WAKE_MIN: U32 := 720
  const FULL_REFRESH_MIN: U32 := 1440
  const U32_MAX: U32 := 0xFFFF_FFFF

  datatype Result = Ok | Unchanged | Bind | Retired | Error

  /** The panel keeps its paint without power. */
  datatype Paint =
    | Blank | White | Image(etag: string)
    | RetiredCard | IdentifyCard | BindCard | FactoryResetCard

  /** Storage: a key that was never written is `None`. */
  datatype Prefs = Prefs(
    etag: Option<string>, unchangedCount: Option<U32>, failureCount: Option<U32>,
    minutes: Option<U32>, lastScheduled: Option<U32>, wakeMin: Option<U32>, retired: Option<bool>)

  datatype Epaper = Epaper(
    etag: string, unchangedCount: U32, failureCount: U32, configured: U32, lastScheduled: U32,
    minutes: U32, retired: bool, prefs: Prefs, panel: Paint)

  /** The server's answer to the image request. */
  datatype Reply = NoLink | Http(code: int, etag: string, paints: bool)

  /** What one wake finds: an update that restarts the device at once, the desired-state
      flags, a new cadence, and the reply. */
  datatype Wake = Wake(
    updated: bool, factoryReset: bool, unretire: bool, retire: bool, identify: bool,
    forceRefresh: bool, fullRefresh: bool, wakeMin: Option<U32>, reply: Reply)

  const EMPTY: Prefs := Prefs(None, None, None, None, None, None, None)

  function OrElse<T>(o: Option<T>, default: T): T {
    if o.Some? then o.value else default
  }

  function Clamped(minutes: U32): U32 {
    if minutes < MIN_WAKE_MIN then MIN_WAKE_MIN else minutes
  }

  /** `base` doubled `exponent` times, capped. */
  function Doubled(base: U32, exponent: nat, cap: U32): (r: U32)
    ensures r <= cap
  {
    Min(base * Pow2(exponent), cap)
  }

  // ---- Storage ---------------------------------------------------------------

  /** Boot: RAM comes from storage, the panel is as it was left. */
  function Booted(prefs: Prefs, panel: Paint): Epaper {
    var configured := Clamped(OrElse(prefs.wakeMin, DEFAULT_WAKE_MIN));
    Epaper(OrElse(prefs.etag, ""), OrElse(prefs.unchangedCount, 0), OrElse(prefs.failureCount, 0), configured,
           OrElse(prefs.lastScheduled, configured), OrElse(prefs.minutes, 0), OrElse(prefs.retired, false),
           prefs, panel)
  }

  function Persisted(s: Epaper): Epaper {
    s.(prefs := s.prefs.(etag := Some(s.etag),
                         unchangedCount := Some(s.unchangedCount), failureCount := Some(s.failureCount),
                         minutes := Some(s.minutes), lastScheduled := Some(s.lastScheduled)))
  }

  function CacheCleared(s: Epaper): Epaper {
    s.(etag := "", unchangedCount := 0, prefs := s.prefs.(etag := None, unchangedCount := Some(0)))
  }

  function CadenceSet(s: Epaper, minutes: U32): Epaper {
    if Clamped(minutes) == s.configured then s
    else s.(configured := Clamped(minutes), prefs := s.prefs.(wakeMin := Some(Clamped(minutes))))
  }

  function RetiredSet(s: Epaper, retired: bool): Epaper {
    s.(retired := retired, prefs := s.prefs.(retired := Some(retired)))
  }

  // ---- One cycle -------------------------------------------------------------

  /** Strips the quotes of a quoted ETag header. */
  function Unquoted(etag: string): string {
    if |etag| >= 2 && etag[0] == '"' && etag[|etag| - 1] == '"' then etag[1..|etag| - 1] else etag
  }

  function ResultOf(reply: Reply): Result {
    if reply.NoLink? then Error
    else if reply.code == 304 then Unchanged
    else if reply.code == 409 then Bind
    else if reply.code == 404 then Retired
    else if reply.code == 200 && reply.paints then Ok
    else Error
  }

  /** The fetch, and the card painted for the two replies that ask for one. */
  function Fetched(s: Epaper, reply: Reply): Epaper {
    var result := ResultOf(reply);
    if reply.Http? && reply.code == 200 then
      var etag := Unquoted(reply.etag);
      s.(etag := etag, panel := if reply.paints then Image(etag) else s.panel)
    else if result == Bind then s.(panel := BindCard)
    else if result == Result.Retired then s.(panel := RetiredCard)
    else s
  }

  function Increment(n: U32): U32 {
    if n < U32_MAX then n + 1 else n
  }

  function Counted(s: Epaper, result: Result): Epaper {
    match result
    case Unchanged => s.(failureCount := 0, unchangedCount := Increment(s.unchangedCount))
    case Error => s.(unchangedCount := 0, failureCount := Increment(s.failureCount))
    case _ => s.(unchangedCount := 0, failureCount := 0)
  }

  /** The sleep chosen from the counters as they were before this result. */
  function Scheduled(result: Result, configured: U32, unchangedCount: U32, failureCount: U32): U32 {
    match result
    case Ok => configured
    case Unchanged => Doubled(configured, unchangedCount, MAX_QUIET_WAKE_MIN)
    case Bind => SETUP_RETRY_WAKE_MIN
    case Retired => RETIRED_WAKE_MIN
    case Error => Doubled(ERROR_BASE_WAKE_MIN, failureCount, MAX_ERROR_WAKE_MIN)
  }

  function NextWake(s: Epaper, result: Result): U32 {
    Scheduled(result, s.configured, s.unchangedCount, s.failureCount)
  }

  /** `slept` is `None` for an update or a factory reset, which restart instead of sleeping;
      `request` is the tag sent with the image request, when one is made. */
  datatype Outcome = Outcome(
    state: Epaper, result: Option<Result>, slept: Option<U32>, request: Option<string>,
    swept: bool, cleared: bool)

  /** Counts the sleep just ended. */
  function Aged(s: Epaper): Epaper {
    s.(minutes := Sum32(s.minutes, s.lastScheduled))
  }

  /** Up to the branch: elapsed minutes and the new cadence. */
  function Prepared(s: Epaper, w: Wake): Epaper {
    if w.wakeMin.Some? then CadenceSet(Aged(s), w.wakeMin.value) else Aged(s)
  }

  function Finished(s: Epaper, result: Result): Epaper {
    Persisted(Counted(s, result).(lastScheduled := NextWake(s, result)))
  }

  /** A ghosting sweep is due. */
  predicate SweepDue(s: Epaper, w: Wake) {
    w.fullRefresh || s.minutes >= FULL_REFRESH_MIN
  }

  function Swept(s: Epaper): Epaper {
    CacheCleared(s.(panel := White)).(minutes := 0)
  }

  function FetchReady(s: Epaper, w: Wake): Epaper {
    var refreshed := if w.forceRefresh then CacheCleared(s) else s;
    if SweepDue(s, w) then Swept(refreshed) else refreshed
  }

  datatype Action = Action(state: Epaper, result: Result, request: Option<string>, swept: bool, cleared: bool)

  /** The command branches, or the image request. */
  function Acted(s: Epaper, w: Wake): Action {
    if w.retire then Action(RetiredSet(s, true).(panel := RetiredCard), Result.Retired, None, false, false)
    else if w.identify then Action(s.(panel := IdentifyCard), Ok, None, false, false)
    else if s.retired then Action(s.(panel := RetiredCard), Result.Retired, None, false, false)
    else
      var ready := FetchReady(s, w);
      Action(Fetched(ready, w.reply), ResultOf(w.reply), if w.reply.NoLink? then None else Some(ready.etag),
             SweepDue(s, w), w.forceRefresh || SweepDue(s, w))
  }

  function Cycled(s: Epaper, w: Wake): Outcome {
    var ready := Prepared(s, w);
    if w.updated then Outcome(Aged(s), None, None, None, false, false)
    else if w.factoryReset then
      Outcome(ready.(prefs := EMPTY, panel := FactoryResetCard), None, None, None, false, false)
    else
      var a := Acted(if w.unretire then RetiredSet(ready, false) else ready, w);
      Outcome(Finished(a.state, a.result), Some(a.result), Some(Clamped(NextWake(a.state, a.result))),
              a.request, a.swept, a.cleared)
  }

  // ---- The device's form -----------------------------------------------------

  method SaturatingDoubledInterval(base: U32, exponent: U32, cap: U32) returns (minutes: U32)
    ensures minutes == Doubled(base, exponent, cap)
  {
    minutes := base;
    var i := 0;
    while i < exponent && minutes < cap
      invariant 0 <= i <= exponent
      invariant minutes == base * Pow2(i)
      decreases exponent - i
    {
      if minutes > cap / 2 {
        DoublingGrows(base, i + 1, exponent);
        return cap;
      }
      minutes := minutes * 2;
      i := i + 1;
    }
    DoublingGrows(base, i, exponent);
    if minutes > cap {
      minutes := cap;
    }
  }

  lemma DoublingGrows(base: U32, a: nat, b: nat)
    requires a <= b
    ensures base * Pow2(a) <= base * Pow2(b)
  {
    Pow2Grows(a, b);
  }

  class EpaperDevice {
    var etag: string
    var unchangedCount: U32
    var failureCount: U32
    var configured: U32
    var lastScheduled: U32
    var minutes: U32
    var retired: bool
    var ranThisBoot: bool
    var prefs: Prefs
    var panel: Paint

    ghost function View(): Epaper
      reads this
    {
      Epaper(etag, unchangedCount, failureCount, configured, lastScheduled, minutes, retired, prefs, panel)
    }

    /** Boot, with storage and panel as the last cycle left them. */
    constructor (prefs: Prefs, panel: Paint)
      ensures View() == Booted(prefs, panel) && !ranThisBoot
    {
      this.prefs, this.panel, ranThisBoot := prefs, panel, false;
      etag := OrElse(prefs.etag, "");
      unchangedCount := OrElse(prefs.unchangedCount, 0);
      failureCount := OrElse(prefs.failureCount, 0);
      var wakeMin := Clamped(OrElse(prefs.wakeMin, DEFAULT_WAKE_MIN));
      configured := wakeMin;
      lastScheduled := OrElse(prefs.lastScheduled, wakeMin);
      minutes := OrElse(prefs.minutes, 0);
      retired := OrElse(prefs.retired, false);
    }

    method PersistWakeState()
      modifies `prefs
      ensures View() == Persisted(old(View()))
    {
      prefs := prefs.(etag := Some(etag));
      prefs := prefs.(unchangedCount := Some(unchangedCount));
      prefs := prefs.(failureCount := Some(failureCount));
      prefs := prefs.(minutes := Some(minutes));
      prefs := prefs.(lastScheduled := Some(lastScheduled));
    }

    method ClearImageCache()
      modifies `etag, `unchangedCount, `prefs
      ensures View() == CacheCleared(old(View()))
    {
      etag := "";
      unchangedCount := 0;
      prefs := prefs.(etag := None);
      prefs := prefs.(unchangedCount := Some(0));
    }

    method ApplyWakeCadence(wakeMin: U32)
      modifies `configured, `prefs
      ensures View() == CadenceSet(old(View()), wakeMin)
    {
      var clamped := Clamped(wakeMin);
      if clamped == configured {
        return;
      }
      configured := clamped;
      prefs := prefs.(wakeMin := Some(configured));
    }

    method PersistRetiredFlag(flag: bool)
      modifies `retired, `prefs
      ensures View() == RetiredSet(old(View()), flag)
    {
      retired := flag;
      prefs := prefs.(retired := Some(flag));
    }

    method NextWakeIntervalForResult(result: Result) returns (next: U32)
      modifies `unchangedCount, `failureCount
      ensures View() == Counted(old(View()), result)
      ensures next == NextWake(old(View()), result)
    {
      match result {
        case Ok =>
          unchangedCount, failureCount := 0, 0;
          next := configured;
        case Unchanged =>
          failureCount := 0;
          var exponent := unchangedCount;
          if unchangedCount < U32_MAX {
            unchangedCount := unchangedCount + 1;
          }
          next := SaturatingDoubledInterval(configured, exponent, MAX_QUIET_WAKE_MIN);
        case Bind =>
          unchangedCount, failureCount := 0, 0;
          next := SETUP_RETRY_WAKE_MIN;
        case Retired =>
          unchangedCount, failureCount := 0, 0;
          next := RETIRED_WAKE_MIN;
        case Error =>
          unchangedCount := 0;
          var exponent := failureCount;
          if failureCount < U32_MAX {
            failureCount := failureCount + 1;
          }
          next := SaturatingDoubledInterval(ERROR_BASE_WAKE_MIN, exponent, MAX_ERROR_WAKE_MIN);
      }
    }

    method FetchImage(reply: Reply) returns (result: Result)
      modifies `etag, `panel
      ensures result == ResultOf(reply)
      ensures View() == Fetched(old(View()), reply)
    {
      match reply {
        case NoLink =>
          return Error;
        case Http(code, header, paints) =>
          if code == 304 {
            return Unchanged;
          }
          if code == 409 {
            panel := BindCard;
            return Bind;
          }
          if code == 404 {
            panel := RetiredCard;
            return Result.Retired;
          }
          if code != 200 {
            return Error;
          }
          etag := Unquoted(header);
          if !paints {
            return Error;
          }
          panel := Image(etag);
          return Ok;
      }
    }

    /** The ghosting check and the image request; `request` is the tag it carries. */
    method RefreshAndFetch(w: Wake) returns (result: Result, request: string)
      modifies this
      ensures result == ResultOf(w.reply)
      ensures request == FetchReady(old(View()), w).etag
      ensures View() == Fetched(FetchReady(old(View()), w), w.reply) && ranThisBoot == old(ranThisBoot)
    {
      if w.forceRefresh {
        ClearImageCache();
      }
      var ghostingDue := w.fullRefresh || minutes >= FULL_REFRESH_MIN;
      if ghostingDue {
        panel := White;
        ClearImageCache();
        minutes := 0;
      }
      request := etag;
      result := FetchImage(w.reply);
    }

    method Act(w: Wake) returns (result: Result, request: Option<string>)
      modifies this
      ensures var a := Acted(old(View()), w);
              View() == a.state && result == a.result && request == a.request
      ensures ranThisBoot == old(ranThisBoot)
    {
      request := None;
      if w.retire {
        PersistRetiredFlag(true);
        panel := RetiredCard;
        return Result.Retired, None;
      }
      if w.identify {
        panel := IdentifyCard;
        return Ok, None;
      }
      if retired {
        panel := RetiredCard;
        return Result.Retired, None;
      }
      var sent;
      result, sent := RefreshAndFetch(w);
      if w.reply.Http? {
        request := Some(sent);
      }
    }

    method Finish(result: Result) returns (slept: U32)
      modifies `unchangedCount, `failureCount, `lastScheduled, `prefs
      ensures View() == Finished(old(View()), result)
      ensures slept == Clamped(NextWake(old(View()), result))
    {
      var next := NextWakeIntervalForResult(result);
      lastScheduled := next;
      PersistWakeState();
      slept := Clamped(next);
    }

    /** The whole cycle; a second call in the same boot does nothing. */
    method Tick(w: Wake) returns (slept: Option<U32>, request: Option<string>)
      modifies this
      ensures old(ranThisBoot) ==> View() == old(View()) && slept.None? && request.None?
      ensures !old(ranThisBoot) ==>
                var o := Cycled(old(View()), w);
                View() == o.state && slept == o.slept && request == o.request
      ensures ranThisBoot
    {
      slept, request := None, None;
      if ranThisBoot {
        return;
      }
      ranThisBoot := true;
      minutes := Sum32(minutes, lastScheduled);
      if w.updated {
        return;
      }
      if w.wakeMin.Some? {
        ApplyWakeCadence(w.wakeMin.value);
      }
      if w.factoryReset {
        panel := FactoryResetCard;
        prefs := EMPTY;
        return;
      }
      if w.unretire {
        PersistRetiredFlag(false);
      }
      var result;
      result, request := Act(w);
      var minutesAsleep := Finish(result);
      slept := Some(minutesAsleep);
    }
  }
}
