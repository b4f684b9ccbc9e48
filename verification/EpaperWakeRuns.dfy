/** The ePaper cadence, ghosting accumulator and cache tag over a whole history of
    wakes, each separated from the next by a deep sleep that erases RAM.
 */
module EpaperWakeRuns {
  import opened Words
  import opened EpaperWake

  /** What the boot after `wakes` finds, on a device that left the factory blank. */
  function State(wakes: seq<Wake>): Epaper
    decreases |wakes|, 1
  {
    if wakes == [] then Booted(EMPTY, Blank)
    else var t := Last(wakes).state; Booted(t.prefs, t.panel)
  }

  function Last(wakes: seq<Wake>): Outcome
    requires wakes != []
    decreases |wakes|, 0
  {
    Cycled(State(wakes[..|wakes| - 1]), wakes[|wakes| - 1])
  }

  /** The outcome of every wake so far that ran its course, oldest first. */
  function Outcomes(wakes: seq<Wake>): seq<Outcome> {
    if wakes == [] then []
    else if wakes[|wakes| - 1].updated then Outcomes(wakes[..|wakes| - 1])
    else Outcomes(wakes[..|wakes| - 1]) + [Last(wakes)]
  }

  lemma Appended(wakes: seq<Wake>, w: Wake)
    ensures Last(wakes + [w]) == Cycled(State(wakes), w)
    ensures var t := Cycled(State(wakes), w).state; State(wakes + [w]) == Booted(t.prefs, t.panel)
    ensures Outcomes(wakes + [w]) == if w.updated then Outcomes(wakes) else Outcomes(wakes) + [Last(wakes + [w])]
  {
    assert (wakes + [w])[..|wakes|] == wakes;
  }

  /** An update that restarts the device in mid-wake leaves no trace in the cycle's state:
      the elapsed minutes it had counted are counted again by the boot that follows. */
  lemma UpdateLeavesNoTrace(wakes: seq<Wake>, w: Wake)
    requires w.updated
    ensures State(wakes + [w]) == State(wakes) && Outcomes(wakes + [w]) == Outcomes(wakes)
  {
    Appended(wakes, w);
    StateIsBooted(wakes);
  }

  /** The last wake changed nothing that the next boot finds. */
  lemma UpdateSkipped(wakes: seq<Wake>)
    requires wakes != [] && wakes[|wakes| - 1].updated
    ensures State(wakes) == State(wakes[..|wakes| - 1])
  {
    assert wakes[..|wakes| - 1] + [wakes[|wakes| - 1]] == wakes;
    UpdateLeavesNoTrace(wakes[..|wakes| - 1], wakes[|wakes| - 1]);
  }

  // ---- One cycle -------------------------------------------------------------

  /** The state the branch starts from. */
  function Ready(s: Epaper, w: Wake): Epaper {
    var ready := Prepared(s, w); if w.unretire then RetiredSet(ready, false) else ready
  }

  predicate FetchBranch(s: Epaper, w: Wake) {
    !w.updated && !w.factoryReset && !w.retire && !w.identify && (w.unretire || !s.retired)
  }

  lemma ReadyEffect(s: Epaper, w: Wake)
    ensures var r := Ready(s, w);
            && r.unchangedCount == s.unchangedCount && r.failureCount == s.failureCount
            && r.minutes == Sum32(s.minutes, s.lastScheduled)
            && r.etag == s.etag && r.panel == s.panel && r.retired == (!w.unretire && s.retired)
            && (s.configured >= MIN_WAKE_MIN ==> r.configured >= MIN_WAKE_MIN)
  {
  }

  lemma ActedEffect(s: Epaper, w: Wake)
    ensures var a := Acted(s, w);
            && a.state.configured == s.configured && a.state.failureCount == s.failureCount
            && a.state.unchangedCount == (if a.cleared then 0 else s.unchangedCount)
            && a.state.minutes == (if a.swept then 0 else s.minutes)
            && (a.swept ==> a.cleared)
  {
  }

  /** What one cycle does to the counters and the schedule. */
  lemma CycleEffect(s: Epaper, w: Wake)
    requires !w.updated && !w.factoryReset
    ensures var o, t := Cycled(s, w), Cycled(s, w).state;
            && o.result.Some? && t.configured == Ready(s, w).configured
            && t.unchangedCount == (if o.result != Some(Unchanged) then 0
                                    else Increment(if o.cleared then 0 else s.unchangedCount))
            && t.failureCount == (if o.result != Some(Error) then 0 else Increment(s.failureCount))
            && t.minutes == (if o.swept then 0 else Sum32(s.minutes, s.lastScheduled))
            && t.lastScheduled == Scheduled(o.result.value, t.configured,
                                            if o.cleared then 0 else s.unchangedCount, s.failureCount)
            && o.slept == Some(Clamped(t.lastScheduled))
  {
    ReadyEffect(s, w);
    ActedEffect(Ready(s, w), w);
    var a := Acted(Ready(s, w), w);
    assert Cycled(s, w).state == Finished(a.state, a.result);
  }

  // ---- Deep sleep ------------------------------------------------------------

  /** Storage holds what the cadence and the retired flag say. */
  ghost predicate Saved(s: Epaper) {
    && s.configured == Clamped(OrElse(s.prefs.wakeMin, DEFAULT_WAKE_MIN))
    && s.retired == OrElse(s.prefs.retired, false)
  }

  lemma ActionSaves(s: Epaper, w: Wake)
    requires Saved(s)
    ensures Saved(Acted(s, w).state)
  {
  }

  /** The RAM state in which a cycle goes to sleep is exactly the one the next boot reads
      back. */
  lemma SleepKeepsState(prefs: Prefs, panel: Paint, w: Wake)
    requires !w.updated && !w.factoryReset
    ensures var t := Cycled(Booted(prefs, panel), w).state;
            Booted(t.prefs, t.panel) == t
  {
    var ready := Prepared(Booted(prefs, panel), w);
    assert Saved(ready);
    var a := Acted(Ready(Booted(prefs, panel), w), w);
    ActionSaves(Ready(Booted(prefs, panel), w), w);
    FinishedSaves(a.state, a.result);
  }

  lemma FinishedSaves(s: Epaper, result: Result)
    requires Saved(s)
    ensures var t := Finished(s, result); Booted(t.prefs, t.panel) == t
  {
  }

  lemma StateIsLast(wakes: seq<Wake>)
    requires wakes != [] && !wakes[|wakes| - 1].updated && !wakes[|wakes| - 1].factoryReset
    ensures State(wakes) == Last(wakes).state
  {
    var before := State(wakes[..|wakes| - 1]);
    StateIsBooted(wakes[..|wakes| - 1]);
    SleepKeepsState(before.prefs, before.panel, wakes[|wakes| - 1]);
  }

  lemma StateIsBooted(wakes: seq<Wake>)
    ensures State(wakes) == Booted(State(wakes).prefs, State(wakes).panel)
  {
  }

  // ---- Counters --------------------------------------------------------------

  /** The last `k` wakes all found the image unchanged with no cache clear between
      them, and `k` cannot be extended. */
  ghost predicate QuietRun(h: seq<Outcome>, k: nat) {
    var n := |h|;
    && k <= n
    && (forall j :: n - k <= j < n ==> h[j].result == Some(Unchanged))
    && (forall j :: n - k < j < n ==> !h[j].cleared)
    && (k == n || h[n - k - 1].result != Some(Unchanged) || (k > 0 && h[n - k].cleared))
  }

  /** The last `k` wakes all failed, and `k` cannot be extended. */
  ghost predicate ErrorRun(h: seq<Outcome>, k: nat) {
    var n := |h|;
    && k <= n
    && (forall j :: n - k <= j < n ==> h[j].result == Some(Error))
    && (k == n || h[n - k - 1].result != Some(Error))
  }

  /** Every history has such a run, so `k` below is this number. */
  function QuietLength(h: seq<Outcome>): (k: nat)
    ensures QuietRun(h, k)
  {
    if h == [] || h[|h| - 1].result != Some(Unchanged) then 0
    else if h[|h| - 1].cleared then 1
    else 1 + QuietLength(h[..|h| - 1])
  }

  function ErrorLength(h: seq<Outcome>): (k: nat)
    ensures ErrorRun(h, k)
  {
    if h == [] || h[|h| - 1].result != Some(Error) then 0 else 1 + ErrorLength(h[..|h| - 1])
  }

  lemma QuietRunStep(h: seq<Outcome>, o: Outcome, k: nat)
    requires QuietRun(h + [o], k)
    ensures k == 0 <==> o.result != Some(Unchanged)
    ensures k > 0 && o.cleared ==> k == 1
    ensures k > 0 && !o.cleared ==> QuietRun(h, k - 1)
  {
    var g, n := h + [o], |h|;
    assert g[n] == o && forall j :: 0 <= j < n ==> g[j] == h[j];
  }

  lemma ErrorRunStep(h: seq<Outcome>, o: Outcome, k: nat)
    requires ErrorRun(h + [o], k)
    ensures k == 0 <==> o.result != Some(Error)
    ensures k > 0 ==> ErrorRun(h, k - 1)
  {
    var g, n := h + [o], |h|;
    assert g[n] == o && forall j :: 0 <= j < n ==> g[j] == h[j];
  }

  lemma {:induction false} UnchangedCountsRun(wakes: seq<Wake>, k: nat)
    requires QuietRun(Outcomes(wakes), k)
    ensures State(wakes).unchangedCount == Min(k, U32_MAX)
  {
    if wakes != [] && wakes[|wakes| - 1].updated {
      UpdateSkipped(wakes);
      UnchangedCountsRun(wakes[..|wakes| - 1], k);
    } else if wakes != [] {
      StepCounts(wakes);
      QuietRunStep(Outcomes(wakes[..|wakes| - 1]), Last(wakes), k);
      if k > 0 && !Last(wakes).cleared {
        UnchangedCountsRun(wakes[..|wakes| - 1], k - 1);
      }
    }
  }

  lemma {:induction false} FailuresCountRun(wakes: seq<Wake>, k: nat)
    requires ErrorRun(Outcomes(wakes), k)
    ensures State(wakes).failureCount == Min(k, U32_MAX)
  {
    if wakes != [] && wakes[|wakes| - 1].updated {
      UpdateSkipped(wakes);
      FailuresCountRun(wakes[..|wakes| - 1], k);
    } else if wakes != [] {
      StepCounts(wakes);
      ErrorRunStep(Outcomes(wakes[..|wakes| - 1]), Last(wakes), k);
      if k > 0 {
        FailuresCountRun(wakes[..|wakes| - 1], k - 1);
      }
    }
  }

  /** What one wake does to the two counters. */
  lemma StepCounts(wakes: seq<Wake>)
    requires wakes != [] && !wakes[|wakes| - 1].updated
    ensures var before, after, o := State(wakes[..|wakes| - 1]), State(wakes), Last(wakes);
            && after.unchangedCount == (if o.result != Some(Unchanged) then 0
                                        else if o.cleared then 1 else Increment(before.unchangedCount))
            && after.failureCount == (if o.result != Some(Error) then 0 else Increment(before.failureCount))
  {
    if !wakes[|wakes| - 1].factoryReset {
      StateIsLast(wakes);
      CycleEffect(State(wakes[..|wakes| - 1]), wakes[|wakes| - 1]);
    }
  }

  lemma {:induction false} NeverBoth(wakes: seq<Wake>)
    ensures State(wakes).unchangedCount == 0 || State(wakes).failureCount == 0
  {
    if wakes != [] && wakes[|wakes| - 1].updated {
      UpdateSkipped(wakes);
      NeverBoth(wakes[..|wakes| - 1]);
    } else if wakes != [] {
      StepCounts(wakes);
    }
  }

  // ---- Intervals -------------------------------------------------------------

  /** Doubling past the cap changes nothing, so saturated counters give true intervals. */
  lemma DoubledSaturates(base: U32, a: nat, b: nat, cap: U32)
    requires base >= 1 && cap <= 1024 && 10 <= a && 10 <= b
    ensures Doubled(base, a, cap) == Doubled(base, b, cap)
  {
    assert Pow2(10) == 1024;
    Pow2Grows(10, a);
    Pow2Grows(10, b);
    assert base * Pow2(a) >= 1024 && base * Pow2(b) >= 1024;
  }

  lemma DoubledAtLeast(base: U32, exponent: nat, cap: U32)
    requires base >= MIN_WAKE_MIN && cap >= MIN_WAKE_MIN
    ensures Doubled(base, exponent, cap) >= MIN_WAKE_MIN
  {
    assert base * Pow2(exponent) >= base;
  }

  /** The sleep after each result, by the length of the run it belongs to; it is never
      below five minutes and it is the interval that storage keeps. */
  lemma SleepFollowsRun(wakes: seq<Wake>, k: nat, j: nat)
    requires wakes != [] && QuietRun(Outcomes(wakes), k) && ErrorRun(Outcomes(wakes), j)
    ensures var o, s := Last(wakes), State(wakes);
            match o.result
            case None => o.slept.None?
            case Some(result) =>
              && o.slept == Some(s.lastScheduled) && s.lastScheduled >= MIN_WAKE_MIN
              && s.lastScheduled ==
                 (match result
                  case Ok => s.configured
                  case Unchanged => if k > 0 then Doubled(s.configured, k - 1, MAX_QUIET_WAKE_MIN) else 0
                  case Bind => SETUP_RETRY_WAKE_MIN
                  case Retired => RETIRED_WAKE_MIN
                  case Error => if j > 0 then Doubled(ERROR_BASE_WAKE_MIN, j - 1, MAX_ERROR_WAKE_MIN) else 0)
  {
    if !wakes[|wakes| - 1].updated && !wakes[|wakes| - 1].factoryReset {
      StateIsLast(wakes);
      QuietRunStep(Outcomes(wakes[..|wakes| - 1]), Last(wakes), k);
      ErrorRunStep(Outcomes(wakes[..|wakes| - 1]), Last(wakes), j);
      var before, o, s := State(wakes[..|wakes| - 1]), Last(wakes), State(wakes);
      CycleEffect(before, wakes[|wakes| - 1]);
      if o.result == Some(Unchanged) {
        UnchangedCountsRun(wakes, k);
        ExponentMatters(s.configured, if o.cleared then 0 else before.unchangedCount, k, MAX_QUIET_WAKE_MIN);
        DoubledAtLeast(s.configured, k - 1, MAX_QUIET_WAKE_MIN);
      } else if o.result == Some(Error) {
        FailuresCountRun(wakes, j);
        ExponentMatters(ERROR_BASE_WAKE_MIN, before.failureCount, j, MAX_ERROR_WAKE_MIN);
        DoubledAtLeast(ERROR_BASE_WAKE_MIN, j - 1, MAX_ERROR_WAKE_MIN);
      }
    }
  }

  lemma ExponentMatters(base: U32, count: U32, k: nat, cap: U32)
    requires base >= 1 && cap <= 1024 && k > 0 && Increment(count) == Min(k, U32_MAX)
    ensures Doubled(base, count, cap) == Doubled(base, k - 1, cap)
  {
    if count != k - 1 {
      DoubledSaturates(base, count, k - 1, cap);
    }
  }

  // ---- Ghosting --------------------------------------------------------------

  /** The scheduled minutes added since the last sweep, without wrap-around. */
  function Owed(wakes: seq<Wake>): nat {
    if wakes == [] then 0 else
      var n := |wakes| - 1;
      if wakes[n].updated then Owed(wakes[..n])
      else if wakes[n].factoryReset || Last(wakes).swept then 0
      else Owed(wakes[..n]) + State(wakes[..n]).lastScheduled
  }

  /** The counter reads the minutes owed. */
  lemma {:induction false} MinutesAreOwed(wakes: seq<Wake>) returns (owed: nat)
    ensures owed == Owed(wakes) && State(wakes).minutes == Stamp(owed)
  {
    if wakes == [] {
      owed := 0;
    } else {
      var n := |wakes| - 1;
      var was := MinutesAreOwed(wakes[..n]);
      if wakes[n].updated {
        UpdateSkipped(wakes);
        owed := was;
      } else {
        var sched := State(wakes[..n]).lastScheduled;
        StepMinutes(wakes);
        SumOfStamps(was, sched);
        owed := if wakes[n].factoryReset || Last(wakes).swept then 0 else was + sched;
      }
    }
  }

  lemma StepMinutes(wakes: seq<Wake>)
    requires wakes != [] && !wakes[|wakes| - 1].updated
    ensures var n := |wakes| - 1;
            var before := State(wakes[..n]);
            State(wakes).minutes == (if wakes[n].factoryReset || Last(wakes).swept then 0
                                     else Sum32(before.minutes, before.lastScheduled))
  {
    if !wakes[|wakes| - 1].factoryReset {
      StateIsLast(wakes);
      CycleEffect(State(wakes[..|wakes| - 1]), wakes[|wakes| - 1]);
    }
  }

  /** What the fetch branch does about the sweep: it runs on command or when the counter
      reads a day, and asks for the image without a tag. */
  lemma FetchSweeps(s: Epaper, w: Wake)
    requires FetchBranch(s, w)
    ensures var o := Cycled(s, w);
            && (o.swept <==> w.fullRefresh || Sum32(s.minutes, s.lastScheduled) >= FULL_REFRESH_MIN)
            && (o.swept ==> o.cleared && (o.request.Some? ==> o.request.value == ""))
  {
    ReadyEffect(s, w);
    assert Acted(Ready(s, w), w).swept == SweepDue(Ready(s, w), w);
  }

  /** Every wake that reaches the fetch ends below a day, and it has swept exactly on
      command or when the minutes owed, as the counter reads them, make a day.  That is
      when they truly make a day, except where the counter has wrapped to below one. */
  lemma SweepExactly(wakes: seq<Wake>) returns (owed: nat)
    requires wakes != [] && FetchBranch(State(wakes[..|wakes| - 1]), wakes[|wakes| - 1])
    ensures owed == Owed(wakes[..|wakes| - 1]) + State(wakes[..|wakes| - 1]).lastScheduled
    ensures State(wakes).minutes < FULL_REFRESH_MIN
    ensures Last(wakes).swept <==> wakes[|wakes| - 1].fullRefresh || Stamp(owed) >= FULL_REFRESH_MIN
    ensures !wakes[|wakes| - 1].fullRefresh ==>
              ((Last(wakes).swept <==> owed >= FULL_REFRESH_MIN)
               <==> owed < TWO32 || Stamp(owed) >= FULL_REFRESH_MIN)
  {
    var n := |wakes| - 1;
    var before, o := State(wakes[..n]), Last(wakes);
    owed := MinutesRead(wakes[..n]);
    StepMinutes(wakes);
    FetchSweeps(before, wakes[n]);
    assert o == Cycled(before, wakes[n]);
    Decides(o.swept, wakes[n].fullRefresh, Sum32(before.minutes, before.lastScheduled), owed);
  }

  lemma MinutesRead(wakes: seq<Wake>) returns (owed: nat)
    ensures owed == Owed(wakes) + State(wakes).lastScheduled
    ensures Sum32(State(wakes).minutes, State(wakes).lastScheduled) == Stamp(owed)
  {
    var was := MinutesAreOwed(wakes);
    var m, sched := State(wakes).minutes, State(wakes).lastScheduled;
    assert m == Stamp(was);
    SumOfStamps(was, sched);
    owed := was + sched;
    assert Sum32(m, sched) == Stamp(owed);
  }

  lemma Decides(swept: bool, command: bool, minutesRead: U32, owed: nat)
    requires minutesRead == Stamp(owed) && (swept <==> command || minutesRead >= FULL_REFRESH_MIN)
    ensures swept <==> command || Stamp(owed) >= FULL_REFRESH_MIN
    ensures !command ==>
              ((swept <==> owed >= FULL_REFRESH_MIN) <==> owed < TWO32 || Stamp(owed) >= FULL_REFRESH_MIN)
  {
  }

  // ---- The cache tag ---------------------------------------------------------

  /** A held tag names what the panel shows. */
  ghost predicate Honest(s: Epaper) {
    s.etag == "" || s.panel == Image(s.etag)
  }

  /** The wake finds the ghosting sweep due. */
  predicate SweepComes(s: Epaper, w: Wake) {
    w.fullRefresh || Sum32(s.minutes, s.lastScheduled) >= FULL_REFRESH_MIN
  }

  /** What a wake must find for the tag it leaves to tell the truth.  A painted card
      makes a held tag false, and so does the tag of an image that does not paint, unless
      that image was on the panel already and no sweep wiped it. */
  ghost predicate TellsTruth(s: Epaper, w: Wake) {
    if !FetchBranch(s, w) then s.etag == ""
    else if w.reply.Http? && w.reply.code == 200 then
      var tag := Unquoted(w.reply.etag);
      tag == "" || w.reply.paints || (s.panel == Image(tag) && !SweepComes(s, w))
    else if ResultOf(w.reply) in {Bind, Result.Retired} then s.etag == "" || w.forceRefresh || SweepComes(s, w)
    else Honest(s) || w.forceRefresh || SweepComes(s, w)
  }

  lemma CycleHonesty(s: Epaper, w: Wake)
    requires !w.updated && !w.factoryReset
    ensures Honest(Cycled(s, w).state) <==> TellsTruth(s, w)
  {
    ReadyEffect(s, w);
    var a := Acted(Ready(s, w), w);
    assert Cycled(s, w).state.etag == a.state.etag && Cycled(s, w).state.panel == a.state.panel;
  }

  /** After any run the tag tells the truth exactly when the last wake found what it
      takes; a factory reset forgets the tag, and an update leaves it as it was. */
  lemma HonestExactly(wakes: seq<Wake>, w: Wake)
    ensures Honest(State(wakes + [w])) <==>
            if w.updated then Honest(State(wakes)) else w.factoryReset || TellsTruth(State(wakes), w)
  {
    Appended(wakes, w);
    if w.updated {
      UpdateLeavesNoTrace(wakes, w);
    } else if !w.factoryReset {
      StateIsLast(wakes + [w]);
      CycleHonesty(State(wakes), w);
    }
  }

  /** After a sweep the panel is white, so the only tag that would keep it white is that
      of an image which then fails to paint. */
  lemma SweptHonestExactly(s: Epaper, w: Wake)
    requires Cycled(s, w).swept
    ensures Honest(Cycled(s, w).state) <==>
            !(w.reply.Http? && w.reply.code == 200 && !w.reply.paints && Unquoted(w.reply.etag) != "")
  {
    ReadyEffect(s, w);
    CycleHonesty(s, w);
  }

  /** From an honest state, "unchanged" in answer to a tag means the panel shows it. */
  lemma UnchangedIsTrue(s: Epaper, w: Wake)
    requires Honest(s)
    requires Cycled(s, w).result == Some(Unchanged) && Cycled(s, w).request.Some?
    ensures var tag := Cycled(s, w).request.value;
            tag != "" ==> Cycled(s, w).state.panel == Image(tag)
  {
  }

  // ---- Reachable failures ----------------------------------------------------

  /** A wake without commands. */
  function Plain(reply: Reply): Wake {
    Wake(false, false, false, false, false, false, false, None, reply)
  }

  /** The sweep's new tag belongs to an image that did not paint: the next request sends
      it, the server answers "unchanged", and the panel stays white. */
  lemma SweptPanelStaysWhite()
    ensures var sweep := Plain(Http(200, "v1", false)).(fullRefresh := true);
            var wakes := [sweep, Plain(Http(304, "", false))];
            && Last([sweep]).swept && Last(wakes).request == Some("v1")
            && Last(wakes).result == Some(Unchanged) && State(wakes).panel == White
  {
    var sweep, next := Plain(Http(200, "v1", false)).(fullRefresh := true), Plain(Http(304, "", false));
    Appended([], sweep);
    Appended([sweep], next);
    assert [] + [sweep] == [sweep] && [sweep] + [next] == [sweep, next];
  }

  lemma FetchedFirst()
    ensures var s := State([Plain(Http(200, "v1", true))]);
            s.etag == "v1" && s.panel == Image("v1") && !s.retired && s.minutes == 60 && s.lastScheduled == 60
  {
    var fetch := Plain(Http(200, "v1", true));
    Appended([], fetch);
    assert [] + [fetch] == [fetch];
  }

  /** An identify card over a fetched image: the tag is still sent, the server answers
      "unchanged", and the card stays up. */
  lemma IdentifyCardStays()
    ensures var fetch, identify := Plain(Http(200, "v1", true)), Plain(NoLink).(identify := true);
            var wakes := [fetch, identify, Plain(Http(304, "", false))];
            && State([fetch]).panel == Image("v1") && Last(wakes).request == Some("v1")
            && Last(wakes).result == Some(Unchanged) && State(wakes).panel == IdentifyCard
  {
    var fetch, identify := Plain(Http(200, "v1", true)), Plain(NoLink).(identify := true);
    var next := Plain(Http(304, "", false));
    FetchedFirst();
    Appended([fetch], identify);
    assert [fetch] + [identify] == [fetch, identify];
    var s := State([fetch, identify]);
    assert s.etag == "v1" && s.panel == IdentifyCard && !s.retired && s.minutes == 120 && s.lastScheduled == 60;
    Appended([fetch, identify], next);
    assert [fetch, identify] + [next] == [fetch, identify, next];
  }

  /** The server may set any cadence: one of 2^32 - 1 minutes wraps the counter to 59, and
      the sweep that is due does not come. */
  lemma WrappedCounterSkipsSweep()
    ensures var first := Plain(NoLink).(identify := true, wakeMin := Some(U32_MAX));
            var wakes := [first, Plain(Http(304, "", false))];
            && Owed([first]) + State([first]).lastScheduled == TWO32 + 59
            && FetchBranch(State([first]), wakes[1])
            && !Last(wakes).swept && State(wakes).minutes == 59
  {
    var first, next := Plain(NoLink).(identify := true, wakeMin := Some(U32_MAX)), Plain(Http(304, "", false));
    Appended([], first);
    Appended([first], next);
    assert [] + [first] == [first] && [first] + [next] == [first, next];
    assert Owed([first]) == Owed([]) + State([]).lastScheduled by {
      assert [first][..0] == [];
    }
  }
}
