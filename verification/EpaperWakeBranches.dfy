/** What each branch of the ePaper wake shows, requests and sleeps, and what the stored
    flags and cadence are after any history of wakes.
 */
module EpaperWakeBranches {
  import opened Words
  import opened EpaperWake
  import opened EpaperWakeRuns

  // ---- One wake --------------------------------------------------------------

  /** A device from the factory: no tag, no counts, an hour between wakes. */
  lemma FactoryState()
    ensures State([]) == Epaper("", 0, 0, 60, 60, 0, false, Prefs(None, None, None, None, None, None, None), Blank)
  {
  }

  /** The wakes that do not reach the image request: the card each paints, and its result.
      None of them sends a request. */
  lemma BranchFates(s: Epaper, w: Wake)
    requires !w.updated && !FetchBranch(s, w)
    ensures var o, t := Cycled(s, w), Cycled(s, w).state;
            && o.request == None && !o.swept && !o.cleared
            && (if w.factoryReset then t.panel == FactoryResetCard && o.result == None && o.slept == None
                else if w.retire then t.panel == RetiredCard && o.result == Some(Result.Retired)
                else if w.identify then t.panel == IdentifyCard && o.result == Some(Ok)
                else t.panel == RetiredCard && o.result == Some(Result.Retired))
  {
  }

  /** What the image request comes to, by the server's reply: the result, the panel, the
      tag held afterwards and the minutes slept.  A sweep has whitened the panel before,
      and it or a forced refresh has dropped the tag, which is the one sent. */
  lemma FetchFates(s: Epaper, w: Wake)
    requires FetchBranch(s, w) && s.configured >= 5
    ensures var o, t := Cycled(s, w), Cycled(s, w).state;
            var tag := if w.forceRefresh || SweepComes(s, w) then "" else s.etag;
            var shown := if SweepComes(s, w) then White else s.panel;
            var quiet := if w.forceRefresh || SweepComes(s, w) then 0 else s.unchangedCount;
            && o.request == (if w.reply.NoLink? then None else Some(tag))
            && !t.retired && o.swept == SweepComes(s, w)
            && (match w.reply
                case NoLink =>
                  o.result == Some(Error) && t.panel == shown && t.etag == tag
                  && o.slept == Some(Doubled(15, s.failureCount, 240))
                case Http(code, header, paints) =>
                  if code == 200 then
                    && t.etag == Unquoted(header) && t.panel == (if paints then Image(t.etag) else shown)
                    && o.result == Some(if paints then Ok else Error)
                    && o.slept == Some(if paints then t.configured else Doubled(15, s.failureCount, 240))
                  else
                    && t.etag == tag
                    && (if code == 304 then o.result == Some(Unchanged) && t.panel == shown
                                            && o.slept == Some(Doubled(t.configured, quiet, 720))
                        else if code == 404 then o.result == Some(Result.Retired) && t.panel == RetiredCard
                                                 && o.slept == Some(720)
                        else if code == 409 then o.result == Some(Bind) && t.panel == BindCard && o.slept == Some(5)
                        else o.result == Some(Error) && t.panel == shown
                             && o.slept == Some(Doubled(15, s.failureCount, 240))))
  {
    ReadyEffect(s, w);
    var a := Acted(Ready(s, w), w);
    assert a.state == Fetched(FetchReady(Ready(s, w), w), w.reply) && a.result == ResultOf(w.reply);
    CycleEffect(s, w);
    DoubledAtLeast(15, s.failureCount, 240);
    DoubledAtLeast(Ready(s, w).configured, if a.cleared then 0 else s.unchangedCount, 720);
  }

  /** Each further step doubles an interval until the cap holds it. */
  lemma DoublingStep(base: U32, exponent: nat, cap: U32)
    ensures Doubled(base, 0, cap) == Min(base, cap)
    ensures Doubled(base, exponent + 1, cap) == Min(2 * Doubled(base, exponent, cap), cap)
  {
    var p := Pow2(exponent);
    assert Pow2(exponent + 1) == 2 * p && base * (2 * p) == 2 * (base * p);
  }

  /** A tag travels in quotes: the header's are taken off, one pair at most, and anything
      else is kept as it is. */
  lemma TagWithoutQuotes(tag: string)
    ensures Unquoted("\"" + tag + "\"") == tag
    ensures (tag == "" || tag[0] != '"' || tag[|tag| - 1] != '"') ==> Unquoted(tag) == tag
    ensures Unquoted("\"") == "\""
  {
    var quoted := "\"" + tag + "\"";
    assert quoted[1..|quoted| - 1] == tag;
  }

  /** A cleared cache, a new cadence and a changed retirement are in storage at once: a boot
      after a power loss in mid-wake finds them, and everything else as it was stored. */
  lemma CommandsSurvivePowerLoss(s: Epaper, minutes: U32, retired: bool)
    requires Saved(s)
    ensures var was := Booted(s.prefs, s.panel);
            && Booted(CacheCleared(s).prefs, s.panel) ==
               was.(etag := "", unchangedCount := 0, prefs := CacheCleared(s).prefs)
            && Booted(RetiredSet(s, retired).prefs, s.panel) ==
               was.(retired := retired, prefs := RetiredSet(s, retired).prefs)
            && Booted(CadenceSet(s, minutes).prefs, s.panel).configured == (if minutes < 5 then 5 else minutes)
  {
  }

  // ---- Retirement ------------------------------------------------------------

  /** The last word of a history on whether the display is retired. */
  function RetiredAfter(wakes: seq<Wake>): bool {
    if wakes == [] then false else
      var w, before := wakes[|wakes| - 1], wakes[..|wakes| - 1];
      if w.updated then RetiredAfter(before)
      else !w.factoryReset && (w.retire || (!w.unretire && RetiredAfter(before)))
  }

  lemma CycleRetires(s: Epaper, w: Wake)
    requires !w.updated && !w.factoryReset
    ensures Cycled(s, w).state.retired == (w.retire || (!w.unretire && s.retired))
  {
  }

  /** The stored flag is that last word, through every sleep and reset. */
  lemma {:induction false} RetiredIsLast(wakes: seq<Wake>)
    ensures State(wakes).retired == RetiredAfter(wakes)
  {
    if wakes != [] {
      var n := |wakes| - 1;
      RetiredIsLast(wakes[..n]);
      if wakes[n].updated {
        UpdateSkipped(wakes);
      } else if !wakes[n].factoryReset {
        StateIsLast(wakes);
        CycleRetires(State(wakes[..n]), wakes[n]);
      }
    }
  }

  /** Nothing in these wakes lifts a retirement. */
  predicate NoReprieve(wakes: seq<Wake>) {
    forall w <- wakes :: !w.unretire && !w.factoryReset
  }

  lemma {:induction false} RetiredThroughout(wakes: seq<Wake>, later: seq<Wake>)
    requires RetiredAfter(wakes) && NoReprieve(later)
    ensures RetiredAfter(wakes + later)
  {
    if later == [] {
      assert wakes + later == wakes;
    } else {
      var n := |later| - 1;
      RetiredThroughout(wakes, later[..n]);
      assert (wakes + later)[..|wakes + later| - 1] == wakes + later[..n];
    }
  }

  /** After a wake that retires the display, any number of wakes without reprieve leave it
      retired: the last of them sends no request, and no wake shows anything but a card. */
  lemma {:induction false} RetirementLasts(wakes: seq<Wake>, w: Wake, later: seq<Wake>)
    requires w.retire && !w.updated && !w.factoryReset && NoReprieve(later)
    ensures var all := wakes + [w] + later;
            && State(all).retired && State(all).panel in {RetiredCard, IdentifyCard}
            && Last(all).request == None
  {
    var all := wakes + [w] + later;
    assert (wakes + [w])[..|wakes|] == wakes;
    RetiredThroughout(wakes + [w], later);
    RetiredIsLast(all);
    if later == [] {
      assert all == wakes + [w];
      Appended(wakes, w);
      BranchFates(State(wakes), w);
    } else {
      var n := |later| - 1;
      RetirementLasts(wakes, w, later[..n]);
      var before := wakes + [w] + later[..n];
      assert all == before + [later[n]] && later[n] in later;
      Appended(before, later[n]);
      if later[n].updated {
        UpdateLeavesNoTrace(before, later[n]);
      } else {
        BranchFates(State(before), later[n]);
      }
    }
  }

  /** A reprieve that does not retire it again ends that at once: the wake goes on to the
      image request, unless it is an identify command. */
  lemma ReprieveEnds(wakes: seq<Wake>, w: Wake)
    requires w.unretire && !w.retire && !w.updated && !w.factoryReset
    ensures !State(wakes + [w]).retired
    ensures !w.identify ==> FetchBranch(State(wakes), w)
  {
    assert (wakes + [w])[..|wakes|] == wakes;
    RetiredIsLast(wakes + [w]);
  }

  // ---- Cadence and reset -----------------------------------------------------

  /** The last cadence that the server has set, never below five minutes. */
  function CadenceAfter(wakes: seq<Wake>): U32 {
    if wakes == [] then 60 else
      var w, before := wakes[|wakes| - 1], wakes[..|wakes| - 1];
      if w.updated then CadenceAfter(before)
      else if w.factoryReset then 60
      else if w.wakeMin.Some? then if w.wakeMin.value < 5 then 5 else w.wakeMin.value
      else CadenceAfter(before)
  }

  lemma {:induction false} CadenceIsLast(wakes: seq<Wake>)
    ensures State(wakes).configured == CadenceAfter(wakes)
  {
    if wakes != [] {
      var n := |wakes| - 1;
      CadenceIsLast(wakes[..n]);
      if wakes[n].updated {
        UpdateSkipped(wakes);
      } else if !wakes[n].factoryReset {
        StateIsLast(wakes);
        CycleEffect(State(wakes[..n]), wakes[n]);
      }
    }
  }

  /** A factory reset forgets everything but its own card. */
  lemma ResetForgets(wakes: seq<Wake>, w: Wake)
    requires w.factoryReset && !w.updated
    ensures State(wakes + [w]) == State([]).(panel := FactoryResetCard)
  {
    Appended(wakes, w);
  }
}
