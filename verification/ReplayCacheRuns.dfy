/** The replay cache against the plain list of accepted commands: within one boot it
    is a window of the last sixteen, and its text form survives a reboot exactly when
    the text fits and the values avoid the separators.
 */
module ReplayCacheRuns {
  import opened Words
  import opened ReplayCache

  datatype Command = Command(envelope: Envelope, clock: Clock)

  function Handled(c: Cache, m: Command): (r: (Cache, Verdict))
    requires c.Valid()
    ensures r.0.Valid()
  {
    var d := Loaded(c);
    var verdict := Judged(d, m.envelope, m.clock);
    (Remembered(d, verdict.Accepted?, m.envelope.commandId, m.envelope.nonce), verdict)
  }

  function VerdictOf(c: Cache, m: Command): Verdict
    requires c.Valid()
  {
    Handled(c, m).1
  }

  /** The cache of a boot once it has loaded. */
  function Boot(nvs: Option<string>): (c: Cache)
    ensures c.Valid() && c.loaded
  {
    Loaded(PowerUp(nvs))
  }

  /** The first command of a boot loads the cache if nothing has done so before, so runs
      may start from the loaded one. */
  lemma FirstCommandLoads(nvs: Option<string>, m: Command)
    ensures Handled(PowerUp(nvs), m) == Handled(Boot(nvs), m)
  {
  }

  function Run(c: Cache, commands: seq<Command>): (d: Cache)
    requires c.Valid()
    ensures d.Valid()
  {
    if commands == [] then c
    else Handled(Run(c, commands[..|commands| - 1]), commands[|commands| - 1]).0
  }

  /** The pairs accepted so far, oldest first: `h`, and those of this run. */
  function History(c: Cache, h: seq<Entry>, commands: seq<Command>): seq<Entry>
    requires c.Valid()
  {
    if commands == [] then h else
      var n := |commands| - 1;
      var e := commands[n].envelope;
      History(c, h, commands[..n])
      + if VerdictOf(Run(c, commands[..n]), commands[n]).Accepted? then [Entry(e.commandId, e.nonce)] else []
  }

  // ---- Acceptance ------------------------------------------------------------

  /** A command is accepted exactly when it passes every check. */
  lemma AcceptedExactly(c: Cache, e: Envelope, clock: Clock)
    requires c.Valid()
    ensures Judged(c, e, clock).Accepted? <==>
            && e.cmd != "" && e.actor != "" && e.issuedAtText != "" && e.expiresAtText != ""
            && 0 < |e.commandId| < 72 && 0 < |e.nonce| < 72
            && (e.jwt != "" || e.signature != "") && e.authentic
            && e.issuedAt.Some? && e.expiresAt.Some? && e.issuedAt.value < e.expiresAt.value
            && (if clock.valid then clock.now <= e.expiresAt.value && e.issuedAt.value <= clock.now + 300
                else e.challenge)
            && !Seen(c, e.commandId, e.nonce)
  {
  }

  /** The checks in the order in which they are made, each with its refusal. */
  function Findings(c: Cache, e: Envelope, clock: Clock): seq<(bool, Verdict)>
    requires c.Valid()
  {
    var dated := e.issuedAt.Some? && e.expiresAt.Some?;
    [ (e.cmd == "" || e.commandId == "" || e.issuedAtText == "" || e.expiresAtText == ""
       || e.nonce == "" || e.actor == "", MissingField),
      (e.jwt == "" && e.signature == "", MissingAuthenticator),
      (|e.commandId| > 71 || |e.nonce| > 71, FieldTooLong),
      (!dated, InvalidTimestamp),
      (dated && e.expiresAt.value <= e.issuedAt.value, Expired),
      (!clock.valid && !e.challenge, ClockInvalid),
      (dated && clock.valid && clock.now > e.expiresAt.value, Expired),
      (dated && clock.valid && e.issuedAt.value - clock.now > 300, IssuedInFuture),
      (Seen(c, e.commandId, e.nonce), ReplayDetected),
      (!e.authentic, NotAuthentic(e.authError)) ]
  }

  /** The first finding at or after `i`. */
  function FirstFinding(findings: seq<(bool, Verdict)>, i: nat): Verdict
    requires i <= |findings|
    decreases |findings| - i
  {
    if i == |findings| then Accepted
    else if findings[i].0 then findings[i].1
    else FirstFinding(findings, i + 1)
  }

  /** The verdict is the refusal of the first check that fails. */
  lemma VerdictIsFirstFinding(c: Cache, e: Envelope, clock: Clock)
    requires c.Valid()
    ensures Judged(c, e, clock) == FirstFinding(Findings(c, e, clock), 0)
  {
    var f := Findings(c, e, clock);
    assert FirstFinding(f, 9) == if f[9].0 then f[9].1 else Accepted;
    assert FirstFinding(f, 7) == if f[7].0 then f[7].1 else if f[8].0 then f[8].1 else FirstFinding(f, 9);
    assert FirstFinding(f, 5) == if f[5].0 then f[5].1 else if f[6].0 then f[6].1 else FirstFinding(f, 7);
    assert FirstFinding(f, 3) == if f[3].0 then f[3].1 else if f[4].0 then f[4].1 else FirstFinding(f, 5);
    assert FirstFinding(f, 1) == if f[1].0 then f[1].1 else if f[2].0 then f[2].1 else FirstFinding(f, 3);
  }

  // ---- The window ------------------------------------------------------------

  function Oldest(h: seq<Entry>): nat {
    if |h| <= CACHE_SIZE then 0 else |h| - CACHE_SIZE
  }

  predicate Proper(e: Entry) {
    0 < |e.commandId| < VALUE_MAX && 0 < |e.nonce| < VALUE_MAX
  }

  /** The ring is the window of `h` that starts at `Oldest(h)`: each pair sits in the
      slot of its index modulo sixteen. */
  ghost predicate Window(c: Cache, h: seq<Entry>) {
    && c.Valid()
    && c.count == |h| - Oldest(h) && c.next == |h| % CACHE_SIZE
    && (forall k :: Oldest(h) <= k < |h| ==> c.slots[k % CACHE_SIZE] == h[k])
    && (forall k :: 0 <= k < |h| ==> Proper(h[k]))
  }

  /** Storage holds the text of the ring. */
  ghost predicate Stored(c: Cache) {
    c.Valid() && c.nvs == if c.count == 0 then None else Some(Encode(c.slots[..c.count]))
  }

  lemma RememberedWindow(c: Cache, h: seq<Entry>, e: Entry)
    requires Window(c, h) && Proper(e)
    ensures Window(Remembered(c, true, e.commandId, e.nonce), h + [e])
  {
    var d, g := Remembered(c, true, e.commandId, e.nonce), h + [e];
    forall k | Oldest(g) <= k < |g|
      ensures d.slots[k % CACHE_SIZE] == g[k]
    {
      if k < |h| {
        SlotsDiffer(k, |h|);
      }
    }
    NextSlot(|h|);
  }

  lemma SlotsDiffer(k: nat, n: nat)
    requires k < n < k + CACHE_SIZE
    ensures k % CACHE_SIZE != n % CACHE_SIZE
  {
  }

  lemma NextSlot(n: nat)
    ensures (n % CACHE_SIZE + 1) % CACHE_SIZE == (n + 1) % CACHE_SIZE
  {
  }

  /** Every slot in use holds some pair of the window. */
  lemma SlotIndex(h: seq<Entry>, i: nat) returns (k: nat)
    requires i < |h| - Oldest(h)
    ensures Oldest(h) <= k < |h| && k % CACHE_SIZE == i
  {
    var o := Oldest(h);
    k := o + (i - o) % CACHE_SIZE;
    if o == 0 {
      assert k == i;
    }
  }

  /** Some pair of the window has this id or this nonce. */
  ghost predicate InWindow(h: seq<Entry>, commandId: string, nonce: string) {
    exists k :: Oldest(h) <= k < |h| && Matches(h[k], commandId, nonce)
  }

  /** The loop's answer is membership in the window. */
  lemma SeenMeansInWindow(c: Cache, h: seq<Entry>, commandId: string, nonce: string)
    requires Window(c, h)
    ensures Seen(c, commandId, nonce) <==> InWindow(h, commandId, nonce)
  {
    if Seen(c, commandId, nonce) {
      var i :| 0 <= i < c.count && Matches(c.slots[i], commandId, nonce);
      var k := SlotIndex(h, i);
      assert Matches(h[k], commandId, nonce);
    }
    if k :| Oldest(h) <= k < |h| && Matches(h[k], commandId, nonce) {
      WindowSlot(h, k);
      assert Matches(c.slots[k % CACHE_SIZE], commandId, nonce);
    }
  }

  lemma WindowSlot(h: seq<Entry>, k: nat)
    requires Oldest(h) <= k < |h|
    ensures k % CACHE_SIZE < |h| - Oldest(h)
  {
  }

  /** The cache remembers `h`, in RAM and in storage. */
  ghost predicate Remembers(c: Cache, h: seq<Entry>) {
    Window(c, h) && Stored(c) && c.loaded
  }

  lemma EmptyStoreRemembers()
    ensures Remembers(Boot(None), [])
  {
  }

  /** Over any run the ring is the window of the accepted list, and storage its text. */
  lemma {:induction false} RunIsWindow(c: Cache, h: seq<Entry>, commands: seq<Command>)
    requires Remembers(c, h)
    ensures Remembers(Run(c, commands), History(c, h, commands))
  {
    if commands != [] {
      var n := |commands| - 1;
      RunIsWindow(c, h, commands[..n]);
      var d, e := Run(c, commands[..n]), commands[n].envelope;
      assert Loaded(d) == d;
      if VerdictOf(d, commands[n]).Accepted? {
        AcceptedExactly(d, e, commands[n].clock);
        RememberedWindow(d, History(c, h, commands[..n]), Entry(e.commandId, e.nonce));
      } else {
        assert Run(c, commands) == d && History(c, h, commands) == History(c, h, commands[..n]);
      }
    }
  }

  /** Among any seventeen consecutive pairs no id and no nonce repeats. */
  ghost predicate NeverRepeats(h: seq<Entry>) {
    forall a, b :: 0 <= a < b < |h| && b - a <= CACHE_SIZE ==> Differ(h[a], h[b])
  }

  predicate Differ(e: Entry, f: Entry) {
    e.commandId != f.commandId && e.nonce != f.nonce
  }

  /** The accepted list never comes to repeat itself within seventeen commands. */
  lemma {:induction false} AcceptedNeverRepeat(c: Cache, h: seq<Entry>, commands: seq<Command>)
    requires Remembers(c, h) && NeverRepeats(h)
    ensures NeverRepeats(History(c, h, commands))
  {
    if commands != [] {
      var n := |commands| - 1;
      AcceptedNeverRepeat(c, h, commands[..n]);
      RunIsWindow(c, h, commands[..n]);
      if VerdictOf(Run(c, commands[..n]), commands[n]).Accepted? {
        AcceptedDiffers(Run(c, commands[..n]), History(c, h, commands[..n]), commands[n]);
      }
    }
  }

  lemma AcceptedDiffers(c: Cache, h: seq<Entry>, m: Command)
    requires Remembers(c, h) && NeverRepeats(h) && VerdictOf(c, m).Accepted?
    ensures NeverRepeats(h + [Entry(m.envelope.commandId, m.envelope.nonce)])
  {
    var e := m.envelope;
    assert Loaded(c) == c;
    AcceptedExactly(c, e, m.clock);
    SeenMeansInWindow(c, h, e.commandId, e.nonce);
    forall a | Oldest(h) <= a < |h|
      ensures Differ(h[a], Entry(e.commandId, e.nonce))
    {
      assert !Matches(h[a], e.commandId, e.nonce);
    }
  }

  /** An accepted id or nonce is refused until sixteen further commands have been
      accepted, and a command is called a replay for no other reason. */
  lemma RefusedExactlyInWindow(c: Cache, h: seq<Entry>, commands: seq<Command>, m: Command)
    requires Remembers(c, h)
    ensures var g, e, d := History(c, h, commands), m.envelope, Run(c, commands);
            && (InWindow(g, e.commandId, e.nonce) ==> !VerdictOf(d, m).Accepted?)
            && (VerdictOf(d, m).ReplayDetected? ==> InWindow(g, e.commandId, e.nonce))
  {
    var g, e, d := History(c, h, commands), m.envelope, Run(c, commands);
    RunIsWindow(c, h, commands);
    assert Loaded(d) == d;
    SeenMeansInWindow(d, g, e.commandId, e.nonce);
    JudgedSeen(d, e, m.clock);
  }

  lemma JudgedSeen(c: Cache, e: Envelope, clock: Clock)
    requires c.Valid()
    ensures Seen(c, e.commandId, e.nonce) ==> !Judged(c, e, clock).Accepted?
    ensures Judged(c, e, clock).ReplayDetected? ==> Seen(c, e.commandId, e.nonce)
  {
  }

  // ---- The text form ---------------------------------------------------------

  ghost predicate Clean(e: Entry) {
    ';' !in e.commandId && ';' !in e.nonce && ',' !in e.commandId
  }

  ghost predicate AllClean(entries: seq<Entry>) {
    forall i :: 0 <= i < |entries| ==> Clean(entries[i])
  }

  lemma EntryOfItem(e: Entry)
    requires Proper(e) && Clean(e)
    ensures EntryOf(Item(e)) == Some(e)
  {
    var text := Item(e);
    assert text[..|e.commandId|] == e.commandId;
    SpanUnique(text, ',', |e.commandId|);
    assert text[|e.commandId| + 1..] == e.nonce;
  }

  lemma FirstToken(entries: seq<Entry>)
    requires entries != [] && Clean(entries[0])
    ensures Tokens(Encode(entries)) == [Item(entries[0])] + Tokens(Encode(entries[1..]))
  {
    var head, rest, text := Item(entries[0]), Encode(entries[1..]), Encode(entries);
    var n := |head|;
    assert ';' !in head && text[0..n] == head && text[0..] == text;
    TokensTake(text, 0, n);
    if |entries| == 1 {
      assert text[n..] == "" == rest;
    } else {
      assert text[n..] == ";" + rest && text[n..][1..] == rest;
    }
  }

  /** Clean entries come back in order. */
  lemma {:induction false} DecodeEncode(entries: seq<Entry>)
    requires AllClean(entries) && forall i :: 0 <= i < |entries| ==> Proper(entries[i])
    ensures Decode(Encode(entries)) == entries
  {
    if entries != [] {
      FirstToken(entries);
      EntryOfItem(entries[0]);
      DecodeEncode(entries[1..]);
      var tokens := Tokens(Encode(entries));
      assert tokens[0] == Item(entries[0]) && tokens[1..] == Tokens(Encode(entries[1..]));
      assert entries == [entries[0]] + entries[1..];
    }
  }

  /** Nothing that a load reads contains a separator. */
  lemma {:induction false} DecodedIsClean(text: string)
    ensures AllClean(Decode(text))
    decreases |text|
  {
    if text != "" {
      if text[0] == ';' {
        DecodedIsClean(text[1..]);
      } else {
        var n := Span(text, ';');
        DecodedIsClean(text[n..]);
        TokenIsClean(text[..n]);
        assert ([text[..n]] + Tokens(text[n..]))[1..] == Tokens(text[n..]);
      }
    }
  }

  lemma TokenIsClean(token: string)
    requires ';' !in token
    ensures EntryOf(token).Some? ==> Clean(EntryOf(token).value)
  {
    var c := Span(token, ',');
    assert ';' !in token[..c];
    if c < |token| {
      assert ';' !in token[c + 1..];
    }
  }

  /** What the load that follows a reboot can restore in full. */
  ghost predicate Reloadable(c: Cache)
    requires c.Valid()
  {
    |Encode(c.slots[..c.count])| + 1 <= TEXT_MAX && AllClean(c.slots[..c.count])
  }

  /** What is read of one token: up to its first comma and from there on, each cut to the 71
      characters that fit; a token without a comma is not an entry. */
  lemma EntryMeaning(token: string, comma: nat)
    requires comma <= |token| && ',' !in token[..comma] && (comma < |token| ==> token[comma] == ',')
    ensures comma == |token| ==> EntryOf(token) == None
    ensures comma < |token| ==>
              && EntryOf(token).Some?
              && var e, rest := EntryOf(token).value, token[comma + 1..];
                 && e.commandId == token[..Min(comma, 71)] && e.nonce == rest[..Min(|rest|, 71)]
  {
    SpanUnique(token, ',', comma);
    if comma < |token| {
      assert token[..comma][..Min(comma, 71)] == token[..Min(comma, 71)];
      var rest := token[comma + 1..];
      assert rest[..|rest|] == rest;
    }
  }

  /** A boot loads its store once; later loads change nothing. */
  lemma LoadsOnce(c: Cache)
    requires c.Valid()
    ensures Loaded(c).loaded && Loaded(Loaded(c)) == Loaded(c)
  {
  }

  /** A refused command, or one whose id is missing or does not fit, or without a nonce,
      leaves no trace; an accepted one with both in bounds is in the next slot, and storage
      then holds the ring. */
  lemma RememberedOrNot(c: Cache, ok: bool, commandId: string, nonce: string)
    requires c.Valid()
    ensures var d := Remembered(c, ok, commandId, nonce);
            && (!ok || commandId == "" || nonce == "" || |commandId| > 71 ==> d == c)
            && (ok && 0 < |commandId| < 72 && 0 < |nonce| < 72 ==>
                  && d.slots == c.slots[c.next := Entry(commandId, nonce)]
                  && d.count == Min(c.count + 1, 16) && d.next == (if c.next == 15 then 0 else c.next + 1)
                  && Stored(d))
  {
  }

  /** An accepted command whose nonce does not fit leaves the ring half written: its id is
      in the next slot beside the nonce that was there, and nothing else has changed. */
  lemma LongNonceHalfWrites(c: Cache, commandId: string, nonce: string)
    requires c.Valid() && 0 < |commandId| < 72 && |nonce| >= 72
    ensures var d := Remembered(c, true, commandId, nonce);
            && d.slots[c.next] == Entry(commandId, c.slots[c.next].nonce)
            && (forall i :: 0 <= i < CACHE_SIZE && i != c.next ==> d.slots[i] == c.slots[i])
            && d.count == c.count && d.next == c.next && d.nvs == c.nvs
  {
  }

  /** A reload restores every entry in its own slot exactly when the text with its
      terminator fits the load's buffer and no value contains a separator. */
  lemma ReloadExact(c: Cache, h: seq<Entry>)
    requires Window(c, h) && Stored(c) && h != []
    ensures var held, d := c.slots[..c.count], Boot(c.nvs);
            d.count == c.count && d.slots[..d.count] == held
            <==> Reloadable(c)
  {
    var held, text := c.slots[..c.count], c.nvs.value;
    var all := Decode(text);
    forall i | 0 <= i < |held|
      ensures Proper(held[i])
    {
      var k := SlotIndex(h, i);
      assert held[i] == h[k];
    }
    DecodedIsClean(text);
    ReloadTakes(c);
    if AllClean(held) {
      DecodeEncode(held);
      assert all[..Min(|all|, CACHE_SIZE)] == held;
    }
    if all[..Min(|all|, CACHE_SIZE)] == held {
      assert AllClean(all[..Min(|all|, CACHE_SIZE)]);
    }
  }

  lemma ReloadTakes(c: Cache)
    requires c.Valid() && c.nvs.Some?
    ensures var d, all := Boot(c.nvs), Decode(c.nvs.value);
            d.slots[..d.count] == if |c.nvs.value| + 1 <= TEXT_MAX then all[..Min(|all|, CACHE_SIZE)] else []
  {
  }

  /** The next slot comes back as well exactly when the ring has not wrapped past it. */
  lemma ReloadNextSlot(c: Cache, h: seq<Entry>)
    requires Window(c, h) && Stored(c) && h != [] && Boot(c.nvs).count == c.count
    ensures Boot(c.nvs).next == c.next <==> |h| <= CACHE_SIZE || |h| % CACHE_SIZE == 0
  {
    ReloadCount(c);
  }

  lemma ReloadCount(c: Cache)
    requires c.Valid() && c.nvs.Some?
    ensures var d := Boot(c.nvs); d.next == d.count % CACHE_SIZE
  {
  }

  /** Every membership answer is what it was before the reboot exactly under the same
      condition. */
  lemma ReloadKeepsAnswers(c: Cache, h: seq<Entry>)
    requires Window(c, h) && Stored(c) && h != []
    ensures (forall id, nonce :: Seen(Boot(c.nvs), id, nonce) == Seen(c, id, nonce)) <==> Reloadable(c)
  {
    ReloadExact(c, h);
    var d := Boot(c.nvs);
    if Reloadable(c) {
      assert forall i :: 0 <= i < c.count ==>
               d.slots[i] == d.slots[..d.count][i] == c.slots[..c.count][i] == c.slots[i];
    } else {
      var i := ReloadForgets(c, h);
      var e := c.slots[i];
      assert Matches(e, e.commandId, "") && Matches(e, "", e.nonce);
      assert Seen(c, e.commandId, "") && Seen(c, "", e.nonce);
    }
  }

  /** Otherwise some accepted pair is no longer known by its id, or by its nonce, so that
      a new command may use it again. */
  lemma ReloadForgets(c: Cache, h: seq<Entry>) returns (i: nat)
    requires Window(c, h) && Stored(c) && h != [] && !Reloadable(c)
    ensures i < c.count && Proper(c.slots[i])
    ensures !Seen(Boot(c.nvs), c.slots[i].commandId, "") || !Seen(Boot(c.nvs), "", c.slots[i].nonce)
  {
    var held, d := c.slots[..c.count], Boot(c.nvs);
    i := 0;
    ReloadTakes(c);
    if |Encode(held)| + 1 <= TEXT_MAX {
      i :| 0 <= i < |held| && !Clean(held[i]);
      DecodedIsClean(c.nvs.value);
      assert AllClean(d.slots[..d.count]);
      UncleanUnknown(d, held[i]);
    } else {
      assert d.slots[..d.count] == [];
    }
    var k := SlotIndex(h, i);
    assert c.slots[i] == h[k];
  }

  lemma UncleanUnknown(c: Cache, e: Entry)
    requires c.Valid() && AllClean(c.slots[..c.count]) && !Clean(e)
    ensures !Seen(c, e.commandId, "") || !Seen(c, "", e.nonce)
  {
    forall i | 0 <= i < c.count
      ensures Clean(c.slots[i])
    {
      assert c.slots[i] == c.slots[..c.count][i];
    }
  }

  /** When the text is too long nothing is known any more: no command is called a replay,
      whatever was accepted before. */
  lemma OverflowForgetsAll(c: Cache, h: seq<Entry>, m: Command)
    requires Window(c, h) && Stored(c) && h != [] && |Encode(c.slots[..c.count])| + 1 > TEXT_MAX
    ensures !Seen(Boot(c.nvs), m.envelope.commandId, m.envelope.nonce)
    ensures !VerdictOf(Boot(c.nvs), m).ReplayDetected?
  {
    ReloadTakes(c);
    assert Boot(c.nvs).slots[..Boot(c.nvs).count] == [];
    JudgedSeen(Boot(c.nvs), m.envelope, m.clock);
  }

  /** A wrapped ring forgets its age order at a reload: the next acceptance overwrites
      slot zero, which holds the pair accepted `|h| % 16` acceptances ago.  That is the
      oldest pair only when the ring had wrapped to slot zero. */
  lemma ReloadForgetsOrder(c: Cache, h: seq<Entry>)
    requires Window(c, h) && Stored(c) && |h| >= CACHE_SIZE
    requires Reloadable(c)
    ensures var d, lost := Boot(c.nvs), if |h| % CACHE_SIZE == 0 then CACHE_SIZE else |h| % CACHE_SIZE;
            && d.next == 0 && d.slots[d.next] == h[|h| - lost]
            && (|h| - lost == Oldest(h) <==> |h| % CACHE_SIZE == 0)
  {
    ReloadExact(c, h);
    ReloadCount(c);
    var d, r := Boot(c.nvs), |h| % CACHE_SIZE;
    var k := |h| - (if r == 0 then CACHE_SIZE else r);
    assert k % CACHE_SIZE == 0;
    assert d.slots[0] == d.slots[..d.count][0] == c.slots[..c.count][0] == c.slots[0];
  }

  /** A pair is remembered across a reboot at its age, so the window theorem carries
      over, exactly under the reload condition and with the age order intact. */
  lemma WindowSurvivesReboot(c: Cache, h: seq<Entry>)
    requires Window(c, h) && Stored(c) && h != []
    ensures Window(Boot(c.nvs), h) <==> Reloadable(c) && (|h| <= CACHE_SIZE || |h| % CACHE_SIZE == 0)
  {
    ReloadExact(c, h);
    var held, d := c.slots[..c.count], Boot(c.nvs);
    if d.count == c.count {
      ReloadNextSlot(c, h);
      forall k | Oldest(h) <= k < |h|
        ensures k % CACHE_SIZE < c.count
        ensures held[k % CACHE_SIZE] == h[k]
      {
        WindowSlot(h, k);
      }
      if d.slots[..d.count] == held && d.next == c.next {
        forall k | Oldest(h) <= k < |h|
          ensures d.slots[k % CACHE_SIZE] == h[k]
        {
          assert d.slots[k % CACHE_SIZE] == d.slots[..d.count][k % CACHE_SIZE];
        }
      }
      if Window(d, h) {
        forall i | 0 <= i < c.count
          ensures d.slots[i] == held[i]
        {
          var k := SlotIndex(h, i);
        }
        assert d.slots[..d.count] == held;
      }
    }
  }

  // ---- Many boots ------------------------------------------------------------

  /** Each element of `lives` is the commands handled between two reboots; the result is
      the cache at the end and the pairs accepted since the store was empty. */
  function Lives(lives: seq<seq<Command>>): (r: (Cache, seq<Entry>))
    ensures r.0.Valid()
  {
    if lives == [] then (Boot(None), []) else
      var n := |lives| - 1;
      var (c, h) := Lives(lives[..n]);
      (Run(Boot(c.nvs), lives[n]), History(Boot(c.nvs), h, lives[n]))
  }

  /** A reboot here keeps the window. */
  ghost predicate SafeToReboot(c: Cache, h: seq<Entry>)
    requires c.Valid()
  {
    h == [] || (Reloadable(c) && (|h| <= CACHE_SIZE || |h| % CACHE_SIZE == 0))
  }

  lemma RebootRemembers(c: Cache, h: seq<Entry>)
    requires Remembers(c, h) && SafeToReboot(c, h)
    ensures Remembers(Boot(c.nvs), h)
  {
    if h == [] {
      EmptyStoreRemembers();
    } else {
      WindowSurvivesReboot(c, h);
      ReloadExact(c, h);
    }
  }

  /** Through any number of reboots, each of them safe, the ring stays the window of
      everything accepted since the store was empty, and no seventeen accepted commands
      in a row repeat an id or a nonce. */
  lemma {:induction false} RebootsNeverRepeat(lives: seq<seq<Command>>)
    requires forall n :: 0 <= n < |lives| ==> SafeToReboot(Lives(lives[..n]).0, Lives(lives[..n]).1)
    ensures Remembers(Lives(lives).0, Lives(lives).1) && NeverRepeats(Lives(lives).1)
  {
    if lives == [] {
      EmptyStoreRemembers();
    } else {
      var n := |lives| - 1;
      assert forall k :: 0 <= k < n ==> lives[..n][..k] == lives[..k];
      RebootsNeverRepeat(lives[..n]);
      var (c, h) := Lives(lives[..n]);
      assert lives[..n] == lives[..|lives| - 1];
      NextLife(c, h, lives[n]);
    }
  }

  lemma NextLife(c: Cache, h: seq<Entry>, commands: seq<Command>)
    requires Remembers(c, h) && NeverRepeats(h) && SafeToReboot(c, h)
    ensures var d := Boot(c.nvs);
            Remembers(Run(d, commands), History(d, h, commands)) && NeverRepeats(History(d, h, commands))
  {
    RebootRemembers(c, h);
    RunIsWindow(Boot(c.nvs), h, commands);
    AcceptedNeverRepeat(Boot(c.nvs), h, commands);
  }

  // ---- Reachable failures ----------------------------------------------------

  function Letter(k: nat): (c: char)
    requires k < 26
    ensures 'a' <= c <= 'z' && c as int == 'a' as int + k
  {
    ('a' as int + k) as char
  }

  /** A value of `len` characters that differs from those of other `k`. */
  function Label(k: nat, len: nat): (s: string)
    requires k < 26 && 1 <= len < VALUE_MAX
    ensures |s| == len
  {
    [Letter(k)] + seq(len - 1, _ => '0')
  }

  lemma LabelsDiffer(k: nat, j: nat, len: nat)
    requires j < k < 26 && 1 <= len < VALUE_MAX
    ensures Label(j, len) != Label(k, len)
  {
    assert Label(j, len)[0] == Letter(j) && Label(k, len)[0] == Letter(k);
  }

  function Pair(k: nat, len: nat): Entry
    requires k < 26 && 1 <= len < VALUE_MAX
  {
    Entry(Label(k, len), Label(k, len))
  }

  function Pairs(n: nat, len: nat): (h: seq<Entry>)
    requires n <= 26 && 1 <= len < VALUE_MAX
    ensures |h| == n && forall k :: 0 <= k < n ==> h[k] == Pair(k, len)
  {
    if n == 0 then [] else Pairs(n - 1, len) + [Pair(n - 1, len)]
  }

  /** A well-formed, signed and timely command. */
  function Sample(k: nat, len: nat): Command
    requires k < 26 && 1 <= len < VALUE_MAX
  {
    Command(Envelope("unlock", Label(k, len), "1715150000", "1715150030", Label(k, len), "operator", "", "signature",
                     Some(1715150000), Some(1715150030), false, true, ""), Clock(true, 1715150010))
  }

  function Samples(n: nat, len: nat): (commands: seq<Command>)
    requires n <= 26 && 1 <= len < VALUE_MAX
    ensures |commands| == n
  {
    if n == 0 then [] else Samples(n - 1, len) + [Sample(n - 1, len)]
  }

  /** From an empty store all of them are accepted. */
  lemma {:induction false} SamplesAccepted(n: nat, len: nat)
    requires n <= 26 && 1 <= len < VALUE_MAX
    ensures Remembers(Run(Boot(None), Samples(n, len)), Pairs(n, len))
    ensures History(Boot(None), [], Samples(n, len)) == Pairs(n, len)
  {
    EmptyStoreRemembers();
    RunIsWindow(Boot(None), [], Samples(n, len));
    if n > 0 {
      SamplesAccepted(n - 1, len);
      assert Samples(n, len)[..n - 1] == Samples(n - 1, len);
      NewSampleAccepted(Run(Boot(None), Samples(n - 1, len)), n - 1, len);
    }
  }

  /** What a loaded cache says to a sample. */
  lemma SampleVerdict(c: Cache, k: nat, len: nat)
    requires k < 26 && 1 <= len < VALUE_MAX && c.Valid() && c.loaded
    ensures VerdictOf(c, Sample(k, len)) == if Seen(c, Label(k, len), Label(k, len)) then ReplayDetected else Accepted
  {
    assert Loaded(c) == c;
  }

  lemma NewSampleAccepted(c: Cache, k: nat, len: nat)
    requires k < 26 && 1 <= len < VALUE_MAX && Remembers(c, Pairs(k, len))
    ensures VerdictOf(c, Sample(k, len)).Accepted?
  {
    var id, h := Label(k, len), Pairs(k, len);
    SeenMeansInWindow(c, h, id, id);
    forall j | Oldest(h) <= j < k
      ensures !Matches(h[j], id, id)
    {
      LabelsDiffer(k, j, len);
    }
    SampleVerdict(c, k, len);
  }

  lemma {:induction false} UuidTextLength(n: nat)
    requires 1 <= n <= 26
    ensures |Encode(Pairs(n, 36))| == 74 * n - 1
  {
    var before, last := Pairs(n - 1, 36), Pair(n - 1, 36);
    EncodeAppend(before, last);
    assert |Item(last)| == 73;
    if n > 1 {
      UuidTextLength(n - 1);
    }
  }

  lemma PairsHeld(c: Cache, n: nat, len: nat)
    requires 1 <= n <= CACHE_SIZE && 1 <= len < VALUE_MAX && Remembers(c, Pairs(n, len))
    ensures c.count == n && c.slots[..c.count] == Pairs(n, len)
    ensures Seen(c, Label(n - 1, len), Label(n - 1, len))
  {
    var h := Pairs(n, len);
    forall k | 0 <= k < n
      ensures c.slots[k] == h[k]
    {
      Wraps(k, k);
      assert c.slots[k % CACHE_SIZE] == h[k];
    }
    assert Matches(c.slots[n - 1], Label(n - 1, len), Label(n - 1, len));
  }

  lemma OverflowAcceptsAgain(c: Cache, n: nat)
    requires 14 <= n <= CACHE_SIZE && Remembers(c, Pairs(n, 36))
    ensures VerdictOf(c, Sample(n - 1, 36)).ReplayDetected?
    ensures VerdictOf(Boot(c.nvs), Sample(n - 1, 36)).Accepted?
  {
    PairsHeld(c, n, 36);
    UuidTextLength(n);
    OverflowForgetsAll(c, Pairs(n, 36), Sample(n - 1, 36));
    SampleVerdict(c, n - 1, 36);
    SampleVerdict(Boot(c.nvs), n - 1, 36);
  }

  /** After fourteen commands whose ids and nonces have the length of a UUID the text no
      longer fits: the last of them, a replay before the reboot, is accepted again. */
  lemma UuidsOverflow(n: nat)
    requires 14 <= n <= CACHE_SIZE
    ensures var c, m := Run(Boot(None), Samples(n, 36)), Sample(n - 1, 36);
            VerdictOf(c, m).ReplayDetected? && VerdictOf(Boot(c.nvs), m).Accepted?
  {
    SamplesAccepted(n, 36);
    OverflowAcceptsAgain(Run(Boot(None), Samples(n, 36)), n);
  }

  /** The slots after `n` samples, more than sixteen of them. */
  function Held(n: nat, i: nat): Entry
    requires CACHE_SIZE < n <= 26 && i < CACHE_SIZE
  {
    Pair(if i < n - CACHE_SIZE then CACHE_SIZE + i else i, 1)
  }

  lemma SamplesHeld(c: Cache, n: nat)
    requires CACHE_SIZE < n <= 26 && Remembers(c, Pairs(n, 1))
    ensures c.count == CACHE_SIZE && (forall i :: 0 <= i < CACHE_SIZE ==> c.slots[i] == Held(n, i))
  {
    var h := Pairs(n, 1);
    forall i | 0 <= i < CACHE_SIZE
      ensures c.slots[i] == Held(n, i)
    {
      var k := if i < n - CACHE_SIZE then CACHE_SIZE + i else i;
      Wraps(i, k);
      assert c.slots[k % CACHE_SIZE] == h[k];
    }
  }

  lemma Wraps(i: nat, k: nat)
    requires i < CACHE_SIZE && (k == i || k == CACHE_SIZE + i)
    ensures k % CACHE_SIZE == i
  {
  }

  lemma {:induction false} ShortText(entries: seq<Entry>)
    requires forall e <- entries :: |Item(e)| == 3
    ensures |Encode(entries)| <= 4 * |entries|
  {
    if |entries| > 1 {
      ShortText(entries[1..]);
    }
  }

  lemma ShortPair(k: nat)
    requires k < 26
    ensures |Item(Pair(k, 1))| == 3 && Clean(Pair(k, 1))
  {
    assert Label(k, 1) == [Letter(k)];
  }

  lemma HeldFits(c: Cache, n: nat)
    requires CACHE_SIZE < n <= 26 && Remembers(c, Pairs(n, 1))
    ensures Reloadable(c)
  {
    SamplesHeld(c, n);
    var held := c.slots[..c.count];
    forall i | 0 <= i < |held|
      ensures |Item(held[i])| == 3 && Clean(held[i])
    {
      assert held[i] == Held(n, i);
      ShortPair(if i < n - CACHE_SIZE then CACHE_SIZE + i else i);
    }
    ShortText(held);
  }

  lemma HeldReloads(c: Cache, n: nat)
    requires CACHE_SIZE < n <= 26 && Remembers(c, Pairs(n, 1))
    ensures Reloadable(c)
    ensures Boot(c.nvs).count == CACHE_SIZE && Boot(c.nvs).next == 0
    ensures forall i :: 0 <= i < CACHE_SIZE ==> Boot(c.nvs).slots[i] == Held(n, i)
  {
    SamplesHeld(c, n);
    HeldFits(c, n);
    ReloadExact(c, Pairs(n, 1));
    ReloadCount(c);
    var d, held := Boot(c.nvs), c.slots[..c.count];
    assert d.slots[..d.count] == held;
    forall i | 0 <= i < CACHE_SIZE
      ensures d.slots[i] == Held(n, i)
    {
      assert d.slots[i] == d.slots[..d.count][i] == held[i];
    }
  }

  /** The slots after a reload and one more acceptance. */
  lemma NextOverwritesZero(d: Cache, n: nat)
    requires CACHE_SIZE < n < 26 && d.Valid() && d.loaded && d.count == CACHE_SIZE && d.next == 0
    requires forall i :: 0 <= i < CACHE_SIZE ==> d.slots[i] == Held(n, i)
    ensures VerdictOf(d, Sample(16, 1)).ReplayDetected? && VerdictOf(d, Sample(n, 1)).Accepted?
    ensures VerdictOf(Handled(d, Sample(n, 1)).0, Sample(16, 1)).Accepted?
  {
    HeldDiffer(n);
    LabelsDiffer(n, 16, 1);
    assert Matches(d.slots[0], Label(16, 1), Label(16, 1));
    SampleVerdict(d, 16, 1);
    SampleVerdict(d, n, 1);
    var after := Handled(d, Sample(n, 1)).0;
    assert after == Remembered(d, true, Label(n, 1), Label(n, 1)) by {
      assert Loaded(d) == d;
    }
    assert after.slots == d.slots[0 := Pair(n, 1)] && after.count == CACHE_SIZE;
    SampleVerdict(after, 16, 1);
  }

  /** `n` accepted commands, more than sixteen, and a reboot: all of the window is still
      known.  But the next acceptance pushes out command sixteen, not the oldest; with
      `n` at seventeen that is the newest.  It is then accepted a second time. */
  lemma RebootForgetsNewer(n: nat)
    requires CACHE_SIZE < n < 26
    ensures var c, m := Run(Boot(None), Samples(n, 1)), Sample(16, 1);
            var d := Boot(c.nvs);
            && Reloadable(c) && VerdictOf(d, m).ReplayDetected?
            && VerdictOf(d, Sample(n, 1)).Accepted? && VerdictOf(Handled(d, Sample(n, 1)).0, m).Accepted?
  {
    var c := Run(Boot(None), Samples(n, 1));
    SamplesAccepted(n, 1);
    HeldReloads(c, n);
    NextOverwritesZero(Boot(c.nvs), n);
  }

  lemma HeldDiffer(n: nat)
    requires CACHE_SIZE < n < 26
    ensures forall i :: 0 <= i < CACHE_SIZE ==> Differ(Held(n, i), Pair(n, 1))
    ensures forall i :: 0 < i < CACHE_SIZE ==> Differ(Held(n, i), Pair(16, 1))
  {
    forall i | 0 <= i < CACHE_SIZE
      ensures Differ(Held(n, i), Pair(n, 1)) && (i > 0 ==> Differ(Held(n, i), Pair(16, 1)))
    {
      var k := if i < n - CACHE_SIZE then CACHE_SIZE + i else i;
      LabelsDiffer(n, k, 1);
      if 0 < k < 16 {
        LabelsDiffer(16, k, 1);
      } else if k > 16 {
        LabelsDiffer(k, 16, 1);
      }
    }
  }
}
