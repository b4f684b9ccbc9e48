/** Command validation and its replay cache: a ring of the last sixteen accepted
    (command id, nonce) pairs, written to storage as text after every acceptance.

    `Cache` is the ring as a value; `ReplayGuard` is the device's form, an array
    with a count and a next slot.
 */
module ReplayCache {
  import opened Words

  const CACHE_SIZE: nat := 16
  const VALUE_MAX: nat := 72
  const TEXT_MAX: nat := 1024
  const FUTURE_SKEW_S: int := 300

  datatype Entry = Entry(commandId: string, nonce: string)

  datatype Cache = Cache(slots: seq<Entry>, count: nat, next: nat, loaded: bool, nvs: Option<string>)
  {
    predicate Valid() {
      |slots| == CACHE_SIZE && count <= CACHE_SIZE && next < CACHE_SIZE
    }
  }

  // ---- Membership ------------------------------------------------------------

  predicate Matches(e: Entry, commandId: string, nonce: string) {
    (commandId != "" && commandId == e.commandId) || (nonce != "" && nonce == e.nonce)
  }

  predicate Seen(c: Cache, commandId: string, nonce: string)
    requires c.Valid()
  {
    exists i :: 0 <= i < c.count && Matches(c.slots[i], commandId, nonce)
  }

  // ---- The text form ---------------------------------------------------------

  function Item(e: Entry): string {
    e.commandId + "," + e.nonce
  }

  function Encode(entries: seq<Entry>): string {
    if entries == [] then ""
    else if |entries| == 1 then Item(entries[0])
    else Item(entries[0]) + ";" + Encode(entries[1..])
  }

  /** The length of the longest prefix without `stop`. */
  function Span(text: string, stop: char): (n: nat)
    ensures n <= |text| && stop !in text[..n] && (n < |text| ==> text[n] == stop)
  {
    if text == "" || text[0] == stop then 0
    else
      assert text == [text[0]] + text[1..];
      1 + Span(text[1..], stop)
  }

  /** `strtok` on ";": the nonempty fields. */
  function Tokens(text: string): seq<string> {
    if text == "" then []
    else if text[0] == ';' then Tokens(text[1..])
    else var n := Span(text, ';'); [text[..n]] + Tokens(text[n..])
  }

  /** A copy into a fixed buffer keeps what fits before the terminator. */
  function Clipped(s: string): string {
    if |s| < VALUE_MAX then s else s[..VALUE_MAX - 1]
  }

  /** One token: cut at its first comma, or dropped when it has none. */
  function EntryOf(token: string): Option<Entry> {
    var c := Span(token, ',');
    if c == |token| then None else Some(Entry(Clipped(token[..c]), Clipped(token[c + 1..])))
  }

  function Kept(token: string): seq<Entry> {
    if EntryOf(token).Some? then [EntryOf(token).value] else []
  }

  function EntriesOf(tokens: seq<string>): seq<Entry> {
    if tokens == [] then []
    else Kept(tokens[0]) + EntriesOf(tokens[1..])
  }

  function Decode(text: string): seq<Entry> {
    EntriesOf(Tokens(text))
  }

  // ---- State changes ---------------------------------------------------------

  function PowerUp(nvs: Option<string>): (c: Cache)
    ensures c.Valid()
  {
    Cache(seq(CACHE_SIZE, _ => Entry("", "")), 0, 0, false, nvs)
  }

  function Filled(c: Cache, entries: seq<Entry>): (d: Cache)
    requires c.Valid()
    ensures d.Valid()
  {
    var k := Min(|entries|, CACHE_SIZE - c.count);
    c.(slots := c.slots[..c.count] + entries[..k] + c.slots[c.count + k..],
       count := c.count + k,
       next := (c.count + k) % CACHE_SIZE)
  }

  function Loaded(c: Cache): (d: Cache)
    requires c.Valid()
    ensures d.Valid()
  {
    if c.loaded then c
    else if c.nvs.None? || |c.nvs.value| + 1 > TEXT_MAX then c.(loaded := true)
    else Filled(c.(loaded := true), Decode(c.nvs.value))
  }

  /** `ok` is the verdict on the command; a refused one is not remembered. */
  function Remembered(c: Cache, ok: bool, commandId: string, nonce: string): (d: Cache)
    requires c.Valid()
    ensures d.Valid()
  {
    if !ok || commandId == "" || nonce == "" || |commandId| >= VALUE_MAX then c
    else if |nonce| >= VALUE_MAX then
      c.(slots := c.slots[c.next := c.slots[c.next].(commandId := commandId)])
    else
      var slots := c.slots[c.next := Entry(commandId, nonce)];
      var count := Min(c.count + 1, CACHE_SIZE);
      c.(slots := slots, count := count, next := (c.next + 1) % CACHE_SIZE,
         nvs := Some(Encode(slots[..count])))
  }

  // ---- Validation ------------------------------------------------------------

  datatype Clock = Clock(valid: bool, now: int)

  /** Seconds since 1970 as the parser returns them; zero and below count as malformed. */
  type Epoch = t: int | t > 0 witness 1

  /** A command envelope: its text fields, its two timestamps as parsed (`None` when
      malformed), and what the authenticator has to say about it. */
  datatype Envelope = Envelope(
    cmd: string, commandId: string, issuedAtText: string, expiresAtText: string,
    nonce: string, actor: string, jwt: string, signature: string,
    issuedAt: Option<Epoch>, expiresAt: Option<Epoch>, challenge: bool,
    authentic: bool, authError: string)

  datatype Verdict =
    | Accepted
    | MissingField | MissingAuthenticator | FieldTooLong | InvalidTimestamp
    | Expired | ClockInvalid | IssuedInFuture | ReplayDetected
    | NotAuthentic(reason: string)

  predicate Complete(e: Envelope) {
    e.cmd != "" && e.commandId != "" && e.issuedAtText != "" && e.expiresAtText != ""
    && e.nonce != "" && e.actor != ""
  }

  /** The earliest failing check decides. */
  function Judged(c: Cache, e: Envelope, clock: Clock): Verdict
    requires c.Valid()
  {
    if !Complete(e) then MissingField
    else if e.jwt == "" && e.signature == "" then MissingAuthenticator
    else if |e.commandId| >= VALUE_MAX || |e.nonce| >= VALUE_MAX then FieldTooLong
    else if e.issuedAt.None? || e.expiresAt.None? then InvalidTimestamp
    else if e.expiresAt.value <= e.issuedAt.value then Expired
    else if !clock.valid && !e.challenge then ClockInvalid
    else if clock.valid && clock.now > e.expiresAt.value then Expired
    else if clock.valid && e.issuedAt.value > clock.now + FUTURE_SKEW_S then IssuedInFuture
    else if Seen(c, e.commandId, e.nonce) then ReplayDetected
    else if !e.authentic then NotAuthentic(e.authError)
    else Accepted
  }

  // ---- Lemmas for the loops --------------------------------------------------

  lemma {:induction false} EncodeAppend(entries: seq<Entry>, e: Entry)
    ensures Encode(entries + [e]) == (if entries == [] then "" else Encode(entries) + ";") + Item(e)
  {
    if |entries| > 1 {
      EncodeAppend(entries[1..], e);
      assert (entries + [e])[1..] == entries[1..] + [e];
    } else if |entries| == 1 {
      assert (entries + [e])[1..] == [e];
    } else {
      assert entries + [e] == [e];
    }
  }

  lemma {:induction false} SpanUnique(text: string, stop: char, n: nat)
    requires n <= |text| && stop !in text[..n] && (n < |text| ==> text[n] == stop)
    ensures Span(text, stop) == n
  {
    if n > 0 {
      assert text[..n][0] == text[0];
      assert text[1..][..n - 1] == text[..n][1..];
      SpanUnique(text[1..], stop, n - 1);
    }
  }

  lemma {:induction false} TokensSkip(text: string, pos: nat)
    requires pos < |text| && text[pos] == ';'
    ensures Tokens(text[pos..]) == Tokens(text[pos + 1..])
  {
    assert text[pos..][1..] == text[pos + 1..];
  }

  lemma TokensTake(text: string, pos: nat, end: nat)
    requires pos < end <= |text| && ';' !in text[pos..end] && (end < |text| ==> text[end] == ';')
    ensures Tokens(text[pos..]) == [text[pos..end]] + Tokens(text[end..])
  {
    assert text[pos..][..end - pos] == text[pos..end];
    SpanUnique(text[pos..], ';', end - pos);
    assert text[pos..][0] == text[pos..end][0];
    assert text[pos..][end - pos..] == text[end..];
  }

  function Rest(token: Option<string>, text: string): seq<string> {
    if token.Some? then [token.value] + Tokens(text) else []
  }

  /** One more entry in the next free slot. */
  function Extended(c: Cache, e: Entry): (d: Cache)
    requires c.Valid() && c.count < CACHE_SIZE
    ensures d.Valid()
  {
    c.(slots := c.slots[c.count := e], count := c.count + 1)
  }

  function Filling(c: Cache, done: seq<Entry>): (d: Cache)
    requires c.Valid() && c.count + |done| <= CACHE_SIZE
    ensures d.Valid() && d.count == c.count + |done|
  {
    c.(slots := c.slots[..c.count] + done + c.slots[c.count + |done|..], count := c.count + |done|)
  }

  lemma FillingStep(c: Cache, done: seq<Entry>, e: Entry)
    requires c.Valid() && c.count + |done| < CACHE_SIZE
    ensures Extended(Filling(c, done), e) == Filling(c, done + [e])
  {
  }

  lemma FillingAll(c: Cache, entries: seq<Entry>)
    requires c.Valid() && c.count + |entries| <= CACHE_SIZE
    ensures Filled(c, entries) == Filling(c, entries).(next := (c.count + |entries|) % CACHE_SIZE)
  {
    assert entries[..|entries|] == entries;
  }

  lemma TokenStep(done: seq<Entry>, tokens: seq<string>)
    requires tokens != []
    ensures done + EntriesOf(tokens) == (done + Kept(tokens[0])) + EntriesOf(tokens[1..])
  {
  }

  // ---- The device's form -----------------------------------------------------

  /** The first `stop` in `text` at or after `from`, or the end. */
  method Scan(text: string, from: nat, stop: char) returns (end: nat)
    requires from <= |text|
    ensures from <= end <= |text| && stop !in text[from..end]
    ensures end < |text| ==> text[end] == stop
  {
    end := from;
    while end < |text| && text[end] != stop
      invariant from <= end <= |text|
      invariant stop !in text[from..end]
    {
      end := end + 1;
    }
  }

  /** `strtok`: the next nonempty field, and where the one after it may start. */
  method NextToken(text: string, from: nat) returns (end: nat, token: Option<string>)
    requires from <= |text|
    ensures from <= end <= |text| && (token.Some? ==> from < end)
    ensures Tokens(text[from..]) == Rest(token, text[end..])
  {
    var start := from;
    while start < |text| && text[start] == ';'
      invariant from <= start <= |text|
      invariant Tokens(text[from..]) == Tokens(text[start..])
    {
      TokensSkip(text, start);
      start := start + 1;
    }
    end := Scan(text, start, ';');
    if end == start {
      assert text[start..] == "";
      return end, None;
    }
    TokensTake(text, start, end);
    return end, Some(text[start..end]);
  }

  method ParseEntry(token: string) returns (entry: Option<Entry>)
    ensures entry == EntryOf(token)
  {
    var comma := Scan(token, 0, ',');
    SpanUnique(token, ',', comma);
    if comma == |token| {
      return None;
    }
    return Some(Entry(Clipped(token[..comma]), Clipped(token[comma + 1..])));
  }

  /** The first `room` entries of a text. */
  method Parse(text: string, room: nat) returns (entries: seq<Entry>)
    ensures var all := Decode(text); entries == all[..Min(|all|, room)]
  {
    entries := [];
    ghost var tokens := Tokens(text);
    assert text[0..] == text;
    var pos, token := NextToken(text, 0);
    while token.Some? && |entries| < room
      invariant pos <= |text| && |entries| <= room
      invariant tokens == Rest(token, text[pos..]) && Decode(text) == entries + EntriesOf(tokens)
      decreases |text| - pos, token.Some?
    {
      assert tokens[0] == token.value && tokens[1..] == Tokens(text[pos..]);
      TokenStep(entries, tokens);
      tokens := tokens[1..];
      var entry := ParseEntry(token.value);
      if entry.Some? {
        entries := entries + [entry.value];
      }
      pos, token := NextToken(text, pos);
    }
    assert Decode(text)[..|entries|] == entries;
  }

  class ReplayGuard {
    const slots: array<Entry>
    var count: nat
    var next: nat
    var loaded: bool
    var nvs: Option<string>

    ghost predicate Valid()
      reads this
    {
      slots.Length == CACHE_SIZE && count <= CACHE_SIZE && next < CACHE_SIZE
    }

    ghost function View(): (c: Cache)
      requires Valid()
      reads this, slots
      ensures c.Valid()
    {
      Cache(slots[..], count, next, loaded, nvs)
    }

    constructor (stored: Option<string>)
      ensures Valid() && fresh(slots)
      ensures View() == PowerUp(stored)
    {
      slots := new Entry[CACHE_SIZE](_ => Entry("", ""));
      count, next, loaded, nvs := 0, 0, false, stored;
    }

    method ReplaySeen(commandId: string, nonce: string) returns (seen: bool)
      requires Valid()
      ensures seen == Seen(View(), commandId, nonce)
    {
      var i := 0;
      while i < count
        invariant 0 <= i <= count
        invariant forall k :: 0 <= k < i ==> !Matches(slots[k], commandId, nonce)
      {
        if (commandId != "" && commandId == slots[i].commandId) || (nonce != "" && nonce == slots[i].nonce) {
          assert Matches(View().slots[i], commandId, nonce);
          return true;
        }
        i := i + 1;
      }
      return false;
    }

    method PersistReplayCache()
      requires Valid()
      modifies `nvs
      ensures nvs == Some(Encode(slots[..count]))
    {
      var encoded := "";
      var i := 0;
      while i < count
        invariant 0 <= i <= count
        invariant encoded == Encode(slots[..i])
      {
        EncodeAppend(slots[..i], slots[i]);
        assert slots[..i + 1] == slots[..i] + [slots[i]];
        if i > 0 {
          encoded := encoded + ";";
        }
        encoded := encoded + (slots[i].commandId + "," + slots[i].nonce);
        i := i + 1;
      }
      nvs := Some(encoded);
    }

    method Put(e: Entry)
      requires Valid() && count < CACHE_SIZE
      modifies `count, slots
      ensures Valid() && View() == Extended(old(View()), e)
    {
      slots[count] := e;
      count := count + 1;
    }

    /** Writes parsed entries into the free slots. */
    method PutAll(entries: seq<Entry>)
      requires Valid() && |entries| <= CACHE_SIZE - count
      modifies `count, slots
      ensures Valid() && View() == Filling(old(View()), entries)
    {
      ghost var before := View();
      var i := 0;
      while i < |entries|
        invariant Valid() && i <= |entries| && View() == Filling(before, entries[..i])
      {
        ghost var done, c := entries[..i], View();
        FillingStep(before, done, entries[i]);
        assert entries[..i + 1] == done + [entries[i]];
        Put(entries[i]);
        assert View() == Extended(c, entries[i]) == Filling(before, entries[..i + 1]);
        i := i + 1;
      }
      assert entries[..i] == entries;
    }

    method Fill(entries: seq<Entry>)
      requires Valid() && |entries| <= CACHE_SIZE - count
      modifies `count, `next, slots
      ensures Valid() && View() == Filled(old(View()), entries)
    {
      FillingAll(View(), entries);
      PutAll(entries);
      next := count % CACHE_SIZE;
    }

    method LoadReplayCache()
      requires Valid()
      modifies this, slots
      ensures Valid() && View() == Loaded(old(View()))
    {
      if loaded {
        return;
      }
      loaded := true;
      if nvs.None? || |nvs.value| + 1 > TEXT_MAX {
        return;
      }
      var entries := Parse(nvs.value, CACHE_SIZE - count);
      Fill(entries);
    }

    method Validate(e: Envelope, clock: Clock) returns (verdict: Verdict)
      requires Valid()
      modifies this, slots
      ensures Valid() && View() == Loaded(old(View()))
      ensures verdict == Judged(View(), e, clock)
    {
      LoadReplayCache();
      if e.cmd == "" || e.commandId == "" || e.issuedAtText == "" || e.expiresAtText == ""
         || e.nonce == "" || e.actor == "" {
        return MissingField;
      }
      if e.jwt == "" && e.signature == "" {
        return MissingAuthenticator;
      }
      if |e.commandId| >= VALUE_MAX || |e.nonce| >= VALUE_MAX {
        return FieldTooLong;
      }
      if e.issuedAt.None? || e.expiresAt.None? {
        return InvalidTimestamp;
      }
      if e.expiresAt.value <= e.issuedAt.value {
        return Expired;
      }
      if !clock.valid && !e.challenge {
        return ClockInvalid;
      }
      if clock.valid && clock.now > e.expiresAt.value {
        return Expired;
      }
      if clock.valid && e.issuedAt.value > clock.now + FUTURE_SKEW_S {
        return IssuedInFuture;
      }
      var replayed := ReplaySeen(e.commandId, e.nonce);
      if replayed {
        return ReplayDetected;
      }
      if !e.authentic {
        return NotAuthentic(e.authError);
      }
      return Accepted;
    }

    method RememberAccepted(ok: bool, commandId: string, nonce: string)
      requires Valid()
      modifies this, slots
      ensures Valid() && View() == Remembered(old(View()), ok, commandId, nonce)
    {
      if !ok || commandId == "" || nonce == "" || |commandId| >= VALUE_MAX {
        return;
      }
      slots[next] := slots[next].(commandId := commandId);
      assert slots[..] == old(slots[..])[next := old(slots[next]).(commandId := commandId)];
      if |nonce| >= VALUE_MAX {
        return;
      }
      slots[next] := slots[next].(nonce := nonce);
      assert slots[..] == old(slots[..])[next := Entry(commandId, nonce)];
      if count < CACHE_SIZE {
        count := count + 1;
      }
      next := (next + 1) % CACHE_SIZE;
      PersistReplayCache();
      assert View().slots[..count] == slots[..count];
    }
  }
}
