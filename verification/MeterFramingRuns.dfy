/** Nothing the meter sends is lost from sight, no corrupted packet is taken for a
    sample, and a well-formed frame is read back as the readings that went into it.
 */
module MeterFramingRuns {
  import opened Words
  import opened MeterFraming

  datatype Call = Call(bytes: seq<Byte>, now: U32)

  function RunFrom(f: Framer, calls: seq<Call>, address: Address): Framer {
    if calls == [] then f else
      var last := calls[|calls| - 1];
      Serviced(RunFrom(f, calls[..|calls| - 1], address), last.bytes, address, last.now)
  }

  function Run(calls: seq<Call>, address: Address): Framer {
    RunFrom(Framer([], 0, IDLE, []), calls, address)
  }

  // ---- Conservation ----------------------------------------------------------

  function BytesOf(s: Segment): seq<Byte> {
    match s
    case Junk(b) => [b]
    case Packet(bytes) => bytes
    case Dropped(bytes) => bytes
  }

  function Flat(segments: seq<Segment>): seq<Byte> {
    if segments == [] then [] else Flat(segments[..|segments| - 1]) + BytesOf(segments[|segments| - 1])
  }

  /** Everything read so far, in order. */
  function Stream(calls: seq<Call>): seq<Byte> {
    if calls == [] then [] else Stream(calls[..|calls| - 1]) + calls[|calls| - 1].bytes
  }

  lemma FlatAppend(segments: seq<Segment>, s: Segment)
    ensures Flat(segments + [s]) == Flat(segments) + BytesOf(s)
  {
    assert (segments + [s])[..|segments|] == segments;
  }

  lemma ReceivedConserves(f: Framer, b: Byte, address: Address, now: U32)
    ensures var g := Received(f, b, address, now);
            Flat(g.segments) + g.buffer == Flat(f.segments) + f.buffer + [b]
  {
    if f.buffer == [] && b != PACKET_HEADER {
      FlatAppend(f.segments, Junk(b));
    } else if |f.buffer| + 1 == PACKET_SIZE {
      FlatAppend(f.segments, Packet(f.buffer + [b]));
    }
  }

  lemma {:induction false} AllConserve(f: Framer, bytes: seq<Byte>, address: Address, now: U32)
    ensures var g := ReceivedAll(f, bytes, address, now);
            Flat(g.segments) + g.buffer == Flat(f.segments) + f.buffer + bytes
  {
    if bytes != [] {
      var n := |bytes| - 1;
      AllConserve(f, bytes[..n], address, now);
      ReceivedConserves(ReceivedAll(f, bytes[..n], address, now), bytes[n], address, now);
      Appends(Flat(f.segments) + f.buffer, bytes);
    }
  }

  lemma Appends(a: seq<Byte>, b: seq<Byte>)
    requires b != []
    ensures a + b == (a + b[..|b| - 1]) + [b[|b| - 1]]
  {
  }

  lemma TimeoutConserves(f: Framer, now: U32)
    ensures Flat(TimedOut(f, now).segments) + TimedOut(f, now).buffer == Flat(f.segments) + f.buffer
  {
    FlatAppend(f.segments, Dropped(f.buffer));
  }

  /** Every byte read is, in stream order, junk, part of a completed packet, dropped by a
      timeout, or still held: the segments and the buffer spell the whole stream. */
  lemma {:induction false} EveryByteAccounted(calls: seq<Call>, address: Address)
    ensures var f := Run(calls, address); Flat(f.segments) + f.buffer == Stream(calls)
  {
    if calls != [] {
      var n := |calls| - 1;
      var f, last := Run(calls[..n], address), calls[n];
      EveryByteAccounted(calls[..n], address);
      TimeoutConserves(f, last.now);
      AllConserve(TimedOut(f, last.now), last.bytes, address, last.now);
    }
  }

  // ---- Shape and counters ----------------------------------------------------

  predicate WellShaped(s: Segment) {
    match s
    case Junk(b) => b != PACKET_HEADER
    case Packet(bytes) => |bytes| == PACKET_SIZE && bytes[0] == PACKET_HEADER
    case Dropped(bytes) => 0 < |bytes| < PACKET_SIZE && bytes[0] == PACKET_HEADER
  }

  function Tally(segments: seq<Segment>, counted: Segment -> bool): nat {
    if segments == [] then 0 else
      var n := |segments| - 1;
      Tally(segments[..n], counted) + if counted(segments[n]) then 1 else 0
  }

  lemma TallyAppend(segments: seq<Segment>, s: Segment, counted: Segment -> bool)
    ensures Tally(segments + [s], counted) == Tally(segments, counted) + if counted(s) then 1 else 0
  {
    assert (segments + [s])[..|segments|] == segments;
  }

  function IsJunk(): Segment -> bool { (s: Segment) => s.Junk? }
  function IsDropped(): Segment -> bool { (s: Segment) => s.Dropped? }
  function IsPacket(): Segment -> bool { (s: Segment) => s.Packet? }

  function IsGood(address: Address): Segment -> bool {
    (s: Segment) => s.Packet? && Accepted(s.bytes, address)
  }

  function IsBad(address: Address): Segment -> bool {
    (s: Segment) => s.Packet? && !Accepted(s.bytes, address)
  }

  /** At rest: a short buffer that starts with the header, and counters that count the
      segments of their kind, modulo 2^32. */
  ghost predicate AtRest(f: Framer, address: Address) {
    && |f.buffer| < PACKET_SIZE && (f.buffer != [] ==> f.buffer[0] == PACKET_HEADER)
    && (forall k :: 0 <= k < |f.segments| ==> WellShaped(f.segments[k]))
    && f.meter.junkBytes == Stamp(Tally(f.segments, IsJunk()))
    && f.meter.partialTimeouts == Stamp(Tally(f.segments, IsDropped()))
    && f.meter.samples == Stamp(Tally(f.segments, IsGood(address)))
    && f.meter.checksumErrors == Stamp(Tally(f.segments, IsBad(address)))
  }

  lemma SegmentTallied(segments: seq<Segment>, s: Segment, address: Address)
    ensures forall counted <- [IsJunk(), IsDropped(), IsGood(address), IsBad(address)] ::
              Stamp(Tally(segments + [s], counted)) ==
              Sum32(Stamp(Tally(segments, counted)), if counted(s) then 1 else 0)
  {
    forall counted <- [IsJunk(), IsDropped(), IsGood(address), IsBad(address)]
      ensures Stamp(Tally(segments + [s], counted)) ==
              Sum32(Stamp(Tally(segments, counted)), if counted(s) then 1 else 0)
    {
      TallyAppend(segments, s, counted);
      SumOfStamps(Tally(segments, counted), if counted(s) then 1 else 0);
    }
  }

  lemma ReceivedRests(f: Framer, b: Byte, address: Address, now: U32)
    requires AtRest(f, address)
    ensures AtRest(Received(f, b, address, now), address)
  {
    if f.buffer == [] && b != PACKET_HEADER {
      SegmentTallied(f.segments, Junk(b), address);
    } else if |f.buffer| + 1 == PACKET_SIZE {
      SegmentTallied(f.segments, Packet(f.buffer + [b]), address);
    }
  }

  lemma {:induction false} AllRest(f: Framer, bytes: seq<Byte>, address: Address, now: U32)
    requires AtRest(f, address)
    ensures AtRest(ReceivedAll(f, bytes, address, now), address)
  {
    if bytes != [] {
      var n := |bytes| - 1;
      AllRest(f, bytes[..n], address, now);
      ReceivedRests(ReceivedAll(f, bytes[..n], address, now), bytes[n], address, now);
    }
  }

  /** Between calls the receiver is always at rest, so the header-mismatch branch of the
      parser is never taken. */
  lemma {:induction false} AlwaysAtRest(calls: seq<Call>, address: Address)
    ensures AtRest(Run(calls, address), address)
  {
    if calls != [] {
      var n := |calls| - 1;
      var f, last := Run(calls[..n], address), calls[n];
      AlwaysAtRest(calls[..n], address);
      if TimedOut(f, last.now) != f {
        SegmentTallied(f.segments, Dropped(f.buffer), address);
      }
      AllRest(TimedOut(f, last.now), last.bytes, address, last.now);
    }
  }

  /** Samples and checksum errors together are the completed packets. */
  lemma PacketsAreSamplesOrErrors(calls: seq<Call>, address: Address)
    ensures var f := Run(calls, address);
            Sum32(f.meter.samples, f.meter.checksumErrors) == Stamp(Tally(f.segments, IsPacket()))
  {
    AlwaysAtRest(calls, address);
    var segments := Run(calls, address).segments;
    var good, bad := Tally(segments, IsGood(address)), Tally(segments, IsBad(address));
    TallySplits(segments, address);
    SumOfBothStamps(good, bad);
  }

  lemma {:induction false} TallySplits(segments: seq<Segment>, address: Address)
    ensures Tally(segments, IsPacket()) == Tally(segments, IsGood(address)) + Tally(segments, IsBad(address))
  {
    if segments != [] {
      TallySplits(segments[..|segments| - 1], address);
    }
  }

  lemma {:induction false} SumOfBothStamps(a: nat, b: nat)
    ensures Sum32(Stamp(a), Stamp(b)) == Stamp(a + b)
    decreases b
  {
    if b < TWO32 {
      SumOfStamps(a, b);
    } else {
      SumOfBothStamps(a, b - TWO32);
      assert Stamp(a + b) == Stamp(a + b - TWO32);
    }
  }

  // ---- Corruption ------------------------------------------------------------

  lemma {:induction false} SumNotices(start: Byte, body: seq<Byte>, i: nat, b: Byte)
    requires i < |body| && b != body[i]
    ensures Sum8(start, body[i := b]) != Sum8(start, body)
  {
    var n := |body| - 1;
    if i < n {
      SumNotices(start, body[..n], i, b);
      assert body[i := b][..n] == body[..n][i := b];
    } else {
      assert body[i := b][..n] == body[..n];
    }
  }

  /** A valid packet with one byte changed is not valid. */
  lemma CorruptionRejected(packet: seq<Byte>, address: Address, i: nat, b: Byte)
    requires Accepted(packet, address) && i < PACKET_SIZE && b != packet[i]
    ensures !Accepted(packet[i := b], address)
  {
    var n := PACKET_SIZE - 1;
    if i < n {
      SumNotices(READ_COMMAND + address, packet[..n], i, b);
      assert packet[i := b][..n] == packet[..n][i := b];
    } else {
      assert packet[i := b][..n] == packet[..n];
    }
  }

  // ---- Frames ----------------------------------------------------------------

  predicate InRange(r: Readings) {
    && 0 <= r.current < 0x100_0000 && 0 <= r.voltage < 0x100_0000 && 0 <= r.fastCurrent < 0x100_0000
    && -0x80_0000 <= r.power < 0x80_0000
    && 0 <= r.energy < 0x100_0000 && 0 <= r.frequency < 0x1_0000
  }

  /** Three bytes, least significant first, as the register writer sends them. */
  function U24(x: int): (b: seq<Byte>)
    requires 0 <= x < 0x100_0000
    ensures |b| == 3
  {
    [x % 256, x / 256 % 256, x / 65536]
  }

  /** The packet a meter sends for `r`; `spare` fills the unused bytes. */
  function Frame(r: Readings, spare: Byte, address: Address): (p: seq<Byte>)
    requires InRange(r)
    ensures |p| == PACKET_SIZE
  {
    var body := [PACKET_HEADER] + U24(r.current) + U24(r.voltage) + U24(r.fastCurrent)
                + U24(if r.power < 0 then r.power + 0x100_0000 else r.power) + U24(r.energy)
                + [r.frequency % 256, r.frequency / 256] + [spare, r.status, spare, spare];
    body + [Checksum(body, address)]
  }

  lemma U24RoundTrip(x: int, p: seq<Byte>, at: nat)
    requires 0 <= x < 0x100_0000 && at + 3 <= |p| && p[at..at + 3] == U24(x)
    ensures ReadU24(p, at) == x
  {
    assert p[at] == U24(x)[0] && p[at + 1] == U24(x)[1] && p[at + 2] == U24(x)[2];
  }

  /** A frame is accepted and reads back as the readings it was made from. */
  lemma FrameRoundTrip(r: Readings, spare: Byte, address: Address)
    requires InRange(r)
    ensures Accepted(Frame(r, spare, address), address) && ReadingsOf(Frame(r, spare, address)) == r
  {
    var p := Frame(r, spare, address);
    var power := if r.power < 0 then r.power + 0x100_0000 else r.power;
    assert p[1..4] == U24(r.current) && p[4..7] == U24(r.voltage) && p[7..10] == U24(r.fastCurrent);
    assert p[10..13] == U24(power) && p[13..16] == U24(r.energy);
    U24RoundTrip(r.current, p, 1);
    U24RoundTrip(r.voltage, p, 4);
    U24RoundTrip(r.fastCurrent, p, 7);
    U24RoundTrip(power, p, 10);
    U24RoundTrip(r.energy, p, 13);
    assert p[..PACKET_SIZE - 1] + [p[PACKET_SIZE - 1]] == p;
  }

  // ---- A packet spread over several calls ------------------------------------

  /** At time `now` the receiver holds nothing, or something so old that it lets it go. */
  predicate Silent(f: Framer, now: U32) {
    f.buffer == [] || Elapsed(now, f.rxStartMs) > PACKET_TIMEOUT_MS
  }

  /** The calls follow one another within the packet timeout. */
  ghost predicate Prompt(calls: seq<Call>) {
    forall j, k :: 0 <= j <= k < |calls| ==> Elapsed(calls[k].now, calls[j].now) <= PACKET_TIMEOUT_MS
  }

  /** Fewer than 23 bytes into an idle receiver complete nothing. */
  lemma {:induction false} TooShort(f: Framer, bytes: seq<Byte>, address: Address, now: U32)
    requires |f.buffer| + |bytes| < PACKET_SIZE
    ensures var g := ReceivedAll(f, bytes, address, now);
            |g.buffer| <= |f.buffer| + |bytes| && g.meter.samples == f.meter.samples
  {
    if bytes != [] {
      TooShort(f, bytes[..|bytes| - 1], address, now);
    }
  }

  lemma {:induction false} JunkPassed(f: Framer, junk: seq<Byte>, address: Address, now: U32)
    requires f.buffer == [] && PACKET_HEADER !in junk
    ensures var g := ReceivedAll(f, junk, address, now);
            g.buffer == [] && g.meter.samples == f.meter.samples
  {
    if junk != [] {
      JunkPassed(f, junk[..|junk| - 1], address, now);
    }
  }

  lemma {:induction false} ReceivedSplits(f: Framer, a: seq<Byte>, b: seq<Byte>, address: Address, now: U32)
    ensures ReceivedAll(f, a + b, address, now) == ReceivedAll(ReceivedAll(f, a, address, now), b, address, now)
  {
    if b == [] {
      assert a + b == a;
    } else {
      var n := |b| - 1;
      assert (a + b)[..|a + b| - 1] == a + b[..n];
      ReceivedSplits(f, a, b[..n], address, now);
    }
  }

  /** What the receiver holds after the first `pos` bytes of junk and a packet. */
  function HeldAt(junk: seq<Byte>, packet: seq<Byte>, pos: nat): seq<Byte>
    requires pos <= |junk| + |packet|
  {
    if pos <= |junk| then [] else packet[..pos - |junk|]
  }

  /** The receiver has taken the first `pos` bytes and no sample; what it holds began at
      the time of one of the calls. */
  ghost predicate Underway(f: Framer, g: Framer, calls: seq<Call>, junk: seq<Byte>, packet: seq<Byte>, pos: nat) {
    && pos <= |junk| + |packet| && g.buffer == HeldAt(junk, packet, pos) && g.meter.samples == f.meter.samples
    && (g.buffer != [] ==> exists j :: 0 <= j < |calls| && g.rxStartMs == calls[j].now)
  }

  /** The stream under test: junk without a header byte, then a packet. */
  ghost predicate Delivery(junk: seq<Byte>, packet: seq<Byte>) {
    PACKET_HEADER !in junk && |packet| == PACKET_SIZE && packet[0] == PACKET_HEADER
  }

  lemma ByteTaken(f: Framer, g: Framer, calls: seq<Call>, junk: seq<Byte>, packet: seq<Byte>,
                  pos: nat, address: Address)
    requires calls != [] && Delivery(junk, packet) && pos + 1 < |junk| + |packet|
    requires Underway(f, g, calls, junk, packet, pos)
    ensures var h := Received(g, (junk + packet)[pos], address, calls[|calls| - 1].now);
            Underway(f, h, calls, junk, packet, pos + 1)
  {
    var b, now := (junk + packet)[pos], calls[|calls| - 1].now;
    if pos < |junk| {
      assert b == junk[pos] && b in junk;
    } else {
      assert b == packet[pos - |junk|];
      assert HeldAt(junk, packet, pos) + [b] == HeldAt(junk, packet, pos + 1);
    }
  }

  lemma {:induction false} BytesTaken(f: Framer, g: Framer, calls: seq<Call>, junk: seq<Byte>, packet: seq<Byte>,
                                      pos: nat, bytes: seq<Byte>, address: Address)
    requires calls != [] && Delivery(junk, packet) && pos + |bytes| < |junk| + |packet|
    requires bytes == (junk + packet)[pos..pos + |bytes|] && Underway(f, g, calls, junk, packet, pos)
    ensures Underway(f, ReceivedAll(g, bytes, address, calls[|calls| - 1].now), calls, junk, packet, pos + |bytes|)
  {
    if bytes != [] {
      var n, whole := |bytes| - 1, junk + packet;
      assert bytes[..n] == whole[pos..pos + |bytes|][..n] == whole[pos..pos + n];
      BytesTaken(f, g, calls, junk, packet, pos, bytes[..n], address);
      var h := ReceivedAll(g, bytes[..n], address, calls[|calls| - 1].now);
      assert bytes[n] == whole[pos + n];
      ByteTaken(f, h, calls, junk, packet, pos + n, address);
    }
  }

  /** A prompt call finds nothing to let go; the first one lets go of anything old. */
  lemma CallStarts(f: Framer, calls: seq<Call>, junk: seq<Byte>, packet: seq<Byte>, pos: nat, address: Address)
    requires calls != [] && Prompt(calls) && Silent(f, calls[0].now)
    requires |calls| == 1 ==> pos == 0
    requires |calls| > 1 ==>
               var before := calls[..|calls| - 1];
               Underway(f, RunFrom(f, before, address), before, junk, packet, pos)
    ensures var n := |calls| - 1;
            Underway(f, TimedOut(RunFrom(f, calls[..n], address), calls[n].now), calls, junk, packet, pos)
  {
    var n := |calls| - 1;
    if n > 0 {
      var g := RunFrom(f, calls[..n], address);
      if g.buffer != [] {
        var j :| 0 <= j < n && g.rxStartMs == calls[..n][j].now;
        assert calls[j].now == g.rxStartMs;
      }
    }
  }

  lemma StreamUnfolds(calls: seq<Call>)
    requires calls != []
    ensures Stream(calls) == Stream(calls[..|calls| - 1]) + calls[|calls| - 1].bytes
  {
  }

  /** What the last call brings of a stream. */
  lemma LastChunk(calls: seq<Call>, whole: seq<Byte>)
    requires calls != [] && Stream(calls) <= whole
    ensures var n := |calls| - 1;
            var pos, bytes := |Stream(calls[..n])|, calls[n].bytes;
            && Stream(calls[..n]) <= whole && |Stream(calls)| == pos + |bytes| <= |whole|
            && bytes == whole[pos..pos + |bytes|]
  {
    StreamUnfolds(calls);
    PrefixSplits(Stream(calls[..|calls| - 1]), calls[|calls| - 1].bytes, whole);
  }

  lemma PrefixSplits(a: seq<Byte>, b: seq<Byte>, whole: seq<Byte>)
    requires a + b <= whole
    ensures a <= whole && |a| + |b| <= |whole| && b == whole[|a|..|a| + |b|]
  {
    var n := |a| + |b|;
    assert whole[..n] == a + b;
    assert whole[|a|..n] == whole[..n][|a|..] == b;
  }

  lemma {:induction false} CallsTaken(f: Framer, calls: seq<Call>, junk: seq<Byte>, packet: seq<Byte>, address: Address)
    requires calls != [] && Prompt(calls) && Silent(f, calls[0].now) && Delivery(junk, packet)
    requires Stream(calls) <= junk + packet && |Stream(calls)| < |junk| + |packet|
    ensures Underway(f, RunFrom(f, calls, address), calls, junk, packet, |Stream(calls)|)
  {
    var n := |calls| - 1;
    var pos, bytes := |Stream(calls[..n])|, calls[n].bytes;
    LastChunk(calls, junk + packet);
    if n > 0 {
      CallsTaken(f, calls[..n], junk, packet, address);
    }
    CallStarts(f, calls, junk, packet, pos, address);
    BytesTaken(f, TimedOut(RunFrom(f, calls[..n], address), calls[n].now), calls, junk, packet, pos, bytes, address);
  }

  /** One packet has been parsed since `f`, at time `at`, and nothing is held. */
  ghost predicate ParsedSince(f: Framer, g: Framer, packet: seq<Byte>, address: Address, at: U32)
    requires |packet| == PACKET_SIZE
  {
    && g.buffer == []
    && (Accepted(packet, address) ==>
          && g.meter.valid && g.meter.raw == ReadingsOf(packet)
          && g.meter.samples == Sum32(f.meter.samples, 1) && g.meter.lastSampleMs == at)
    && (!Accepted(packet, address) ==> g.meter.samples == f.meter.samples)
  }

  lemma LastByte(f: Framer, g: Framer, calls: seq<Call>, junk: seq<Byte>, packet: seq<Byte>, address: Address)
    requires calls != [] && Delivery(junk, packet)
    requires Underway(f, g, calls, junk, packet, |junk| + PACKET_SIZE - 1)
    ensures var now := calls[|calls| - 1].now;
            ParsedSince(f, Received(g, packet[PACKET_SIZE - 1], address, now), packet, address, now)
  {
    var n := PACKET_SIZE - 1;
    assert g.buffer == packet[..n] && packet[..n] + [packet[n]] == packet;
  }

  lemma LastBytes(f: Framer, g: Framer, calls: seq<Call>, junk: seq<Byte>, packet: seq<Byte>,
                  pos: nat, bytes: seq<Byte>, address: Address)
    requires calls != [] && Delivery(junk, packet) && pos < |junk| + |packet|
    requires bytes == (junk + packet)[pos..] && Underway(f, g, calls, junk, packet, pos)
    ensures var now := calls[|calls| - 1].now;
            ParsedSince(f, ReceivedAll(g, bytes, address, now), packet, address, now)
  {
    var m, whole := |bytes| - 1, junk + packet;
    assert bytes[..m] == whole[pos..][..m] == whole[pos..pos + m] && bytes[m] == packet[PACKET_SIZE - 1];
    BytesTaken(f, g, calls, junk, packet, pos, bytes[..m], address);
    LastByte(f, ReceivedAll(g, bytes[..m], address, calls[|calls| - 1].now), calls, junk, packet, address);
  }

  /** The time of the last call that found any bytes. */
  function LastHeard(calls: seq<Call>): U32 {
    if calls == [] then 0
    else if calls[|calls| - 1].bytes != [] then calls[|calls| - 1].now
    else LastHeard(calls[..|calls| - 1])
  }

  /** After a silence, whatever was held, junk without a header byte and then a packet,
      spread over calls in any way: the packet is parsed. */
  lemma {:induction false} PacketTaken(f: Framer, calls: seq<Call>, junk: seq<Byte>, packet: seq<Byte>,
                                       address: Address)
    requires calls != [] && Prompt(calls) && Silent(f, calls[0].now) && Delivery(junk, packet)
    requires Stream(calls) == junk + packet
    ensures ParsedSince(f, RunFrom(f, calls, address), packet, address, LastHeard(calls))
  {
    var n := |calls| - 1;
    var pos, bytes := |Stream(calls[..n])|, calls[n].bytes;
    LastChunk(calls, junk + packet);
    if bytes == [] {
      assert Stream(calls[..n]) == junk + packet;
      PacketTaken(f, calls[..n], junk, packet, address);
    } else {
      if n > 0 {
        CallsTaken(f, calls[..n], junk, packet, address);
      }
      CallStarts(f, calls, junk, packet, pos, address);
      LastBytes(f, TimedOut(RunFrom(f, calls[..n], address), calls[n].now), calls, junk, packet, pos, bytes, address);
    }
  }

  /** Junk and then fewer than 23 bytes, in whatever calls, complete nothing. */
  lemma {:induction false} TooFew(f: Framer, calls: seq<Call>, junk: seq<Byte>, rest: seq<Byte>, address: Address)
    requires calls != [] && Silent(f, calls[0].now) && PACKET_HEADER !in junk && |rest| < PACKET_SIZE
    requires Stream(calls) <= junk + rest
    ensures var g, pos := RunFrom(f, calls, address), |Stream(calls)|;
            && g.meter.samples == f.meter.samples
            && (if pos <= |junk| then g.buffer == [] else |g.buffer| <= pos - |junk|)
  {
    var n := |calls| - 1;
    var pos, bytes := |Stream(calls[..n])|, calls[n].bytes;
    LastChunk(calls, junk + rest);
    if n > 0 {
      TooFew(f, calls[..n], junk, rest, address);
    }
    FewMore(TimedOut(RunFrom(f, calls[..n], address), calls[n].now), junk, rest, pos, bytes, address, calls[n].now);
  }

  lemma FewMore(f: Framer, junk: seq<Byte>, rest: seq<Byte>, pos: nat, bytes: seq<Byte>, address: Address, now: U32)
    requires PACKET_HEADER !in junk && |rest| < PACKET_SIZE && pos + |bytes| <= |junk| + |rest|
    requires bytes == (junk + rest)[pos..pos + |bytes|]
    requires if pos <= |junk| then f.buffer == [] else |f.buffer| <= pos - |junk|
    ensures var g, end := ReceivedAll(f, bytes, address, now), pos + |bytes|;
            && g.meter.samples == f.meter.samples
            && (if end <= |junk| then g.buffer == [] else |g.buffer| <= end - |junk|)
  {
    if pos < |junk| {
      var k := Min(|junk| - pos, |bytes|);
      assert bytes[..k] == junk[pos..pos + k] && bytes == bytes[..k] + bytes[k..];
      JunkPassed(f, bytes[..k], address, now);
      ReceivedSplits(f, bytes[..k], bytes[k..], address, now);
      TooShort(ReceivedAll(f, bytes[..k], address, now), bytes[k..], address, now);
    } else {
      TooShort(f, bytes, address, now);
    }
  }

  /** After a silence no sample is taken from a valid packet with one byte changed,
      whichever byte it was and however the bytes are spread over prompt calls. */
  lemma CorruptedPacketNeverSampled(f: Framer, calls: seq<Call>, packet: seq<Byte>, i: nat, b: Byte, address: Address)
    requires calls != [] && Prompt(calls) && Silent(f, calls[0].now)
    requires Accepted(packet, address) && i < PACKET_SIZE && b != packet[i]
    requires Stream(calls) == packet[i := b]
    ensures RunFrom(f, calls, address).meter.samples == f.meter.samples
  {
    var bad := packet[i := b];
    if i > 0 {
      CorruptionRejected(packet, address, i, b);
      assert [] + bad == bad;
      PacketTaken(f, calls, [], bad, address);
    } else {
      assert bad == [b] + bad[1..];
      TooFew(f, calls, [b], bad[1..], address);
    }
  }

  /** The framer recovers from every state: after a silence, junk without a header byte and
      then a frame, spread over prompt calls, yield exactly one more sample, and it holds
      the frame's readings. */
  lemma FrameAfterJunkIsSampled(f: Framer, calls: seq<Call>, junk: seq<Byte>, r: Readings, spare: Byte,
                                address: Address)
    requires calls != [] && Prompt(calls) && Silent(f, calls[0].now)
    requires PACKET_HEADER !in junk && InRange(r) && Stream(calls) == junk + Frame(r, spare, address)
    ensures var g := RunFrom(f, calls, address);
            && g.buffer == [] && g.meter.valid && g.meter.raw == r
            && g.meter.samples == Sum32(f.meter.samples, 1) && g.meter.lastSampleMs == LastHeard(calls)
  {
    FrameRoundTrip(r, spare, address);
    PacketTaken(f, calls, junk, Frame(r, spare, address), address);
  }
}
