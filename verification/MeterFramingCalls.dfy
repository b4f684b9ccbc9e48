/** The meter receiver in terms of what its serial line has carried: the checksum as one
    sum, the time from which a partial packet counts, and the report it gives.
 */
module MeterFramingCalls {
  import opened Words
  import opened MeterFraming
  import opened MeterFramingRuns

  // ---- The checksum ----------------------------------------------------------

  /** The plain sum of the bytes. */
  function Total(bytes: seq<Byte>): nat {
    if bytes == [] then 0 else Total(bytes[..|bytes| - 1]) + bytes[|bytes| - 1]
  }

  lemma {:induction false} SumIsTotal(start: Byte, bytes: seq<Byte>)
    ensures Sum8(start, bytes) == (start + Total(bytes)) % 256
  {
    if bytes != [] {
      var n := |bytes| - 1;
      SumIsTotal(start, bytes[..n]);
      AddWraps(start + Total(bytes[..n]), bytes[n]);
    }
  }

  lemma AddWraps(a: nat, b: Byte)
    ensures Add8(a % 256, b) == (a + b) % 256
  {
  }

  /** The read command, the address and all 23 bytes, checksum included, add up to 255 in
      eight bits. */
  lemma ChecksumMeaning(packet: seq<Byte>, address: Address)
    requires |packet| == 23
    ensures ChecksumHolds(packet, address) <==> (0x58 + address + Total(packet)) % 256 == 255
  {
    SumIsTotal(0x58 + address, packet[..22]);
    LastTerm(0x58 + address + Total(packet[..22]), packet[22]);
  }

  lemma LastTerm(sum: nat, last: Byte)
    ensures 255 - sum % 256 == last <==> (sum + last) % 256 == 255
  {
  }

  /** So a packet is a sample exactly by these three marks. */
  lemma AcceptedExactly(packet: seq<Byte>, address: Address)
    ensures Accepted(packet, address) <==>
            |packet| == 23 && packet[0] == 0x55 && (0x58 + address + Total(packet)) % 256 == 255
  {
    if |packet| == 23 {
      ChecksumMeaning(packet, address);
    }
  }

  /** And every frame of a meter bears them. */
  lemma FrameAddsUp(r: Readings, spare: Byte, address: Address)
    requires InRange(r)
    ensures var p := Frame(r, spare, address);
            |p| == 23 && p[0] == 0x55 && (0x58 + address + Total(p)) % 256 == 255
  {
    FrameRoundTrip(r, spare, address);
    AcceptedExactly(Frame(r, spare, address), address);
  }

  // ---- The report ------------------------------------------------------------

  /** The last packet that was accepted. */
  function LastSample(segments: seq<Segment>, address: Address): Option<seq<Byte>> {
    if segments == [] then None else
      var last := segments[|segments| - 1];
      if last.Packet? && Accepted(last.bytes, address) then Some(last.bytes)
      else LastSample(segments[..|segments| - 1], address)
  }

  /** The error that the last segment stands for. */
  function ErrorOf(segments: seq<Segment>, address: Address): MeterError {
    if segments == [] then NoError else
      match segments[|segments| - 1]
      case Junk(_) => JunkError
      case Dropped(_) => PartialTimeout
      case Packet(bytes) => if Accepted(bytes, address) then NoError else ChecksumError
  }

  /** The meter is valid once a packet has been accepted, holds the readings of the last
      such packet, and reports what last became of any bytes. */
  ghost predicate Reports(f: Framer, address: Address) {
    var sample := LastSample(f.segments, address);
    && f.meter.valid == sample.Some?
    && (sample.Some? ==> |sample.value| == PACKET_SIZE && f.meter.raw == ReadingsOf(sample.value))
    && f.meter.lastError == ErrorOf(f.segments, address)
    && (f.buffer != [] ==> f.buffer[0] == PACKET_HEADER)
  }

  lemma ReceivedReports(f: Framer, b: Byte, address: Address, now: U32)
    requires Reports(f, address)
    ensures Reports(Received(f, b, address, now), address)
  {
    var g := Received(f, b, address, now);
    if g.segments != f.segments {
      assert g.segments[..|f.segments|] == f.segments;
    }
  }

  lemma {:induction false} AllReport(f: Framer, bytes: seq<Byte>, address: Address, now: U32)
    requires Reports(f, address)
    ensures Reports(ReceivedAll(f, bytes, address, now), address)
  {
    if bytes != [] {
      var n := |bytes| - 1;
      AllReport(f, bytes[..n], address, now);
      ReceivedReports(ReceivedAll(f, bytes[..n], address, now), bytes[n], address, now);
    }
  }

  /** In every run. */
  lemma {:induction false} AlwaysReports(calls: seq<Call>, address: Address)
    ensures Reports(Run(calls, address), address)
  {
    if calls != [] {
      var n := |calls| - 1;
      var f := Run(calls[..n], address);
      AlwaysReports(calls[..n], address);
      var g := TimedOut(f, calls[n].now);
      if g != f {
        assert g.segments[..|f.segments|] == f.segments;
      }
      AllReport(g, calls[n].bytes, address, calls[n].now);
    }
  }

  // ---- The timeout -----------------------------------------------------------

  /** The call that brought the first of the last `held` bytes. */
  function BroughtBy(calls: seq<Call>, held: nat): (k: nat)
    requires 0 < held <= |Stream(calls)|
    ensures k < |calls|
  {
    var n := |calls| - 1;
    if held <= |calls[n].bytes| then n else BroughtBy(calls[..n], held - |calls[n].bytes|)
  }

  /** What is held after some more bytes began before them, or among them. */
  lemma {:induction false} HeldSince(f: Framer, bytes: seq<Byte>, address: Address, now: U32)
    ensures var g := ReceivedAll(f, bytes, address, now);
            g.buffer != [] ==>
              if |g.buffer| > |bytes|
              then f.buffer != [] && |g.buffer| == |f.buffer| + |bytes| && g.rxStartMs == f.rxStartMs
              else g.rxStartMs == now
  {
    if bytes != [] {
      HeldSince(f, bytes[..|bytes| - 1], address, now);
    }
  }

  /** A partial packet counts from the call that brought its first byte. */
  lemma {:induction false} PartialCountsFromFirst(calls: seq<Call>, address: Address)
    ensures var f := Run(calls, address);
            |f.buffer| <= |Stream(calls)| &&
            (f.buffer != [] ==> f.rxStartMs == calls[BroughtBy(calls, |f.buffer|)].now)
  {
    EveryByteAccounted(calls, address);
    if calls != [] {
      var n := |calls| - 1;
      var f, last := Run(calls[..n], address), calls[n];
      PartialCountsFromFirst(calls[..n], address);
      var g := TimedOut(f, last.now);
      HeldSince(g, last.bytes, address, last.now);
      assert Run(calls, address) == ReceivedAll(g, last.bytes, address, last.now);
    }
  }

  /** A call lets a partial packet go exactly when more than 300 ms have passed, as the
      counter reads, since the call that brought its first byte. */
  lemma DropExactly(calls: seq<Call>, now: U32, address: Address)
    requires Run(calls, address).buffer != []
    ensures var f := Run(calls, address);
            && |f.buffer| <= |Stream(calls)|
            && var first := calls[BroughtBy(calls, |f.buffer|)].now;
               if Elapsed(now, first) > 300
               then TimedOut(f, now).buffer == [] && TimedOut(f, now).segments == f.segments + [Dropped(f.buffer)]
               else TimedOut(f, now) == f
  {
    PartialCountsFromFirst(calls, address);
  }
}
