/** The BL0942 meter's serial framing: 23-byte packets found in a byte stream by their
    header, a timeout for partial packets, and an additive checksum.

    `Framer` is the receiver as a value; its `segments` are the history of what became
    of the bytes already read.  `MeterReceiver` is the device's form.
 */
module MeterFraming {
  import opened Words

  const PACKET_SIZE: nat := 23
  const PACKET_HEADER: Byte := 0x55
  const READ_COMMAND: nat := 0x58
  const PACKET_TIMEOUT_MS: nat := 300

  /** The meter's two address bits. */
  type Address = a: int | 0 <= a < 4

  datatype MeterError = NoError | HeaderMismatch | ChecksumError | JunkError | PartialTimeout

  datatype Readings = Readings(
    current: int, voltage: int, fastCurrent: int, power: int, energy: int, frequency: int, status: Byte)

  datatype Meter = Meter(
    valid: bool, samples: U32, checksumErrors: U32, junkBytes: U32, partialTimeouts: U32,
    lastError: MeterError, raw: Readings, lastSampleMs: U32)

  /** What became of bytes that are no longer held. */
  datatype Segment = Junk(byte: Byte) | Packet(bytes: seq<Byte>) | Dropped(bytes: seq<Byte>)

  datatype Framer = Framer(buffer: seq<Byte>, rxStartMs: U32, meter: Meter, segments: seq<Segment>)

  // ---- Packets ---------------------------------------------------------------

  function Add8(a: Byte, b: Byte): Byte {
    if a + b < 256 then a + b else a + b - 256
  }

  function Sum8(start: Byte, bytes: seq<Byte>): Byte {
    if bytes == [] then start else Add8(Sum8(start, bytes[..|bytes| - 1]), bytes[|bytes| - 1])
  }

  /** The checksum byte that belongs to the first 22 bytes of a packet. */
  function Checksum(body: seq<Byte>, address: Address): Byte {
    255 - Sum8(READ_COMMAND + address, body)
  }

  predicate ChecksumHolds(packet: seq<Byte>, address: Address)
    requires |packet| == PACKET_SIZE
  {
    Checksum(packet[..PACKET_SIZE - 1], address) == packet[PACKET_SIZE - 1]
  }

  predicate Accepted(packet: seq<Byte>, address: Address) {
    |packet| == PACKET_SIZE && packet[0] == PACKET_HEADER && ChecksumHolds(packet, address)
  }

  function ReadU24(p: seq<Byte>, at: nat): (r: int)
    requires at + 3 <= |p|
    ensures 0 <= r < 0x100_0000
    ensures r % 256 == p[at] && r / 256 % 256 == p[at + 1] && r / 65536 == p[at + 2]
  {
    var low: int, mid: int, high: int := p[at], p[at + 1], p[at + 2];
    low + 256 * mid + 65536 * high
  }

  /** Two's complement in 24 bits. */
  function ReadS24(p: seq<Byte>, at: nat): (r: int)
    requires at + 3 <= |p|
  {
    var value := ReadU24(p, at); if value >= 0x80_0000 then value - 0x100_0000 else value
  }

  function ReadU16(p: seq<Byte>, at: nat): int
    requires at + 2 <= |p|
  {
    var low: int, high: int := p[at], p[at + 1];
    low + 256 * high
  }

  function ReadingsOf(p: seq<Byte>): Readings
    requires |p| == PACKET_SIZE
  {
    Readings(ReadU24(p, 1), ReadU24(p, 4), ReadU24(p, 7), ReadS24(p, 10), ReadU24(p, 13), ReadU16(p, 16), p[19])
  }

  function Parsed(m: Meter, packet: seq<Byte>, address: Address, now: U32): Meter
    requires |packet| == PACKET_SIZE
  {
    if packet[0] != PACKET_HEADER then m.(junkBytes := Sum32(m.junkBytes, 1), lastError := HeaderMismatch)
    else if !ChecksumHolds(packet, address) then
      m.(checksumErrors := Sum32(m.checksumErrors, 1), lastError := ChecksumError)
    else m.(raw := ReadingsOf(packet), valid := true, samples := Sum32(m.samples, 1),
            lastSampleMs := now, lastError := NoError)
  }

  // ---- The stream ------------------------------------------------------------

  function TimedOut(f: Framer, now: U32): Framer {
    if f.buffer != [] && Elapsed(now, f.rxStartMs) > PACKET_TIMEOUT_MS then
      Framer([], 0, f.meter.(partialTimeouts := Sum32(f.meter.partialTimeouts, 1), lastError := PartialTimeout),
             f.segments + [Dropped(f.buffer)])
    else f
  }

  function Received(f: Framer, b: Byte, address: Address, now: U32): Framer {
    if f.buffer == [] && b != PACKET_HEADER then
      f.(meter := f.meter.(junkBytes := Sum32(f.meter.junkBytes, 1), lastError := JunkError),
         segments := f.segments + [Junk(b)])
    else
      var buffer := f.buffer + [b];
      if |buffer| == PACKET_SIZE then
        Framer([], 0, Parsed(f.meter, buffer, address, now), f.segments + [Packet(buffer)])
      else f.(buffer := buffer, rxStartMs := if f.buffer == [] then now else f.rxStartMs)
  }

  function ReceivedAll(f: Framer, bytes: seq<Byte>, address: Address, now: U32): Framer {
    if bytes == [] then f
    else Received(ReceivedAll(f, bytes[..|bytes| - 1], address, now), bytes[|bytes| - 1], address, now)
  }

  function Serviced(f: Framer, bytes: seq<Byte>, address: Address, now: U32): Framer {
    ReceivedAll(TimedOut(f, now), bytes, address, now)
  }

  const IDLE: Meter := Meter(false, 0, 0, 0, 0, NoError, Readings(0, 0, 0, 0, 0, 0, 0), 0)

  // ---- The device's form -----------------------------------------------------

  method ValidateChecksum(packet: array<Byte>, address: Address) returns (ok: bool)
    requires packet.Length == PACKET_SIZE
    ensures ok == ChecksumHolds(packet[..], address)
  {
    var checksum: Byte := READ_COMMAND + address;
    var i := 0;
    while i < PACKET_SIZE - 1
      invariant 0 <= i <= PACKET_SIZE - 1
      invariant checksum == Sum8(READ_COMMAND + address, packet[..i])
    {
      assert packet[..i + 1][..i] == packet[..i];
      checksum := Add8(checksum, packet[i]);
      i := i + 1;
    }
    assert packet[..][..i] == packet[..i];
    ok := 255 - checksum == packet[PACKET_SIZE - 1];
  }

  class MeterReceiver {
    const address: Address
    const buffer: array<Byte>
    var length: nat
    var rxStartMs: U32
    var meter: Meter
    ghost var segments: seq<Segment>

    ghost predicate Valid()
      reads this
    {
      buffer.Length == PACKET_SIZE && length < PACKET_SIZE
    }

    ghost function View(): Framer
      requires Valid()
      reads this, buffer
    {
      Framer(buffer[..length], rxStartMs, meter, segments)
    }

    constructor (address: Address)
      ensures Valid() && fresh(buffer)
      ensures View() == Framer([], 0, IDLE, []) && this.address == address
    {
      this.address := address;
      buffer := new Byte[PACKET_SIZE](_ => 0);
      length, rxStartMs, meter, segments := 0, 0, IDLE, [];
    }

    method ParsePacket(now: U32)
      requires buffer.Length == PACKET_SIZE
      modifies `meter
      ensures meter == Parsed(old(meter), buffer[..], address, now)
    {
      if buffer[0] != PACKET_HEADER {
        meter := meter.(junkBytes := Sum32(meter.junkBytes, 1));
        meter := meter.(lastError := HeaderMismatch);
        return;
      }
      var ok := ValidateChecksum(buffer, address);
      if !ok {
        meter := meter.(checksumErrors := Sum32(meter.checksumErrors, 1));
        meter := meter.(lastError := ChecksumError);
        return;
      }
      meter := meter.(raw := ReadingsOf(buffer[..]));
      meter := meter.(valid := true, samples := Sum32(meter.samples, 1));
      meter := meter.(lastSampleMs := now, lastError := NoError);
    }

    method DropStalePartial(now: U32)
      requires Valid()
      modifies `length, `rxStartMs, `meter, `segments
      ensures Valid() && View() == TimedOut(old(View()), now)
    {
      if length > 0 && Elapsed(now, rxStartMs) > PACKET_TIMEOUT_MS {
        segments := segments + [Dropped(buffer[..length])];
        meter := meter.(partialTimeouts := Sum32(meter.partialTimeouts, 1));
        length, rxStartMs := 0, 0;
        meter := meter.(lastError := PartialTimeout);
        assert buffer[..length] == [];
      }
    }

    method Receive(b: Byte, now: U32)
      requires Valid()
      modifies `length, `rxStartMs, `meter, `segments, buffer
      ensures Valid() && View() == Received(old(View()), b, address, now)
    {
      if length == 0 && b != PACKET_HEADER {
        meter := meter.(junkBytes := Sum32(meter.junkBytes, 1));
        meter := meter.(lastError := JunkError);
        segments := segments + [Junk(b)];
        return;
      }
      if length == 0 {
        rxStartMs := now;
      }
      ghost var held := buffer[..length];
      buffer[length] := b;
      length := length + 1;
      assert buffer[..length] == held + [b];
      if length == PACKET_SIZE {
        assert buffer[..] == held + [b];
        ParsePacket(now);
        segments := segments + [Packet(buffer[..])];
        length, rxStartMs := 0, 0;
        assert buffer[..length] == [];
      }
    }

    /** One service call that finds `bytes` waiting in the serial port. */
    method ServiceMeterSerial(bytes: seq<Byte>, now: U32)
      requires Valid()
      modifies `length, `rxStartMs, `meter, `segments, buffer
      ensures Valid() && View() == Serviced(old(View()), bytes, address, now)
    {
      DropStalePartial(now);
      ghost var start := View();
      var i := 0;
      while i < |bytes|
        invariant Valid() && 0 <= i <= |bytes|
        invariant View() == ReceivedAll(start, bytes[..i], address, now)
      {
        assert bytes[..i + 1][..i] == bytes[..i];
        Receive(bytes[i], now);
        i := i + 1;
      }
      assert bytes[..i] == bytes;
    }
  }
}
