/** IPv6 frames carrying ICMPv6: the builder, the strict parser, and their round trip. */
module Ipv6Wire {
  import opened Wrappers
  import opened SequenceNumbers
  import opened InternetChecksum

  const FRAME_CAPACITY: nat := 1518
  const HEADER: nat := 54

  type Address = a: seq<Byte> | |a| == 16 witness seq(16, _ => 0)
  type Mac = m: seq<Byte> | |m| == 6 witness seq(6, _ => 0)

  const UNSPECIFIED: Address := [0, 0, 0, 0, 0, 0, 0, 0, 0, 0, 0, 0, 0, 0, 0, 0]

  datatype Packet = Packet(sourceMac: Mac, source: Address, destination: Address, nextHeader: Byte,
                           hopLimit: Byte, payload: seq<Byte>)

  predicate IsMulticast(a: Address) { a[0] == 0xff }

  predicate IsLinkLocal(a: Address) { a[0] == 0xfe && a[1] / 64 == 2 }

  // ----- extension headers -----

  /** Only padding options: Pad1, or PadN that stays inside the header. */
  function PaddingValid(header: seq<Byte>, offset: nat): bool
    decreases |header| - offset
  {
    if offset >= |header| then true
    else if header[offset] == 0 then PaddingValid(header, offset + 1)
    else if header[offset] != 1 || offset + 1 >= |header| then false
    else
      var next := offset + header[offset + 1] + 2;
      next <= |header| && PaddingValid(header, next)
  }

  /** Skip at most one Hop-by-Hop and then at most one Destination Options header. */
  function SkipExtensions(next: Byte, payload: seq<Byte>, seenHop: bool, seenDestination: bool): Option<(Byte, seq<Byte>)>
    decreases |payload|
  {
    if next != 0 && next != 60 then Some((next, payload))
    else if |payload| < 8 || seenDestination || (next == 0 && seenHop) then None
    else
      var len: nat := (payload[1] as int + 1) * 8;
      if len > |payload| || !PaddingValid(payload[..len], 2) then None
      else SkipExtensions(payload[0], payload[len..], seenHop || next == 0, seenDestination || next == 60)
  }

  function ParseFrame(frame: seq<Byte>): Option<Packet> {
    if |frame| < HEADER || |frame| > FRAME_CAPACITY || frame[12..14] != [0x86, 0xdd] then None
    else
      var ip := frame[14..];
      var length := Word(ip[4], ip[5]);
      if ip[0] / 16 != 6 || ip[7] == 0 || length == 0 || length > |ip| - 40 then None
      else
        var source: Address, destination: Address := ip[8..24], ip[24..40];
        if IsMulticast(source) || destination == UNSPECIFIED then None
        else
          var rest := SkipExtensions(ip[6], ip[40..40 + length], false, false);
          if rest.None? || rest.value.0 !in {6, 17, 58} then None
          else Some(Packet(frame[6..12], source, destination, rest.value.0, ip[7], rest.value.1))
  }

  method CheckPadding(header: seq<Byte>) returns (valid: bool)
    requires 2 <= |header|
    ensures valid == PaddingValid(header, 2)
  {
    var offset := 2;
    while offset < |header|
      invariant 2 <= offset && PaddingValid(header, offset) == PaddingValid(header, 2)
      decreases |header| - offset
    {
      if header[offset] == 0 {
        offset := offset + 1;
      } else if header[offset] == 1 {
        if offset + 1 >= |header| { return false; }
        offset := offset + header[offset + 1] + 2;
        if offset > |header| { return false; }
      } else {
        return false;
      }
    }
    return true;
  }

  /** The extension-header loop of the parser. */
  method WalkExtensions(first: Byte, start: seq<Byte>) returns (rest: Option<(Byte, seq<Byte>)>)
    ensures rest == SkipExtensions(first, start, false, false)
  {
    var next, payload, seenHop, seenDestination := first, start, false, false;
    while next == 0 || next == 60
      invariant SkipExtensions(next, payload, seenHop, seenDestination) == SkipExtensions(first, start, false, false)
      decreases |payload|
    {
      if |payload| < 8 { return None; }
      if next == 0 {
        if seenHop || seenDestination { return None; }
        seenHop := true;
      } else {
        if seenDestination { return None; }
        seenDestination := true;
      }
      var len: nat := (payload[1] as int + 1) * 8;
      if len > |payload| { return None; }
      var valid := CheckPadding(payload[..len]);
      if !valid { return None; }
      next, payload := payload[0], payload[len..];
    }
    return Some((next, payload));
  }

  // ----- transport checksum -----

  /** The pseudo-header of IPv6 and the message, as one sum. */
  function TransportSum(source: Address, destination: Address, protocol: Byte, bytes: seq<Byte>): nat {
    WordSum(source) + WordSum(destination) + WordSum(bytes) + |bytes| % 0x1_0000 + |bytes| / 0x1_0000 % 0x1_0000 + protocol
  }

  function TransportChecksumOf(source: Address, destination: Address, protocol: Byte, bytes: seq<Byte>): U16 {
    65535 - Fold(TransportSum(source, destination, protocol, bytes))
  }

  method SumWords(bytes: seq<Byte>) returns (sum: nat)
    ensures sum == WordSum(bytes)
  {
    sum := 0;
    var i := 0;
    while i + 1 < |bytes|
      invariant 0 <= i <= |bytes| && sum + WordSum(bytes[i..]) == WordSum(bytes)
    {
      assert bytes[i..][2..] == bytes[i + 2..];
      sum := sum + Word(bytes[i], bytes[i + 1]);
      i := i + 2;
    }
    if i < |bytes| {
      assert bytes[i..] == [bytes[i]];
      sum := sum + Word(bytes[i], 0);
    }
  }

  method TransportChecksum(source: Address, destination: Address, protocol: Byte, bytes: seq<Byte>) returns (checksum: U16)
    ensures checksum == TransportChecksumOf(source, destination, protocol, bytes)
  {
    var a := SumWords(source);
    var b := SumWords(destination);
    var c := SumWords(bytes);
    var sum := a + b + c + |bytes| % 0x1_0000 + |bytes| / 0x1_0000 % 0x1_0000 + protocol;
    ghost var start := sum;
    while sum / 0x1_0000 != 0
      invariant 0 <= sum && Fold(sum) == Fold(start)
      decreases sum
    {
      FoldStep(sum);
      sum := sum % 0x1_0000 + sum / 0x1_0000;
    }
    return 65535 - sum;
  }

  predicate ValidTransport(p: Packet) {
    && p.nextHeader in {6, 17, 58}
    && |p.payload| >= (if p.nextHeader == 6 then 20 else if p.nextHeader == 17 then 8 else 4)
    && (p.nextHeader == 17 ==> p.payload[6..8] != [0, 0] && Word(p.payload[4], p.payload[5]) == |p.payload|)
    && TransportChecksumOf(p.source, p.destination, p.nextHeader, p.payload) == 0
  }

  // ----- building -----

  /** An ICMPv6 message with its checksum field set to `sum`. */
  function WithChecksum(message: seq<Byte>, sum: U16): seq<Byte>
    requires |message| >= 4
  {
    message[..2] + Be16(sum) + message[4..]
  }

  function IcmpOf(source: Address, destination: Address, message: seq<Byte>): seq<Byte>
    requires |message| >= 4
  {
    WithChecksum(message, TransportChecksumOf(source, destination, 58, WithChecksum(message, 0)))
  }

  predicate Writable(capacity: nat, hopLimit: Byte, message: seq<Byte>) {
    HEADER + |message| <= FRAME_CAPACITY && HEADER + |message| <= capacity && 4 <= |message| && hopLimit != 0
  }

  function IcmpFrame(sourceMac: Mac, destinationMac: Mac, source: Address, destination: Address, hopLimit: Byte, message: seq<Byte>): seq<Byte>
    requires 4 <= |message| <= FRAME_CAPACITY
  {
    destinationMac + sourceMac + [0x86, 0xdd] + [0x60, 0, 0, 0] + Be16(|message|) + [58, hopLimit] + source + destination
    + IcmpOf(source, destination, message)
  }

  /** Fill a caller's buffer; a refused call writes nothing. */
  method WriteIcmp(frame: array<Byte>, sourceMac: Mac, destinationMac: Mac, source: Address, destination: Address,
                   hopLimit: Byte, message: seq<Byte>) returns (length: Option<nat>)
    modifies frame
    ensures length.Some? == Writable(frame.Length, hopLimit, message)
    ensures length.None? ==> frame[..] == old(frame[..])
    ensures length.Some? ==>
              && length.value == HEADER + |message| <= frame.Length
              && frame[..length.value] == IcmpFrame(sourceMac, destinationMac, source, destination, hopLimit, message)
              && frame[length.value..] == old(frame[length.value..])
  {
    var len := HEADER + |message|;
    if len > FRAME_CAPACITY || |message| < 4 || hopLimit == 0 || len > frame.Length { return None; }
    var body := WithChecksum(message, 0);
    var checksum := TransportChecksum(source, destination, 58, body);
    body := WithChecksum(message, checksum);
    var bytes := destinationMac + sourceMac + [0x86, 0xdd] + [0x60, 0, 0, 0] + Be16(|message|) + [58, hopLimit]
                 + source + destination + body;
    FrameLength(sourceMac, destinationMac, source, destination, hopLimit, message);
    for i := 0 to len
      invariant frame[..i] == bytes[..i] && frame[len..] == old(frame[len..])
    {
      frame[i] := bytes[i];
    }
    return Some(len);
  }

  // ----- the round trip -----

  lemma FrameLength(sourceMac: Mac, destinationMac: Mac, source: Address, destination: Address, hopLimit: Byte, message: seq<Byte>)
    requires 4 <= |message| <= FRAME_CAPACITY
    ensures |IcmpOf(source, destination, message)| == |message|
    ensures |IcmpFrame(sourceMac, destinationMac, source, destination, hopLimit, message)| == HEADER + |message|
  {
  }

  /** A message filled with its own checksum verifies. */
  lemma IcmpVerifies(source: Address, destination: Address, message: seq<Byte>)
    requires |message| >= 4
    ensures TransportChecksumOf(source, destination, 58, IcmpOf(source, destination, message)) == 0
  {
    hide WordSum, Fold, Be16;
    var bare := WithChecksum(message, 0);
    var c := TransportChecksumOf(source, destination, 58, bare);
    WithLength(message, 0);
    WithLength(message, c);
    WordSumFill(message[..2], message[4..], c);
    ComplementFolds(TransportSum(source, destination, 58, bare));
  }

  lemma WithLength(message: seq<Byte>, sum: U16)
    requires |message| >= 4
    ensures |WithChecksum(message, sum)| == |message|
  {
  }

  /** What `write_icmp` builds, `parse_frame` reads back and `valid_transport` accepts, with any padding that
      still fits a frame, exactly when the addresses are legal: a unicast or unspecified source and a
      specified destination. */
  lemma IcmpRoundTrip(sourceMac: Mac, destinationMac: Mac, source: Address, destination: Address, hopLimit: Byte,
                      message: seq<Byte>, padding: seq<Byte>)
    requires Writable(FRAME_CAPACITY, hopLimit, message) && HEADER + |message| + |padding| <= FRAME_CAPACITY
    ensures var packet := Packet(sourceMac, source, destination, 58, hopLimit, IcmpOf(source, destination, message));
            var parsed := ParseFrame(IcmpFrame(sourceMac, destinationMac, source, destination, hopLimit, message) + padding);
            && parsed == (if IsMulticast(source) || destination == UNSPECIFIED then None else Some(packet))
            && ValidTransport(packet)
  {
    var body := IcmpOf(source, destination, message);
    var frame := IcmpFrame(sourceMac, destinationMac, source, destination, hopLimit, message) + padding;
    FrameLength(sourceMac, destinationMac, source, destination, hopLimit, message);
    IcmpVerifies(source, destination, message);
    var ip := frame[14..];
    assert frame[12..14] == [0x86, 0xdd];
    assert frame[6..12] == sourceMac;
    HeaderFields(sourceMac, destinationMac, source, destination, hopLimit, message, padding);
  }

  lemma HeaderFields(sourceMac: Mac, destinationMac: Mac, source: Address, destination: Address, hopLimit: Byte,
                     message: seq<Byte>, padding: seq<Byte>)
    requires 4 <= |message| <= FRAME_CAPACITY
    ensures var frame := IcmpFrame(sourceMac, destinationMac, source, destination, hopLimit, message) + padding;
            && |frame| == HEADER + |message| + |padding|
            && var ip := frame[14..];
               && ip[0] == 0x60 && Word(ip[4], ip[5]) == |message| && ip[6] == 58 && ip[7] == hopLimit
               && ip[8..24] == source && ip[24..40] == destination
               && ip[40..40 + |message|] == IcmpOf(source, destination, message)
  {
    FrameLength(sourceMac, destinationMac, source, destination, hopLimit, message);
    var body := IcmpOf(source, destination, message);
    var ip := (IcmpFrame(sourceMac, destinationMac, source, destination, hopLimit, message) + padding)[14..];
    assert ip == [0x60, 0, 0, 0] + Be16(|message|) + [58, hopLimit] + source + destination + body + padding;
    assert ip[8..24] == source;
    assert ip[24..40] == destination;
    assert ip[40..40 + |message|] == body;
  }
}
