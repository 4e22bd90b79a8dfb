/** TCP segments in IPv4 frames: what the stack sends is what its peer decodes. */
module Ipv4Wire {
  import opened Wrappers
  import opened SequenceNumbers
  import opened InternetChecksum

  const ETHERNET_HEADER: nat := 14
  const IPV4_HEADER: nat := 20
  const TCP_HEADER: nat := 20
  const MAX_FRAME: nat := 1518
  const SEGMENT_BUFFER: nat := 1400

  type Address = a: seq<Byte> | |a| == 4 witness [0, 0, 0, 0]
  type Mac = m: seq<Byte> | |m| == 6 witness [0, 0, 0, 0, 0, 0]

  datatype Ipv4Packet = Ipv4Packet(sourceMac: Mac, source: Address, destination: Address, protocol: Byte, payload: seq<Byte>)

  datatype TcpPacket = TcpPacket(sourcePort: U16, destinationPort: U16, sequence: U32, acknowledgment: U32,
                                 flags: Byte, window: U16, payload: seq<Byte>)

  // ----- receiving -----

  function ParseIpv4Frame(frame: seq<Byte>): Option<Ipv4Packet> {
    if |frame| < ETHERNET_HEADER + IPV4_HEADER || Word(frame[12], frame[13]) != 0x0800 then None
    else
      var ip := frame[ETHERNET_HEADER..];
      var headerLen := ip[0] % 16 * 4;
      var totalLen := Word(ip[2], ip[3]);
      if ip[0] / 16 != 4 || headerLen < IPV4_HEADER || headerLen > |ip| || totalLen < headerLen || totalLen > |ip|
         || ChecksumOf(ip[..headerLen]) != 0 || Word(ip[6], ip[7]) % 0x4000 != 0
      then None
      else Some(Ipv4Packet(frame[6..12], ip[12..16], ip[16..20], ip[9], ip[headerLen..totalLen]))
  }

  /** Option structure only: kinds 0 (end, zero padding) and 1 (no length), otherwise a length of at least 2,
      and exactly 4 for the maximum segment size. */
  function OptionsValid(options: seq<Byte>): bool
    decreases |options|
  {
    if options == [] then true
    else if options[0] == 0 then forall i :: 1 <= i < |options| ==> options[i] == 0
    else if options[0] == 1 then OptionsValid(options[1..])
    else if |options| < 2 then false
    else
      var length := options[1];
      if length < 2 || length > |options| || (options[0] == 2 && length != 4) then false
      else OptionsValid(options[length..])
  }

  method TcpOptionsValid(options: seq<Byte>) returns (valid: bool)
    ensures valid == OptionsValid(options)
  {
    var rest := options;
    while rest != []
      invariant OptionsValid(rest) == OptionsValid(options)
      decreases |rest|
    {
      if rest[0] == 0 {
        for i := 1 to |rest|
          invariant forall j :: 1 <= j < i ==> rest[j] == 0
        {
          if rest[i] != 0 { return false; }
        }
        return true;
      } else if rest[0] == 1 {
        rest := rest[1..];
      } else {
        if |rest| < 2 { return false; }
        var length := rest[1];
        if length < 2 || length > |rest| || (rest[0] == 2 && length != 4) { return false; }
        rest := rest[length..];
      }
    }
    return true;
  }

  function ParseTcp(payload: seq<Byte>): Option<TcpPacket> {
    if |payload| < TCP_HEADER then None
    else
      var headerLen := payload[12] / 16 * 4;
      if headerLen < TCP_HEADER || headerLen > |payload| || !OptionsValid(payload[TCP_HEADER..headerLen]) then None
      else Some(TcpPacket(Word(payload[0], payload[1]), Word(payload[2], payload[3]), FromBe32(payload[4..8]),
                          FromBe32(payload[8..12]), payload[13], Word(payload[14], payload[15]), payload[headerLen..]))
  }

  /** The pseudo-header contribution to a transport checksum. */
  function PseudoSum(source: Address, destination: Address, protocol: Byte, length: nat): nat {
    WordSum(source) + WordSum(destination) + protocol + length
  }

  predicate TransportValid(source: Address, destination: Address, protocol: Byte, segment: seq<Byte>) {
    |segment| <= 0xFFFF
    && ((protocol == 17 && |segment| >= 8 && segment[6..8] == [0, 0])
        || Fold(Wrap(PseudoSum(source, destination, protocol, |segment|) + WordSum(segment))) == 65535)
  }

  method TransportChecksumValid(source: Address, destination: Address, protocol: Byte, segment: seq<Byte>) returns (valid: bool)
    ensures valid == TransportValid(source, destination, protocol, segment)
  {
    hide Wrap, WordSum, Fold;
    if |segment| > 0xFFFF { return false; }
    if protocol == 17 && |segment| >= 8 && segment[6..8] == [0, 0] { return true; }
    ghost var a, b, n := WordSum(source), WordSum(destination), |segment|;
    WrapAbsorbs(a, b);
    WrapAbsorbs(a + b, protocol);
    WrapAbsorbs(a + b + protocol, n);
    WrapAbsorbs(a + b + protocol + n, WordSum(segment));
    var sum := AddWords(0, source);
    sum := AddWords(sum, destination);
    sum := WrapAdd(sum, protocol);
    sum := WrapAdd(sum, |segment|);
    sum := AddWords(sum, segment);
    var folded := FoldCarries(sum);
    return folded == 65535;
  }

  /** One received frame as a segment for this host, as `decode_passive_segment` does. */
  function Decode(frame: seq<Byte>, local: Address): Option<(Ipv4Packet, TcpPacket)> {
    var ip := ParseIpv4Frame(frame);
    if ip.None? || ip.value.protocol != 6 || ip.value.destination != local
       || !TransportValid(ip.value.source, ip.value.destination, 6, ip.value.payload)
    then None
    else
      var tcp := ParseTcp(ip.value.payload);
      if tcp.None? then None
      else
        var n := if |tcp.value.payload| < SEGMENT_BUFFER then |tcp.value.payload| else SEGMENT_BUFFER;
        Some((ip.value, tcp.value.(payload := tcp.value.payload[..n])))
  }

  // ----- sending -----

  function TcpBytes(p: TcpPacket, checksum: U16): seq<Byte> {
    Be16(p.sourcePort) + Be16(p.destinationPort) + Be32(p.sequence) + Be32(p.acknowledgment)
    + [0x50, p.flags] + Be16(p.window) + Be16(checksum) + [0, 0] + p.payload
  }

  function PseudoHeader(source: Address, destination: Address, protocol: Byte, length: U16): seq<Byte> {
    source + destination + [0, protocol] + Be16(length)
  }

  function SegmentOf(source: Address, destination: Address, p: TcpPacket): seq<Byte>
    requires |p.payload| + TCP_HEADER <= SEGMENT_BUFFER
  {
    var bare := TcpBytes(p, 0);
    TcpBytes(p, ChecksumOf(PseudoHeader(source, destination, 6, |p.payload| + TCP_HEADER) + bare))
  }

  function Ipv4Header(source: Address, destination: Address, protocol: Byte, total: U16, id: U16, checksum: U16): seq<Byte> {
    [0x45, 0] + Be16(total) + Be16(id) + Be16(0x4000) + [64, protocol] + Be16(checksum) + source + destination
  }

  function FrameOf(ours: Mac, theirs: Mac, source: Address, destination: Address, protocol: Byte, id: U16, payload: seq<Byte>): seq<Byte>
    requires |payload| + IPV4_HEADER <= 0xFFFF
  {
    var total := |payload| + IPV4_HEADER;
    var sum := ChecksumOf(Ipv4Header(source, destination, protocol, total, id, 0));
    theirs + ours + Be16(0x0800) + Ipv4Header(source, destination, protocol, total, id, sum) + payload
  }

  /** `send_tcp_with_window`: refuses what does not fit the segment buffer, otherwise builds the frame. */
  method SendTcpWithWindow(ours: Mac, theirs: Mac, source: Address, destination: Address, id: U16, p: TcpPacket)
    returns (frame: Option<seq<Byte>>)
    ensures frame.Some? == (|p.payload| + TCP_HEADER <= SEGMENT_BUFFER)
    ensures frame.Some? ==> frame.value == FrameOf(ours, theirs, source, destination, 6, id, SegmentOf(source, destination, p))
  {
    var len := TCP_HEADER + |p.payload|;
    if len > SEGMENT_BUFFER { return None; }
    var bare := TcpBytes(p, 0);
    var sum := Checksum(PseudoHeader(source, destination, 6, len) + bare);
    var segment := TcpBytes(p, sum);
    TcpLength(p, sum);
    frame := SendIpv4From(ours, theirs, source, destination, 6, id, segment);
  }

  method SendIpv4From(ours: Mac, theirs: Mac, source: Address, destination: Address, protocol: Byte, id: U16, payload: seq<Byte>)
    returns (frame: Option<seq<Byte>>)
    ensures frame.Some? == (ETHERNET_HEADER + IPV4_HEADER + |payload| <= MAX_FRAME)
    ensures frame.Some? ==> frame.value == FrameOf(ours, theirs, source, destination, protocol, id, payload)
  {
    var total := IPV4_HEADER + |payload|;
    if ETHERNET_HEADER + total > MAX_FRAME || total > 0xFFFF { return None; }
    var sum := Checksum(Ipv4Header(source, destination, protocol, total, id, 0));
    return Some(theirs + ours + Be16(0x0800) + Ipv4Header(source, destination, protocol, total, id, sum) + payload);
  }

  // ----- the round trip -----

  lemma TcpLength(p: TcpPacket, sum: U16)
    ensures |TcpBytes(p, sum)| == TCP_HEADER + |p.payload|
  {
  }

  /** The filled segment passes the pseudo-header check. */
  lemma SegmentValid(source: Address, destination: Address, p: TcpPacket)
    requires |p.payload| + TCP_HEADER <= SEGMENT_BUFFER
    ensures TransportValid(source, destination, 6, SegmentOf(source, destination, p))
  {
    hide WordSum, Fold, Wrap, Be16, Be32, ChecksumOf;
    var n := |p.payload| + TCP_HEADER;
    var pseudo := PseudoHeader(source, destination, 6, n);
    var bare := TcpBytes(p, 0);
    var c := ChecksumOf(pseudo + bare);
    TcpLength(p, 0);
    TcpLength(p, c);
    TcpFill(p, c);
    PseudoWords(source, destination, n);
    WordSumConcat(pseudo, bare);
    NoWrap(pseudo + bare);
    var sum := WordSum(pseudo + bare);
    WordSumBound(pseudo + bare);
    ComplementFolds(sum);
    WrapSmall(sum + c);
  }

  lemma TcpFill(p: TcpPacket, c: U16)
    ensures WordSum(TcpBytes(p, c)) == WordSum(TcpBytes(p, 0)) + c
  {
    hide WordSum;
    var front := Be16(p.sourcePort) + Be16(p.destinationPort) + Be32(p.sequence) + Be32(p.acknowledgment)
                 + [0x50, p.flags] + Be16(p.window);
    var back := [0, 0] + p.payload;
    assert TcpBytes(p, 0) == front + Be16(0) + back;
    assert TcpBytes(p, c) == front + Be16(c) + back;
    WordSumFill(front, back, c);
  }

  lemma PseudoWords(source: Address, destination: Address, n: U16)
    ensures |PseudoHeader(source, destination, 6, n)| == 12
    ensures WordSum(PseudoHeader(source, destination, 6, n)) == PseudoSum(source, destination, 6, n)
  {
    assert PseudoHeader(source, destination, 6, n) == source + (destination + ([0, 6] + Be16(n)));
    WordSumConcat(source, destination + ([0, 6] + Be16(n)));
    WordSumConcat(destination, [0, 6] + Be16(n));
    WordSumConcat([0, 6], Be16(n));
    WordSumPair(n);
    assert [0, 6] == Be16(6);
    WordSumPair(6);
  }

  lemma HeaderValid(source: Address, destination: Address, protocol: Byte, total: U16, id: U16)
    ensures var h := Ipv4Header(source, destination, protocol, total, id, 0);
            ChecksumOf(Ipv4Header(source, destination, protocol, total, id, ChecksumOf(h))) == 0
  {
    var front := [0x45, 0] + Be16(total) + Be16(id) + Be16(0x4000) + [64, protocol];
    var back := source + destination;
    var h := Ipv4Header(source, destination, protocol, total, id, 0);
    var c := ChecksumOf(h);
    assert h == front + Be16(0) + back;
    assert Ipv4Header(source, destination, protocol, total, id, c) == front + Be16(c) + back;
    WordSumFill(front, back, c);
    NoWrap(h);
    NoWrap(front + Be16(c) + back);
    ComplementFolds(WordSum(h));
  }

  lemma TcpParses(p: TcpPacket, sum: U16)
    ensures ParseTcp(TcpBytes(p, sum)) == Some(p)
  {
    var b := TcpBytes(p, sum);
    Be32RoundTrip(p.sequence);
    Be32RoundTrip(p.acknowledgment);
    assert b[4..8] == Be32(p.sequence);
    assert b[8..12] == Be32(p.acknowledgment);
    assert b[12] == 0x50 && b[13] == p.flags;
    assert b[20..] == p.payload;
    assert b[20..20] == [];
  }

  lemma FrameParses(ours: Mac, theirs: Mac, source: Address, destination: Address, protocol: Byte, id: U16, payload: seq<Byte>, padding: seq<Byte>)
    requires |payload| + IPV4_HEADER <= 0xFFFF
    ensures ParseIpv4Frame(FrameOf(ours, theirs, source, destination, protocol, id, payload) + padding) ==
            Some(Ipv4Packet(ours, source, destination, protocol, payload))
  {
    var total := |payload| + IPV4_HEADER;
    var sum := ChecksumOf(Ipv4Header(source, destination, protocol, total, id, 0));
    var header := Ipv4Header(source, destination, protocol, total, id, sum);
    var frame := FrameOf(ours, theirs, source, destination, protocol, id, payload) + padding;
    HeaderValid(source, destination, protocol, total, id);
    var ip := frame[ETHERNET_HEADER..];
    assert ip == header + payload + padding;
    HeaderFields(source, destination, protocol, total, id, sum, payload + padding);
    assert ip == header + (payload + padding);
    assert ip[IPV4_HEADER..total] == payload;
    assert frame[6..12] == ours;
    assert frame[12] == 8 && frame[13] == 0;
  }

  lemma HeaderFields(source: Address, destination: Address, protocol: Byte, total: U16, id: U16, sum: U16, rest: seq<Byte>)
    ensures var ip := Ipv4Header(source, destination, protocol, total, id, sum) + rest;
            && |ip| >= 20 && ip[..20] == Ipv4Header(source, destination, protocol, total, id, sum)
            && ip[0] == 0x45 && Word(ip[2], ip[3]) == total && Word(ip[6], ip[7]) == 0x4000 && ip[9] == protocol
            && ip[12..16] == source && ip[16..20] == destination
  {
    var h := Ipv4Header(source, destination, protocol, total, id, sum);
    assert |h| == 20;
    assert h[12..16] == source && h[16..20] == destination;
  }

  /** Every segment the stack sends, however Ethernet padded it, decodes at its destination to the same
      ports, sequence numbers, flags, window and payload. */
  lemma WireRoundTrip(ours: Mac, theirs: Mac, source: Address, destination: Address, id: U16, p: TcpPacket, padding: seq<Byte>)
    requires |p.payload| + TCP_HEADER <= SEGMENT_BUFFER
    ensures var segment := SegmentOf(source, destination, p);
            Decode(FrameOf(ours, theirs, source, destination, 6, id, segment) + padding, destination) ==
            Some((Ipv4Packet(ours, source, destination, 6, segment), p))
  {
    var segment := SegmentOf(source, destination, p);
    var sum := ChecksumOf(PseudoHeader(source, destination, 6, |p.payload| + TCP_HEADER) + TcpBytes(p, 0));
    TcpLength(p, sum);
    FrameParses(ours, theirs, source, destination, 6, id, segment, padding);
    SegmentValid(source, destination, p);
    TcpParses(p, sum);
    assert p.payload[..|p.payload|] == p.payload;
  }
}
