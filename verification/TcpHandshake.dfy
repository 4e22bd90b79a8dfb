/** The handshake slot: final acknowledgment, at most one early data segment and one early FIN,
    and the hand-over of what it acknowledged to the stream slot. */
module TcpHandshake {
  import opened SequenceNumbers
  import opened TcpStream
  import opened TcpReceiver

  /** `remoteSeq` and `localSeq` are the two SYN sequence numbers. */
  datatype Handshake = Handshake(target: U32, remotePort: U16, localPort: U16, mac: nat,
                                 remoteSeq: U32, localSeq: U32, established: bool, failed: bool,
                                 early: Early, attempts: nat, deadline: U64)

  /** The next peer sequence number before a possible early FIN. */
  function ExpectedSeq(h: Handshake): U32 { WrapAdd(WrapAdd(h.remoteSeq, 1), |h.early.bytes|) }

  function AcknowledgedSeq(h: Handshake): U32 { WrapAdd(ExpectedSeq(h), Bit(h.early.fin)) }

  function SynAckOf(h: Handshake): Segment {
    Segment(h.localSeq, WrapAdd(h.remoteSeq, 1), SYN_ACK, RECEIVE_CAPACITY, [])
  }

  function EarlyAckOf(h: Handshake): Segment {
    Segment(WrapAdd(h.localSeq, 1), AcknowledgedSeq(h), ACK, RECEIVE_CAPACITY, [])
  }

  predicate TakesEarlyData(h: Handshake, seg: Segment) {
    seg.payload != [] && h.early.bytes == [] && !h.early.fin && |seg.payload| <= MSS
  }

  predicate TakesEarlyFin(h: Handshake, seg: Segment) {
    seg.flags.fin && !h.early.fin && (seg.payload == [] || TakesEarlyData(h, seg))
  }

  function Admit(h: Handshake, seg: Segment): Early {
    Early(if TakesEarlyData(h, seg) then seg.payload else h.early.bytes,
          h.early.fin || TakesEarlyFin(h, seg), seg.window)
  }

  predicate FinalAck(h: Handshake, seg: Segment) {
    seg.flags.ack && !seg.flags.syn && seg.ackno == WrapAdd(h.localSeq, 1) && seg.seqno == ExpectedSeq(h)
  }

  function HandleHandshake(h: Handshake, seg: Segment, tick: U64, ok: bool): (Handshake, seq<Segment>) {
    if seg.flags.rst then
      (h.(failed := h.failed || seg.seqno == AcknowledgedSeq(h)), [])
    else if seg.flags == SYN && seg.seqno == h.remoteSeq && seg.payload == [] then
      if ok then (h.(deadline := SaturatingAdd(tick, RETRY_TICKS)), [SynAckOf(h)])
      else (h.(failed := true), [])
    else if !FinalAck(h, seg) then
      (h, [])
    else
      var h1 := h.(early := Admit(h, seg));
      if TakesEarlyData(h, seg) || TakesEarlyFin(h, seg) then
        var h2 := h1.(established := true, deadline := SaturatingAdd(tick, RETRY_TICKS));
        if ok then (h2, [EarlyAckOf(h2)]) else (h2.(failed := true), [])
      else if !h.established && seg.payload == [] && !seg.flags.fin then
        (h1.(established := true), [])
      else
        (h1, [])
  }

  function PeerOf(h: Handshake): Peer {
    Peer(h.target, h.remotePort, h.localPort, WrapAdd(h.remoteSeq, 1), WrapAdd(h.localSeq, 1), h.mac)
  }

  /** What the slot admitted early is a prefix of the peer's stream, with the FIN only at its end. */
  ghost predicate EarlyOk(early: Early, data: seq<Byte>, closed: bool) {
    |early.bytes| <= MSS && early.bytes <= data && (early.fin ==> closed && early.bytes == data)
  }

  datatype Arriving = Arriving(seg: Segment, at: int, tick: U64, ok: bool)

  ghost predicate Timely(h: Handshake, a: Arriving, data: seq<Byte>, closed: bool) {
    && a.seg.seqno == Wrap(WrapAdd(h.remoteSeq, 1) + a.at) && Near(a.at, |h.early.bytes|)
    && (a.seg.Carries() && a.at == |h.early.bytes| && !h.early.fin ==> CutFrom(a.seg, a.at, data, closed))
  }

  lemma HandshakeStep(h: Handshake, a: Arriving, data: seq<Byte>, closed: bool)
    requires EarlyOk(h.early, data, closed) && Timely(h, a, data, closed)
    ensures var h1 := HandleHandshake(h, a.seg, a.tick, a.ok).0;
            EarlyOk(h1.early, data, closed) && PeerOf(h1) == PeerOf(h) && h1.remoteSeq == h.remoteSeq
  {
    var base := WrapAdd(h.remoteSeq, 1);
    WrapEqual(base, a.at, |h.early.bytes|);
  }

  ghost predicate AllTimely(h: Handshake, arrivals: seq<Arriving>, data: seq<Byte>, closed: bool)
    decreases |arrivals|
  {
    arrivals == [] ||
    (Timely(h, arrivals[0], data, closed)
     && AllTimely(HandleHandshake(h, arrivals[0].seg, arrivals[0].tick, arrivals[0].ok).0, arrivals[1..], data, closed))
  }

  function RunHandshake(h: Handshake, arrivals: seq<Arriving>): Handshake
    decreases |arrivals|
  {
    if arrivals == [] then h
    else RunHandshake(HandleHandshake(h, arrivals[0].seg, arrivals[0].tick, arrivals[0].ok).0, arrivals[1..])
  }

  /** Whatever segments of the peer's stream reach the handshake slot, the stream slot started from it
      continues that same stream: nothing acknowledged early is lost, repeated or misplaced. */
  lemma {:induction false} HandOver(h: Handshake, arrivals: seq<Arriving>, tick: U64, data: seq<Byte>, closed: bool)
    requires EarlyOk(h.early, data, closed) && AllTimely(h, arrivals, data, closed)
    ensures var h1 := RunHandshake(h, arrivals);
            var rx := StartStream(PeerOf(h1), h1.early, tick).rx;
            && Receives(rx, WrapAdd(h.remoteSeq, 1), [], data, closed)
            && rx.next == AcknowledgedSeq(h1)
            && Held(rx, []) == h1.early.bytes
    decreases |arrivals|
  {
    if arrivals == [] {
      StartReceives(PeerOf(h), h.early, tick, data, closed);
      WrapShift(h.remoteSeq, 1, |h.early.bytes|);
    } else {
      HandshakeStep(h, arrivals[0], data, closed);
      HandOver(HandleHandshake(h, arrivals[0].seg, arrivals[0].tick, arrivals[0].ok).0, arrivals[1..], tick, data, closed);
    }
  }
}
