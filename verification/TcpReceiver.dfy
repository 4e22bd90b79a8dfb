/** The receiving half of a stream against one fixed peer stream.

    `data` is the byte stream the peer cuts its segments from and `closed` says
    whether a FIN follows it. Index 0 of `data` travels under sequence number
    `base`. Segments may arrive in any order, any number of times, or never. */
module TcpReceiver {
  import opened Wrappers
  import opened SequenceNumbers
  import opened TcpStream

  /** Bytes of an acknowledged deferred segment: owed to the application, not yet in its buffer. */
  function OwedBytes(rx: Receiver): seq<Byte> {
    if rx.deferred.Some? && rx.deferred.value.acknowledged then rx.deferred.value.bytes else []
  }

  /** Everything taken from the peer so far, in the order the application sees it. */
  function Held(rx: Receiver, delivered: seq<Byte>): seq<Byte> {
    delivered + rx.buffer + OwedBytes(rx)
  }

  /** Stream index of RCV.NXT; a FIN counts as one more. */
  function ReceiveIndex(rx: Receiver, delivered: seq<Byte>): nat {
    |Held(rx, delivered)| + Bit(FinTaken(rx))
  }

  /** `seg` is a piece of the peer's stream starting at index `at`. */
  ghost predicate CutFrom(seg: Segment, at: int, data: seq<Byte>, closed: bool) {
    && (seg.payload != [] ==> 0 <= at && at + |seg.payload| <= |data|
                              && seg.payload == data[at..at + |seg.payload|])
    && (seg.flags.fin ==> closed && at + |seg.payload| == |data|)
  }

  /** A segment held beyond a gap sits inside the window and agrees with the peer's stream. */
  ghost predicate GapConsistent(rx: Receiver, index: nat, data: seq<Byte>, closed: bool) {
    rx.deferred.Some? && !rx.deferred.value.acknowledged ==>
      var d := rx.deferred.value;
      var at := index + WrapSub(d.seqno, rx.next);
      && index < at
      && at + |d.bytes| + Bit(d.fin) <= index + RECEIVE_CAPACITY
      && at + |d.bytes| <= |data|
      && d.bytes == data[at..at + |d.bytes|]
      && (d.fin ==> closed && at + |d.bytes| == |data|)
  }

  /** An acknowledged deferred segment always waits behind a non-empty buffer. */
  ghost predicate Buffered(rx: Receiver) {
    && |rx.buffer| <= MSS
    && (rx.finPending ==> rx.fin)
    && (rx.deferred.Some? ==>
          && 0 < |rx.deferred.value.bytes| <= MSS
          && (rx.deferred.value.acknowledged ==> rx.buffer != []))
  }

  /** The receiver invariant. */
  ghost predicate Receives(rx: Receiver, base: U32, delivered: seq<Byte>, data: seq<Byte>, closed: bool) {
    && Buffered(rx)
    && Held(rx, delivered) <= data
    && rx.next == Wrap(base + ReceiveIndex(rx, delivered))
    && (FinTaken(rx) ==> closed && Held(rx, delivered) == data)
    && GapConsistent(rx, ReceiveIndex(rx, delivered), data, closed)
  }

  lemma StartReceives(peer: Peer, early: Early, tick: U64, data: seq<Byte>, closed: bool)
    requires |early.bytes| <= MSS && early.bytes <= data
    requires early.fin ==> closed && early.bytes == data
    ensures Receives(StartStream(peer, early, tick).rx, peer.remoteSeq, [], data, closed)
  {
    assert Held(StartStream(peer, early, tick).rx, []) == early.bytes;
  }

  /** The peer may append to its stream until it closes; what was received stays valid. */
  lemma ReceivesExtends(rx: Receiver, base: U32, delivered: seq<Byte>, data: seq<Byte>, more: seq<Byte>, closed: bool)
    requires Receives(rx, base, delivered, data, false)
    requires data <= more
    ensures Receives(rx, base, delivered, more, closed)
  {
    if rx.deferred.Some? && !rx.deferred.value.acknowledged {
      var d := rx.deferred.value;
      var at := ReceiveIndex(rx, delivered) + WrapSub(d.seqno, rx.next);
      assert more[at..at + |d.bytes|] == data[at..at + |d.bytes|];
    }
  }

  // ----- payload: the two ways a segment is stored -----

  /** How far the gap to an unacknowledged deferred segment shrinks when `len` bytes arrive. */
  lemma GapShrinks(rx: Receiver, seg: Segment, base: U32, n: nat)
    requires rx.next == Wrap(base + n) && rx.deferred.Some?
    requires WrapSub(rx.deferred.value.seqno, rx.next) <= RECEIVE_CAPACITY
    requires |seg.payload| <= WrapSub(rx.deferred.value.seqno, rx.next)
    ensures var off := WrapSub(rx.deferred.value.seqno, rx.next);
            var next := WrapAdd(rx.next, |seg.payload|);
            && next == Wrap(base + n + |seg.payload|)
            && (rx.deferred.value.seqno == next <==> off == |seg.payload|)
            && WrapSub(rx.deferred.value.seqno, next) == off - |seg.payload|
  {
    DistanceShrinks(rx.deferred.value.seqno, rx.next, |seg.payload|);
    WrapShift(base, n, |seg.payload|);
  }

  /** Three consecutive pieces of the peer's stream are one piece. */
  lemma Joined(data: seq<Byte>, a: seq<Byte>, b: seq<Byte>, c: seq<Byte>)
    requires |a| + |b| + |c| <= |data| && a == data[..|a|] && b == data[|a|..|a| + |b|]
    requires c == data[|a| + |b|..|a| + |b| + |c|]
    ensures a + b + c == data[..|a| + |b| + |c|]
  {
  }

  /** In-order data that closes the gap acknowledges the deferred segment along with it. */
  lemma FillKeeps(rx: Receiver, seg: Segment, base: U32, delivered: seq<Byte>, data: seq<Byte>, closed: bool)
    requires Receives(rx, base, delivered, data, closed)
    requires !FinTaken(rx) && InOrder(rx, seg) && |seg.payload| <= MSS
    requires CutFrom(seg, |delivered|, data, closed)
    requires rx.deferred.Some? && |seg.payload| == WrapSub(rx.deferred.value.seqno, rx.next)
    ensures Receives(TakeInOrder(rx, seg), base, delivered, data, closed)
    ensures delivered + seg.payload <= Held(TakeInOrder(rx, seg), delivered)
  {
    hide Wrap, WrapAdd, WrapSub;
    var n, len, d := |delivered|, |seg.payload|, rx.deferred.value;
    var rx1 := TakeInOrder(rx, seg);
    assert Held(rx, delivered) == delivered;
    GapShrinks(rx, seg, base, n);
    WrapShift(base, n + len, |d.bytes|);
    WrapShift(base, n + len + |d.bytes|, Bit(d.fin));
    Joined(data, delivered, seg.payload, d.bytes);
    assert rx1 == rx.(buffer := seg.payload, deferred := Some(d.(acknowledged := true)), next := rx1.next);
    assert Held(rx1, delivered) == delivered + seg.payload + d.bytes;
  }

  lemma TakeInOrderKeeps(rx: Receiver, seg: Segment, base: U32, delivered: seq<Byte>, data: seq<Byte>, closed: bool)
    requires Receives(rx, base, delivered, data, closed)
    requires !FinTaken(rx) && InOrder(rx, seg) && |seg.payload| <= MSS
    requires CutFrom(seg, |delivered|, data, closed)
    requires !OverlapsDeferred(rx, seg)
    ensures Receives(TakeInOrder(rx, seg), base, delivered, data, closed)
    ensures delivered + seg.payload <= Held(TakeInOrder(rx, seg), delivered)
  {
    var n := |delivered|;
    assert Held(rx, delivered) == delivered;
    if rx.deferred.Some? && |seg.payload| == WrapSub(rx.deferred.value.seqno, rx.next) {
      FillKeeps(rx, seg, base, delivered, data, closed);
    } else {
      WrapShift(base, n, |seg.payload|);
      if rx.deferred.Some? { GapShrinks(rx, seg, base, n); }
      assert Held(TakeInOrder(rx, seg), delivered) == delivered + seg.payload == data[..n + |seg.payload|];
    }
  }

  lemma DeferKeeps(rx: Receiver, seg: Segment, base: U32, delivered: seq<Byte>, data: seq<Byte>, closed: bool, at: int)
    requires Receives(rx, base, delivered, data, closed)
    requires !FinTaken(rx) && |seg.payload| <= MSS && Deferrable(rx, seg)
    requires seg.seqno == Wrap(base + at) && |Held(rx, delivered)| <= at < |Held(rx, delivered)| + RECEIVE_CAPACITY
    requires CutFrom(seg, at, data, closed)
    ensures Receives(Defer(rx, seg), base, delivered, data, closed)
    ensures Held(rx, delivered) <= Held(Defer(rx, seg), delivered)
  {
    WrapEqual(base, at, |Held(rx, delivered)|);
    if at == |Held(rx, delivered)| {
      DeferAdjacent(rx, seg, base, delivered, data, closed);
    } else {
      DeferBeyond(rx, seg, base, delivered, data, closed, at);
    }
  }

  /** The segment continues the data held: it is acknowledged at once. */
  lemma DeferAdjacent(rx: Receiver, seg: Segment, base: U32, delivered: seq<Byte>, data: seq<Byte>, closed: bool)
    requires Receives(rx, base, delivered, data, closed)
    requires !FinTaken(rx) && |seg.payload| <= MSS && Deferrable(rx, seg)
    requires seg.seqno == Wrap(base + |Held(rx, delivered)|) && CutFrom(seg, |Held(rx, delivered)|, data, closed)
    ensures Receives(Defer(rx, seg), base, delivered, data, closed)
    ensures Held(rx, delivered) <= Held(Defer(rx, seg), delivered)
  {
    var n, len := |Held(rx, delivered)|, |seg.payload|;
    assert Held(Defer(rx, seg), delivered) == Held(rx, delivered) + seg.payload;
    WrapShift(base, n, len);
    WrapShift(base, n + len, Bit(seg.flags.fin));
    assert data[..n] + data[n..n + len] == data[..n + len];
  }

  lemma NearWindow(at: int, n: int)
    requires n <= at < n + RECEIVE_CAPACITY
    ensures Near(at, n) && Wrap(at - n) == at - n
  {
  }

  /** The segment leaves a gap: it waits. */
  lemma DeferBeyond(rx: Receiver, seg: Segment, base: U32, delivered: seq<Byte>, data: seq<Byte>, closed: bool, at: int)
    requires Receives(rx, base, delivered, data, closed)
    requires !FinTaken(rx) && |seg.payload| <= MSS && Deferrable(rx, seg)
    requires seg.seqno == Wrap(base + at) && |Held(rx, delivered)| < at < |Held(rx, delivered)| + RECEIVE_CAPACITY
    requires CutFrom(seg, at, data, closed)
    ensures Receives(Defer(rx, seg), base, delivered, data, closed)
    ensures Held(rx, delivered) <= Held(Defer(rx, seg), delivered)
  {
    hide Wrap, WrapAdd, WrapSub, Near;
    var n := |Held(rx, delivered)|;
    NearWindow(at, n);
    WrapEqual(base, at, n);
    WrapDistance(base, at, n);
    assert rx.next == Wrap(base + n);
    assert Held(Defer(rx, seg), delivered) == Held(rx, delivered);
  }

  lemma DataPhaseKeeps(rx: Receiver, seg: Segment, base: U32, delivered: seq<Byte>, data: seq<Byte>, closed: bool, at: int)
    requires Receives(rx, base, delivered, data, closed)
    requires !FinTaken(rx) && |seg.payload| <= MSS && !OverlapsDeferred(rx, seg)
    requires seg.seqno == Wrap(base + at) && |Held(rx, delivered)| <= at < |Held(rx, delivered)| + RECEIVE_CAPACITY
    requires CutFrom(seg, at, data, closed)
    ensures Receives(DataPhase(rx, seg), base, delivered, data, closed)
    ensures Held(rx, delivered) <= Held(DataPhase(rx, seg), delivered)
    ensures seg.flags.fin && !Deferrable(rx, seg) ==> !FinTaken(DataPhase(rx, seg))
  {
    WrapEqual(base, at, |Held(rx, delivered)|);
    if InOrder(rx, seg) {
      TakeInOrderKeeps(rx, seg, base, delivered, data, closed);
    } else if Deferrable(rx, seg) {
      DeferKeeps(rx, seg, base, delivered, data, closed, at);
    }
  }

  lemma FinPhaseKeeps(before: Receiver, rx: Receiver, seg: Segment, base: U32, delivered: seq<Byte>, data: seq<Byte>, closed: bool, at: int)
    requires Receives(rx, base, delivered, data, closed)
    requires seg.seqno == Wrap(base + at) && Near(at + |seg.payload|, ReceiveIndex(rx, delivered))
    requires CutFrom(seg, at, data, closed)
    requires seg.flags.fin && !Deferrable(before, seg) ==> !FinTaken(rx)
    ensures Receives(FinPhase(before, rx, seg), base, delivered, data, closed)
    ensures Held(FinPhase(before, rx, seg), delivered) == Held(rx, delivered)
  {
    var n := ReceiveIndex(rx, delivered);
    WrapShift(base, at, |seg.payload|);
    WrapEqual(base, at + |seg.payload|, n);
    WrapShift(base, n, 1);
  }

  lemma AbsorbKeeps(rx: Receiver, seg: Segment, base: U32, delivered: seq<Byte>, data: seq<Byte>, closed: bool, at: int)
    requires Receives(rx, base, delivered, data, closed)
    requires !FinTaken(rx) && |seg.payload| <= MSS && !OverlapsDeferred(rx, seg)
    requires seg.seqno == Wrap(base + at) && |Held(rx, delivered)| <= at < |Held(rx, delivered)| + RECEIVE_CAPACITY
    requires CutFrom(seg, at, data, closed)
    ensures Receives(Absorb(rx, seg), base, delivered, data, closed)
    ensures Held(rx, delivered) <= Held(Absorb(rx, seg), delivered)
  {
    DataPhaseKeeps(rx, seg, base, delivered, data, closed, at);
    var rx1 := DataPhase(rx, seg);
    assert |rx1.buffer| <= MSS && |OwedBytes(rx1)| <= MSS;
    FinPhaseKeeps(rx, rx1, seg, base, delivered, data, closed, at);
  }

  // ----- one arrival, one consume, one report -----

  /** The receive side after one segment, given the verdict on its ACK field. */
  function Arrive(rx: Receiver, seg: Segment, acceptable: bool): Receiver {
    if seg.flags.rst || seg.flags.syn || Refused(rx, seg, acceptable) || |seg.payload| > MSS || !seg.Carries()
    then rx else Absorb(rx, seg)
  }

  lemma HandleSegmentArrives(op: Stream, seg: Segment, tick: U64, ok: bool)
    requires op.tx.flight <= |op.tx.queue|
    ensures HandleSegment(op, seg, tick, ok).0.rx == Arrive(op.rx, seg, AckAcceptable(op, seg))
  {
  }

  /** One segment, anywhere in the peer's stream: what is held only grows along that stream,
      and a segment starting before RCV.NXT changes nothing. */
  lemma ArriveKeeps(rx: Receiver, seg: Segment, acceptable: bool, base: U32, delivered: seq<Byte>, data: seq<Byte>, closed: bool, at: int)
    requires Receives(rx, base, delivered, data, closed)
    requires seg.seqno == Wrap(base + at) && Near(at, ReceiveIndex(rx, delivered))
    requires acceptable ==> SequenceInWindow(seg.seqno, rx.next, ReceiveWindow(rx))
    requires at >= ReceiveIndex(rx, delivered) ==> CutFrom(seg, at, data, closed)
    ensures Receives(Arrive(rx, seg, acceptable), base, delivered, data, closed)
    ensures Held(rx, delivered) <= Held(Arrive(rx, seg, acceptable), delivered)
    ensures at < ReceiveIndex(rx, delivered) ==> Arrive(rx, seg, acceptable) == rx
  {
    WindowExact(base, at, ReceiveIndex(rx, delivered), ReceiveWindow(rx));
    if Arrive(rx, seg, acceptable) != rx {
      AbsorbKeeps(rx, seg, base, delivered, data, closed, at);
    }
  }

  /** Consuming moves bytes from the buffer to the application and loses none. */
  lemma ConsumedKeeps(rx: Receiver, base: U32, delivered: seq<Byte>, data: seq<Byte>, closed: bool)
    requires Receives(rx, base, delivered, data, closed) && rx.buffer != []
    ensures Receives(Consumed(rx), base, delivered + rx.buffer, data, closed)
    ensures Held(Consumed(rx), delivered + rx.buffer) == Held(rx, delivered)
    ensures ReceiveIndex(Consumed(rx), delivered + rx.buffer) == ReceiveIndex(rx, delivered)
  {
    assert Held(Consumed(rx), delivered + rx.buffer) == Held(rx, delivered);
  }

  /** A close is reported only after every byte before the FIN was consumed. */
  lemma ReportIsComplete(op: Stream, base: U32, delivered: seq<Byte>, data: seq<Byte>, closed: bool)
    requires Receives(op.rx, base, delivered, data, closed)
    ensures Report(op).PeerClosed? || Report(op).Closed? ==> closed && delivered == data
    ensures Report(op).Received? ==> delivered + Report(op).bytes <= data
  {
    assert Report(op).PeerClosed? || Report(op).Closed? ==> Held(op.rx, delivered) == delivered;
  }

  // ----- every arrival order -----

  datatype Event =
    | Arrival(seg: Segment, at: int, acceptable: bool)
    | Take

  /** The segment-lifetime assumption and the peer's honesty, at the moment of arrival. */
  ghost predicate Admissible(rx: Receiver, e: Event, base: U32, delivered: seq<Byte>, data: seq<Byte>, closed: bool) {
    match e
    case Take => rx.buffer != []
    case Arrival(seg, at, acceptable) =>
      && seg.seqno == Wrap(base + at) && Near(at, ReceiveIndex(rx, delivered))
      && (acceptable ==> SequenceInWindow(seg.seqno, rx.next, ReceiveWindow(rx)))
      && CutFrom(seg, at, data, closed)
  }

  function Next(rx: Receiver, delivered: seq<Byte>, e: Event): (Receiver, seq<Byte>) {
    match e
    case Take => (Consumed(rx), delivered + rx.buffer)
    case Arrival(seg, _, acceptable) => (Arrive(rx, seg, acceptable), delivered)
  }

  ghost predicate AllAdmissible(rx: Receiver, delivered: seq<Byte>, events: seq<Event>, base: U32, data: seq<Byte>, closed: bool)
    decreases |events|
  {
    events == [] ||
    (Admissible(rx, events[0], base, delivered, data, closed) &&
     var (rx1, delivered1) := Next(rx, delivered, events[0]);
     AllAdmissible(rx1, delivered1, events[1..], base, data, closed))
  }

  function Run(rx: Receiver, delivered: seq<Byte>, events: seq<Event>): (Receiver, seq<Byte>)
    decreases |events|
  {
    if events == [] then (rx, delivered)
    else var (rx1, delivered1) := Next(rx, delivered, events[0]); Run(rx1, delivered1, events[1..])
  }

  /** For every arrival order of segments cut from one stream, interleaved with consumes in any way,
      delivered ++ buffer ++ owed is the prefix of that stream ending at RCV.NXT, and it never shrinks. */
  lemma {:induction false} RunReceives(rx: Receiver, delivered: seq<Byte>, events: seq<Event>, base: U32, data: seq<Byte>, closed: bool)
    requires Receives(rx, base, delivered, data, closed)
    requires AllAdmissible(rx, delivered, events, base, data, closed)
    ensures var (rx1, delivered1) := Run(rx, delivered, events);
            && Receives(rx1, base, delivered1, data, closed)
            && Held(rx, delivered) <= Held(rx1, delivered1)
            && delivered <= delivered1
    decreases |events|
  {
    if events != [] {
      var (rx1, delivered1) := Next(rx, delivered, events[0]);
      match events[0] {
        case Take => ConsumedKeeps(rx, base, delivered, data, closed);
        case Arrival(seg, at, acceptable) => ArriveKeeps(rx, seg, acceptable, base, delivered, data, closed, at);
      }
      RunReceives(rx1, delivered1, events[1..], base, data, closed);
    }
  }
}
