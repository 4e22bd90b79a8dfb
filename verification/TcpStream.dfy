/** One passive TCP stream slot: its state and the effect of each event on it.

    Every event is a function from the slot (and its inputs) to the new slot and
    the segments handed to the device. `TcpStack` runs the same steps in place;
    `TcpReceiver`, `TcpSender` and `TcpPair` prove what they keep. */
module TcpStream {
  import opened Wrappers
  import opened SequenceNumbers

  const RETRIES: nat := 3
  const RETRY_TICKS: U64 := 25
  const IDLE_TICKS: U64 := 200
  /** `USER_SOCKET_BUFFER_CAPACITY`: stream buffer size and segment size. */
  const MSS: nat := 128
  const INITIAL_CWND: nat := 2 * MSS
  const MAX_CWND: nat := 8 * MSS
  const RECEIVE_CAPACITY: nat := 2 * MSS

  datatype Peer = Peer(target: U32, remotePort: U16, localPort: U16,
                       remoteSeq: U32, localSeq: U32, mac: nat)

  /** The header bits the stream machine looks at or sets. */
  datatype Flags = Flags(fin: bool, syn: bool, rst: bool, psh: bool, ack: bool, urg: bool)

  const SYN := Flags(false, true, false, false, false, false)
  const SYN_ACK := Flags(false, true, false, false, true, false)
  const ACK := Flags(false, false, false, false, true, false)
  const PSH_ACK := Flags(false, false, false, true, true, false)
  const FIN_ACK := Flags(true, false, false, false, true, false)
  const RST_ACK := Flags(false, false, true, false, true, false)

  datatype Segment = Segment(seqno: U32, ackno: U32, flags: Flags, window: U16, payload: seq<Byte>) {
    predicate Carries() { payload != [] || flags.fin }
  }

  /** A segment held while an earlier one is missing or not yet consumed. */
  datatype Deferred = Deferred(seqno: U32, bytes: seq<Byte>, fin: bool, acknowledged: bool)

  /** Receive side: `next` is RCV.NXT, `buffer` is what the application may take. */
  datatype Receiver = Receiver(next: U32, buffer: seq<Byte>, deferred: Option<Deferred>,
                               fin: bool, finPending: bool)

  /** Send side: `una` is SND.UNA, `queue[..flight]` is in flight. */
  datatype Sender = Sender(una: U32, queue: seq<Byte>, flight: nat, completed: bool,
                           finSent: bool, finAcked: bool)

  datatype Timer = Timer(attempts: nat, deadline: U64, sentAt: U64, rto: U64,
                         persistDeadline: U64, persistAttempts: nat)

  datatype PeerWindow = PeerWindow(size: U16, seqno: U32, ackno: U32)

  datatype Congestion = Congestion(window: nat, threshold: nat)

  datatype Stream = Stream(peer: Peer, rx: Receiver, tx: Sender, timer: Timer, view: PeerWindow,
                           congestion: Congestion, reset: bool, failed: bool,
                           challengeTick: Option<U64>)

  /** Data and FIN that the handshake slot acknowledged before the stream slot existed. */
  datatype Early = Early(bytes: seq<Byte>, fin: bool, peerWindow: U16)

  datatype Progress =
    | Quiet
    | WasReset
    | Failed
    | Received(bytes: seq<Byte>)
    | SendComplete
    | PeerClosed
    | Closed

  function Bit(b: bool): nat { if b then 1 else 0 }

  function Min(a: int, b: int): int { if a < b then a else b }

  function Max(a: int, b: int): int { if a < b then b else a }

  /** The slot seeded when the coordinator attaches an established connection. */
  function StartStream(peer: Peer, early: Early, tick: U64): Stream {
    Stream(
      peer,
      Receiver(WrapAdd(WrapAdd(peer.remoteSeq, |early.bytes|), Bit(early.fin)), early.bytes, None, early.fin, early.fin),
      Sender(peer.localSeq, [], 0, false, false, false),
      Timer(0, SaturatingAdd(tick, IDLE_TICKS), tick, RETRY_TICKS, SaturatingAdd(tick, RETRY_TICKS), 0),
      PeerWindow(early.peerWindow, peer.remoteSeq, peer.localSeq),
      Congestion(INITIAL_CWND, MAX_CWND),
      false, false, None)
  }

  function DeferredLength(rx: Receiver): nat {
    if rx.deferred.Some? then |rx.deferred.value.bytes| else 0
  }

  function ReceiveWindow(rx: Receiver): U16 {
    Min(Max(RECEIVE_CAPACITY - (|rx.buffer| + DeferredLength(rx)), 0), 0xFFFF)
  }

  /** A FIN is outstanding: sent and not yet acknowledged. */
  predicate FinPending(tx: Sender) { tx.finSent && !tx.finAcked }

  /** Something is waiting for an acknowledgment. */
  predicate Outstanding(tx: Sender) { tx.flight != 0 || FinPending(tx) }

  /** Progress restarts the idle lifetime, but never postpones a pending retransmission. */
  function RefreshIdle(timer: Timer, tx: Sender, tick: U64): Timer {
    if Outstanding(tx) then timer else timer.(deadline := SaturatingAdd(tick, IDLE_TICKS))
  }

  function SegmentOf(op: Stream, flags: Flags, payload: seq<Byte>, window: U16): Segment {
    Segment(op.tx.una, op.rx.next, flags, window, payload)
  }

  function AckOf(op: Stream): Segment { SegmentOf(op, ACK, [], ReceiveWindow(op.rx)) }

  /** Resets go out through the sender that always advertises the full capacity. */
  function ResetOf(op: Stream): Segment { SegmentOf(op, RST_ACK, [], RECEIVE_CAPACITY) }

  /** What reaches the wire when the device accepts the frame (`ok`) or refuses it. */
  function Emit(ok: bool, segment: Segment): seq<Segment> { if ok then [segment] else [] }

  // ----- acknowledgment processing -----

  /** Karn's rule: only a first transmission yields a round-trip sample. */
  function SampledRto(timer: Timer, tick: U64): U64 {
    var sample := Max(tick - timer.sentAt, 1);
    if timer.attempts == 1
    then Min(Max((timer.rto * 3 + sample * 2) / 4, 4), RETRY_TICKS * 2)
    else timer.rto
  }

  /** Slow start below the threshold, additive increase above it. */
  function Grown(c: Congestion): Congestion {
    var step := if c.window < c.threshold then MSS else Max(MSS * MSS / Max(c.window, 1), 1);
    c.(window := Min(c.window + step, MAX_CWND))
  }

  /** The three acceptable values of an ACK field, oldest first. */
  datatype AckKind = Duplicate | WholeFlight | OwnFin | Unacceptable

  function ClassifyAck(tx: Sender, ackno: U32): AckKind {
    if ackno == tx.una then Duplicate
    else if tx.flight != 0 && ackno == WrapAdd(tx.una, tx.flight) then WholeFlight
    else if FinPending(tx) && ackno == WrapAdd(tx.una, 1) then OwnFin
    else Unacceptable
  }

  function AckedSender(tx: Sender, ackno: U32): Sender
    requires tx.flight <= |tx.queue|
  {
    match ClassifyAck(tx, ackno)
    case WholeFlight =>
      var rest := tx.queue[tx.flight..];
      tx.(una := ackno, queue := rest, flight := 0, completed := rest == [])
    case OwnFin => tx.(una := ackno, finAcked := true)
    case _ => tx
  }

  function AckedTimer(timer: Timer, tx: Sender, ackno: U32, tick: U64): Timer
    requires tx.flight <= |tx.queue|
  {
    match ClassifyAck(tx, ackno)
    case WholeFlight =>
      RefreshIdle(timer.(rto := SampledRto(timer, tick), attempts := 0), AckedSender(tx, ackno), tick)
    case OwnFin =>
      RefreshIdle(timer.(attempts := 0), AckedSender(tx, ackno), tick)
    case _ => timer
  }

  function UpdatedView(view: PeerWindow, seg: Segment): PeerWindow {
    if SequenceAfter(seg.seqno, view.seqno)
       || (seg.seqno == view.seqno && !SequenceAfter(view.ackno, seg.ackno))
    then PeerWindow(seg.window, seg.seqno, seg.ackno)
    else view
  }

  predicate AckAcceptable(op: Stream, seg: Segment) {
    seg.flags.ack && SequenceInWindow(seg.seqno, op.rx.next, ReceiveWindow(op.rx))
    && !ClassifyAck(op.tx, seg.ackno).Unacceptable?
  }

  /** The slot after the ACK field was examined. */
  function AckPhase(op: Stream, seg: Segment, tick: U64): Stream
    requires op.tx.flight <= |op.tx.queue|
  {
    if !AckAcceptable(op, seg) then op
    else op.(tx := AckedSender(op.tx, seg.ackno),
             timer := AckedTimer(op.timer, op.tx, seg.ackno, tick),
             congestion := if ClassifyAck(op.tx, seg.ackno).WholeFlight?
             then Grown(op.congestion) else op.congestion,
             view := UpdatedView(op.view, seg))
  }

  // ----- payload and FIN processing -----

  /** The peer's FIN was taken, directly or inside an acknowledged deferred segment. */
  predicate FinTaken(rx: Receiver) {
    rx.fin || (rx.deferred.Some? && rx.deferred.value.acknowledged && rx.deferred.value.fin)
  }

  /** An in-order segment that would run into the unacknowledged deferred one. */
  predicate OverlapsDeferred(rx: Receiver, seg: Segment) {
    seg.payload != [] && rx.deferred.Some? && !rx.deferred.value.acknowledged
    && seg.seqno == rx.next
    && |seg.payload| > WrapSub(rx.deferred.value.seqno, rx.next)
  }

  predicate InOrder(rx: Receiver, seg: Segment) {
    seg.payload != [] && seg.seqno == rx.next && rx.buffer == []
  }

  predicate Deferrable(rx: Receiver, seg: Segment) {
    seg.payload != [] && !InOrder(rx, seg) && rx.deferred.None?
    && WrapSub(seg.seqno, rx.next) + |seg.payload| + Bit(seg.flags.fin) <= ReceiveWindow(rx)
  }

  function TakeInOrder(rx: Receiver, seg: Segment): Receiver {
    var next := WrapAdd(rx.next, |seg.payload|);
    if rx.deferred.Some? && rx.deferred.value.seqno == next then
      var d := rx.deferred.value;
      rx.(buffer := seg.payload, next := WrapAdd(WrapAdd(next, |d.bytes|), Bit(d.fin)),
          deferred := Some(d.(acknowledged := true)))
    else
      rx.(buffer := seg.payload, next := next)
  }

  function Defer(rx: Receiver, seg: Segment): Receiver {
    var contiguous := seg.seqno == rx.next;
    rx.(deferred := Some(Deferred(seg.seqno, seg.payload, seg.flags.fin, contiguous)),
        next := if contiguous
        then WrapAdd(WrapAdd(rx.next, |seg.payload|), Bit(seg.flags.fin))
        else rx.next)
  }

  /** The receive side after the payload was stored, deferred or dropped. */
  function DataPhase(rx: Receiver, seg: Segment): Receiver {
    if InOrder(rx, seg) then TakeInOrder(rx, seg)
    else if Deferrable(rx, seg) then Defer(rx, seg)
    else rx
  }

  /** `before` is the receive side the payload met; a deferred segment keeps its own FIN. */
  predicate FinAccepted(before: Receiver, rx: Receiver, seg: Segment) {
    seg.flags.fin && !Deferrable(before, seg) && WrapAdd(seg.seqno, |seg.payload|) == rx.next
  }

  function FinPhase(before: Receiver, rx: Receiver, seg: Segment): Receiver {
    if FinAccepted(before, rx, seg)
    then rx.(next := WrapAdd(rx.next, 1), fin := true, finPending := true)
    else rx
  }

  /** Payload and FIN of an admitted segment together. */
  function Absorb(rx: Receiver, seg: Segment): Receiver {
    FinPhase(rx, DataPhase(rx, seg), seg)
  }

  predicate Absorbs(rx: Receiver, seg: Segment) {
    InOrder(rx, seg) || Deferrable(rx, seg) || FinAccepted(rx, DataPhase(rx, seg), seg)
  }

  // ----- whole events -----

  function Challenge(op: Stream, tick: U64, ok: bool): (Stream, seq<Segment>) {
    if op.challengeTick == Some(tick) then (op, [])
    else (op.(challengeTick := Some(tick)), Emit(ok, AckOf(op)))
  }

  function HandleReset(op: Stream, seg: Segment, tick: U64, ok: bool): (Stream, seq<Segment>) {
    if seg.seqno == op.rx.next then
      (op.(reset := true), [])
    else if SequenceInWindow(seg.seqno, op.rx.next, ReceiveWindow(op.rx)) then
      Challenge(op, tick, ok)
    else
      (op, [])
  }

  /** Segments answered with the current ACK and otherwise ignored. */
  predicate Refused(rx: Receiver, seg: Segment, acceptable: bool) {
    (seg.Carries() && (!acceptable || FinTaken(rx)))
    || (|seg.payload| <= MSS
        && ((seg.Carries() && ReceiveWindow(rx) == 0) || OverlapsDeferred(rx, seg)))
  }

  function HandleSegment(op: Stream, seg: Segment, tick: U64, ok: bool): (Stream, seq<Segment>)
    requires op.tx.flight <= |op.tx.queue|
  {
    if seg.flags.rst then
      HandleReset(op, seg, tick, ok)
    else if seg.flags.syn then
      Challenge(op, tick, ok)
    else
      var op1 := AckPhase(op, seg, tick);
      if Refused(op.rx, seg, AckAcceptable(op, seg)) then
        (op1, Emit(ok, AckOf(op1)))
      else if |seg.payload| > MSS then
        (op1.(failed := true), Emit(ok, ResetOf(op1)))
      else if !seg.Carries() then
        (op1, [])
      else
        var op2 := op1.(rx := Absorb(op1.rx, seg),
                        timer := if Absorbs(op1.rx, seg)
                        then RefreshIdle(op1.timer, op1.tx, tick) else op1.timer);
        if ok then (op2, [AckOf(op2)]) else (op2.(failed := true), [])
  }

  function FlightLength(op: Stream): nat {
    Min(Min(|op.tx.queue|, op.view.size), op.congestion.window)
  }

  /** Claim the next flight and offer it to the device; `false` if nothing could be sent. */
  function TransmitFlight(op: Stream, tick: U64, ok: bool): (Stream, seq<Segment>, bool) {
    var n := FlightLength(op);
    if n == 0 || op.tx.flight != 0 then
      (op, [], false)
    else
      var op1 := op.(tx := op.tx.(flight := n),
                     timer := op.timer.(attempts := 1, sentAt := tick,
                                        deadline := SaturatingAdd(tick, op.timer.rto)));
      (op1, Emit(ok, SegmentOf(op1, PSH_ACK, op1.tx.queue[..n], ReceiveWindow(op1.rx))), ok)
  }

  predicate CanAccept(op: Stream, bytes: seq<Byte>) {
    bytes != [] && |bytes| <= MSS && |bytes| <= op.congestion.window
    && op.tx.queue == [] && !op.tx.completed && !op.tx.finSent
  }

  /** Accept one application buffer for sending; refused while another one is unfinished. */
  function StartSend(op: Stream, bytes: seq<Byte>, tick: U64, ok: bool): (Stream, seq<Segment>, bool) {
    if !CanAccept(op, bytes) then
      (op, [], false)
    else
      var op1 := op.(tx := op.tx.(queue := bytes),
                     timer := op.timer.(deadline := SaturatingAdd(tick, IDLE_TICKS),
                                        persistDeadline := SaturatingAdd(tick, op.timer.rto),
                                        persistAttempts := 0));
      if op1.view.size == 0 then
        (op1, [], true)
      else
        var (op2, out, sent) := TransmitFlight(op1, tick, ok);
        (if sent then op2 else op2.(failed := true), out, sent)
  }

  predicate CanClose(op: Stream) {
    op.tx.queue == [] && !op.tx.completed && !op.tx.finSent
  }

  function StartClose(op: Stream, tick: U64, ok: bool): (Stream, seq<Segment>, bool) {
    if !CanClose(op) then
      (op, [], false)
    else
      var op1 := op.(tx := op.tx.(finSent := true),
                     timer := op.timer.(attempts := 1, deadline := SaturatingAdd(tick, RETRY_TICKS)));
      (op1, Emit(ok, SegmentOf(op1, FIN_ACK, [], RECEIVE_CAPACITY)), ok)
  }

  /** The application took the receive buffer; an acknowledged deferred segment moves up. */
  function Consumed(rx: Receiver): Receiver {
    if rx.deferred.Some? && rx.deferred.value.acknowledged then
      var d := rx.deferred.value;
      rx.(buffer := d.bytes, deferred := None, fin := rx.fin || d.fin,
          finPending := rx.finPending || d.fin)
    else rx.(buffer := [])
  }

  function ConsumeReceive(op: Stream, ok: bool): (Stream, seq<Segment>, bool) {
    if op.rx.buffer == [] then
      (op, [], false)
    else
      var op1 := op.(rx := Consumed(op.rx));
      (op1, Emit(ok, AckOf(op1)), true)
  }

  function ConsumeSend(op: Stream): (Stream, bool) {
    (op.(tx := op.tx.(completed := false)), op.tx.completed)
  }

  function ConsumePeerClose(op: Stream): (Stream, bool) {
    (op.(rx := op.rx.(finPending := false)), op.rx.finPending)
  }

  // ----- polling -----

  /** One already-consumed sequence number and one byte that is not stream data. */
  function ProbeOf(op: Stream): Segment {
    Segment(WrapSub(op.tx.una, 1), op.rx.next, ACK, ReceiveWindow(op.rx), [0])
  }

  function Shift(n: nat): nat { if n == 0 then 1 else 2 * Shift(n - 1) }

  function AfterProbe(timer: Timer, tick: U64): Timer {
    var count: nat := Min(timer.persistAttempts + 1, RETRIES);
    timer.(persistAttempts := count,
           persistDeadline := SaturatingAdd(tick, Min(timer.rto * Shift(count), IDLE_TICKS)))
  }

  /** Queued data with no flight: send it if the peer's window is open, else probe. */
  function Resume(op: Stream, tick: U64, ok: bool): (Stream, seq<Segment>) {
    if op.tx.queue == [] || op.tx.flight != 0 then
      (op, [])
    else if op.view.size != 0 then
      var (op1, out, sent) := TransmitFlight(op, tick, ok);
      (if sent then op1 else op1.(failed := true), out)
    else if tick >= op.timer.persistDeadline then
      (op.(timer := AfterProbe(op.timer, tick), failed := op.failed || !ok), Emit(ok, ProbeOf(op)))
    else
      (op, [])
  }

  function RetryOf(op: Stream): Segment
    requires op.tx.flight <= |op.tx.queue|
  {
    if op.tx.flight != 0
    then SegmentOf(op, PSH_ACK, op.tx.queue[..op.tx.flight], ReceiveWindow(op.rx))
    else SegmentOf(op, FIN_ACK, [], ReceiveWindow(op.rx))
  }

  /** Multiplicative decrease and exponential timer after a retransmission. */
  function Backoff(op: Stream, tick: U64): Stream {
    var rto: U64 := Min(op.timer.rto * 2, RETRY_TICKS * 4);
    op.(congestion := Congestion(MSS, Min(Max(op.congestion.window / 2, MSS), MAX_CWND)),
        timer := op.timer.(attempts := op.timer.attempts + 1, sentAt := tick, rto := rto,
                           deadline := SaturatingAdd(tick, rto)))
  }

  /** The report a surviving slot makes; `Quiet` lets the poll look at the next slot. */
  function Report(op: Stream): Progress {
    if op.rx.buffer != [] then Received(op.rx.buffer)
    else if op.tx.completed then SendComplete
    else if op.rx.fin && op.tx.finSent && op.tx.finAcked then Closed
    else if op.rx.finPending then PeerClosed
    else Quiet
  }

  /** One poll of one slot: `None` frees it. `ok1` and `ok2` answer its two possible transmissions. */
  function PollSlot(op: Stream, tick: U64, ok1: bool, ok2: bool): (Option<Stream>, seq<Segment>, Progress)
    requires op.tx.flight <= |op.tx.queue|
  {
    if op.reset then
      (None, [], WasReset)
    else if op.failed then
      (None, [], Failed)
    else if tick >= op.timer.deadline && !Outstanding(op.tx) then
      (None, Emit(ok1, ResetOf(op)), Failed)
    else
      var (op1, out) := Resume(op, tick, ok1);
      if tick >= op1.timer.deadline && Outstanding(op1.tx) then
        if op1.timer.attempts >= RETRIES || !ok2 then
          (None, out, Failed)
        else
          var op2 := Backoff(op1, tick);
          (Some(op2), out + [RetryOf(op1)], Report(op2))
      else
        (Some(op1), out, Report(op1))
  }
}
