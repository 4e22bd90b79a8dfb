/** The sending half of a stream against the concatenation of all accepted sends.

    `accepted` is every byte the application handed over so far, in order. Index 0
    travels under sequence number `base`; the FIN takes the index after the last byte. */
module TcpSender {
  import opened SequenceNumbers
  import opened TcpStream

  /** Bytes the peer acknowledged: everything accepted except what is still queued. */
  ghost function AckedBytes(tx: Sender, accepted: seq<Byte>): int { |accepted| - |tx.queue| }

  /** Stream index of SND.UNA. */
  ghost function SendIndex(tx: Sender, accepted: seq<Byte>): int {
    AckedBytes(tx, accepted) + Bit(tx.finAcked)
  }

  /** First stream index the peer cannot know about yet. */
  ghost function SendLimit(tx: Sender, accepted: seq<Byte>): int {
    SendIndex(tx, accepted) + tx.flight + Bit(FinPending(tx))
  }

  /** What a send side keeps whatever was accepted: one bounded buffer, and a FIN only after it is acknowledged. */
  ghost predicate SenderShape(tx: Sender) {
    && tx.flight <= |tx.queue| <= MSS
    && (tx.completed ==> tx.queue == [])
    && (tx.finSent ==> tx.queue == [] && !tx.completed)
    && (tx.finAcked ==> tx.finSent)
  }

  ghost predicate SenderOk(tx: Sender, base: U32, accepted: seq<Byte>) {
    && SenderShape(tx)
    && |tx.queue| <= |accepted| && tx.queue == accepted[|accepted| - |tx.queue|..]
    && tx.una == Wrap(base + SendIndex(tx, accepted))
  }

  ghost predicate TimerOk(timer: Timer, tx: Sender) {
    && 4 <= timer.rto <= 4 * RETRY_TICKS
    && timer.attempts <= RETRIES && timer.persistAttempts <= RETRIES
    && (Outstanding(tx) <==> timer.attempts != 0)
  }

  ghost predicate CongestionOk(c: Congestion) {
    MSS <= c.window <= MAX_CWND && MSS <= c.threshold <= MAX_CWND
  }

  /** The sender invariant without the accepted stream: what an occupied slot satisfies at any time. */
  ghost predicate Healthy(op: Stream) {
    SenderShape(op.tx) && TimerOk(op.timer, op.tx) && CongestionOk(op.congestion)
  }

  /** The sender invariant. */
  ghost predicate Sends(op: Stream, base: U32, accepted: seq<Byte>) {
    SenderOk(op.tx, base, accepted) && TimerOk(op.timer, op.tx) && CongestionOk(op.congestion)
  }

  lemma StartSends(peer: Peer, early: Early, tick: U64)
    ensures Sends(StartStream(peer, early, tick), peer.localSeq, [])
  {
  }

  /** An acknowledgment removes exactly the flight, or the FIN, or nothing. */
  lemma AckedSenderKeeps(tx: Sender, ackno: U32, base: U32, accepted: seq<Byte>)
    requires SenderOk(tx, base, accepted)
    ensures var tx1 := AckedSender(tx, ackno);
            && SenderOk(tx1, base, accepted)
            && SendLimit(tx1, accepted) == SendLimit(tx, accepted)
            && SendIndex(tx, accepted) <= SendIndex(tx1, accepted) <= SendLimit(tx, accepted)
            && (SendIndex(tx1, accepted) == SendIndex(tx, accepted)
                || (SendIndex(tx1, accepted) == SendLimit(tx, accepted) && ackno == Wrap(base + SendLimit(tx, accepted))))
            && tx1.finSent == tx.finSent
  {
    WrapShift(base, SendIndex(tx, accepted), tx.flight);
    WrapShift(base, SendIndex(tx, accepted), 1);
    if ClassifyAck(tx, ackno).WholeFlight? {
      var acked := |accepted| - |tx.queue|;
      assert accepted[acked..][tx.flight..] == accepted[acked + tx.flight..];
    }
  }

  /** The timeout is measured only on a first transmission. */
  lemma AckedTimerKeeps(timer: Timer, tx: Sender, ackno: U32, tick: U64)
    requires TimerOk(timer, tx) && tx.flight <= |tx.queue|
    requires tx.finSent ==> tx.queue == []
    ensures var timer1 := AckedTimer(timer, tx, ackno, tick);
            && TimerOk(timer1, AckedSender(tx, ackno))
            && (timer1.rto != timer.rto ==> ClassifyAck(tx, ackno).WholeFlight? && timer.attempts == 1)
            && (ClassifyAck(tx, ackno).WholeFlight? && timer.attempts == 1 ==> 4 <= timer1.rto <= 2 * RETRY_TICKS)
  {
  }

  lemma GrownKeeps(c: Congestion)
    requires CongestionOk(c)
    ensures CongestionOk(Grown(c)) && c.window <= Grown(c).window
  {
  }

  lemma AckPhaseSends(op: Stream, seg: Segment, tick: U64, base: U32, accepted: seq<Byte>)
    requires Sends(op, base, accepted)
    ensures Sends(AckPhase(op, seg, tick), base, accepted)
  {
    AckedSenderKeeps(op.tx, seg.ackno, base, accepted);
    AckedTimerKeeps(op.timer, op.tx, seg.ackno, tick);
    GrownKeeps(op.congestion);
  }

  /** The slot whose send side `HandleSegment` leaves behind, up to the idle deadline. */
  function AckedSlot(op: Stream, seg: Segment, tick: U64): Stream
    requires op.tx.flight <= |op.tx.queue|
  {
    if seg.flags.rst || seg.flags.syn then op else AckPhase(op, seg, tick)
  }

  lemma HandleSegmentSendSide(op: Stream, seg: Segment, tick: U64, ok: bool)
    requires op.tx.flight <= |op.tx.queue|
    ensures var op1, op2 := HandleSegment(op, seg, tick, ok).0, AckedSlot(op, seg, tick);
            && op1.peer == op.peer && op1.tx == op2.tx && op1.congestion == op2.congestion
            && op1.timer == op2.timer.(deadline := op1.timer.deadline)
  {
  }

  lemma HandleSegmentSends(op: Stream, seg: Segment, tick: U64, ok: bool, base: U32, accepted: seq<Byte>)
    requires Sends(op, base, accepted)
    ensures Sends(HandleSegment(op, seg, tick, ok).0, base, accepted)
  {
    HandleSegmentSendSide(op, seg, tick, ok);
    AckPhaseSends(op, seg, tick, base, accepted);
  }

  /** Claiming a flight never reaches past the queue, the peer's window or the congestion window. */
  lemma TransmitKeeps(op: Stream, tick: U64, ok: bool, base: U32, accepted: seq<Byte>)
    requires SenderOk(op.tx, base, accepted) && CongestionOk(op.congestion)
    requires 4 <= op.timer.rto <= 4 * RETRY_TICKS && op.timer.persistAttempts <= RETRIES
    requires op.tx.flight == 0 && op.tx.queue != [] && op.view.size != 0
    ensures var (op1, out, sent) := TransmitFlight(op, tick, ok);
            && Sends(op1, base, accepted) && sent == ok
            && op1.rx == op.rx && op1.tx == op.tx.(flight := op1.tx.flight)
            && 0 < op1.tx.flight <= op.view.size
            && out == Emit(ok, SegmentOf(op1, PSH_ACK, op1.tx.queue[..op1.tx.flight], ReceiveWindow(op1.rx)))
  {
  }

  lemma StartSendSends(op: Stream, bytes: seq<Byte>, tick: U64, ok: bool, base: U32, accepted: seq<Byte>)
    requires Sends(op, base, accepted)
    ensures Sends(StartSend(op, bytes, tick, ok).0, base, if CanAccept(op, bytes) then accepted + bytes else accepted)
  {
    if CanAccept(op, bytes) {
      var op1 := op.(tx := op.tx.(queue := bytes),
                     timer := op.timer.(deadline := SaturatingAdd(tick, IDLE_TICKS),
                                        persistDeadline := SaturatingAdd(tick, op.timer.rto),
                                        persistAttempts := 0));
      assert (accepted + bytes)[|accepted|..] == bytes;
      assert SenderOk(op1.tx, base, accepted + bytes);
      if op1.view.size != 0 { TransmitKeeps(op1, tick, ok, base, accepted + bytes); }
    }
  }

  lemma StartCloseSends(op: Stream, tick: U64, ok: bool, base: U32, accepted: seq<Byte>)
    requires Sends(op, base, accepted)
    ensures Sends(StartClose(op, tick, ok).0, base, accepted)
  {
  }

  lemma ResumeSends(op: Stream, tick: U64, ok: bool, base: U32, accepted: seq<Byte>)
    requires Sends(op, base, accepted)
    ensures var (op1, out) := Resume(op, tick, ok);
            && Sends(op1, base, accepted) && op1.rx == op.rx
            && op1.tx == op.tx.(flight := op1.tx.flight)
            && (op1.tx.flight == op.tx.flight
                || (op.tx.flight == 0 && op1.timer.attempts == 1
                    && out == Emit(ok, SegmentOf(op1, PSH_ACK, op1.tx.queue[..op1.tx.flight], ReceiveWindow(op1.rx)))))
            && (op1.tx.flight == op.tx.flight ==>
                  op1.timer.attempts == op.timer.attempts
                  && (out == [] || out == [ProbeOf(op)]))
  {
    if op.tx.queue != [] && op.tx.flight == 0 && op.view.size != 0 {
      TransmitKeeps(op, tick, ok, base, accepted);
    }
  }

  /** A retransmission doubles the timeout up to its cap, cuts the window to one segment and halves the threshold. */
  lemma BackoffSends(op: Stream, tick: U64, base: U32, accepted: seq<Byte>)
    requires Sends(op, base, accepted) && Outstanding(op.tx) && op.timer.attempts < RETRIES
    ensures Sends(Backoff(op, tick), base, accepted)
    ensures Backoff(op, tick).rx == op.rx && Backoff(op, tick).tx == op.tx
    ensures Backoff(op, tick).timer.attempts == op.timer.attempts + 1
    ensures var op1 := Backoff(op, tick);
            && op1.timer.rto == Min(2 * op.timer.rto, 4 * RETRY_TICKS) && op.timer.rto <= op1.timer.rto
            && op1.timer.deadline == SaturatingAdd(tick, op1.timer.rto)
            && op1.congestion.window == MSS && op1.congestion.threshold == Max(op.congestion.window / 2, MSS)
  {
  }

  // ----- occupied slots -----

  lemma AckPhaseHealthy(op: Stream, seg: Segment, tick: U64)
    requires Healthy(op)
    ensures Healthy(AckPhase(op, seg, tick))
  {
    AckedTimerKeeps(op.timer, op.tx, seg.ackno, tick);
    GrownKeeps(op.congestion);
  }

  lemma HandleHealthy(op: Stream, seg: Segment, tick: U64, ok: bool)
    requires Healthy(op)
    ensures Healthy(HandleSegment(op, seg, tick, ok).0) && HandleSegment(op, seg, tick, ok).0.peer == op.peer
  {
    hide HandleSegment, AckPhase;
    HandleSegmentSendSide(op, seg, tick, ok);
    AckPhaseHealthy(op, seg, tick);
  }

  lemma ResumeHealthy(op: Stream, tick: U64, ok: bool)
    requires Healthy(op)
    ensures var op1 := Resume(op, tick, ok).0; Healthy(op1) && op1.peer == op.peer && op1.tx.flight <= |op1.tx.queue|
  {
  }

  lemma BackoffHealthy(op: Stream, tick: U64)
    requires Healthy(op) && Outstanding(op.tx) && op.timer.attempts < RETRIES
    ensures Healthy(Backoff(op, tick)) && Backoff(op, tick).peer == op.peer
  {
  }

  lemma PollHealthy(op: Stream, tick: U64, ok1: bool, ok2: bool)
    requires Healthy(op)
    ensures var next := PollSlot(op, tick, ok1, ok2).0;
            next.Some? ==> Healthy(next.value) && next.value.peer == op.peer
  {
    hide Resume, Backoff, SenderShape, TimerOk, CongestionOk;
    ResumeHealthy(op, tick, ok1);
    var op1 := Resume(op, tick, ok1).0;
    if Outstanding(op1.tx) && op1.timer.attempts < RETRIES { BackoffHealthy(op1, tick); }
  }

  lemma StartSendHealthy(op: Stream, bytes: seq<Byte>, tick: U64, ok: bool)
    requires Healthy(op)
    ensures Healthy(StartSend(op, bytes, tick, ok).0)
  {
  }
}
