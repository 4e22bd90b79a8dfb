/** One stream endpoint with its application: what each action does to the byte
    streams on both sides of the slot, and what it puts on the wire. */
module TcpEndpoint {
  import opened SequenceNumbers
  import opened TcpStream
  import opened TcpReceiver
  import opened TcpSender

  /** A slot, every byte its application handed over, and every byte it took. A slot that was
      freed keeps the last state it had. */
  datatype Endpoint = Endpoint(op: Stream, live: bool, accepted: seq<Byte>, delivered: seq<Byte>)

  datatype Action =
    | Receive(seg: Segment, tick: U64, ok: bool)
    | Poll(tick: U64, ok1: bool, ok2: bool)
    | Send(bytes: seq<Byte>, tick: U64, ok: bool)
    | TakeReceived(ok: bool)
    | TakeSendComplete
    | TakePeerClose
    | Close(tick: U64, ok: bool)
    | Finish
    | Cancel(ok: bool)

  /** The slot at the moment a poll frees it. */
  function LastState(op: Stream, tick: U64, ok1: bool): Stream {
    if op.reset || op.failed || (tick >= op.timer.deadline && !Outstanding(op.tx))
    then op else Resume(op, tick, ok1).0
  }

  function Act(x: Endpoint, a: Action): (Endpoint, seq<Segment>)
    requires x.op.tx.flight <= |x.op.tx.queue|
  {
    match a
    case Receive(seg, tick, ok) =>
      var (op, out) := HandleSegment(x.op, seg, tick, ok);
      (x.(op := op), out)
    case Poll(tick, ok1, ok2) =>
      var (r, out, _) := PollSlot(x.op, tick, ok1, ok2);
      (if r.Some? then x.(op := r.value) else x.(op := LastState(x.op, tick, ok1), live := false), out)
    case Send(bytes, tick, ok) =>
      var (op, out, _) := StartSend(x.op, bytes, tick, ok);
      (x.(op := op, accepted := if CanAccept(x.op, bytes) then x.accepted + bytes else x.accepted), out)
    case TakeReceived(ok) =>
      var (op, out, _) := ConsumeReceive(x.op, ok);
      (x.(op := op, delivered := x.delivered + x.op.rx.buffer), out)
    case TakeSendComplete => (x.(op := ConsumeSend(x.op).0), [])
    case TakePeerClose => (x.(op := ConsumePeerClose(x.op).0), [])
    case Close(tick, ok) =>
      var (op, out, _) := StartClose(x.op, tick, ok);
      (x.(op := op), out)
    case Finish => (x.(live := false), [])
    case Cancel(ok) => (x.(live := false), Emit(ok, ResetOf(x.op)))
  }

  // ----- what an endpoint exposes to its peer -----

  ghost function Una(x: Endpoint): int { SendIndex(x.op.tx, x.accepted) }

  ghost function Rcv(x: Endpoint): int { ReceiveIndex(x.op.rx, x.delivered) }

  /** Accepted bytes that were ever put in flight: acknowledged ones and the current flight. */
  ghost function Exposed(x: Endpoint): seq<Byte>
    requires |x.op.tx.queue| <= |x.accepted| && x.op.tx.flight <= |x.op.tx.queue|
  {
    x.accepted[..|x.accepted| - |x.op.tx.queue| + x.op.tx.flight]
  }

  /** Every segment an action emits carries the endpoint's current SND.UNA and RCV.NXT, and its
      payload is the current flight; the one exception is the zero-window probe. */
  ghost predicate WellSent(op: Stream, seg: Segment) {
    && seg.ackno == op.rx.next
    && ((seg.seqno == op.tx.una
        && (seg.payload != [] ==> op.tx.flight != 0 && seg.payload == op.tx.queue[..Min(op.tx.flight, |op.tx.queue|)])
        && (seg.flags.fin ==> seg.payload == [] && FinPending(op.tx)))
        || seg == ProbeOf(op))
  }

  predicate IsProbe(op: Stream, seg: Segment) { seg.seqno != op.tx.una }

  /** Transmissions of the current flight or FIN among `out`. */
  ghost function Copies(op: Stream, out: seq<Segment>): nat {
    if out == [] then 0
    else Copies(op, out[..|out| - 1]) + Bit(!IsProbe(op, out[|out| - 1]) && out[|out| - 1].Carries())
  }

  /** The send side of one action: streams only grow, a closed stream stays fixed, and every
      transmission is accounted for in `attempts`. */
  ghost predicate SendSide(x: Endpoint, y: Endpoint, out: seq<Segment>, base: U32) {
    && Sends(x.op, base, x.accepted) && Sends(y.op, base, y.accepted)
    && x.accepted <= y.accepted
    && Exposed(x) <= Exposed(y)
    && (x.op.tx.finSent ==> y.op.tx.finSent && y.accepted == x.accepted)
    && Una(x) <= Una(y)
    && (forall k :: 0 <= k < |out| ==> WellSent(y.op, out[k]))
    && Copies(y.op, out) + (if Una(y) == Una(x) then x.op.timer.attempts else 0) <= y.op.timer.attempts
  }

  lemma CopiesOne(op: Stream, out: seq<Segment>)
    requires |out| <= 1
    ensures Copies(op, out) == if out == [] then 0 else Bit(!IsProbe(op, out[0]) && out[0].Carries())
  {
    if out != [] { assert out[..|out| - 1] == []; }
  }

  lemma CopiesAppend(op: Stream, out: seq<Segment>, seg: Segment)
    ensures Copies(op, out + [seg]) == Copies(op, out) + Bit(!IsProbe(op, seg) && seg.Carries())
  {
    assert (out + [seg])[..|out|] == out;
  }

  /** Whatever a segment makes the slot answer, the answer carries no stream data. */
  lemma HandleSegmentAnswers(op: Stream, seg: Segment, tick: U64, ok: bool)
    requires op.tx.flight <= |op.tx.queue|
    ensures var (op1, out) := HandleSegment(op, seg, tick, ok);
            |out| <= 1 && (out != [] ==> !out[0].Carries() && out[0].seqno == op1.tx.una && out[0].ackno == op1.rx.next)
  {
  }

  /** An action that leaves the send side alone and answers with at most one empty segment. */
  lemma QuietSendSide(x: Endpoint, y: Endpoint, out: seq<Segment>, base: U32)
    requires Sends(x.op, base, x.accepted) && y.accepted == x.accepted
    requires y.op.timer == x.op.timer && y.op.congestion == x.op.congestion
    requires y.op.tx == x.op.tx || y.op.tx == x.op.tx.(completed := false)
    requires out == [] || (|out| == 1 && out[0].seqno == y.op.tx.una && out[0].ackno == y.op.rx.next && !out[0].Carries())
    ensures SendSide(x, y, out, base) && Una(y) == Una(x)
  {
    CopiesOne(y.op, out);
  }

  /** The send side of an acknowledgment, before anything is answered. */
  lemma AckSendSide(x: Endpoint, seg: Segment, tick: U64, base: U32)
    requires Sends(x.op, base, x.accepted)
    ensures SendSide(x, x.(op := AckedSlot(x.op, seg, tick)), [], base)
  {
    hide Grown, UpdatedView, SampledRto, AckAcceptable, CongestionOk;
    AckPhaseSends(x.op, seg, tick, base, x.accepted);
    AckedSenderKeeps(x.op.tx, seg.ackno, base, x.accepted);
  }

  /** Answering with at most one empty segment adds nothing to the send side. */
  lemma AnswerSendSide(x: Endpoint, z: Endpoint, y: Endpoint, out: seq<Segment>, base: U32)
    requires SendSide(x, z, [], base) && y.accepted == z.accepted
    requires y.op.tx == z.op.tx && y.op.congestion == z.op.congestion
    requires y.op.timer == z.op.timer.(deadline := y.op.timer.deadline)
    requires out == [] || (|out| == 1 && out[0].seqno == y.op.tx.una && out[0].ackno == y.op.rx.next && !out[0].Carries())
    ensures SendSide(x, y, out, base)
  {
    CopiesOne(y.op, out);
    CopiesOne(z.op, []);
  }

  lemma ReceiveSendSide(x: Endpoint, a: Action, base: U32)
    requires Sends(x.op, base, x.accepted) && a.Receive?
    ensures SendSide(x, Act(x, a).0, Act(x, a).1, base)
    ensures var tx := Act(x, a).0.op.tx;
            tx == x.op.tx || (AckAcceptable(x.op, a.seg) && tx == AckedSender(x.op.tx, a.seg.ackno))
  {
    hide HandleSegment, SendSide, AckedSender, AckedTimer, AckAcceptable;
    HandleSegmentSendSide(x.op, a.seg, a.tick, a.ok);
    HandleSegmentAnswers(x.op, a.seg, a.tick, a.ok);
    AckSendSide(x, a.seg, a.tick, base);
    var (y, out) := Act(x, a);
    AnswerSendSide(x, x.(op := AckedSlot(x.op, a.seg, a.tick)), y, out, base);
  }

  lemma ResumeSendSide(x: Endpoint, tick: U64, ok: bool, base: U32)
    requires Sends(x.op, base, x.accepted)
    ensures var (op1, out) := Resume(x.op, tick, ok);
            SendSide(x, x.(op := op1), out, base) && op1.rx == x.op.rx
  {
    ResumeSends(x.op, tick, ok, base, x.accepted);
    var (op1, out) := Resume(x.op, tick, ok);
    CopiesOne(op1, out);
  }

  lemma RetrySendSide(x: Endpoint, z: Endpoint, tick: U64, out: seq<Segment>, base: U32)
    requires SendSide(x, z, out, base)
    requires Outstanding(z.op.tx) && z.op.timer.attempts < RETRIES
    ensures SendSide(x, z.(op := Backoff(z.op, tick)), out + [RetryOf(z.op)], base)
    ensures Backoff(z.op, tick).rx == z.op.rx
  {
    BackoffSends(z.op, tick, base, z.accepted);
    var y := z.(op := Backoff(z.op, tick));
    SameCopies(z.op, y.op, out);
    CopiesAppend(y.op, out, RetryOf(z.op));
  }

  lemma {:induction false} SameCopies(a: Stream, b: Stream, out: seq<Segment>)
    requires a.tx.una == b.tx.una
    ensures Copies(a, out) == Copies(b, out)
  {
    if out != [] { SameCopies(a, b, out[..|out| - 1]); }
  }

  lemma FreedSendSide(x: Endpoint, y: Endpoint, out: seq<Segment>, base: U32)
    requires SendSide(x, y, out, base)
    ensures SendSide(x, y.(live := false), out, base)
  {
  }

  lemma PollSendSide(x: Endpoint, a: Action, base: U32)
    requires Sends(x.op, base, x.accepted) && a.Poll?
    ensures SendSide(x, Act(x, a).0, Act(x, a).1, base)
    ensures Act(x, a).0.op.rx == x.op.rx && Una(Act(x, a).0) == Una(x)
  {
    hide SendSide, Resume, Backoff, RetryOf, ReceiveWindow;
    var op := x.op;
    var (y, out) := Act(x, a);
    if op.reset || op.failed || (a.tick >= op.timer.deadline && !Outstanding(op.tx)) {
      QuietSendSide(x, y, out, base);
    } else {
      ResumeSendSide(x, a.tick, a.ok1, base);
      var (op1, out1) := Resume(op, a.tick, a.ok1);
      var z := x.(op := op1);
      ResumeSends(op, a.tick, a.ok1, base, x.accepted);
      if a.tick >= op1.timer.deadline && Outstanding(op1.tx) && op1.timer.attempts < RETRIES && a.ok2 {
        RetrySendSide(x, z, a.tick, out1, base);
        BackoffSends(op1, a.tick, base, x.accepted);
      }
      FreedSendSide(x, z, out1, base);
    }
  }

  lemma SendSendSide(x: Endpoint, a: Action, base: U32)
    requires Sends(x.op, base, x.accepted) && a.Send?
    ensures SendSide(x, Act(x, a).0, Act(x, a).1, base)
    ensures Act(x, a).0.op.rx == x.op.rx && Una(Act(x, a).0) == Una(x)
  {
    StartSendSends(x.op, a.bytes, a.tick, a.ok, base, x.accepted);
    var (y, out) := Act(x, a);
    CopiesOne(y.op, out);
    if CanAccept(x.op, a.bytes) {
      assert Exposed(x) == x.accepted;
    }
  }

  lemma CloseSendSide(x: Endpoint, a: Action, base: U32)
    requires Sends(x.op, base, x.accepted) && a.Close?
    ensures SendSide(x, Act(x, a).0, Act(x, a).1, base)
    ensures Act(x, a).0.op.rx == x.op.rx && Una(Act(x, a).0) == Una(x)
  {
    StartCloseSends(x.op, a.tick, a.ok, base, x.accepted);
    var (y, out) := Act(x, a);
    CopiesOne(y.op, out);
  }

  lemma OtherSendSide(x: Endpoint, a: Action, base: U32)
    requires Sends(x.op, base, x.accepted)
    requires !a.Receive? && !a.Poll? && !a.Send? && !a.Close?
    ensures SendSide(x, Act(x, a).0, Act(x, a).1, base)
    ensures Una(Act(x, a).0) == Una(x)
  {
    hide SendSide, Consumed, ReceiveWindow, TimerOk, CongestionOk;
    var (y, out) := Act(x, a);
    QuietSendSide(x, y, out, base);
  }

  lemma ActSendSide(x: Endpoint, a: Action, base: U32)
    requires Sends(x.op, base, x.accepted)
    ensures SendSide(x, Act(x, a).0, Act(x, a).1, base)
    ensures !a.Receive? ==> Una(Act(x, a).0) == Una(x)
  {
    if a.Receive? { ReceiveSendSide(x, a, base); }
    else if a.Poll? { PollSendSide(x, a, base); }
    else if a.Send? { SendSendSide(x, a, base); }
    else if a.Close? { CloseSendSide(x, a, base); }
    else { OtherSendSide(x, a, base); }
  }

  /** The receive side of one action: no local action changes what is held. */
  lemma ActReceiveSide(x: Endpoint, a: Action, base: U32, sendBase: U32, data: seq<Byte>, closed: bool)
    requires Sends(x.op, sendBase, x.accepted) && Receives(x.op.rx, base, x.delivered, data, closed)
    requires !a.Receive?
    ensures var y := Act(x, a).0;
            && Receives(y.op.rx, base, y.delivered, data, closed)
            && Held(y.op.rx, y.delivered) == Held(x.op.rx, x.delivered)
            && Rcv(y) == Rcv(x)
  {
    if a.Poll? { PollSendSide(x, a, sendBase); }
    else if a.Send? { SendSendSide(x, a, sendBase); }
    else if a.TakeReceived? {
      if x.op.rx.buffer != [] { ConsumedKeeps(x.op.rx, base, x.delivered, data, closed); }
      else { assert x.delivered + x.op.rx.buffer == x.delivered; }
    }
  }
}
