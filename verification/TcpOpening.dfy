/** A connection from the handshake on: the peer already streams while this side still holds a handshake slot, early data
    and an early FIN are acknowledged by that slot, and the stream slot attached later continues both streams. */
module TcpOpening {
  import opened SequenceNumbers
  import opened TcpStream
  import opened TcpReceiver
  import opened TcpSender
  import opened TcpEndpoint
  import opened TcpPair
  import opened TcpHandshake

  /** The left side streams already, the right side still holds its handshake slot. */
  datatype Opening = Opening(left: Endpoint, right: Handshake, toRight: seq<Wired>, toLeft: seq<Wired>)

  /** The endpoint a handshake slot hands over to. */
  ghost function StreamOf(h: Handshake, tick: U64): Endpoint {
    Endpoint(StartStream(PeerOf(h), h.early, tick), true, [], [])
  }

  /** The pair of streams after the right side was attached. */
  ghost function Attached(o: Opening, tick: U64): World {
    World(o.left, StreamOf(o.right, tick), o.toRight, o.toLeft, PeerOf(o.right).remoteSeq, PeerOf(o.right).localSeq)
  }

  datatype Happening =
    | OnLeft(step: Step)
    | OnRight(k: nat, tick: U64, ok: bool)

  /** A delivered segment is within its lifetime, as for two streams. */
  ghost predicate Possible(o: Opening, e: Happening) {
    match e
    case OnLeft(step) => Enabled(Attached(o, 0), step)
    case OnRight(k, _, _) => k < |o.toRight| && Near(o.toRight[k].at, |o.right.early.bytes|)
  }

  /** What the handshake slot answers, apart from repeating its SYN. */
  ghost function Answers(out: seq<Segment>): seq<Segment> { if out == [] || out[0].flags.syn then [] else out }

  ghost function Next(o: Opening, e: Happening): Opening
    requires Possible(o, e)
  {
    match e
    case OnLeft(step) =>
      var w := LeftStep(Attached(o, 0), step);
      o.(left := w.left, toRight := w.toRight)
    case OnRight(k, tick, ok) =>
      var (h, out) := HandleHandshake(o.right, o.toRight[k].seg, tick, ok);
      o.(right := h, toLeft := o.toLeft + StampAll(StreamOf(h, 0), Answers(out)))
  }

  ghost predicate Feasible(o: Opening, events: seq<Happening>)
    decreases |events|
  {
    events == [] || (Possible(o, events[0]) && Feasible(Next(o, events[0]), events[1..]))
  }

  ghost function Opened(o: Opening, events: seq<Happening>): Opening
    requires Feasible(o, events)
    decreases |events|
  {
    if events == [] then o else Opened(Next(o, events[0]), events[1..])
  }

  /** The left side has just started its stream towards this handshake slot, and nothing is on the wire. */
  ghost predicate Starts(o: Opening) {
    && o.toRight == [] && o.toLeft == []
    && o.right.early.bytes == [] && !o.right.early.fin
    && exists peer, window, tick :: o.left == Fresh(PeerOf(o.right).remoteSeq, PeerOf(o.right).localSeq, peer, window, tick)
  }

  lemma StartsInv(o: Opening)
    requires Starts(o)
    ensures Inv(Attached(o, 0))
  {
    var p, u, t :| o.left == Fresh(PeerOf(o.right).remoteSeq, PeerOf(o.right).localSeq, p, u, t);
    var w := Attached(o, 0);
    var peer := PeerOf(o.right);
    assert w.right == Fresh(peer.localSeq, peer.remoteSeq, peer, o.right.early.peerWindow, 0);
    FreshHalf(w.left, w.right, w.leftBase, w.rightBase, p, u, t, peer, o.right.early.peerWindow, 0);
    FreshHalf(w.right, w.left, w.rightBase, w.leftBase, peer, o.right.early.peerWindow, 0, p, u, t);
  }

  /** What the stream invariant says about the early data. */
  lemma EarlyHeld(h: Handshake, tick: U64, base: U32, data: seq<Byte>, closed: bool)
    ensures Receives(StreamOf(h, tick).op.rx, base, [], data, closed) ==> EarlyOk(h.early, data, closed)
    ensures Rcv(StreamOf(h, tick)) == |h.early.bytes| + Bit(h.early.fin)
  {
    assert Held(StreamOf(h, tick).op.rx, []) == h.early.bytes;
  }

  /** A segment of the left stream, or a probe, that the handshake slot may take. */
  lemma EarlyTimely(x: Endpoint, h: Handshake, xy: seq<Wired>, yx: seq<Wired>, k: nat, tick: U64, ok: bool)
    requires Half(x, StreamOf(h, 0), xy, yx, PeerOf(h).remoteSeq) && k < |xy| && Near(xy[k].at, |h.early.bytes|)
    ensures Timely(h, Arriving(xy[k].seg, xy[k].at, tick, ok), Exposed(x), x.op.tx.finSent)
    ensures EarlyOk(h.early, Exposed(x), x.op.tx.finSent)
  {
    hide Wrap, WrapAdd, Receives, StartStream, CutFrom, LoggedAck;
    EarlyHeld(h, 0, PeerOf(h).remoteSeq, Exposed(x), x.op.tx.finSent);
    HalfParts(x, StreamOf(h, 0), xy, yx, PeerOf(h).remoteSeq);
    assert LoggedData(xy[k], x, PeerOf(h).remoteSeq);
  }

  lemma HalfParts(x: Endpoint, y: Endpoint, xy: seq<Wired>, yx: seq<Wired>, base: U32)
    requires Half(x, y, xy, yx, base)
    ensures Sends(x.op, base, x.accepted) && x.op.tx.flight <= |x.op.tx.queue| <= |x.accepted|
    ensures Receives(y.op.rx, base, y.delivered, Exposed(x), x.op.tx.finSent) && Una(x) <= Rcv(y)
  {
  }

  lemma AnswerShape(h: Handshake, seg: Segment, tick: U64, ok: bool)
    ensures var (h1, out) := HandleHandshake(h, seg, tick, ok);
            var rx, tx := StreamOf(h1, 0).op.rx, StreamOf(h1, 0).op.tx;
            var answers := Answers(out);
            && (answers == [] || (|answers| == 1 && answers[0].seqno == tx.una && answers[0].ackno == rx.next && !answers[0].Carries()))
            && |h.early.bytes| + Bit(h.early.fin) <= |h1.early.bytes| + Bit(h1.early.fin)
            && PeerOf(h1) == PeerOf(h)
  {
  }

  /** The right side as receiver and as sender, when its handshake slot takes a delivered segment. */
  lemma OnRightHalves(x: Endpoint, h: Handshake, xy: seq<Wired>, yx: seq<Wired>, k: nat, tick: U64, ok: bool)
    requires Half(x, StreamOf(h, 0), xy, yx, PeerOf(h).remoteSeq) && Half(StreamOf(h, 0), x, yx, xy, PeerOf(h).localSeq)
    requires Bounded(StreamOf(h, 0), yx) && k < |xy| && Near(xy[k].at, |h.early.bytes|)
    ensures var (h1, out) := HandleHandshake(h, xy[k].seg, tick, ok);
            var y := StreamOf(h1, 0);
            var yx' := yx + StampAll(y, Answers(out));
            && PeerOf(h1) == PeerOf(h) && Half(x, y, xy, yx', PeerOf(h).remoteSeq)
            && Half(y, x, yx', xy, PeerOf(h).localSeq) && Bounded(y, yx')
  {
    hide HandleHandshake, SendSide, Receives, Sends, Half, Bounded, PeerOf, StartStream, Rcv, WellSent, StampAll, Answers;
    var y0, base, other := StreamOf(h, 0), PeerOf(h).remoteSeq, PeerOf(h).localSeq;
    var (h1, out) := HandleHandshake(h, xy[k].seg, tick, ok);
    var y, answers := StreamOf(h1, 0), Answers(out);
    HalfParts(x, y0, xy, yx, base);
    HalfParts(y0, x, yx, xy, other);
    var data, closed := Exposed(x), x.op.tx.finSent;
    EarlyTimely(x, h, xy, yx, k, tick, ok);
    HandshakeStep(h, Arriving(xy[k].seg, xy[k].at, tick, ok), data, closed);
    AnswerShape(h, xy[k].seg, tick, ok);
    StartReceives(PeerOf(h1), h1.early, 0, data, closed);
    EarlyHeld(h, 0, base, data, closed);
    EarlyHeld(h1, 0, base, data, closed);
    SameSender(h, h1);
    QuietSendSide(y0, y, answers, other);
    AnswersSent(y0, y, answers, other);
    StepAsSender(y0, y, x, yx, xy, answers, other);
    StepAsReceiver(y0, y, x, yx, xy, answers, base);
    StepBounded(y0, y, yx, answers, other);
  }

  lemma SameSender(h: Handshake, h1: Handshake)
    requires PeerOf(h1) == PeerOf(h)
    ensures var y0, y := StreamOf(h, 0), StreamOf(h1, 0);
            && y.accepted == y0.accepted && y.delivered == [] && y.op.tx == y0.op.tx && y.op.timer == y0.op.timer
            && y.op.congestion == y0.op.congestion && y.op.rx == StartStream(PeerOf(h1), h1.early, 0).rx
  {
  }

  lemma OnRightKeeps(o: Opening, k: nat, tick: U64, ok: bool)
    requires Inv(Attached(o, 0)) && Possible(o, OnRight(k, tick, ok))
    ensures Inv(Attached(Next(o, OnRight(k, tick, ok)), 0))
  {
    hide HandleHandshake, Half, Bounded, PeerOf, StreamOf, StampAll, Answers;
    OnRightHalves(o.left, o.right, o.toRight, o.toLeft, k, tick, ok);
  }

  lemma AnswersSent(x: Endpoint, y: Endpoint, out: seq<Segment>, base: U32)
    requires SendSide(x, y, out, base)
    ensures forall k :: 0 <= k < |out| ==> WellSent(y.op, out[k])
  {
  }

  lemma NextKeeps(o: Opening, e: Happening)
    requires Inv(Attached(o, 0)) && Possible(o, e)
    ensures Inv(Attached(Next(o, e), 0))
  {
    hide Inv;
    match e
    case OnLeft(step) => LeftStepKeeps(Attached(o, 0), step);
    case OnRight(k, tick, ok) => OnRightKeeps(o, k, tick, ok);
  }

  lemma {:induction false} OpeningKeeps(o: Opening, events: seq<Happening>)
    requires Inv(Attached(o, 0)) && Feasible(o, events)
    ensures Inv(Attached(Opened(o, events), 0))
    decreases |events|
  {
    hide Inv;
    if events != [] {
      NextKeeps(o, events[0]);
      OpeningKeeps(Next(o, events[0]), events[1..]);
    }
  }

  /** The tick of the attachment only sets timers. */
  lemma AttachKeeps(o: Opening, tick: U64)
    requires Inv(Attached(o, 0))
    ensures Inv(Attached(o, tick))
  {
    var w, v := Attached(o, 0), Attached(o, tick);
    assert v.right.op.rx == w.right.op.rx && v.right.op.tx == w.right.op.tx;
  }

  /** End to end from the handshake: whatever the left side sent early, in whatever order it arrived, and whenever the right
      side was attached, every reachable state of the two streams is faithful in both directions. */
  lemma EndToEndFromHandshake(o: Opening, events: seq<Happening>, tick: U64, moves: seq<Move>)
    requires Starts(o) && Feasible(o, events) && Legal(Attached(Opened(o, events), tick), moves)
    ensures var v := After(Attached(Opened(o, events), tick), moves);
            Faithful(v.left, v.right, v.toRight) && Faithful(v.right, v.left, v.toLeft)
  {
    hide Starts, Attached;
    StartsInv(o);
    OpeningKeeps(o, events);
    AttachKeeps(Opened(o, events), tick);
    var w := Attached(Opened(o, events), tick);
    RunKeeps(w, moves);
    var v := After(w, moves);
    HalfIsFaithful(v.left, v.right, v.toRight, v.toLeft, v.leftBase);
    HalfIsFaithful(v.right, v.left, v.toLeft, v.toRight, v.rightBase);
  }
}
