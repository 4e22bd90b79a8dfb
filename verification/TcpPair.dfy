/** Two stream endpoints over a network that loses, duplicates and reorders segments.

    Each direction is a log of everything ever transmitted. Any logged segment may be
    delivered at any later time, any number of times, or never. The only assumption is the
    segment lifetime: a segment is delivered while its indices are less than 2^31 away
    from the indices its receiver is at. */
module TcpPair {
  import opened SequenceNumbers
  import opened TcpStream
  import opened TcpReceiver
  import opened TcpSender
  import opened TcpEndpoint

  /** A transmitted segment and the stream indices its sequence and ACK fields stand for. */
  datatype Wired = Wired(seg: Segment, at: int, acks: int, probe: bool)

  datatype World = World(left: Endpoint, right: Endpoint, toRight: seq<Wired>, toLeft: seq<Wired>,
                         leftBase: U32, rightBase: U32)

  datatype Step =
    | Local(action: Action)
    | Deliver(k: nat, tick: U64, ok: bool)

  function Swap(w: World): World {
    World(w.right, w.left, w.toLeft, w.toRight, w.rightBase, w.leftBase)
  }

  ghost function Stamp(x: Endpoint, seg: Segment): Wired {
    var probe := IsProbe(x.op, seg);
    Wired(seg, if probe then Una(x) - 1 else Una(x), Rcv(x), probe)
  }

  ghost function StampAll(x: Endpoint, out: seq<Segment>): seq<Wired> {
    seq(|out|, k requires 0 <= k < |out| => Stamp(x, out[k]))
  }

  /** The action a step makes the left endpoint perform. */
  ghost function ActionOf(w: World, s: Step): Action
    requires s.Deliver? ==> s.k < |w.toLeft|
  {
    match s
    case Local(a) => a
    case Deliver(k, tick, ok) => Receive(w.toLeft[k].seg, tick, ok)
  }

  ghost predicate Enabled(w: World, s: Step) {
    && w.left.live
    && w.left.op.tx.flight <= |w.left.op.tx.queue|
    && match s
       case Local(a) => !a.Receive?
       case Deliver(k, _, _) =>
         && k < |w.toLeft|
         && Near(w.toLeft[k].at, Rcv(w.left)) && Near(w.toLeft[k].acks, Una(w.left))
  }

  ghost function LeftStep(w: World, s: Step): World
    requires Enabled(w, s)
  {
    var (x, out) := Act(w.left, ActionOf(w, s));
    w.(left := x, toRight := w.toRight + StampAll(x, out))
  }

  // ----- the invariant -----

  /** Copies of the flight or FIN starting at index `i` that were put on the wire. */
  ghost function Transmissions(wire: seq<Wired>, i: int): nat {
    if wire == [] then 0
    else var t := wire[|wire| - 1];
         Transmissions(wire[..|wire| - 1], i) + Bit(t.at == i && !t.probe && t.seg.Carries())
  }

  /** A segment logged by the sender `x` is a piece of what `x` exposed, or an old probe. */
  ghost predicate LoggedData(t: Wired, x: Endpoint, base: U32)
    requires |x.op.tx.queue| <= |x.accepted| && x.op.tx.flight <= |x.op.tx.queue|
  {
    && t.seg.seqno == Wrap(base + t.at)
    && t.at <= Una(x)
    && if t.probe then t.at < Una(x) else CutFrom(t.seg, t.at, Exposed(x), x.op.tx.finSent)
  }

  /** A segment logged by the receiver `y` acknowledges no more than `y` holds. */
  ghost predicate LoggedAck(t: Wired, y: Endpoint, base: U32) {
    t.seg.ackno == Wrap(base + t.acks) && t.acks <= Rcv(y)
  }

  /** The stream from `x` to `y`: `xy` carries data, `yx` carries acknowledgments. */
  ghost predicate Half(x: Endpoint, y: Endpoint, xy: seq<Wired>, yx: seq<Wired>, base: U32) {
    && Sends(x.op, base, x.accepted)
    && Receives(y.op.rx, base, y.delivered, Exposed(x), x.op.tx.finSent)
    && Una(x) <= Rcv(y)
    && (forall k :: 0 <= k < |xy| ==> LoggedData(xy[k], x, base))
    && (forall k :: 0 <= k < |yx| ==> LoggedAck(yx[k], y, base))
  }

  /** No flight or FIN is transmitted more than three times. */
  ghost predicate Bounded(x: Endpoint, xy: seq<Wired>) {
    forall i: int ::
      Transmissions(xy, i) <=
      (if i < Una(x) then RETRIES else if i == Una(x) then x.op.timer.attempts else 0)
  }

  ghost predicate Inv(w: World) {
    && Half(w.left, w.right, w.toRight, w.toLeft, w.leftBase)
    && Half(w.right, w.left, w.toLeft, w.toRight, w.rightBase)
    && Bounded(w.left, w.toRight) && Bounded(w.right, w.toLeft)
  }

  // ----- one step -----

  lemma CutFromExtends(seg: Segment, at: int, data: seq<Byte>, closed: bool, more: seq<Byte>, closed': bool)
    requires CutFrom(seg, at, data, closed) && data <= more
    requires closed ==> closed' && more == data
    ensures CutFrom(seg, at, more, closed')
  {
    if seg.payload != [] { assert more[at..at + |seg.payload|] == data[at..at + |seg.payload|]; }
  }

  /** Exposure changes only while the stream is open. */
  lemma ExposedGrows(x: Endpoint, y: Endpoint, out: seq<Segment>, base: U32)
    requires SendSide(x, y, out, base)
    ensures x.op.tx.finSent ==> y.op.tx.finSent && Exposed(y) == Exposed(x)
  {
  }

  /** A segment sent now is logged truthfully. */
  lemma StampLogged(x: Endpoint, seg: Segment, base: U32)
    requires Sends(x.op, base, x.accepted) && WellSent(x.op, seg)
    ensures LoggedData(Stamp(x, seg), x, base)
  {
    var acked := |x.accepted| - |x.op.tx.queue|;
    WrapShift(base, Una(x), 1);
    WrapEqual(base, Una(x) - 1, Una(x));
    if seg.payload != [] && !IsProbe(x.op, seg) {
      assert x.accepted[acked..][..x.op.tx.flight] == Exposed(x)[acked..acked + x.op.tx.flight];
    }
  }

  lemma {:induction false} TransmissionsAppend(x: Endpoint, wire: seq<Wired>, out: seq<Segment>, i: int)
    ensures Transmissions(wire + StampAll(x, out), i) ==
            Transmissions(wire, i) + if i == Una(x) then Copies(x.op, out) else 0
  {
    var all := wire + StampAll(x, out);
    if out == [] {
      assert all == wire;
    } else {
      var front := out[..|out| - 1];
      assert all[..|all| - 1] == wire + StampAll(x, front);
      assert all[|all| - 1] == Stamp(x, out[|out| - 1]);
      TransmissionsAppend(x, wire, front, i);
    }
  }

  lemma StepBounded(x: Endpoint, y: Endpoint, xy: seq<Wired>, out: seq<Segment>, base: U32)
    requires SendSide(x, y, out, base) && Bounded(x, xy)
    ensures Bounded(y, xy + StampAll(y, out))
  {
    forall i: int
      ensures Transmissions(xy + StampAll(y, out), i) <=
              (if i < Una(y) then RETRIES else if i == Una(y) then y.op.timer.attempts else 0)
    {
      TransmissionsAppend(y, xy, out, i);
    }
  }

  /** The acting endpoint as sender. */
  lemma StepAsSender(x: Endpoint, x': Endpoint, y: Endpoint, xy: seq<Wired>, yx: seq<Wired>, out: seq<Segment>, base: U32)
    requires Half(x, y, xy, yx, base) && SendSide(x, x', out, base)
    requires Una(x') <= Rcv(y)
    ensures Half(x', y, xy + StampAll(x', out), yx, base)
  {
    ExposedGrows(x, x', out, base);
    if !x.op.tx.finSent {
      ReceivesExtends(y.op.rx, base, y.delivered, Exposed(x), Exposed(x'), x'.op.tx.finSent);
    }
    var wire := xy + StampAll(x', out);
    forall k | 0 <= k < |wire| ensures LoggedData(wire[k], x', base) {
      if k < |xy| {
        assert LoggedData(xy[k], x, base);
        if !xy[k].probe {
          CutFromExtends(xy[k].seg, xy[k].at, Exposed(x), x.op.tx.finSent, Exposed(x'), x'.op.tx.finSent);
        }
      } else {
        assert WellSent(x'.op, out[k - |xy|]);
        StampLogged(x', out[k - |xy|], base);
      }
    }
  }

  /** The acting endpoint as receiver. */
  lemma StepAsReceiver(x: Endpoint, x': Endpoint, y: Endpoint, xy: seq<Wired>, yx: seq<Wired>, out: seq<Segment>, base: U32)
    requires Half(y, x, yx, xy, base)
    requires Receives(x'.op.rx, base, x'.delivered, Exposed(y), y.op.tx.finSent)
    requires Rcv(x) <= Rcv(x')
    requires forall k :: 0 <= k < |out| ==> WellSent(x'.op, out[k])
    ensures Half(y, x', yx, xy + StampAll(x', out), base)
  {
    var wire := xy + StampAll(x', out);
    forall k | 0 <= k < |wire| ensures LoggedAck(wire[k], x', base) {
      if k < |xy| { assert LoggedAck(xy[k], x, base); }
      else { assert WellSent(x'.op, out[k - |xy|]); }
    }
  }

  lemma FlightIsShort(x: Endpoint, base: U32)
    requires Sends(x.op, base, x.accepted)
    ensures Una(x) <= SendLimit(x.op.tx, x.accepted) <= Una(x) + MSS
    ensures SendLimit(x.op.tx, x.accepted) == |Exposed(x)| + Bit(x.op.tx.finSent)
  {
  }

  /** Delivering a logged segment extends what is held, never past what the peer exposed;
      a probe leaves the receive side alone. */
  lemma DeliverData(x: Endpoint, y: Endpoint, xy: seq<Wired>, yx: seq<Wired>, base: U32, sendBase: U32, k: nat, tick: U64, ok: bool)
    requires Half(y, x, yx, xy, base) && Sends(x.op, sendBase, x.accepted)
    requires k < |yx| && Near(yx[k].at, Rcv(x))
    ensures var rx := HandleSegment(x.op, yx[k].seg, tick, ok).0.rx;
            && Receives(rx, base, x.delivered, Exposed(y), y.op.tx.finSent)
            && Held(x.op.rx, x.delivered) <= Held(rx, x.delivered)
            && ReceiveIndex(x.op.rx, x.delivered) <= ReceiveIndex(rx, x.delivered)
            && (yx[k].probe ==> rx == x.op.rx)
  {
    var t := yx[k];
    assert LoggedData(t, y, base);
    HandleSegmentArrives(x.op, t.seg, tick, ok);
    ArriveKeeps(x.op.rx, t.seg, AckAcceptable(x.op, t.seg), base, x.delivered, Exposed(y), y.op.tx.finSent, t.at);
  }

  /** The ACK field of a delivered segment never moves SND.UNA past what the peer holds. */
  lemma DeliverAck(x: Endpoint, y: Endpoint, xy: seq<Wired>, yx: seq<Wired>, base: U32, k: nat, tick: U64, ok: bool)
    requires Half(x, y, xy, yx, base)
    requires k < |yx| && Near(yx[k].acks, Una(x))
    ensures Una(Act(x, Receive(yx[k].seg, tick, ok)).0) <= Rcv(y)
  {
    var t := yx[k];
    var limit := SendLimit(x.op.tx, x.accepted);
    assert LoggedAck(t, y, base);
    FlightIsShort(x, base);
    ReceiveSendSide(x, Receive(t.seg, tick, ok), base);
    AckedSenderKeeps(x.op.tx, t.seg.ackno, base, x.accepted);
    if t.seg.ackno == Wrap(base + limit) {
      AckWrapsOnce(base, t.acks, Una(x), limit);
    }
  }

  /** Two indices near `u` that wrap to the same number are equal when one is at most a flight above `u`. */
  lemma AckWrapsOnce(base: int, a: int, u: int, limit: int)
    requires Near(a, u) && u <= limit <= u + MSS
    requires Wrap(base + a) == Wrap(base + limit)
    ensures a == limit
  {
    WrapDistance(base, a, limit);
  }

  lemma LeftStepKeeps(w: World, s: Step)
    requires Inv(w) && Enabled(w, s)
    ensures Inv(LeftStep(w, s))
    ensures Held(w.left.op.rx, w.left.delivered) <= Held(LeftStep(w, s).left.op.rx, LeftStep(w, s).left.delivered)
  {
    var a := ActionOf(w, s);
    var (x, out) := Act(w.left, a);
    ActSendSide(w.left, a, w.leftBase);
    if s.Deliver? {
      DeliverData(w.left, w.right, w.toRight, w.toLeft, w.rightBase, w.leftBase, s.k, s.tick, s.ok);
      DeliverAck(w.left, w.right, w.toRight, w.toLeft, w.leftBase, s.k, s.tick, s.ok);
    } else {
      ActReceiveSide(w.left, a, w.rightBase, w.leftBase, Exposed(w.right), w.right.op.tx.finSent);
    }
    StepAsSender(w.left, x, w.right, w.toRight, w.toLeft, out, w.leftBase);
    StepAsReceiver(w.left, x, w.right, w.toRight, w.toLeft, out, w.rightBase);
    StepBounded(w.left, x, w.toRight, out, w.leftBase);
  }

  // ----- whole runs -----

  datatype Move = Move(onLeft: bool, step: Step)

  ghost predicate MoveEnabled(w: World, m: Move) {
    Enabled(if m.onLeft then w else Swap(w), m.step)
  }

  ghost function AfterMove(w: World, m: Move): World
    requires MoveEnabled(w, m)
  {
    if m.onLeft then LeftStep(w, m.step) else Swap(LeftStep(Swap(w), m.step))
  }

  ghost predicate Legal(w: World, moves: seq<Move>)
    decreases |moves|
  {
    moves == [] || (MoveEnabled(w, moves[0]) && Legal(AfterMove(w, moves[0]), moves[1..]))
  }

  ghost function After(w: World, moves: seq<Move>): World
    requires Legal(w, moves)
    decreases |moves|
  {
    if moves == [] then w else After(AfterMove(w, moves[0]), moves[1..])
  }

  ghost function Fresh(localBase: U32, remoteBase: U32, peer: Peer, window: U16, tick: U64): Endpoint {
    Endpoint(StartStream(peer.(localSeq := localBase, remoteSeq := remoteBase), Early([], false, window), tick),
             true, [], [])
  }

  /** Two just-attached streams with nothing on the wire. */
  ghost predicate Initial(w: World) {
    && w.toLeft == [] && w.toRight == []
    && (exists peer, window, tick :: w.left == Fresh(w.leftBase, w.rightBase, peer, window, tick))
    && (exists peer, window, tick :: w.right == Fresh(w.rightBase, w.leftBase, peer, window, tick))
  }

  lemma FreshHalf(x: Endpoint, y: Endpoint, base: U32, other: U32, p: Peer, u: U16, t: U64, p': Peer, u': U16, t': U64)
    requires x == Fresh(base, other, p, u, t) && y == Fresh(other, base, p', u', t')
    ensures Half(x, y, [], [], base) && Bounded(x, [])
  {
    StartSends(p.(localSeq := base, remoteSeq := other), Early([], false, u), t);
    StartReceives(p'.(localSeq := other, remoteSeq := base), Early([], false, u'), t', [], false);
  }

  lemma InitialInv(w: World)
    requires Initial(w)
    ensures Inv(w)
  {
    var p, u, t :| w.left == Fresh(w.leftBase, w.rightBase, p, u, t);
    var p', u', t' :| w.right == Fresh(w.rightBase, w.leftBase, p', u', t');
    FreshHalf(w.left, w.right, w.leftBase, w.rightBase, p, u, t, p', u', t');
    FreshHalf(w.right, w.left, w.rightBase, w.leftBase, p', u', t', p, u, t);
  }

  lemma {:induction false} RunKeeps(w: World, moves: seq<Move>)
    requires Inv(w) && Legal(w, moves)
    ensures Inv(After(w, moves))
    decreases |moves|
  {
    if moves != [] {
      LeftStepKeeps(if moves[0].onLeft then w else Swap(w), moves[0].step);
      RunKeeps(AfterMove(w, moves[0]), moves[1..]);
    }
  }

  /** What the invariant says about the stream from `x` to `y`, in the application's terms. */
  ghost predicate Faithful(x: Endpoint, y: Endpoint, xy: seq<Wired>) {
    // The receiver is always between the sender's oldest unacknowledged index and its limit.
    && Una(x) <= Rcv(y) <= SendLimit(x.op.tx, x.accepted)
    // What the application received is a prefix of what the other application sent.
    && y.delivered <= x.accepted && Held(y.op.rx, y.delivered) <= x.accepted
    // A completed send is entirely held by the peer.
    && (Report(x.op).SendComplete? ==> Held(y.op.rx, y.delivered) == x.accepted)
    // A reported close comes after the last byte, and the peer really closed.
    && (Report(y.op).PeerClosed? || Report(y.op).Closed? ==> x.op.tx.finSent && y.delivered == x.accepted)
    // Every data segment ever sent carries, at each index, the accepted byte of that index.
    && (forall k :: 0 <= k < |xy| && !xy[k].probe && xy[k].seg.payload != [] ==>
          && 0 <= xy[k].at && xy[k].at + |xy[k].seg.payload| <= |x.accepted|
          && xy[k].seg.payload == x.accepted[xy[k].at..xy[k].at + |xy[k].seg.payload|])
    // No flight and no FIN goes out more than three times.
    && (forall i: int :: Transmissions(xy, i) <= RETRIES)
  }

  lemma LoggedIsAccepted(m: Wired, x: Endpoint, base: U32)
    requires Sends(x.op, base, x.accepted) && LoggedData(m, x, base) && !m.probe && m.seg.payload != []
    ensures 0 <= m.at && m.at + |m.seg.payload| <= |x.accepted|
    ensures m.seg.payload == x.accepted[m.at..m.at + |m.seg.payload|]
  {
    assert Exposed(x)[m.at..m.at + |m.seg.payload|] == x.accepted[m.at..m.at + |m.seg.payload|];
  }

  lemma HalfIsFaithful(x: Endpoint, y: Endpoint, xy: seq<Wired>, yx: seq<Wired>, base: U32)
    requires Half(x, y, xy, yx, base) && Bounded(x, xy)
    ensures Faithful(x, y, xy)
  {
    hide LoggedData, LoggedAck, Transmissions;
    FlightIsShort(x, base);
    ReportIsComplete(y.op, base, y.delivered, Exposed(x), x.op.tx.finSent);
    forall k | 0 <= k < |xy| && !xy[k].probe && xy[k].seg.payload != []
      ensures 0 <= xy[k].at && xy[k].at + |xy[k].seg.payload| <= |x.accepted|
      ensures xy[k].seg.payload == x.accepted[xy[k].at..xy[k].at + |xy[k].seg.payload|]
    {
      LoggedIsAccepted(xy[k], x, base);
    }
  }

  /** End to end: in every reachable state, in both directions. */
  lemma EndToEnd(w: World, moves: seq<Move>)
    requires Initial(w) && Legal(w, moves)
    ensures var v := After(w, moves);
            Faithful(v.left, v.right, v.toRight) && Faithful(v.right, v.left, v.toLeft)
  {
    InitialInv(w);
    RunKeeps(w, moves);
    var v := After(w, moves);
    HalfIsFaithful(v.left, v.right, v.toRight, v.toLeft, v.leftBase);
    HalfIsFaithful(v.right, v.left, v.toLeft, v.toRight, v.rightBase);
  }

  /** A zero-window probe delivered in any reachable state changes nothing on the receive side. */
  lemma ProbesAreInert(w: World, moves: seq<Move>, k: nat, tick: U64, ok: bool)
    requires Initial(w) && Legal(w, moves)
    requires var v := After(w, moves);
             Enabled(v, Deliver(k, tick, ok)) && v.toLeft[k].probe
    ensures var v := After(w, moves);
            LeftStep(v, Deliver(k, tick, ok)).left.op.rx == v.left.op.rx
  {
    InitialInv(w);
    RunKeeps(w, moves);
    var v := After(w, moves);
    DeliverData(v.left, v.right, v.toRight, v.toLeft, v.rightBase, v.leftBase, k, tick, ok);
  }
}
