/** The stream slots of the network stack, updated in place. Each method is proved equal to the
    step function of `TcpStream` on the slot it addresses and to leave the other slots alone. */
module TcpStack {
  import opened Wrappers
  import opened SequenceNumbers
  import opened TcpStream
  import opened TcpSender

  const SLOTS: nat := 4

  /** What one whole poll does: the slots, the cursor, the segments sent, the report and the slot that made it. */
  datatype Polled = Polled(slots: seq<Option<Stream>>, cursor: nat, out: seq<Segment>,
                           progress: Progress, reporter: Option<nat>)

  /** Every occupied slot satisfies the sender invariant. */
  ghost predicate SlotsOk(slots: seq<Option<Stream>>) {
    |slots| == SLOTS && forall i :: 0 <= i < SLOTS && slots[i].Some? ==> Healthy(slots[i].value)
  }

  /** The slot a poll visits after `offset` others. */
  function SlotAt(cursor: nat, offset: nat): (i: nat)
    ensures i < SLOTS
  {
    (cursor + offset) % SLOTS
  }

  /** A poll from `offset` on: visit slots in order until one has something to report. */
  ghost function PollFrom(slots: seq<Option<Stream>>, cursor: nat, offset: nat, tick: U64,
                          ok1: nat -> bool, ok2: nat -> bool): (r: Polled)
    requires SlotsOk(slots) && cursor < SLOTS && offset <= SLOTS
    ensures |r.slots| == SLOTS && r.cursor < SLOTS
    decreases SLOTS - offset
  {
    if offset == SLOTS then Polled(slots, cursor, [], Quiet, None)
    else
      var i := SlotAt(cursor, offset);
      if slots[i].None? then PollFrom(slots, cursor, offset + 1, tick, ok1, ok2)
      else
        var (next, out, progress) := PollSlot(slots[i].value, tick, ok1(i), ok2(i));
        var slots1 := slots[i := next];
        if progress != Quiet then Polled(slots1, (i + 1) % SLOTS, out, progress, Some(i))
        else
          PollHealthy(slots[i].value, tick, ok1(i), ok2(i));
          var rest := PollFrom(slots1, cursor, offset + 1, tick, ok1, ok2);
          Prefixed(out, rest)
  }

  /** The same poll, with more sent before it. */
  ghost function Prefixed(sent: seq<Segment>, r: Polled): Polled { r.(out := sent + r.out) }

  lemma PollEnds(slots: seq<Option<Stream>>, cursor: nat, tick: U64, ok1: nat -> bool, ok2: nat -> bool)
    requires SlotsOk(slots) && cursor < SLOTS
    ensures PollFrom(slots, cursor, SLOTS, tick, ok1, ok2) == Polled(slots, cursor, [], Quiet, None)
  {
  }

  /** A poll that finds the slot at `offset` empty, or quiet, goes on to the next one. */
  lemma PollOn(slots: seq<Option<Stream>>, cursor: nat, offset: nat, tick: U64, ok1: nat -> bool, ok2: nat -> bool)
    requires SlotsOk(slots) && cursor < SLOTS && offset < SLOTS
    ensures var i := SlotAt(cursor, offset);
            var r := PollFrom(slots, cursor, offset, tick, ok1, ok2);
            if slots[i].None? then r == PollFrom(slots, cursor, offset + 1, tick, ok1, ok2)
            else
              var (next, out, progress) := PollSlot(slots[i].value, tick, ok1(i), ok2(i));
              && SlotsOk(slots[i := next])
              && r == if progress != Quiet then Polled(slots[i := next], (i + 1) % SLOTS, out, progress, Some(i))
                      else Prefixed(out, PollFrom(slots[i := next], cursor, offset + 1, tick, ok1, ok2))
  {
    hide PollSlot, SlotAt;
    var i := SlotAt(cursor, offset);
    if slots[i].Some? { PollHealthy(slots[i].value, tick, ok1(i), ok2(i)); }
  }

  lemma PrefixedTwice(sent: seq<Segment>, more: seq<Segment>, r: Polled)
    ensures Prefixed(sent, Prefixed(more, r)) == Prefixed(sent + more, r)
  {
    assert sent + (more + r.out) == sent + more + r.out;
  }

  lemma AckKeepsReceiver(op: Stream, seg: Segment, tick: U64)
    requires op.tx.flight <= |op.tx.queue|
    ensures AckPhase(op, seg, tick).rx == op.rx
  {
  }

  predicate SameTuple(a: Peer, b: Peer) {
    a.target == b.target && a.remotePort == b.remotePort && a.localPort == b.localPort
  }

  /** First slot from `i` on that serves exactly this peer. */
  ghost function FindPeer(slots: seq<Option<Stream>>, peer: Peer, i: nat): (r: Option<nat>)
    ensures r.Some? ==> i <= r.value < |slots| && slots[r.value].Some? && slots[r.value].value.peer == peer
    ensures r.None? ==> forall k :: i <= k < |slots| && slots[k].Some? ==> slots[k].value.peer != peer
    decreases |slots| - i
  {
    if i >= |slots| then None
    else if slots[i].Some? && slots[i].value.peer == peer then Some(i)
    else FindPeer(slots, peer, i + 1)
  }

  class NetworkStack {
    const streams: array<Option<Stream>>
    var cursor: nat
    /** Every segment the device accepted, oldest first. */
    var wire: seq<Segment>
    /** The device was found. */
    var available: bool
    /** A process socket holds the stack for an asynchronous UDP or TCP operation. */
    var udpBusy: bool
    var tcpBusy: bool

    /** No two slots serve the same peer tuple, so no frame has two owners. */
    ghost predicate Valid()
      reads this, streams
    {
      && streams.Length == SLOTS && cursor < SLOTS
      && SlotsOk(streams[..])
      && forall i, j :: 0 <= i < j < SLOTS && streams[i].Some? && streams[j].Some? ==>
                          !SameTuple(streams[i].value.peer, streams[j].value.peer)
    }

    constructor ()
      ensures Valid() && wire == [] && cursor == 0 && !available && !udpBusy && !tcpBusy
      ensures forall i :: 0 <= i < SLOTS ==> streams[i] == None
      ensures fresh(streams)
    {
      streams := new Option<Stream>[SLOTS](_ => None);
      cursor := 0;
      wire := [];
      available, udpBusy, tcpBusy := false, false, false;
    }

    method Transmit(seg: Segment, ok: bool)
      modifies this`wire
      ensures wire == old(wire) + Emit(ok, seg)
    {
      if ok { wire := wire + [seg]; }
    }

    /** First slot whose peer tuple matches, as segments are routed. */
    method SlotForTuple(peer: Peer) returns (found: Option<nat>)
      requires Valid()
      ensures found.Some? ==> found.value < SLOTS && streams[found.value].Some?
                              && SameTuple(streams[found.value].value.peer, peer)
      ensures found.None? ==> forall i :: 0 <= i < SLOTS && streams[i].Some? ==> !SameTuple(streams[i].value.peer, peer)
    {
      for i := 0 to SLOTS
        invariant forall j :: 0 <= j < i && streams[j].Some? ==> !SameTuple(streams[j].value.peer, peer)
      {
        if streams[i].Some? && SameTuple(streams[i].value.peer, peer) { return Some(i); }
      }
      return None;
    }

    method FreeSlot() returns (found: Option<nat>)
      requires Valid()
      ensures found.Some? ==> found.value < SLOTS && streams[found.value].None?
      ensures found.None? ==> forall i :: 0 <= i < SLOTS ==> streams[i].Some?
    {
      for i := 0 to SLOTS
        invariant forall j :: 0 <= j < i ==> streams[j].Some?
      {
        if streams[i].None? { return Some(i); }
      }
      return None;
    }

    /** Attach an established connection: refused without a device, while a process socket holds the stack, for a tuple
        already served and when all slots are taken. */
    method StartTcpPassiveStream(peer: Peer, early: Early, tick: U64) returns (started: bool)
      requires Valid()
      modifies streams
      ensures Valid()
      ensures !started ==> streams[..] == old(streams[..])
      ensures started <==> (available && !udpBusy && !tcpBusy && |early.bytes| <= MSS
                            && (exists i :: 0 <= i < SLOTS && old(streams[i]).None?)
                            && forall i :: 0 <= i < SLOTS && old(streams[i]).Some? ==> !SameTuple(old(streams[i]).value.peer, peer))
      ensures started ==> exists i :: 0 <= i < SLOTS && old(streams[i]).None?
                                      && streams[..] == old(streams[..])[i := Some(StartStream(peer, early, tick))]
    {
      if !available || udpBusy || tcpBusy || |early.bytes| > MSS { return false; }
      var taken := SlotForTuple(peer);
      if taken.Some? { return false; }
      var index := FreeSlot();
      if index.None? { return false; }
      streams[index.value] := Some(StartStream(peer, early, tick));
      assert streams[..] == old(streams[..])[index.value := Some(StartStream(peer, early, tick))];
      return true;
    }

    /** The whole flight is acknowledged: measure, dequeue, grow the window. */
    method TakeFlightAck(op: Stream, seg: Segment, tick: U64) returns (op': Stream)
      requires op.tx.flight <= |op.tx.queue| && ClassifyAck(op.tx, seg.ackno).WholeFlight?
      ensures op' == op.(tx := AckedSender(op.tx, seg.ackno), timer := AckedTimer(op.timer, op.tx, seg.ackno, tick),
                         congestion := Grown(op.congestion))
    {
      var timer := op.timer;
      if timer.attempts == 1 {
        var sample := Max(tick - timer.sentAt, 1);
        timer := timer.(rto := Min(Max((timer.rto * 3 + sample * 2) / 4, 4), RETRY_TICKS * 2));
      }
      var tx := op.tx.(una := seg.ackno);
      var step := Max(MSS * MSS / Max(op.congestion.window, 1), 1);
      var window := if op.congestion.window < op.congestion.threshold
        then op.congestion.window + MSS else op.congestion.window + step;
      tx := tx.(queue := tx.queue[tx.flight..], flight := 0);
      tx := tx.(completed := tx.queue == []);
      timer := timer.(attempts := 0);
      timer := RefreshIdle(timer, tx, tick);
      op' := op.(tx := tx, timer := timer, congestion := op.congestion.(window := Min(window, MAX_CWND)));
    }

    /** The ACK field, in the order the stack examines it. */
    method ProcessAck(op: Stream, seg: Segment, tick: U64) returns (op': Stream, acceptable: bool)
      requires op.tx.flight <= |op.tx.queue|
      ensures op' == AckPhase(op, seg, tick)
      ensures acceptable == AckAcceptable(op, seg)
    {
      hide Grown, SampledRto, SequenceInWindow, SequenceAfter, ReceiveWindow, WrapAdd;
      op' := op;
      acceptable := false;
      if seg.flags.ack && SequenceInWindow(seg.seqno, op.rx.next, ReceiveWindow(op.rx)) {
        if seg.ackno == op.tx.una {
          acceptable := true;
        } else if op.tx.flight != 0 && seg.ackno == WrapAdd(op.tx.una, op.tx.flight) {
          op' := TakeFlightAck(op, seg, tick);
          acceptable := true;
        } else if op.tx.finSent && !op.tx.finAcked && seg.ackno == WrapAdd(op.tx.una, 1) {
          var tx := op.tx.(una := seg.ackno, finAcked := true);
          op' := op.(tx := tx, timer := RefreshIdle(op.timer.(attempts := 0), tx, tick));
          acceptable := true;
        }
        if acceptable && (SequenceAfter(seg.seqno, op.view.seqno)
                          || (seg.seqno == op.view.seqno && !SequenceAfter(op.view.ackno, seg.ackno))) {
          op' := op'.(view := PeerWindow(seg.window, seg.seqno, seg.ackno));
        }
      }
    }

    /** Payload and FIN of a segment that passed every admission check. */
    method StoreSegment(op: Stream, seg: Segment, tick: U64) returns (op': Stream)
      requires seg.Carries() && |seg.payload| <= MSS
      ensures op' == op.(rx := Absorb(op.rx, seg),
                         timer := if Absorbs(op.rx, seg) then RefreshIdle(op.timer, op.tx, tick) else op.timer)
    {
      var rx, timer := op.rx, op.timer;
      var deferredFin := false;
      if seg.payload != [] {
        if seg.seqno == rx.next && rx.buffer == [] {
          rx := rx.(buffer := seg.payload, next := WrapAdd(rx.next, |seg.payload|));
          timer := RefreshIdle(timer, op.tx, tick);
          if rx.deferred.Some? {
            var d := rx.deferred.value;
            if d.seqno == rx.next {
              rx := rx.(next := WrapAdd(WrapAdd(rx.next, |d.bytes|), Bit(d.fin)));
              rx := rx.(deferred := Some(d.(acknowledged := true)));
            }
          }
        } else if rx.deferred.None?
                  && WrapSub(seg.seqno, rx.next) + |seg.payload| + Bit(seg.flags.fin) <= ReceiveWindow(rx) {
          deferredFin := seg.flags.fin;
          rx := rx.(deferred := Some(Deferred(seg.seqno, seg.payload, deferredFin, seg.seqno == rx.next)));
          if seg.seqno == rx.next {
            rx := rx.(next := WrapAdd(WrapAdd(rx.next, |seg.payload|), Bit(deferredFin)));
          }
          timer := RefreshIdle(timer, op.tx, tick);
        }
      }
      if seg.flags.fin && !deferredFin && WrapAdd(seg.seqno, |seg.payload|) == rx.next {
        rx := rx.(next := WrapAdd(rx.next, 1), fin := true, finPending := true);
        timer := RefreshIdle(timer, op.tx, tick);
      }
      op' := op.(rx := rx, timer := timer);
    }

    /** One segment for one slot: the new slot, and what the device accepted in answer. */
    method AnswerSegment(found: Stream, seg: Segment, tick: U64, ok: bool) returns (op: Stream, out: seq<Segment>)
      requires found.tx.flight <= |found.tx.queue|
      ensures (op, out) == HandleSegment(found, seg, tick, ok)
    {
      hide AckPhase, Absorb, Absorbs, AckAcceptable, ReceiveWindow, SequenceInWindow;
      op, out := found, [];
      if seg.flags.rst {
        if seg.seqno == op.rx.next {
          op := op.(reset := true);
        } else if SequenceInWindow(seg.seqno, op.rx.next, ReceiveWindow(op.rx)) && op.challengeTick != Some(tick) {
          out := Emit(ok, AckOf(op));
          op := op.(challengeTick := Some(tick));
        }
        return;
      }
      if seg.flags.syn {
        if op.challengeTick != Some(tick) {
          out := Emit(ok, AckOf(op));
          op := op.(challengeTick := Some(tick));
        }
        return;
      }
      var acceptable;
      op, acceptable := ProcessAck(op, seg, tick);
      AckKeepsReceiver(found, seg, tick);
      if Refused(op.rx, seg, acceptable) {
        out := Emit(ok, AckOf(op));
        return;
      }
      if |seg.payload| > MSS {
        out := Emit(ok, ResetOf(op));
        op := op.(failed := true);
        return;
      }
      if seg.Carries() {
        op := StoreSegment(op, seg, tick);
        out := Emit(ok, AckOf(op));
        if !ok { op := op.(failed := true); }
      }
    }

    method HandleStreamSegment(index: nat, seg: Segment, tick: U64, ok: bool)
      requires Valid() && index < SLOTS
      modifies this`wire, streams
      ensures Valid()
      ensures old(streams[index]).None? ==> streams[..] == old(streams[..]) && wire == old(wire)
      ensures old(streams[index]).Some? ==>
                var (op, out) := HandleSegment(old(streams[index]).value, seg, tick, ok);
                streams[..] == old(streams[..])[index := Some(op)] && wire == old(wire) + out
    {
      hide HandleSegment;
      if streams[index].None? { return; }
      HandleHealthy(streams[index].value, seg, tick, ok);
      var op, out := AnswerSegment(streams[index].value, seg, tick, ok);
      wire := wire + out;
      streams[index] := Some(op);
    }

    /** One slot of the poll: `None` frees it, `out` is what the device accepted. */
    method PollOne(found: Stream, tick: U64, ok1: bool, ok2: bool)
      returns (next: Option<Stream>, out: seq<Segment>, progress: Progress)
      requires found.tx.flight <= |found.tx.queue|
      ensures (next, out, progress) == PollSlot(found, tick, ok1, ok2)
    {
      var op := found;
      out := [];
      if op.reset { return None, out, WasReset; }
      if op.failed { return None, out, Failed; }
      if tick >= op.timer.deadline && op.tx.flight == 0 && !(op.tx.finSent && !op.tx.finAcked) {
        return None, Emit(ok1, ResetOf(op)), Failed;
      }
      if op.tx.queue != [] && op.tx.flight == 0 {
        if op.view.size != 0 {
          var (op1, sent, done) := TransmitFlight(op, tick, ok1);
          out := sent;
          op := if done then op1 else op1.(failed := true);
        } else if tick >= op.timer.persistDeadline {
          out := Emit(ok1, ProbeOf(op));
          op := op.(timer := AfterProbe(op.timer, tick), failed := op.failed || !ok1);
        }
      }
      if tick >= op.timer.deadline && Outstanding(op.tx) {
        if op.timer.attempts >= RETRIES || !ok2 { return None, out, Failed; }
        out := out + [RetryOf(op)];
        op := Backoff(op, tick);
      }
      return Some(op), out, Report(op);
    }

    method VisitSlot(index: nat, tick: U64, ok1: bool, ok2: bool) returns (out: seq<Segment>, progress: Progress)
      requires Valid() && index < SLOTS && streams[index].Some?
      modifies streams
      ensures Valid()
      ensures var (next, sent, p) := PollSlot(old(streams[index]).value, tick, ok1, ok2);
              streams[..] == old(streams[..])[index := next] && out == sent && progress == p
    {
      PollHealthy(streams[index].value, tick, ok1, ok2);
      var next;
      next, out, progress := PollOne(streams[index].value, tick, ok1, ok2);
      streams[index] := next;
    }

    /** One whole poll, from the cursor round to it. */
    method PollTcpPassiveStream(tick: U64, ok1: nat -> bool, ok2: nat -> bool) returns (progress: Progress, reporter: Option<nat>)
      requires Valid()
      modifies this`cursor, this`wire, streams
      ensures Valid()
      ensures var r := PollFrom(old(streams[..]), old(cursor), 0, tick, ok1, ok2);
              && streams[..] == r.slots && cursor == r.cursor && wire == old(wire) + r.out
              && progress == r.progress && reporter == r.reporter
    {
      hide PollFrom, PollSlot, SlotAt;
      ghost var whole := PollFrom(streams[..], cursor, 0, tick, ok1, ok2);
      var sent := [];
      for offset := 0 to SLOTS
        invariant Valid() && cursor == old(cursor) && wire == old(wire)
        invariant whole == Prefixed(sent, PollFrom(streams[..], cursor, offset, tick, ok1, ok2))
      {
        var index := SlotAt(cursor, offset);
        PollOn(streams[..], cursor, offset, tick, ok1, ok2);
        if streams[index].Some? {
          var out;
          out, progress := VisitSlot(index, tick, ok1(index), ok2(index));
          if progress != Quiet {
            cursor := (index + 1) % SLOTS;
            wire := wire + (sent + out);
            return progress, Some(index);
          }
          PrefixedTwice(sent, out, PollFrom(streams[..], cursor, offset + 1, tick, ok1, ok2));
          sent := sent + out;
        }
      }
      PollEnds(streams[..], cursor, tick, ok1, ok2);
      wire := wire + sent;
      return Quiet, None;
    }

    /** The slot of exactly this peer, sequence numbers included. */
    method StreamSlot(peer: Peer) returns (found: Option<nat>)
      requires Valid()
      ensures found == FindPeer(streams[..], peer, 0)
    {
      var i := 0;
      while i < SLOTS
        invariant i <= SLOTS && FindPeer(streams[..], peer, i) == FindPeer(streams[..], peer, 0)
      {
        if streams[i].Some? && streams[i].value.peer == peer { return Some(i); }
        i := i + 1;
      }
      return None;
    }

    /** Local calls name their peer; a call for a peer without a slot is refused and changes nothing. */
    method StartTcpPassiveStreamSend(peer: Peer, bytes: seq<Byte>, tick: U64, ok: bool) returns (sent: bool)
      requires Valid()
      modifies this`wire, streams
      ensures Valid()
      ensures var found := FindPeer(old(streams[..]), peer, 0);
              if found.None? then streams[..] == old(streams[..]) && wire == old(wire) && !sent
              else var (op, out, s) := StartSend(old(streams[found.value]).value, bytes, tick, ok);
                   streams[..] == old(streams[..])[found.value := Some(op)] && wire == old(wire) + out && sent == s
    {
      var found := StreamSlot(peer);
      if found.None? { return false; }
      var index := found.value;
      var op := streams[index].value;
      if !CanAccept(op, bytes) {
        assert streams[..] == old(streams[..])[index := Some(op)];
        return false;
      }
      op := op.(tx := op.tx.(queue := bytes));
      op := op.(timer := op.timer.(deadline := SaturatingAdd(tick, IDLE_TICKS),
                                   persistDeadline := SaturatingAdd(tick, op.timer.rto), persistAttempts := 0));
      sent := true;
      if op.view.size != 0 {
        var (op1, out, s) := TransmitFlight(op, tick, ok);
        wire := wire + out;
        op, sent := op1, s;
      }
      if !sent { op := op.(failed := true); }
      streams[index] := Some(op);
    }

    method StartTcpPassiveStreamClose(peer: Peer, tick: U64, ok: bool) returns (sent: bool)
      requires Valid()
      modifies this`wire, streams
      ensures Valid()
      ensures var found := FindPeer(old(streams[..]), peer, 0);
              if found.None? then streams[..] == old(streams[..]) && wire == old(wire) && !sent
              else var (op, out, s) := StartClose(old(streams[found.value]).value, tick, ok);
                   streams[..] == old(streams[..])[found.value := Some(op)] && wire == old(wire) + out && sent == s
    {
      var found := StreamSlot(peer);
      if found.None? { return false; }
      var op := streams[found.value].value;
      if op.tx.queue != [] || op.tx.completed || op.tx.finSent {
        assert streams[..] == old(streams[..])[found.value := Some(op)];
        return false;
      }
      op := op.(tx := op.tx.(finSent := true));
      op := op.(timer := op.timer.(attempts := 1, deadline := SaturatingAdd(tick, RETRY_TICKS)));
      Transmit(SegmentOf(op, FIN_ACK, [], RECEIVE_CAPACITY), ok);
      streams[found.value] := Some(op);
      return ok;
    }

    method ConsumeTcpPassiveStreamReceive(peer: Peer, ok: bool) returns (taken: bool)
      requires Valid()
      modifies this`wire, streams
      ensures Valid()
      ensures var found := FindPeer(old(streams[..]), peer, 0);
              if found.None? then streams[..] == old(streams[..]) && wire == old(wire) && !taken
              else var (op, out, t) := ConsumeReceive(old(streams[found.value]).value, ok);
                   streams[..] == old(streams[..])[found.value := Some(op)] && wire == old(wire) + out && taken == t
    {
      var found := StreamSlot(peer);
      if found.None? { return false; }
      var op := streams[found.value].value;
      if op.rx.buffer == [] {
        assert streams[..] == old(streams[..])[found.value := Some(op)];
        return false;
      }
      var rx := op.rx.(buffer := []);
      if rx.deferred.Some? && rx.deferred.value.acknowledged {
        var d := rx.deferred.value;
        rx := rx.(deferred := None, buffer := d.bytes);
        if d.fin { rx := rx.(fin := true, finPending := true); }
      }
      op := op.(rx := rx);
      Transmit(AckOf(op), ok);
      streams[found.value] := Some(op);
      return true;
    }

    method ConsumeTcpPassiveStreamSend(peer: Peer) returns (taken: bool)
      requires Valid()
      modifies streams
      ensures Valid()
      ensures var found := FindPeer(old(streams[..]), peer, 0);
              if found.None? then streams[..] == old(streams[..]) && !taken
              else var (op, t) := ConsumeSend(old(streams[found.value]).value);
                   streams[..] == old(streams[..])[found.value := Some(op)] && taken == t
    {
      var found := StreamSlot(peer);
      if found.None? { return false; }
      var op := streams[found.value].value;
      taken := op.tx.completed;
      if taken { op := op.(tx := op.tx.(completed := false)); }
      streams[found.value] := Some(op);
    }

    method ConsumeTcpPassivePeerClose(peer: Peer) returns (taken: bool)
      requires Valid()
      modifies streams
      ensures Valid()
      ensures var found := FindPeer(old(streams[..]), peer, 0);
              if found.None? then streams[..] == old(streams[..]) && !taken
              else var (op, t) := ConsumePeerClose(old(streams[found.value]).value);
                   streams[..] == old(streams[..])[found.value := Some(op)] && taken == t
    {
      var found := StreamSlot(peer);
      if found.None? { return false; }
      var op := streams[found.value].value;
      taken := op.rx.finPending;
      if taken { op := op.(rx := op.rx.(finPending := false)); }
      streams[found.value] := Some(op);
    }

    /** Free the slot, telling the peer (`cancel`) or not (`finish`). */
    method ReleaseTcpPassiveStream(peer: Peer, cancel: bool, ok: bool) returns (released: bool)
      requires Valid()
      modifies this`wire, streams
      ensures Valid()
      ensures var found := FindPeer(old(streams[..]), peer, 0);
              && released == found.Some?
              && if found.None? then streams[..] == old(streams[..]) && wire == old(wire)
                 else streams[..] == old(streams[..])[found.value := None]
                      && wire == old(wire) + if cancel then Emit(ok, ResetOf(old(streams[found.value]).value)) else []
    {
      var found := StreamSlot(peer);
      if found.None? { return false; }
      if cancel { Transmit(ResetOf(streams[found.value].value), ok); }
      streams[found.value] := None;
      return true;
    }
  }
}
