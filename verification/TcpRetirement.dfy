/** Retirement: in every run of the stack a stream that makes no progress is freed after a bounded number of ticks. */
module TcpRetirement {
  import opened Wrappers
  import opened SequenceNumbers
  import opened TcpStream
  import opened TcpSender
  import opened TcpStack
  import opened TcpService

  // ----- runs -----

  /** The slots, the poll cursor, the latest tick seen and the tick of the latest poll. */
  datatype Stack = Stack(slots: seq<Option<Stream>>, cursor: nat, now: U64, polled: U64)

  /** Everything that happens to the slots: whole polls, routed segments and the calls of the service. */
  datatype Event =
    | Poll(tick: U64, ok1: nat -> bool, ok2: nat -> bool)
    | Arrive(slot: nat, seg: Segment, tick: U64, ok: bool)
    | Attach(slot: nat, peer: Peer, early: Early, tick: U64)
    | Send(slot: nat, bytes: seq<Byte>, tick: U64, ok: bool)
    | Close(slot: nat, tick: U64, ok: bool)
    | TakeReceived(slot: nat, tick: U64, ok: bool)
    | TakeSent(slot: nat, tick: U64)
    | TakeClose(slot: nat, tick: U64)
    | Release(slot: nat, tick: U64)

  /** One event on an occupied slot. */
  function OnStream(op: Stream, e: Event): Option<Stream>
    requires !e.Poll? && op.tx.flight <= |op.tx.queue|
  {
    match e
    case Arrive(_, seg, tick, ok) => Some(HandleSegment(op, seg, tick, ok).0)
    case Attach(_, _, _, _) => Some(op)
    case Send(_, bytes, tick, ok) => Some(StartSend(op, bytes, tick, ok).0)
    case Close(_, tick, ok) => Some(StartClose(op, tick, ok).0)
    case TakeReceived(_, _, ok) => Some(ConsumeReceive(op, ok).0)
    case TakeSent(_, _) => Some(ConsumeSend(op).0)
    case TakeClose(_, _) => Some(ConsumePeerClose(op).0)
    case Release(_, _) => None
  }

  /** One event on a slot, occupied or not. */
  function OnSlot(slot: Option<Stream>, e: Event): Option<Stream>
    requires !e.Poll? && (slot.Some? ==> slot.value.tx.flight <= |slot.value.tx.queue|)
  {
    if slot.Some? then OnStream(slot.value, e)
    else if e.Attach? then Some(StartStream(e.peer, e.early, e.tick))
    else None
  }

  ghost function Step(s: Stack, e: Event): Stack
    requires SlotsOk(s.slots) && s.cursor < SLOTS
  {
    match e
    case Poll(tick, ok1, ok2) =>
      var r := PollFrom(s.slots, s.cursor, 0, tick, ok1, ok2);
      Stack(r.slots, r.cursor, tick, tick)
    case _ => s.(slots := if e.slot < SLOTS then s.slots[e.slot := OnSlot(s.slots[e.slot], e)] else s.slots, now := e.tick)
  }

  ghost predicate Timely(slots: seq<Option<Stream>>, now: U64) {
    forall i :: 0 <= i < |slots| && slots[i].Some? ==> slots[i].value.timer.deadline <= now + IDLE_TICKS
  }

  /** Every occupied slot is healthy, and its deadline is at most one idle lifetime away. */
  ghost predicate StackOk(s: Stack) {
    SlotsOk(s.slots) && s.cursor < SLOTS && s.polled <= s.now && Timely(s.slots, s.now)
  }

  /** The clock never runs backwards. */
  ghost predicate Ordered(events: seq<Event>) {
    forall i, j :: 0 <= i < j < |events| ==> events[i].tick <= events[j].tick
  }

  const EMPTY := Stack([None, None, None, None], 0, 0, 0)

  /** The stack after the first `k` events. */
  ghost function At(events: seq<Event>, k: nat): (s: Stack)
    requires k <= |events| && Ordered(events)
    ensures |s.slots| == SLOTS && StackOk(s) && s.now == if k == 0 then 0 else events[k - 1].tick
  {
    if k == 0 then EMPTY
    else
      StepKeeps(At(events, k - 1), events[k - 1]);
      Step(At(events, k - 1), events[k - 1])
  }

  // ----- what every event keeps -----

  lemma FlightOf(op: Stream)
    requires Healthy(op)
    ensures op.tx.flight <= |op.tx.queue|
  {
  }

  lemma SlotsOf(s: Stack)
    requires StackOk(s)
    ensures SlotsOk(s.slots)
  {
  }

  lemma PollTimely(op: Stream, tick: U64, ok1: bool, ok2: bool)
    requires Healthy(op) && op.timer.deadline <= tick + IDLE_TICKS
    ensures var next := PollSlot(op, tick, ok1, ok2).0;
            next.Some? ==> next.value.timer.deadline <= tick + IDLE_TICKS
  {
    hide Resume, Backoff, SenderShape, CongestionOk;
    ResumeHealthy(op, tick, ok1);
    ResumeTimer(op, tick, ok1);
    var op1 := Resume(op, tick, ok1).0;
    if Outstanding(op1.tx) && op1.timer.attempts < RETRIES { BackoffTimer(op1, tick); }
  }

  lemma {:induction false} PollKeeps(slots: seq<Option<Stream>>, cursor: nat, offset: nat, tick: U64, ok1: nat -> bool, ok2: nat -> bool)
    requires SlotsOk(slots) && cursor < SLOTS && offset <= SLOTS && Timely(slots, tick)
    ensures var r := PollFrom(slots, cursor, offset, tick, ok1, ok2); SlotsOk(r.slots) && Timely(r.slots, tick)
    decreases SLOTS - offset
  {
    hide PollSlot, Healthy;
    if offset < SLOTS {
      var i := SlotAt(cursor, offset);
      if slots[i].None? {
        PollKeeps(slots, cursor, offset + 1, tick, ok1, ok2);
      } else {
        var op := slots[i].value;
        FlightOf(op);
        PollHealthy(op, tick, ok1(i), ok2(i));
        PollTimely(op, tick, ok1(i), ok2(i));
        var (next, _, progress) := PollSlot(op, tick, ok1(i), ok2(i));
        if progress == Quiet { PollKeeps(slots[i := next], cursor, offset + 1, tick, ok1, ok2); }
      }
    }
  }

  lemma OnSlotKeeps(slot: Option<Stream>, e: Event)
    requires !e.Poll? && (slot.Some? ==> Healthy(slot.value) && slot.value.timer.deadline <= e.tick + IDLE_TICKS)
    ensures var next := OnSlot(slot, e);
            next.Some? ==> Healthy(next.value) && next.value.timer.deadline <= e.tick + IDLE_TICKS
  {
    hide HandleSegment, StartSend;
    match e
    case Arrive(_, seg, tick, ok) =>
      if slot.Some? {
        HandleHealthy(slot.value, seg, tick, ok);
        HandleTimely(slot.value, seg, tick, ok);
      }
    case Send(_, bytes, tick, ok) =>
      if slot.Some? {
        StartSendHealthy(slot.value, bytes, tick, ok);
        StartSendTimely(slot.value, bytes, tick, ok);
      }
    case _ =>
  }

  lemma HandleTimely(op: Stream, seg: Segment, tick: U64, ok: bool)
    requires op.tx.flight <= |op.tx.queue| && op.timer.deadline <= tick + IDLE_TICKS
    ensures HandleSegment(op, seg, tick, ok).0.timer.deadline <= tick + IDLE_TICKS
  {
    hide AckPhase, Absorb, Absorbs, Refused, AckAcceptable, SequenceInWindow, ReceiveWindow;
    AckTimely(op, seg, tick);
  }

  lemma AckTimely(op: Stream, seg: Segment, tick: U64)
    requires op.tx.flight <= |op.tx.queue| && op.timer.deadline <= tick + IDLE_TICKS
    ensures AckPhase(op, seg, tick).timer.deadline <= tick + IDLE_TICKS
  {
    hide SequenceInWindow, ReceiveWindow, Grown, UpdatedView, SampledRto;
  }

  lemma StartSendTimely(op: Stream, bytes: seq<Byte>, tick: U64, ok: bool)
    requires Healthy(op) && op.timer.deadline <= tick + IDLE_TICKS
    ensures StartSend(op, bytes, tick, ok).0.timer.deadline <= tick + IDLE_TICKS
  {
  }

  lemma StepKeeps(s: Stack, e: Event)
    requires StackOk(s) && s.now <= e.tick
    ensures StackOk(Step(s, e)) && Step(s, e).now == e.tick
  {
    hide Healthy, OnSlot, PollFrom;
    if e.Poll? {
      PollKeeps(s.slots, s.cursor, 0, e.tick, e.ok1, e.ok2);
    } else if e.slot < SLOTS {
      OnSlotKeeps(s.slots[e.slot], e);
    }
  }

  // ----- stalled streams -----

  /** A segment that acknowledges nothing new and, while nothing is outstanding, stores nothing. */
  ghost predicate Unhelpful(op: Stream, seg: Segment)
  {
    || seg.flags.rst || seg.flags.syn
    || (&& (AckAcceptable(op, seg) ==> ClassifyAck(op.tx, seg.ackno).Duplicate?)
        && (Outstanding(op.tx) || !Absorbs(op.rx, seg)))
  }

  /** Received bytes never postpone a pending retransmission. */
  lemma UnhelpfulKeepsTimer(op: Stream, seg: Segment, tick: U64, ok: bool)
    requires op.tx.flight <= |op.tx.queue| && Unhelpful(op, seg)
    ensures var op1 := HandleSegment(op, seg, tick, ok).0; op1.tx == op.tx && op1.timer == op.timer
  {
  }

  /** An event that is no progress for this stream: no helpful segment, no accepted send or close. */
  ghost predicate Idle(op: Stream, e: Event) {
    match e
    case Arrive(_, seg, _, _) => Unhelpful(op, seg)
    case Send(_, bytes, _, _) => !CanAccept(op, bytes)
    case Close(_, _, _) => !CanClose(op)
    case _ => true
  }

  /** Nothing but polls and idle events reaches slot `j`. */
  ghost predicate Stalls(s: Stack, e: Event, j: nat)
    requires |s.slots| == SLOTS && j < SLOTS
  {
    !e.Poll? && e.slot == j && s.slots[j].Some? ==> Idle(s.slots[j].value, e)
  }

  lemma IdleKeeps(op: Stream, e: Event)
    requires !e.Poll? && op.tx.flight <= |op.tx.queue| && Idle(op, e)
    ensures var next := OnStream(op, e);
            next.Some? ==> next.value.timer == op.timer && Outstanding(next.value.tx) == Outstanding(op.tx)
  {
    hide HandleSegment, Unhelpful;
    if e.Arrive? { UnhelpfulKeepsTimer(op, e.seg, e.tick, e.ok); }
  }

  // ----- the bound -----

  lemma ResumeTimer(op: Stream, tick: U64, ok: bool)
    requires Healthy(op)
    ensures var op1 := Resume(op, tick, ok).0;
            if Outstanding(op1.tx) == Outstanding(op.tx)
            then op1.timer.deadline == op.timer.deadline && op1.timer.attempts == op.timer.attempts
            else Outstanding(op1.tx) && op1.timer.attempts == 1 && tick <= op1.timer.deadline <= tick + 4 * RETRY_TICKS
  {
  }

  lemma BackoffTimer(op: Stream, tick: U64)
    requires TimerOk(op.timer, op.tx)
    ensures var op1 := Backoff(op, tick);
            && op1.tx == op.tx && op1.timer.attempts == op.timer.attempts + 1
            && tick <= op1.timer.deadline <= tick + 4 * RETRY_TICKS
  {
  }

  /** Timeouts still to come: an idle stream can be resumed once and then retried. */
  ghost function Left(op: Stream): int { RETRIES - if Outstanding(op.tx) then op.timer.attempts else 0 }

  /** Last tick at which a stream last examined at `seen` can still be found alive, if it is examined at least every
      `gap` ticks: one deadline, then at most three retransmission timeouts. */
  ghost function Expiry(op: Stream, seen: U64, gap: nat): int {
    Max(op.timer.deadline, seen) + gap + Left(op) * (4 * RETRY_TICKS + gap)
  }

  lemma FewerLeft(a: int, b: int, w: nat)
    requires a < b
    ensures a * w + w <= b * w
  {
    assert (b - 1 - a) * w >= 0;
  }

  /** One examination: the slot is freed, or its expiry does not move. */
  lemma ExamKeepsExpiry(op: Stream, seen: U64, tick: U64, ok1: bool, ok2: bool, gap: nat)
    requires Healthy(op) && seen <= tick <= seen + gap
    ensures var next := PollSlot(op, tick, ok1, ok2).0;
            next.Some? ==> Expiry(next.value, tick, gap) <= Expiry(op, seen, gap)
  {
    hide Resume, Backoff, SenderShape, CongestionOk;
    FlightOf(op);
    ResumeHealthy(op, tick, ok1);
    ResumeTimer(op, tick, ok1);
    var next := PollSlot(op, tick, ok1, ok2).0;
    var op1 := Resume(op, tick, ok1).0;
    if Outstanding(op1.tx) && op1.timer.attempts < RETRIES { BackoffTimer(op1, tick); }
    if next.Some? && Left(next.value) != Left(op) {
      FewerLeft(Left(next.value), Left(op), 4 * RETRY_TICKS + gap);
    }
  }

  /** Slot `j` is occupied, was last examined at `seen`, will be examined again in time, and expires by `bound`. */
  ghost predicate Tracked(s: Stack, j: nat, p: nat, bound: int, seen: U64) {
    && j < SLOTS && SlotsOk(s.slots) && s.cursor < SLOTS && s.slots[j].Some?
    && Distance(s.cursor, j) < SLOTS
    && seen <= s.polled <= seen + p * (3 - Distance(s.cursor, j))
    && Expiry(s.slots[j].value, seen, 4 * p) <= bound
  }

  lemma Scaled(p: nat, a: int, b: int)
    requires a <= b
    ensures p * a <= p * b
  {
  }

  /** A poll that looks at slot `j`. */
  lemma TrackExam(s: Stack, e: Event, j: nat, p: nat, bound: int, seen: U64)
    requires Tracked(s, j, p, bound, seen) && StackOk(s) && e.Poll? && s.now <= e.tick <= s.polled + p
    requires Distance(s.cursor, j) < Looked(PollInput(s.slots, e.tick, e.ok1, e.ok2), s.cursor, 0)
    ensures Step(s, e).slots[j].Some? ==> Tracked(Step(s, e), j, p, bound, e.tick)
  {
    hide PollSlot, PollFrom, Looked, SlotAt, Distance, Healthy, Expiry, Timely;
    var input := PollInput(s.slots, e.tick, e.ok1, e.ok2);
    var d := Distance(s.cursor, j);
    DistanceExact(s.cursor, j);
    PollExamines(input, s.slots, s.cursor, 0, d);
    StepKeeps(s, e);
    SlotsOf(Step(s, e));
    var next := Step(s, e);
    if next.slots[j].Some? {
      Scaled(p, 3 - d, 3);
      ExamKeepsExpiry(s.slots[j].value, seen, e.tick, e.ok1(j), e.ok2(j), 4 * p);
      DistanceExact(next.cursor, j);
      Scaled(p, 0, 3 - Distance(next.cursor, j));
    }
  }

  /** A poll that stops before slot `j` comes nearer to it. */
  lemma TrackPass(s: Stack, e: Event, j: nat, p: nat, bound: int, seen: U64)
    requires Tracked(s, j, p, bound, seen) && StackOk(s) && e.Poll? && s.now <= e.tick <= s.polled + p
    requires Looked(PollInput(s.slots, e.tick, e.ok1, e.ok2), s.cursor, 0) <= Distance(s.cursor, j)
    ensures Tracked(Step(s, e), j, p, bound, seen)
  {
    hide PollSlot, PollFrom, Looked, SlotAt, Distance, Healthy, Expiry, Timely;
    var input := PollInput(s.slots, e.tick, e.ok1, e.ok2);
    var d := Distance(s.cursor, j);
    var n := Looked(input, s.cursor, 0);
    DistanceExact(s.cursor, j);
    PollMovesCursor(input, s.slots, s.cursor, 0);
    PollExamines(input, s.slots, s.cursor, 0, d);
    StepKeeps(s, e);
    SlotsOf(Step(s, e));
    TcpService.DistanceShrinks(s.cursor, j, n);
    Scaled(p, 4 - d, 3 - (d - n));
    assert p * (3 - d) + p == p * (4 - d);
  }

  lemma TrackOther(s: Stack, e: Event, j: nat, p: nat, bound: int, seen: U64)
    requires Tracked(s, j, p, bound, seen) && StackOk(s) && !e.Poll? && s.now <= e.tick && Stalls(s, e, j)
    ensures Step(s, e).slots[j].Some? ==> Tracked(Step(s, e), j, p, bound, seen)
  {
    hide Healthy, OnStream, Idle, Distance, StackOk;
    StepKeeps(s, e);
    FlightOf(s.slots[j].value);
    if e.slot == j { IdleKeeps(s.slots[j].value, e); }
    SlotsOf(Step(s, e));
  }

  lemma AtStep(events: seq<Event>, n: nat)
    requires 0 < n <= |events| && Ordered(events)
    ensures var before := At(events, n - 1);
            SlotsOk(before.slots) && before.cursor < SLOTS && before.now <= events[n - 1].tick
            && At(events, n) == Step(before, events[n - 1])
  {
    hide Step, Healthy, Timely;
  }

  /** Polls in events `m..n` are at most `p` ticks apart. */
  ghost predicate PolledEvery(events: seq<Event>, m: nat, n: nat, p: nat)
    requires m <= n <= |events| && Ordered(events)
  {
    forall k :: m <= k < n && events[k].Poll? ==> events[k].tick <= At(events, k).polled + p
  }

  /** Slot `j` is occupied at event `m`, and nothing but polls and idle events reaches it in events `m..n`. */
  ghost predicate Stalled(events: seq<Event>, m: nat, n: nat, j: nat)
    requires m <= n <= |events| && Ordered(events) && j < SLOTS
  {
    At(events, m).slots[j].Some? && forall k :: m <= k < n ==> Stalls(At(events, k), events[k], j)
  }

  lemma TrackStart(s: Stack, j: nat, p: nat)
    requires StackOk(s) && j < SLOTS && s.slots[j].Some?
    ensures Tracked(s, j, p, Expiry(s.slots[j].value, s.polled, 4 * p), s.polled)
  {
    hide Distance, Healthy, Expiry;
    DistanceExact(s.cursor, j);
    Scaled(p, 0, 3 - Distance(s.cursor, j));
  }

  lemma TrackStep(s: Stack, e: Event, j: nat, p: nat, bound: int, seen: U64) returns (seen': U64)
    requires Tracked(s, j, p, bound, seen) && StackOk(s) && s.now <= e.tick && Stalls(s, e, j)
    requires e.Poll? ==> e.tick <= s.polled + p
    requires Step(s, e).slots[j].Some?
    ensures Tracked(Step(s, e), j, p, bound, seen')
  {
    hide Step, Expiry, Stalls, Distance, Looked, Healthy, Timely;
    seen' := seen;
    if !e.Poll? {
      TrackOther(s, e, j, p, bound, seen);
    } else if Distance(s.cursor, j) < Looked(PollInput(s.slots, e.tick, e.ok1, e.ok2), s.cursor, 0) {
      TrackExam(s, e, j, p, bound, seen);
      seen' := e.tick;
    } else {
      TrackPass(s, e, j, p, bound, seen);
    }
  }

  lemma {:induction false} StalledStays(events: seq<Event>, m: nat, n: nat, j: nat, p: nat) returns (seen: U64)
    requires m <= n <= |events| && Ordered(events) && j < SLOTS
    requires Stalled(events, m, n, j) && PolledEvery(events, m, n, p)
    requires forall k :: m < k <= n ==> At(events, k).slots[j].Some?
    ensures Tracked(At(events, n), j, p, Expiry(At(events, m).slots[j].value, At(events, m).polled, 4 * p), seen)
    decreases n
  {
    hide At, Step, Expiry, Stalls, Tracked, StackOk;
    var bound := Expiry(At(events, m).slots[j].value, At(events, m).polled, 4 * p);
    if n == m {
      seen := At(events, n).polled;
      TrackStart(At(events, n), j, p);
    } else {
      AtStep(events, n);
      seen := StalledStays(events, m, n - 1, j, p);
      seen := TrackStep(At(events, n - 1), events[n - 1], j, p, bound, seen);
    }
  }

  /** In every run: a stalled slot polled at most `p` ticks apart is not found occupied at or after its expiry. */
  lemma StalledStreamRetires(events: seq<Event>, m: nat, n: nat, j: nat, p: nat)
    requires m <= n <= |events| && Ordered(events) && j < SLOTS && 0 < p
    requires Stalled(events, m, n, j) && PolledEvery(events, m, n, p)
    requires At(events, n).polled >= Expiry(At(events, m).slots[j].value, At(events, m).polled, 4 * p)
    ensures exists k :: m < k <= n && At(events, k).slots[j].None?
  {
    hide Stalled, PolledEvery, Distance;
    if forall k :: m < k <= n ==> At(events, k).slots[j].Some? {
      var seen := StalledStays(events, m, n, j, p);
      var s := At(events, n);
      Scaled(p, 3 - Distance(s.cursor, j), 3);
      LeftBound(s.slots[j].value, p);
    }
  }

  lemma LeftBound(op: Stream, p: nat)
    requires Healthy(op)
    ensures 0 <= Left(op) * (4 * RETRY_TICKS + 4 * p) <= 3 * (4 * RETRY_TICKS + 4 * p)
  {
    var w := 4 * RETRY_TICKS + 4 * p;
    assert 0 <= Left(op) <= 3;
    assert Left(op) * w <= 3 * w;
  }

  /** In numbers: a stalled slot polled at most `p` ticks apart is freed within 500 + 16 * p ticks. */
  lemma RetirementBound(events: seq<Event>, m: nat, n: nat, j: nat, p: nat)
    requires m <= n <= |events| && Ordered(events) && j < SLOTS && 0 < p
    requires Stalled(events, m, n, j) && PolledEvery(events, m, n, p)
    requires At(events, n).polled >= At(events, m).now + 500 + 4 * (4 * p)
    ensures exists k :: m < k <= n && At(events, k).slots[j].None?
  {
    hide PolledEvery, Distance, Stalls;
    LeftBound(At(events, m).slots[j].value, p);
    StalledStreamRetires(events, m, n, j, p);
  }
}
