/** Bounded service: every slot is examined within four polls. */
module TcpService {
  import opened Wrappers
  import opened SequenceNumbers
  import opened TcpStream
  import opened TcpSender
  import opened TcpStack

  // ----- the poll cursor -----

  datatype PollInput = PollInput(slots: seq<Option<Stream>>, tick: U64, ok1: nat -> bool, ok2: nat -> bool)

  ghost function PollOf(p: PollInput, cursor: nat): Polled
    requires SlotsOk(p.slots) && cursor < SLOTS
  {
    PollFrom(p.slots, cursor, 0, p.tick, p.ok1, p.ok2)
  }

  /** How many slots, from the cursor on, a poll looks at; the last of them reports unless all four were looked at. */
  ghost function Looked(p: PollInput, cursor: nat, offset: nat): nat
    requires SlotsOk(p.slots) && cursor < SLOTS && offset <= SLOTS
    decreases SLOTS - offset
  {
    if offset == SLOTS then 0
    else
      var i := SlotAt(cursor, offset);
      if p.slots[i].Some? && PollSlot(p.slots[i].value, p.tick, p.ok1(i), p.ok2(i)).2 != Quiet then 1
      else 1 + Looked(p, cursor, offset + 1)
  }

  /** The outcome for one slot that a poll looks at. */
  ghost function Examined(p: PollInput, i: nat): Option<Stream>
    requires SlotsOk(p.slots) && i < SLOTS
  {
    if p.slots[i].None? then None
    else PollSlot(p.slots[i].value, p.tick, p.ok1(i), p.ok2(i)).0
  }

  lemma SlotsDiffer(cursor: nat, a: nat, b: nat)
    requires a < SLOTS && b < SLOTS && SlotAt(cursor, a) == SlotAt(cursor, b)
    ensures a == b
  {
  }

  /** The slots not yet visited are still as the poll found them. */
  ghost predicate Ahead(p: PollInput, slots: seq<Option<Stream>>, cursor: nat, offset: nat)
    requires SlotsOk(p.slots) && SlotsOk(slots)
  {
    forall k :: offset <= k < SLOTS ==> slots[SlotAt(cursor, k)] == p.slots[SlotAt(cursor, k)]
  }

  lemma AheadStep(p: PollInput, slots: seq<Option<Stream>>, cursor: nat, offset: nat, next: Option<Stream>)
    requires SlotsOk(p.slots) && SlotsOk(slots) && offset < SLOTS && Ahead(p, slots, cursor, offset)
    requires SlotsOk(slots[SlotAt(cursor, offset) := next])
    ensures Ahead(p, slots[SlotAt(cursor, offset) := next], cursor, offset + 1)
  {
    forall k | offset < k < SLOTS ensures SlotAt(cursor, k) != SlotAt(cursor, offset) {
      if SlotAt(cursor, k) == SlotAt(cursor, offset) { SlotsDiffer(cursor, k, offset); }
    }
  }

  /** What a poll that has reached `offset` does to the slot `k` places past the cursor. */
  ghost predicate SlotOutcome(p: PollInput, slots: seq<Option<Stream>>, cursor: nat, offset: nat, k: nat)
    requires SlotsOk(p.slots) && SlotsOk(slots) && cursor < SLOTS && offset <= SLOTS && k < SLOTS
  {
    PollFrom(slots, cursor, offset, p.tick, p.ok1, p.ok2).slots[SlotAt(cursor, k)] ==
    if offset <= k < offset + Looked(p, cursor, offset) then Examined(p, SlotAt(cursor, k)) else slots[SlotAt(cursor, k)]
  }

  lemma SlotNext(cursor: nat, offset: nat)
    ensures (SlotAt(cursor, offset) + 1) % SLOTS == SlotAt(cursor, offset + 1)
  {
  }

  /** A poll leaves the cursor just past the reporter, or looked at every slot. */
  lemma {:induction false} PollMovesCursor(p: PollInput, slots: seq<Option<Stream>>, cursor: nat, offset: nat)
    requires SlotsOk(p.slots) && SlotsOk(slots) && cursor < SLOTS && offset <= SLOTS
    requires Ahead(p, slots, cursor, offset)
    ensures var r := PollFrom(slots, cursor, offset, p.tick, p.ok1, p.ok2);
            var n := Looked(p, cursor, offset);
            && offset + n <= SLOTS
            && (r.reporter.None? ==> offset + n == SLOTS && r.cursor == cursor)
            && (r.reporter.Some? ==> 0 < n && r.cursor == SlotAt(cursor, offset + n))
    decreases SLOTS - offset
  {
    hide PollSlot;
    hide SlotAt;
    if offset < SLOTS {
      var i := SlotAt(cursor, offset);
      SlotNext(cursor, offset);
      if slots[i].None? {
        PollMovesCursor(p, slots, cursor, offset + 1);
      } else {
        PollHealthy(slots[i].value, p.tick, p.ok1(i), p.ok2(i));
        var (next, _, progress) := PollSlot(slots[i].value, p.tick, p.ok1(i), p.ok2(i));
        if progress == Quiet {
          AheadStep(p, slots, cursor, offset, next);
          PollMovesCursor(p, slots[i := next], cursor, offset + 1);
        }
      }
    }
  }

  /** A poll examines exactly the slots it looked at. */
  lemma {:induction false} PollExamines(p: PollInput, slots: seq<Option<Stream>>, cursor: nat, offset: nat, k: nat)
    requires SlotsOk(p.slots) && SlotsOk(slots) && cursor < SLOTS && offset <= SLOTS && k < SLOTS
    requires Ahead(p, slots, cursor, offset)
    ensures SlotOutcome(p, slots, cursor, offset, k)
    decreases SLOTS - offset
  {
    hide PollSlot;
    if offset < SLOTS {
      var i := SlotAt(cursor, offset);
      if SlotAt(cursor, k) == i { SlotsDiffer(cursor, k, offset); }
      hide SlotAt;
      if slots[i].None? {
        PollExamines(p, slots, cursor, offset + 1, k);
      } else {
        PollHealthy(slots[i].value, p.tick, p.ok1(i), p.ok2(i));
        var (next, _, progress) := PollSlot(slots[i].value, p.tick, p.ok1(i), p.ok2(i));
        if progress == Quiet {
          AheadStep(p, slots, cursor, offset, next);
          PollExamines(p, slots[i := next], cursor, offset + 1, k);
        }
      }
    }
  }

  /** Slots between the cursor and slot `j`. */
  function Distance(cursor: nat, j: nat): nat { (j - cursor) % SLOTS }

  lemma DistanceExact(cursor: nat, j: nat)
    requires j < SLOTS
    ensures Distance(cursor, j) < SLOTS && SlotAt(cursor, Distance(cursor, j)) == j
  {
  }

  lemma DistanceShrinks(cursor: nat, j: nat, n: nat)
    requires n <= Distance(cursor, j)
    ensures Distance(SlotAt(cursor, n), j) == Distance(cursor, j) - n
  {
  }

  ghost predicate AllOk(polls: seq<PollInput>) {
    forall i :: 0 <= i < |polls| ==> SlotsOk(polls[i].slots)
  }

  /** The cursor poll `n` starts from; the slots may change in any way between polls. */
  ghost function CursorAt(polls: seq<PollInput>, cursor: nat, n: nat): (c: nat)
    requires AllOk(polls) && cursor < SLOTS && n <= |polls|
    ensures c < SLOTS
    decreases n
  {
    if n == 0 then cursor else CursorAt(polls[1..], PollOf(polls[0], cursor).cursor, n - 1)
  }

  /** Slot `j` is among the slots a poll looks at, and the poll applies exactly one slot poll to it. */
  ghost predicate Served(p: PollInput, cursor: nat, j: nat)
    requires SlotsOk(p.slots) && cursor < SLOTS && j < SLOTS
  {
    Distance(cursor, j) < Looked(p, cursor, 0) && PollOf(p, cursor).slots[j] == Examined(p, j)
  }

  /** Every slot is examined within four consecutive polls, whatever the other slots report meanwhile. */
  lemma {:induction false} ServedWithinFour(polls: seq<PollInput>, cursor: nat, j: nat)
    requires AllOk(polls) && cursor < SLOTS && j < SLOTS
    requires Distance(cursor, j) < |polls|
    ensures exists n :: 0 <= n < |polls| && Served(polls[n], CursorAt(polls, cursor, n), j)
    decreases |polls|
  {
    hide PollSlot, PollFrom, Looked, SlotAt, Distance;
    var d := Distance(cursor, j);
    DistanceExact(cursor, j);
    PollMovesCursor(polls[0], polls[0].slots, cursor, 0);
    PollExamines(polls[0], polls[0].slots, cursor, 0, d);
    if d < Looked(polls[0], cursor, 0) {
      assert Served(polls[0], CursorAt(polls, cursor, 0), j);
    } else {
      var next := PollOf(polls[0], cursor).cursor;
      DistanceShrinks(cursor, j, Looked(polls[0], cursor, 0));
      ServedWithinFour(polls[1..], next, j);
      var n :| 0 <= n < |polls[1..]| && Served(polls[1..][n], CursorAt(polls[1..], next, n), j);
      assert polls[n + 1] == polls[1..][n] && CursorAt(polls, cursor, n + 1) == CursorAt(polls[1..], next, n);
    }
  }
}
