/** Ownership of receive descriptors between a VirtIO driver and an untrusted device. */
module RxQueue {
  import opened Wrappers
  import opened SequenceNumbers

  const RX_HEADER: nat := 12
  const RX_BUFFER: nat := 2048
  const RX_MAX_FRAME: nat := 1518

  datatype Completion = Completion(descriptor: U32, length: U32)
  datatype RxError = Busy | Quarantined | InvalidAdvance | InvalidDescriptor | DuplicateDescriptor | InvalidLength

  // ----- admission of a captured batch -----

  predicate LengthOk(c: Completion) { RX_HEADER <= c.length <= RX_BUFFER }

  predicate Repeats(entries: seq<Completion>, i: nat)
    requires i < |entries|
  {
    exists j :: 0 <= j < i && entries[j].descriptor == entries[i].descriptor
  }

  /** The first complaint about entries `i..`, in the order the driver makes them. */
  function EntryFault(n: nat, entries: seq<Completion>, i: nat): Option<RxError>
    requires i <= |entries|
    decreases |entries| - i
  {
    if i == |entries| then None
    else if entries[i].descriptor >= n then Some(InvalidDescriptor)
    else if Repeats(entries, i) then Some(DuplicateDescriptor)
    else if !LengthOk(entries[i]) then Some(InvalidLength)
    else EntryFault(n, entries, i + 1)
  }

  function Advance(used: U16, end: U16): U16 { (end - used) % 0x1_0000 }

  function Fault(n: nat, used: U16, end: U16, entries: seq<Completion>): Option<RxError> {
    if Advance(used, end) > n || |entries| != Advance(used, end) then Some(InvalidAdvance) else EntryFault(n, entries, 0)
  }

  predicate Distinct(entries: seq<Completion>) {
    forall i, j :: 0 <= i < j < |entries| ==> entries[i].descriptor != entries[j].descriptor
  }

  predicate Admissible(n: nat, entries: seq<Completion>) {
    Distinct(entries) && forall i :: 0 <= i < |entries| ==> entries[i].descriptor < n && LengthOk(entries[i])
  }

  lemma {:induction false} EntryFaultExact(n: nat, entries: seq<Completion>, i: nat)
    requires i <= |entries| && Admissible(n, entries[..i])
    ensures EntryFault(n, entries, i).None? <==> Admissible(n, entries)
    decreases |entries| - i
  {
    if i == |entries| {
      assert entries[..i] == entries;
    } else if entries[i].descriptor < n && !Repeats(entries, i) && LengthOk(entries[i]) {
      assert entries[..i + 1] == entries[..i] + [entries[i]];
      EntryFaultExact(n, entries, i + 1);
    }
  }

  /** A batch is admitted exactly when it is the whole advance, and every entry names a distinct descriptor of the queue
      with a length inside its buffer. */
  lemma FaultExact(n: nat, used: U16, end: U16, entries: seq<Completion>)
    ensures Fault(n, used, end, entries).None? <==> |entries| == Advance(used, end) <= n && Admissible(n, entries)
  {
    EntryFaultExact(n, entries, 0);
  }

  // ----- who owns which descriptor -----

  /** `posted` are the descriptors the device may write; `pending` the admitted completions not yet drained. */
  datatype Queue = Queue(n: nat, used: U16, available: U16, posted: set<nat>, pending: seq<Completion>, quarantined: bool)

  function Ids(entries: seq<Completion>): set<nat> { set i | 0 <= i < |entries| :: entries[i].descriptor }

  /** Every descriptor below `n`. */
  function All(n: nat): (all: set<nat>)
    ensures forall d :: d in all <==> 0 <= d < n
  {
    if n == 0 then {} else All(n - 1) + {n - 1}
  }

  /** Posted and pending descriptors partition the queue, and the two free-running indices stay `n` apart. */
  predicate QueueOk(q: Queue) {
    && 0 < q.n < 0x1_0000
    && Admissible(q.n, q.pending)
    && q.posted !! Ids(q.pending) && q.posted + Ids(q.pending) == All(q.n)
    && Advance(q.used, q.available) == q.n
  }

  /** The queue as first handed to the device. */
  function Prepared(n: nat): Queue
    requires n < 0x1_0000
  {
    Queue(n, 0, n, All(n), [], false)
  }

  /** What the driver reads from the used ring: the slots from its own index up to the device's. */
  function Captured(q: Queue, end: U16, ring: seq<Completion>): seq<Completion>
    requires 0 < q.n == |ring|
  {
    seq(Advance(q.used, end), i requires 0 <= i => ring[(q.used + i) % 0x1_0000 % q.n])
  }

  /** Take in a batch when the last one is drained; a bad batch condemns the queue before anything is copied. */
  function Refill(q: Queue, end: U16, ring: seq<Completion>): Queue
    requires 0 < q.n == |ring|
  {
    if Advance(q.used, end) > q.n || Fault(q.n, q.used, end, Captured(q, end, ring)).Some? then q.(quarantined := true)
    else q.(pending := Captured(q, end, ring), posted := q.posted - Ids(Captured(q, end, ring)))
  }

  /** Take one completion and hand its descriptor back to the device. */
  function Drain(q: Queue): (Queue, Option<Completion>) {
    if q.quarantined || q.pending == [] then (q, None)
    else
      var entry := q.pending[0];
      (q.(pending := q.pending[1..], used := (q.used + 1) % 0x1_0000,
          available := (q.available + 1) % 0x1_0000, posted := q.posted + {entry.descriptor}),
       Some(entry))
  }

  /** One call of `receive`, whatever the device shows. */
  datatype Look = Look(ready: bool, end: U16, ring: seq<Completion>)

  function Receive(q: Queue, look: Look): (Queue, Option<Completion>)
    requires 0 < q.n == |look.ring|
  {
    if q.quarantined || (q.pending == [] && !look.ready) then (q, None)
    else Drain(if q.pending == [] then Refill(q, look.end, look.ring) else q)
  }

  lemma RefillKeeps(q: Queue, end: U16, ring: seq<Completion>)
    requires QueueOk(q) && q.pending == [] && |ring| == q.n
    ensures QueueOk(Refill(q, end, ring))
  {
    var entries := Captured(q, end, ring);
    FaultExact(q.n, q.used, end, entries);
    assert Ids(q.pending) == {};
    if Fault(q.n, q.used, end, entries).None? { IdsWithin(q.n, entries); }
  }

  lemma IdsWithin(n: nat, entries: seq<Completion>)
    requires Admissible(n, entries)
    ensures Ids(entries) <= All(n)
  {
  }

  lemma DrainKeeps(q: Queue)
    requires QueueOk(q)
    ensures QueueOk(Drain(q).0)
  {
    if q.pending != [] {
      IdsTail(q.pending);
      assert Admissible(q.n, q.pending[1..]);
      assert q.pending[0].descriptor in Ids(q.pending);
    }
  }

  lemma IdsTail(entries: seq<Completion>)
    requires entries != [] && Distinct(entries)
    ensures Ids(entries) == {entries[0].descriptor} + Ids(entries[1..]) && entries[0].descriptor !in Ids(entries[1..])
  {
    var rest := entries[1..];
    forall d | d in Ids(entries) ensures d == entries[0].descriptor || d in Ids(rest) {
      var i :| 0 <= i < |entries| && entries[i].descriptor == d;
      if i > 0 { assert rest[i - 1].descriptor == d; }
    }
    forall d | d in Ids(rest) ensures d in Ids(entries) && d != entries[0].descriptor {
      var i :| 0 <= i < |rest| && rest[i].descriptor == d;
      assert entries[i + 1].descriptor == d;
    }
  }

  lemma ReceiveKeeps(q: Queue, look: Look)
    requires QueueOk(q) && |look.ring| == q.n
    ensures QueueOk(Receive(q, look).0) && Receive(q, look).0.n == q.n
  {
    hide QueueOk, Fault, Captured;
    QueueSize(q);
    if q.pending == [] {
      RefillKeeps(q, look.end, look.ring);
      DrainKeeps(Refill(q, look.end, look.ring));
    } else {
      DrainKeeps(q);
    }
  }

  lemma QueueSize(q: Queue)
    requires QueueOk(q)
    ensures 0 < q.n < 0x1_0000
  {
  }

  // ----- whole runs -----

  /** The queue after `looks`. */
  function After(q: Queue, looks: seq<Look>): (r: Queue)
    requires 0 < q.n && forall i :: 0 <= i < |looks| ==> |looks[i].ring| == q.n
    ensures r.n == q.n
  {
    if looks == [] then q else Receive(After(q, looks[..|looks| - 1]), looks[|looks| - 1]).0
  }

  /** For any device behaviour: posted and pending descriptors always partition the queue. */
  lemma {:induction false} RunKeeps(n: nat, looks: seq<Look>)
    requires 0 < n < 0x1_0000 && forall i :: 0 <= i < |looks| ==> |looks[i].ring| == n
    ensures QueueOk(After(Prepared(n), looks)) && After(Prepared(n), looks).n == n
  {
    hide Receive;
    if looks == [] {
      assert Ids([]) == {};
    } else {
      RunKeeps(n, looks[..|looks| - 1]);
      ReceiveKeeps(After(Prepared(n), looks[..|looks| - 1]), looks[|looks| - 1]);
    }
  }

  /** Condemned is condemned: no later call delivers, reposts or changes anything. */
  lemma {:induction false} QuarantineForever(q: Queue, looks: seq<Look>, look: Look)
    requires 0 < q.n == |look.ring| && q.quarantined && forall i :: 0 <= i < |looks| ==> |looks[i].ring| == q.n
    ensures After(q, looks) == q && Receive(q, look) == (q, None)
  {
    if looks != [] { QuarantineForever(q, looks[..|looks| - 1], look); }
  }

  /** A delivered completion comes from an admitted batch: it is the oldest pending one, whose descriptor is not the device's,
      or the first of a batch captured in this call, whose descriptor had been posted. Its length fits, the rest of the batch
      stays pending in order, and the descriptor is the device's again afterwards; one bad entry anywhere in a captured batch
      delivers and reposts nothing. */
  lemma DeliveryOwned(q: Queue, look: Look)
    requires QueueOk(q) && |look.ring| == q.n
    ensures var (next, entry) := Receive(q, look);
            && (entry.Some? ==>
                  && entry.value.descriptor < q.n && LengthOk(entry.value)
                  && entry.value.descriptor in next.posted
                  && (q.pending != [] ==> entry.value == q.pending[0] && entry.value.descriptor !in q.posted
                                          && next.pending == q.pending[1..])
                  && (q.pending == [] ==>
                        var batch := Captured(q, look.end, look.ring);
                        && batch != [] && entry.value == batch[0] && next.pending == batch[1..]
                        && Ids(batch) <= q.posted && next.posted == q.posted - Ids(batch[1..]))
                  && next.available == (q.available + 1) % 0x1_0000)
            && (q.pending == [] && look.ready && !Admissible(q.n, Captured(q, look.end, look.ring)) ==>
                  entry.None? && next == q.(quarantined := true))
  {
    var batch := Captured(q, look.end, look.ring);
    FaultExact(q.n, q.used, look.end, batch);
    if q.pending != [] { assert q.pending[0].descriptor in Ids(q.pending); }
    if q.pending == [] && Admissible(q.n, batch) {
      assert Ids(q.pending) == {};
      IdsWithin(q.n, batch);
      if batch != [] { IdsTail(batch); }
    }
  }

  // ----- the driver's objects -----

  class RxBatch {
    const n: nat
    var used: U16
    const entries: array<Completion>
    var cursor: nat
    var count: nat
    var quarantined: bool

    ghost predicate Valid()
      reads this, entries
    {
      entries.Length == n && cursor <= count <= n
    }

    ghost function Pending(): seq<Completion>
      requires Valid()
      reads this, entries
    {
      entries[cursor..count]
    }

    constructor (size: nat, start: U16)
      ensures Valid() && fresh(entries) && n == size && used == start && Pending() == [] && !quarantined
    {
      n, used, cursor, count, quarantined := size, start, 0, 0, false;
      entries := new Completion[size](_ => Completion(0, 0));
    }

    method Quarantine()
      requires Valid()
      modifies this
      ensures Valid() && quarantined && Pending() == old(Pending()) && used == old(used)
    {
      quarantined := true;
    }

    /** Check every entry before the first is used. */
    method Validate(end: U16, batch: seq<Completion>) returns (error: Option<RxError>)
      requires Valid()
      ensures error == Fault(n, used, end, batch)
    {
      var advance := (end - used) % 0x1_0000;
      if advance > n || |batch| != advance { return Some(InvalidAdvance); }
      var seen := new bool[n](_ => false);
      for i := 0 to |batch|
        invariant EntryFault(n, batch, i) == EntryFault(n, batch, 0)
        invariant forall d :: 0 <= d < n ==> (seen[d] <==> exists j :: 0 <= j < i && batch[j].descriptor == d)
      {
        var descriptor := batch[i].descriptor;
        if descriptor >= n { return Some(InvalidDescriptor); }
        assert seen[descriptor] == Repeats(batch, i);
        if seen[descriptor] { return Some(DuplicateDescriptor); }
        seen[descriptor] := true;
        if batch[i].length < RX_HEADER || batch[i].length > RX_BUFFER { return Some(InvalidLength); }
      }
      return None;
    }

    method Admit(end: U16, batch: seq<Completion>) returns (error: Option<RxError>)
      requires Valid()
      modifies this, entries
      ensures Valid() && used == old(used)
      ensures error == if old(quarantined) then Some(Quarantined) else if old(Pending()) != [] then Some(Busy)
                       else Fault(n, used, end, batch)
      ensures quarantined == (old(quarantined) || (old(Pending()) == [] && error.Some?))
      ensures Pending() == if error.None? then batch else old(Pending())
    {
      if quarantined { return Some(Quarantined); }
      if cursor < count { return Some(Busy); }
      error := Validate(end, batch);
      if error.Some? {
        quarantined := true;
        return error;
      }
      FaultExact(n, used, end, batch);
      for i := 0 to |batch|
        invariant entries[..i] == batch[..i]
        modifies entries
      {
        entries[i] := batch[i];
      }
      cursor, count := 0, |batch|;
    }

    method Take() returns (entry: Option<Completion>)
      requires Valid()
      modifies this
      ensures Valid() && quarantined == old(quarantined)
      ensures entry.Some? == (!quarantined && old(Pending()) != [])
      ensures entry.Some? ==> old(Pending()) == [entry.value] + Pending() && used == (old(used) + 1) % 0x1_0000
      ensures entry.None? ==> Pending() == old(Pending()) && used == old(used)
    {
      if quarantined || cursor >= count { return None; }
      entry := Some(entries[cursor]);
      cursor, used := cursor + 1, (used + 1) % 0x1_0000;
    }
  }

  /** The bytes a completion delivers: nothing when the frame exceeds the stack's packet budget. */
  function FrameOf(memory: seq<seq<Byte>>, taken: Option<Completion>): Option<seq<Byte>>
    requires taken.Some? ==> taken.value.descriptor < |memory| && LengthOk(taken.value)
    requires forall i :: 0 <= i < |memory| ==> |memory[i]| == RX_BUFFER
  {
    if taken.Some? && taken.value.length - RX_HEADER <= RX_MAX_FRAME
    then Some(memory[taken.value.descriptor][RX_HEADER..taken.value.length]) else None
  }

  /** The ring slot of a free-running index. */
  function SlotOf(index: U16, n: nat): (slot: nat)
    requires 0 < n
    ensures slot < n
  {
    index % n
  }

  class VirtioNet {
    const n: nat
    const rx: RxBatch
    const ring: array<U16>
    var rxAvailable: U16
    ghost var posted: set<nat>

    ghost predicate Valid()
      reads this, rx, rx.entries, ring
    {
      && rx.n == n == ring.Length && rx.Valid() && QueueOk(View())
    }

    ghost function View(): Queue
      requires rx.Valid()
      reads this, rx, rx.entries
    {
      Queue(n, rx.used, rxAvailable, posted, rx.Pending(), rx.quarantined)
    }

    /** Post every buffer once. */
    constructor (size: nat)
      requires 0 < size < 0x1_0000
      ensures Valid() && fresh(rx) && fresh(rx.entries) && fresh(ring) && View() == Prepared(size)
      ensures forall i :: 0 <= i < size ==> ring[i] == i
    {
      n, rxAvailable, posted := size, size, All(size);
      rx := new RxBatch(size, 0);
      ring := new U16[size](i => if 0 <= i < 0x1_0000 then i else 0);
      new;
      assert Ids([]) == {};
    }

    /** Capture what the device has completed and admit all of it or none. */
    method Fill(look: Look)
      requires Valid() && |look.ring| == n && !rx.quarantined && rx.Pending() == []
      modifies this, rx, rx.entries
      ensures Valid() && View() == Refill(old(View()), look.end, look.ring)
    {
      hide QueueOk, Fault;
      ghost var start := View();
      QueueSize(start);
      RefillKeeps(start, look.end, look.ring);
      var count := (look.end - rx.used) % 0x1_0000;
      if count > n {
        rx.Quarantine();
        return;
      }
      var captured: seq<Completion> := [];
      for offset := 0 to count
        invariant captured == Captured(start, look.end, look.ring)[..offset]
      {
        captured := captured + [look.ring[(rx.used + offset) % 0x1_0000 % n]];
      }
      assert captured == Captured(start, look.end, look.ring);
      var error := rx.Admit(look.end, captured);
      if error.None? { posted := posted - Ids(captured); }
    }

    /** Copy out the next admitted frame if it fits the stack's budget, and repost its buffer either way. */
    method DrainOne(memory: seq<seq<Byte>>) returns (frame: Option<seq<Byte>>, ghost taken: Option<Completion>)
      requires Valid() && n == |memory| && forall i :: 0 <= i < n ==> |memory[i]| == RX_BUFFER
      modifies this, rx, ring
      ensures Valid() && (View(), taken) == Drain(old(View()))
      ensures taken.Some? ==> taken.value.descriptor < n && LengthOk(taken.value)
      ensures frame == FrameOf(memory, taken)
      ensures ring[..] == if taken.None? then old(ring[..]) else old(ring[..])[SlotOf(old(rxAvailable), n) := taken.value.descriptor]
    {
      hide QueueOk, SlotOf, Ids, All;
      ghost var start := View();
      QueueSize(start);
      DrainKeeps(start);
      var entry := rx.Take();
      taken := entry;
      if entry.None? { return None, entry; }
      assert start.pending[0] == entry.value && start.pending[1..] == rx.Pending();
      PendingOk(start);
      var descriptor := entry.value.descriptor;
      frame := FrameOf(memory, entry);
      Repost(descriptor);
    }

    /** Hand one descriptor back to the device. */
    method Repost(descriptor: U16)
      requires 0 < n == ring.Length
      modifies this, ring
      ensures ring[..] == old(ring[..])[SlotOf(old(rxAvailable), n) := descriptor]
      ensures rxAvailable == (old(rxAvailable) + 1) % 0x1_0000 && posted == old(posted) + {descriptor}
    {
      ring[rxAvailable % n] := descriptor;
      rxAvailable := (rxAvailable + 1) % 0x1_0000;
      posted := posted + {descriptor};
    }

    /** Deliver at most one frame. `tx` says the transmit side is condemned; `memory` is what the buffers hold. */
    method ReceiveFrame(tx: bool, look: Look, memory: seq<seq<Byte>>) returns (frame: Option<seq<Byte>>, ghost taken: Option<Completion>)
      requires Valid() && |look.ring| == n == |memory| && forall i :: 0 <= i < n ==> |memory[i]| == RX_BUFFER
      modifies this, rx, rx.entries, ring
      ensures Valid() && 0 < n
      ensures (View(), taken) == if tx then (old(View()), None) else Receive(old(View()), look)
      ensures taken.Some? ==> taken.value.descriptor < n && LengthOk(taken.value)
      ensures frame == FrameOf(memory, taken)
      ensures ring[..] == if taken.None? then old(ring[..]) else old(ring[..])[SlotOf(old(rxAvailable), n) := taken.value.descriptor]
    {
      hide QueueOk, Fault, Drain, Refill, SlotOf;
      QueueSize(View());
      if rx.quarantined || tx { return None, None; }
      if rx.cursor >= rx.count {
        if !look.ready { return None, None; }
        RefillKeepsIndex(View(), look.end, look.ring);
        Fill(look);
      }
      frame, taken := DrainOne(memory);
    }
  }

  lemma PendingOk(q: Queue)
    requires QueueOk(q) && q.pending != []
    ensures q.pending[0].descriptor < q.n && LengthOk(q.pending[0])
  {
  }

  /** Only draining moves the available index. */
  lemma RefillKeepsIndex(q: Queue, end: U16, ring: seq<Completion>)
    requires 0 < q.n == |ring|
    ensures Refill(q, end, ring).available == q.available && Refill(q, end, ring).n == q.n
  {
  }
}
