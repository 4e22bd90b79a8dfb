/** Round-robin selection over a fixed number of slots. */
module Scheduler {
  import opened Wrappers

  // ----- the order of one scan -----

  /** The slot visited `k` places after `last`. */
  function Slot(n: nat, last: nat, k: nat): nat
    requires last < n
  {
    (last + k) % n
  }

  /** The first ready slot in scan order: the last selected slot comes last. */
  function Choice(n: nat, last: nat, ready: set<nat>, k: nat): Option<nat>
    requires last < n && 1 <= k <= n + 1
    decreases n + 1 - k
  {
    if k == n + 1 then None
    else if Slot(n, last, k) in ready then Some(Slot(n, last, k))
    else Choice(n, last, ready, k + 1)
  }

  /** How many places after `last` a slot lies, from 1 to `n`. */
  function Distance(n: nat, last: nat, slot: nat): nat
    requires last < n && slot < n
  {
    if slot > last then slot - last else slot + n - last
  }

  lemma SlotDistance(n: nat, last: nat, k: nat)
    requires last < n && 1 <= k <= n
    ensures Slot(n, last, k) < n && Distance(n, last, Slot(n, last, k)) == k
  {
    Remainder(n, last + k);
  }

  lemma Remainder(n: nat, x: nat)
    requires 0 < n && x < 2 * n
    ensures x % n == if x < n then x else x - n
  {
    if x >= n { assert x == n + (x - n); ModOnce(n, x - n); } else { ModOnce(n, x); }
  }

  lemma ModOnce(n: nat, r: nat)
    requires r < n
    ensures r % n == r && (n + r) % n == r
  {
    assert (n + r) / n == 1;
  }

  lemma DistanceSlot(n: nat, last: nat, slot: nat)
    requires last < n && slot < n
    ensures 1 <= Distance(n, last, slot) <= n && Slot(n, last, Distance(n, last, slot)) == slot
  {
    Remainder(n, last + Distance(n, last, slot));
  }

  /** The choice is the nearest ready slot, and there is one exactly when some slot is ready. */
  lemma {:induction false} ChoiceIsNearest(n: nat, last: nat, ready: set<nat>, k: nat)
    requires last < n && 1 <= k <= n + 1 && forall s :: s in ready ==> s < n && Distance(n, last, s) >= k
    ensures Choice(n, last, ready, k).None? <==> ready == {}
    ensures var c := Choice(n, last, ready, k);
            c.Some? ==> c.value in ready && forall s :: s in ready ==> Distance(n, last, c.value) <= Distance(n, last, s)
    decreases n + 1 - k
  {
    if k == n + 1 {
      forall s | s in ready ensures false { DistanceSlot(n, last, s); }
    } else {
      SlotDistance(n, last, k);
      if Slot(n, last, k) !in ready {
        forall s | s in ready ensures Distance(n, last, s) >= k + 1 { DistanceSlot(n, last, s); }
        ChoiceIsNearest(n, last, ready, k + 1);
      }
    }
  }

  // ----- the objects -----

  class Scan {
    const n: nat
    var last: nat
    var remaining: nat

    ghost predicate Valid()
      reads this
    {
      remaining <= n && (n > 0 ==> last < n)
    }

    constructor (size: nat, start: nat)
      requires size > 0 ==> start < size
      ensures Valid() && n == size && last == start && remaining == size
    {
      n, last, remaining := size, start, size;
    }

    /** Move to the following slot, without an addition or a modulo that could overflow. */
    method Next() returns (slot: Option<nat>)
      requires Valid()
      modifies this
      ensures Valid()
      ensures old(remaining) == 0 ==> slot.None? && remaining == 0 && last == old(last)
      ensures old(remaining) > 0 ==> n > 0 && slot == Some(Slot(n, old(last), 1)) && last == slot.value && remaining == old(remaining) - 1
    {
      if remaining == 0 { return None; }
      Remainder(n, last + 1);
      last := if last == n - 1 then 0 else last + 1;
      remaining := remaining - 1;
      return Some(last);
    }
  }

  class RoundRobin {
    const n: nat
    var last: nat

    ghost predicate Valid()
      reads this
    {
      n > 0 ==> last < n
    }

    constructor (size: nat)
      ensures Valid() && n == size && last == 0
    {
      n, last := size, 0;
    }

    method NewScan() returns (scan: Scan)
      requires Valid()
      ensures fresh(scan) && scan.Valid() && scan.n == n && scan.last == last && scan.remaining == n
    {
      scan := new Scan(n, last);
    }

    /** A selection outside the capacity must not alter the order. */
    method Selected(index: nat) returns (ok: bool)
      requires Valid()
      modifies this
      ensures Valid() && ok == (index < n) && last == if ok then index else old(last)
    {
      if index >= n { return false; }
      last := index;
      return true;
    }

    /** Scan for a ready slot and select it; an idle scan leaves the order alone. */
    method Dispatch(ready: set<nat>) returns (slot: Option<nat>)
      requires Valid()
      modifies this
      ensures Valid()
      ensures n == 0 ==> slot.None? && last == old(last)
      ensures n > 0 ==> slot == Choice(n, old(last), ready, 1) && last == if slot.Some? then slot.value else old(last)
    {
      var scan := NewScan();
      ghost var k := 1;
      while scan.remaining > 0
        invariant scan.Valid() && fresh(scan) && scan.n == n && last == old(last)
        invariant n > 0 ==> 1 <= k == n + 1 - scan.remaining && scan.last == Slot(n, last, k - 1)
        invariant n > 0 ==> Choice(n, last, ready, 1) == Choice(n, last, ready, k)
        decreases scan.remaining
      {
        SlotNext(n, last, k - 1);
        var candidate := scan.Next();
        if candidate.value in ready {
          var _ := Selected(candidate.value);
          return candidate;
        }
        k := k + 1;
      }
      return None;
    }
  }

  lemma SlotNext(n: nat, last: nat, k: nat)
    requires last < n && k < n
    ensures Slot(n, Slot(n, last, k), 1) == Slot(n, last, k + 1)
    ensures Slot(n, last, 0) == last
  {
    Remainder(n, last + k);
    Remainder(n, Slot(n, last, k) + 1);
    Remainder(n, last);
    if last + k + 1 < 2 * n { Remainder(n, last + k + 1); }
  }

  // ----- bounded service -----

  /** The slot selected last after serving `rounds`; a round with no ready slot selects nothing. */
  function After(n: nat, last: nat, rounds: seq<set<nat>>): (r: nat)
    requires last < n
    ensures r < n
  {
    if rounds == [] then last
    else
      var before := After(n, last, rounds[..|rounds| - 1]);
      var c := Choice(n, before, rounds[|rounds| - 1], 1);
      if c.Some? && c.value < n then c.value else before
  }

  /** While a slot is ready but not chosen, each choice comes strictly closer to it. */
  lemma ChoiceApproaches(n: nat, last: nat, ready: set<nat>, slot: nat)
    requires last < n && slot in ready && forall s :: s in ready ==> s < n
    ensures var c := Choice(n, last, ready, 1);
            && c.Some? && c.value in ready
            && (c.value != slot ==> Distance(n, c.value, slot) < Distance(n, last, slot))
  {
    forall s | s in ready ensures Distance(n, last, s) >= 1 { DistanceSlot(n, last, s); }
    ChoiceIsNearest(n, last, ready, 1);
  }

  /** A slot that is ready in every round is selected within `n` rounds, whatever else becomes ready, for every `n`. */
  lemma ServedWithinN(n: nat, last: nat, rounds: seq<set<nat>>, slot: nat)
    requires last < n <= |rounds|
    requires forall i :: 0 <= i < |rounds| ==> slot in rounds[i] && forall s :: s in rounds[i] ==> s < n
    ensures exists i :: 0 <= i < n && Choice(n, After(n, last, rounds[..i]), rounds[i], 1) == Some(slot)
  {
    var i := 0;
    assert rounds[..0] == [];
    assert slot in rounds[0];
    DistanceSlot(n, last, slot);
    while Choice(n, After(n, last, rounds[..i]), rounds[i], 1) != Some(slot)
      invariant 0 <= i < n && slot < n
      invariant 1 <= Distance(n, After(n, last, rounds[..i]), slot) <= n - i
      decreases n - i
    {
      var here := After(n, last, rounds[..i]);
      assert slot in rounds[i];
      ChoiceApproaches(n, here, rounds[i], slot);
      var c := Choice(n, here, rounds[i], 1).value;
      assert rounds[..i + 1][..i] == rounds[..i];
      assert After(n, last, rounds[..i + 1]) == c;
      DistanceSlot(n, c, slot);
      i := i + 1;
    }
  }
}
