/** The bounded grant ledger: one record per live frame in a fixed array of slots. Its meaning is
    the map from frame address to holding that `Authority` works on. */
module Ledger {
  import opened Wrappers
  import opened FrameRegions
  import opened A = Authority

  /** An empty slot has address 0. */
  datatype Record = Record(address: nat, generation: nat, owner: Owner, mappedAt: nat, kind: Kind)

  const EMPTY := Record(0, 0, KERNEL, 0, Table)

  /** A grant as callers hold it: the right plus the ledger slot that backs it. */
  datatype SlotGrant = SlotGrant(grant: Grant, slot: nat)

  function GrantOf(r: Record): Grant { Grant(r.address, r.generation, r.owner, r.kind) }

  /** No frame is recorded twice. */
  ghost predicate Distinct(rs: seq<Record>) {
    forall i, j :: 0 <= i < j < |rs| && rs[i].address != 0 ==> rs[i].address != rs[j].address
  }

  /** The meaning of the records. */
  ghost function FramesOf(rs: seq<Record>): map<nat, Holding>
    requires Distinct(rs)
  {
    map s | 0 <= s < |rs| && rs[s].address != 0 :: rs[s].address := Holding(GrantOf(rs[s]), rs[s].mappedAt)
  }

  lemma FramesAt(rs: seq<Record>, s: nat)
    requires Distinct(rs) && s < |rs| && rs[s].address != 0
    ensures rs[s].address in FramesOf(rs) && FramesOf(rs)[rs[s].address] == Holding(GrantOf(rs[s]), rs[s].mappedAt)
  {
  }

  lemma SlotOf(rs: seq<Record>, f: nat)
    requires Distinct(rs) && f in FramesOf(rs)
    ensures exists s :: 0 <= s < |rs| && rs[s].address == f && f != 0
  {
  }

  ghost predicate Replaceable(rs: seq<Record>, s: nat, r: Record)
    requires Distinct(rs) && s < |rs|
  {
    r.address == 0 || r.address == rs[s].address || (rs[s].address == 0 && r.address !in FramesOf(rs))
  }

  lemma StaysDistinct(rs: seq<Record>, s: nat, r: Record)
    requires Distinct(rs) && s < |rs| && Replaceable(rs, s, r)
    ensures Distinct(rs[s := r])
  {
    var ts := rs[s := r];
    forall i, j | 0 <= i < j < |ts| && ts[i].address != 0 ensures ts[i].address != ts[j].address {
      if i == s && rs[s].address == 0 && rs[j].address == r.address { FramesAt(rs, j); }
      if j == s && rs[s].address == 0 && rs[i].address == r.address { FramesAt(rs, i); }
    }
  }

  /** Writing one slot adds, changes or removes exactly one frame. */
  lemma FramesUpdate(rs: seq<Record>, s: nat, r: Record)
    requires Distinct(rs) && s < |rs| && Replaceable(rs, s, r)
    ensures Distinct(rs[s := r])
    ensures FramesOf(rs[s := r]) ==
            if r.address == 0 then FramesOf(rs) - {rs[s].address}
            else FramesOf(rs)[r.address := Holding(GrantOf(r), r.mappedAt)]
  {
    hide Distinct, FramesOf;
    StaysDistinct(rs, s, r);
    var ts := rs[s := r];
    var want := if r.address == 0 then FramesOf(rs) - {rs[s].address}
                else FramesOf(rs)[r.address := Holding(GrantOf(r), r.mappedAt)];
    forall f | f in FramesOf(ts) ensures f in want && want[f] == FramesOf(ts)[f] {
      SlotOf(ts, f);
      var k :| 0 <= k < |ts| && ts[k].address == f && f != 0;
      FramesAt(ts, k);
      if k != s { FramesAt(rs, k); SlotsApart(rs, s, k); SlotsApart(ts, s, k); }
    }
    forall f | f in want ensures f in FramesOf(ts) {
      if f != r.address || r.address == 0 {
        SlotOf(rs, f);
        var k :| 0 <= k < |rs| && rs[k].address == f && f != 0;
        FramesAt(ts, k);
      } else {
        FramesAt(ts, s);
      }
    }
  }

  lemma SlotsApart(rs: seq<Record>, s: nat, k: nat)
    requires Distinct(rs) && s < |rs| && k < |rs| && s != k && rs[k].address != 0
    ensures rs[s].address != rs[k].address
  {
  }

  /** Addresses recorded for `owner` (or for anyone) in the first `k` slots. */
  ghost function Recorded(rs: seq<Record>, owner: Option<Owner>, k: nat): set<nat>
    requires k <= |rs|
  {
    if k == 0 then {}
    else Recorded(rs, owner, k - 1) +
         if rs[k - 1].address != 0 && (owner.None? || rs[k - 1].owner == owner.value) then {rs[k - 1].address} else {}
  }

  lemma {:induction false} RecordedAt(rs: seq<Record>, owner: Option<Owner>, k: nat, f: nat)
    requires k <= |rs|
    ensures f in Recorded(rs, owner, k) <==>
            exists s :: 0 <= s < k && rs[s].address == f && f != 0 && (owner.None? || rs[s].owner == owner.value)
  {
    if k > 0 {
      RecordedAt(rs, owner, k - 1, f);
    }
  }

  lemma RecordedIsOwned(rs: seq<Record>, a: Authority, owner: Owner)
    requires Distinct(rs) && a.frames == FramesOf(rs)
    ensures Recorded(rs, Some(owner), |rs|) == Owned(a, owner)
    ensures Recorded(rs, None, |rs|) == a.frames.Keys
  {
    forall f ensures f in Recorded(rs, Some(owner), |rs|) <==> f in Owned(a, owner) {
      RecordedAt(rs, Some(owner), |rs|, f);
    }
    forall f ensures f in Recorded(rs, None, |rs|) <==> f in a.frames {
      RecordedAt(rs, None, |rs|, f);
    }
  }

  lemma RecordedGrows(rs: seq<Record>, owner: Option<Owner>, k: nat)
    requires Distinct(rs) && k < |rs|
    requires rs[k].address != 0 && (owner.None? || rs[k].owner == owner.value)
    ensures |Recorded(rs, owner, k + 1)| == |Recorded(rs, owner, k)| + 1
  {
    RecordedAt(rs, owner, k, rs[k].address);
  }

  class Ledger {
    const records: array<Record>
    var nextGeneration: nat
    var nextOwner: nat
    var live: nat

    ghost predicate Valid()
      reads this, records
    {
      Distinct(records[..]) && live == |FramesOf(records[..])|
    }

    ghost function Frames(): map<nat, Holding>
      reads this, records
      requires Valid()
    {
      FramesOf(records[..])
    }

    /** The ledger as an authority, except for which frames are managed: only the bitmap knows that. */
    ghost function View(): Authority
      reads this, records
      requires Valid()
    {
      Authority(Frames(), {}, nextGeneration, nextOwner, records.Length)
    }

    constructor (capacity: nat)
      ensures Valid() && fresh(records) && records.Length == capacity
      ensures Frames() == map[] && nextGeneration == 1 && nextOwner == 1
    {
      records := new Record[capacity](_ => EMPTY);
      nextGeneration, nextOwner, live := 1, 1, 0;
    }

    method CountRecorded(owner: Option<Owner>) returns (n: nat)
      requires Valid()
      ensures n == |Recorded(records[..], owner, records.Length)|
    {
      hide FramesOf;
      n := 0;
      ghost var rs := records[..];
      for k := 0 to records.Length
        invariant n == |Recorded(rs, owner, k)|
      {
        if records[k].address != 0 && (owner.None? || records[k].owner == owner.value) {
          RecordedGrows(rs, owner, k);
          n := n + 1;
        }
      }
    }

    /** How many frames an owner holds. */
    method OwnerFrames(owner: Owner) returns (n: nat)
      requires Valid()
      ensures n == |Owned(View(), owner)|
    {
      RecordedIsOwned(records[..], View(), owner);
      n := CountRecorded(Some(owner));
    }

    method IsLive(g: SlotGrant) returns (ok: bool)
      requires Valid()
      ensures ok == SlotLive(g)
      ensures ok ==> A.IsLive(View(), g.grant) && View().frames[g.grant.address].mappedAt == records[g.slot].mappedAt
    {
      ok := g.slot < records.Length && records[g.slot].address != 0 && GrantOf(records[g.slot]) == g.grant;
      if ok { FramesAt(records[..], g.slot); }
    }

    /** The slot still backs exactly this grant. */
    ghost predicate SlotLive(g: SlotGrant)
      reads this, records
    {
      g.slot < records.Length && records[g.slot].address != 0 && GrantOf(records[g.slot]) == g.grant
    }

    /** Recover the grant of a frame for its exact owner and kind. */
    method Find(owner: Owner, frame: nat, kind: Kind) returns (found: Option<SlotGrant>)
      requires Valid()
      ensures found.Some? == A.Find(View(), owner, frame, kind).Some?
      ensures found.Some? ==> found.value.grant == A.Find(View(), owner, frame, kind).value && SlotLive(found.value)
    {
      for s := 0 to records.Length
        invariant forall k :: 0 <= k < s ==> !(records[k].address == frame && frame != 0 && records[k].owner == owner && records[k].kind == kind)
      {
        if records[s].address == frame && frame != 0 && records[s].owner == owner && records[s].kind == kind {
          FramesAt(records[..], s);
          return Some(SlotGrant(GrantOf(records[s]), s));
        }
      }
      if frame in Frames() {
        SlotOf(records[..], frame);
        var s :| 0 <= s < records.Length && records[s].address == frame && frame != 0;
        FramesAt(records[..], s);
      }
      return None;
    }

    /** Owner identities never wrap or recycle. */
    method NewOwner() returns (owner: Option<Owner>)
      requires Valid()
      modifies this`nextOwner
      ensures Valid() && (View(), owner) == A.NewOwner(old(View()))
    {
      if nextOwner >= U64_MAX { return None; }
      owner := Some(nextOwner);
      nextOwner := nextOwner + 1;
    }

    /** Quota, slot and generation admission, before the physical allocator is asked. */
    method Reserve(owner: Owner) returns (slot: Option<nat>)
      requires Valid()
      ensures slot.Some? == (WithinQuota(View(), owner) && |Frames()| < records.Length && nextGeneration < U64_MAX)
      ensures slot.Some? ==> slot.value < records.Length && records[slot.value].address == 0
    {
      if owner != KERNEL {
        var held := OwnerFrames(owner);
        if held >= USER_FRAME_LIMIT || live >= UserShare(records.Length) { return None; }
      }
      ghost var rs := records[..];
      for s := 0 to records.Length
        invariant |Recorded(rs, None, s)| == s
      {
        if records[s].address == 0 {
          RoomLeft(rs, s);
          if nextGeneration >= U64_MAX { return None; }
          return Some(s);
        }
        RecordedGrows(rs, None, s);
      }
      RecordedIsOwned(rs, View(), owner);
      return None;
    }

    /** Write a reserved slot. The frame must be fresh to the ledger, which the bitmap guarantees. */
    method Commit(slot: nat, owner: Owner, kind: Kind, address: nat) returns (g: SlotGrant)
      requires Valid() && slot < records.Length && records[slot].address == 0
      requires address != 0 && address !in Frames()
      modifies this, records
      ensures Valid() && SlotLive(g) && g.grant == Grant(address, old(nextGeneration), owner, kind)
      ensures View() == old(View()).(frames := old(Frames())[address := Holding(g.grant, 0)], nextGeneration := old(nextGeneration) + 1)
    {
      hide Distinct, FramesOf;
      var record := Record(address, nextGeneration, owner, 0, kind);
      FramesUpdate(records[..], slot, record);
      ghost var updated := records[..][slot := record];
      records[slot] := record;
      assert records[..] == updated;
      nextGeneration := nextGeneration + 1;
      live := live + 1;
      return SlotGrant(GrantOf(record), slot);
    }

    method CanBind(g: SlotGrant, owner: Owner) returns (ok: bool)
      requires Valid()
      ensures ok == (SlotLive(g) && A.CanBind(View(), g.grant, owner))
    {
      ok := IsLive(g);
      ok := ok && g.grant.owner == owner && g.grant.kind == User && records[g.slot].mappedAt == 0;
    }

    /** Change the pin of a live slot. */
    method SetPin(g: SlotGrant, va: nat)
      requires Valid() && SlotLive(g)
      modifies records
      ensures Valid() && SlotLive(g) && records[g.slot].mappedAt == va
      ensures View() == old(View()).(frames := old(Frames())[g.grant.address := Holding(g.grant, va)])
    {
      hide Distinct, FramesOf;
      var record := records[g.slot].(mappedAt := va);
      FramesUpdate(records[..], g.slot, record);
      FramesAt(records[..], g.slot);
      ghost var updated := records[..][g.slot := record];
      records[g.slot] := record;
      assert records[..] == updated;
    }

    /** Publishing the first user page table entry pins its frame; a second mapping is refused. */
    method Bind(g: SlotGrant, owner: Owner, va: nat) returns (ok: bool)
      requires Valid()
      modifies records
      ensures Valid()
      ensures old(SlotLive(g)) ==> (View(), ok) == A.Bind(old(View()), g.grant, owner, va)
      ensures !old(SlotLive(g)) ==> !ok && View() == old(View())
    {
      ok := CanBind(g, owner);
      if !ok || va == 0 || va % PAGE_SIZE != 0 { return false; }
      SetPin(g, va);
    }

    method MappingMatches(owner: Owner, frame: nat, va: nat) returns (ok: bool)
      requires Valid()
      ensures ok == A.MappingMatches(View(), owner, frame, va)
    {
      var found := Find(owner, frame, User);
      if found.None? { return false; }
      var live := IsLive(found.value);
      return va != 0 && records[found.value.slot].mappedAt == va;
    }

    /** Unpin exactly this binding. */
    method Retire(owner: Owner, frame: nat, va: nat) returns (g: Option<SlotGrant>)
      requires Valid()
      modifies records
      ensures Valid()
      ensures View() == A.Retire(old(View()), owner, frame, va).0
      ensures g.Some? == A.Retire(old(View()), owner, frame, va).1.Some?
      ensures g.Some? ==> g.value.grant == A.Retire(old(View()), owner, frame, va).1.value && SlotLive(g.value)
                          && records[g.value.slot].mappedAt == 0
    {
      g := Find(owner, frame, User);
      if g.None? { return; }
      var live := IsLive(g.value);
      if va == 0 || records[g.value.slot].mappedAt != va { return None; }
      SetPin(g.value, 0);
    }

    /** Whether a release may proceed to the physical allocator: live and not pinned. */
    method Releasable(g: SlotGrant) returns (ok: bool)
      requires Valid()
      ensures ok == (SlotLive(g) && A.Release(View(), g.grant).1)
    {
      ok := IsLive(g);
      ok := ok && records[g.slot].mappedAt == 0;
    }

    /** Empty a slot whose frame went back to the bitmap. */
    method Clear(g: SlotGrant)
      requires Valid() && SlotLive(g) && records[g.slot].mappedAt == 0
      modifies this`live, records
      ensures Valid() && View() == A.Release(old(View()), g.grant).0
    {
      hide Distinct, FramesOf;
      FramesUpdate(records[..], g.slot, EMPTY);
      FramesAt(records[..], g.slot);
      assert |Frames() - {g.grant.address}| == |Frames()| - 1 by {
        assert (Frames() - {g.grant.address}).Keys == Frames().Keys - {g.grant.address};
      }
      ghost var updated := records[..][g.slot := EMPTY];
      records[g.slot] := EMPTY;
      assert records[..] == updated;
      live := live - 1;
    }

    /** The number of non-empty slots. */
    method LiveRecords() returns (n: nat)
      requires Valid()
      ensures n == live
    {
      RecordedIsOwned(records[..], View(), KERNEL);
      n := CountRecorded(None);
    }
  }

  /** An empty slot means fewer frames than slots. */
  lemma RoomLeft(rs: seq<Record>, s: nat)
    requires Distinct(rs) && s < |rs| && rs[s].address == 0
    ensures |FramesOf(rs)| < |rs|
  {
    RecordedIsOwned(rs, Authority(FramesOf(rs), {}, 0, 0, 0), KERNEL);
    RecordedBelow(rs, s, |rs|);
  }

  lemma {:induction false} RecordedBelow(rs: seq<Record>, s: nat, k: nat)
    requires k <= |rs| && s < |rs| && rs[s].address == 0
    ensures |Recorded(rs, None, k)| <= k && (s < k ==> |Recorded(rs, None, k)| < k)
  {
    if k > 0 { RecordedBelow(rs, s, k - 1); }
  }
}
