/** Bitmap and ledger together. Every operation follows `Authority` exactly, which discharges the
    ledger's assertions: the recorded frames are always the frames the bitmap has live. */
module Memory {
  import opened Wrappers
  import opened FrameRegions
  import opened A = Authority
  import F = FrameAllocator
  import L = Ledger

  /** Live frames among the first `k` frame numbers. */
  ghost function LiveBelow(rs: seq<Region>, n: nat, bits: seq<bool>, k: nat): set<nat>
    requires Layout(rs, n) && n <= |bits| && k <= n
  {
    set i | 0 <= i < k && bits[i] :: AddressOf(rs, n, i)
  }

  /** As many live frames as set bits. */
  lemma {:induction false} LiveCount(rs: seq<Region>, n: nat, bits: seq<bool>, k: nat)
    requires Layout(rs, n) && n <= |bits| && k <= n
    ensures |LiveBelow(rs, n, bits, k)| == F.Count(bits[..k])
  {
    hide Layout, AddressOf;
    if k == 0 {
      assert LiveBelow(rs, n, bits, k) == {};
    } else {
      LiveCount(rs, n, bits, k - 1);
      assert bits[..k][..k - 1] == bits[..k - 1];
      forall i | 0 <= i < k - 1 ensures AddressOf(rs, n, i) != AddressOf(rs, n, k - 1) {
        AddressOfMonotone(rs, n, i, k - 1);
      }
      assert LiveBelow(rs, n, bits, k) ==
             LiveBelow(rs, n, bits, k - 1) + if bits[k - 1] then {AddressOf(rs, n, k - 1)} else {};
    }
  }

  lemma {:induction false} CountTail(bits: seq<bool>, n: nat)
    requires n <= |bits| && forall i :: n <= i < |bits| ==> !bits[i]
    ensures F.Count(bits) == F.Count(bits[..n])
    decreases |bits|
  {
    if n < |bits| {
      var m := |bits| - 1;
      CountTail(bits[..m], n);
      assert bits[..m][..n] == bits[..n];
    } else {
      assert bits[..n] == bits;
    }
  }

  /** Any allocator that returns the least free frame makes the authority's choice. */
  lemma AllocIs(a: Authority, owner: Owner, kind: Kind, f: nat)
    requires Ok(a) && CanAlloc(a, owner) && IsLeast(a.managed - a.frames.Keys, f)
    ensures var g := Grant(f, a.nextGeneration, owner, kind);
            Alloc(a, owner, kind) ==
            (a.(frames := a.frames[f := Holding(g, 0)], nextGeneration := a.nextGeneration + 1), Some(g))
    ensures f != 0 && f !in a.frames
    ensures Ok(Alloc(a, owner, kind).0)
    ensures a.frames.Keys + {f} == Alloc(a, owner, kind).0.frames.Keys
  {
    AllocKeeps(a, owner, kind);
  }

  class MemoryState {
    const allocator: F.FrameAllocator
    const grants: L.Ledger

    ghost predicate Valid()
      reads this, allocator, allocator.words, allocator.regions, grants, grants.records
    {
      && allocator.Valid() && grants.Valid()
      && allocator.LiveFrames() == grants.Frames().Keys
      && Ok(View())
    }

    ghost function View(): Authority
      reads this, allocator, allocator.words, allocator.regions, grants, grants.records
      requires allocator.Valid() && grants.Valid()
    {
      grants.View().(managed := allocator.ManagedFrames())
    }

    /** Boot state: an allocator with its layout and nothing handed out, and an empty ledger. */
    constructor (allocator: F.FrameAllocator, capacity: nat)
      requires allocator.Valid() && !allocator.started
      ensures Valid() && this.allocator == allocator && fresh(grants) && fresh(grants.records)
      ensures View() == Authority(map[], allocator.ManagedFrames(), 1, 1, capacity)
    {
      this.allocator := allocator;
      grants := new L.Ledger(capacity);
      new;
      F.NothingLive(allocator.Regions(), allocator.frameCount, allocator.Bits());
      forall f | f in allocator.ManagedFrames() ensures PAGE_SIZE <= f && f % PAGE_SIZE == 0 {
        ManagedHasIndex(allocator.Regions(), allocator.frameCount, f);
      }
      assert forall o :: Owned(View(), o) == {};
      assert UserOwned(View()) == {};
    }

    /** An exclusive frame for `owner`, or nothing; either way exactly what the authority says. */
    method AllocFrame(owner: Owner, kind: Kind) returns (g: Option<L.SlotGrant>)
      requires Valid()
      modifies allocator, allocator.words, grants, grants.records
      ensures Valid()
      ensures View() == Alloc(old(View()), owner, kind).0
      ensures g.Some? == Alloc(old(View()), owner, kind).1.Some?
      ensures g.Some? ==> g.value.grant == Alloc(old(View()), owner, kind).1.value && grants.SlotLive(g.value)
    {
      hide Layout, Ok, Managed, Live, Owned, UserOwned, L.FramesOf, L.Distinct, F.BitmapOk, F.Flat, AddressOf, Least;
      ghost var a := View();
      SameHolders(grants.View(), a);
      var slot := grants.Reserve(owner);
      if slot.None? { return None; }
      var frame := allocator.AllocFrame();
      if frame.None? { return None; }
      AllocIs(a, owner, kind, frame.value);
      var granted := grants.Commit(slot.value, owner, kind, frame.value);
      return Some(granted);
    }

    /** Give a frame back: stale or pinned grants are refused before the page is touched. */
    method FreeFrame(g: L.SlotGrant) returns (freed: bool)
      requires Valid()
      modifies allocator, allocator.words, grants, grants.records
      ensures Valid()
      ensures old(grants.SlotLive(g)) ==> (View(), freed) == Release(old(View()), g.grant)
      ensures !old(grants.SlotLive(g)) ==> !freed && View() == old(View())
    {
      hide Layout, Ok, Managed, Live, Owned, UserOwned, L.FramesOf, L.Distinct, F.BitmapOk, F.Flat, AddressOf;
      ReleaseKeeps(View(), g.grant);
      freed := grants.Releasable(g);
      if !freed { return; }
      var live := grants.IsLive(g);
      freed := allocator.FreeFrameWith(g.grant.address, true);
      grants.Clear(g);
    }

    method NewOwner() returns (owner: Option<Owner>)
      requires Valid()
      modifies grants`nextOwner
      ensures Valid() && (View(), owner) == A.NewOwner(old(View()))
    {
      hide Ok, L.FramesOf, L.Distinct, F.BitmapOk, Layout, Managed, Live, F.Flat, AddressOf;
      ghost var a := View();
      ApplyKeeps(a, OpNewOwner);
      owner := grants.NewOwner();
    }

    method PinMapping(g: L.SlotGrant, owner: Owner, va: nat) returns (ok: bool)
      requires Valid()
      modifies grants.records
      ensures Valid()
      ensures old(grants.SlotLive(g)) ==> (View(), ok) == Bind(old(View()), g.grant, owner, va)
      ensures !old(grants.SlotLive(g)) ==> !ok && View() == old(View())
    {
      hide Ok, L.FramesOf, L.Distinct, F.BitmapOk, Layout, Managed, Live, F.Flat, AddressOf;
      ghost var a := View();
      ApplyKeeps(a, OpBind(g.grant, owner, va));
      ok := grants.Bind(g, owner, va);
    }

    method RetireMapping(owner: Owner, frame: nat, va: nat) returns (g: Option<L.SlotGrant>)
      requires Valid()
      modifies grants.records
      ensures Valid() && View() == Retire(old(View()), owner, frame, va).0
      ensures g.Some? == Retire(old(View()), owner, frame, va).1.Some?
      ensures g.Some? ==> g.value.grant == Retire(old(View()), owner, frame, va).1.value && grants.SlotLive(g.value)
    {
      hide Ok, L.FramesOf, L.Distinct, F.BitmapOk, Layout, Managed, Live, F.Flat, AddressOf;
      ghost var a := View();
      ApplyKeeps(a, OpRetire(owner, frame, va));
      g := grants.Retire(owner, frame, va);
    }

    /** The combined self-check of the memory report; it never fails. */
    method Consistent() returns (ok: bool)
      requires Valid()
      ensures ok
    {
      hide Ok, Layout;
      var bitmap := allocator.IsConsistent();
      var recorded := grants.LiveRecords();
      LiveCount(allocator.Regions(), allocator.frameCount, allocator.Bits(), allocator.frameCount);
      CountTail(allocator.Bits(), allocator.frameCount);
      assert allocator.LiveFrames() == LiveBelow(allocator.Regions(), allocator.frameCount, allocator.Bits(), allocator.frameCount);
      assert |grants.Frames()| == |grants.Frames().Keys|;
      for s := 0 to grants.records.Length {
        if grants.records[s].address != 0 {
          L.FramesAt(grants.records[..], s);
          var contained := allocator.ContainsLive(grants.records[s].address);
          if !contained { return false; }
        }
      }
      return bitmap && grants.live == allocator.allocatedFrames && recorded == grants.live;
    }
  }
}
