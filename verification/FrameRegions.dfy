/** The layout of managed physical memory: sorted, disjoint usable regions whose frames are
    numbered consecutively from zero, and the correspondence between numbers and addresses. */
module FrameRegions {

  const PAGE_SIZE: nat := 4096
  const MAX_USABLE_REGIONS: nat := 64

  /** Frames `first`, `first + 1`, ... live at `start`, `start + PAGE_SIZE`, ... below `end`. */
  datatype Region = Region(start: nat, end: nat, first: nat)

  function Frames(r: Region): nat {
    if r.end <= r.start then 0 else (r.end - r.start) / PAGE_SIZE
  }

  ghost predicate RegionOk(r: Region) {
    PAGE_SIZE <= r.start < r.end && r.start % PAGE_SIZE == 0 && r.end % PAGE_SIZE == 0
  }

  ghost predicate Before(a: Region, b: Region) {
    a.end <= b.start && a.first + Frames(a) <= b.first
  }

  /** Sorted, page-aligned, disjoint, never page zero, and numbered without gaps up to `count`. */
  ghost predicate Layout(rs: seq<Region>, count: nat) {
    && (forall k :: 0 <= k < |rs| ==> RegionOk(rs[k]))
    && (forall j, k :: 0 <= j < k < |rs| ==> Before(rs[j], rs[k]))
    && (forall j, k :: 0 <= j < k < |rs| && k == j + 1 ==> rs[j].first + Frames(rs[j]) == rs[k].first)
    && (if rs == [] then count == 0
        else rs[0].first == 0 && rs[|rs| - 1].first + Frames(rs[|rs| - 1]) == count)
  }

  predicate HasIndex(r: Region, i: nat) { r.first <= i < r.first + Frames(r) }

  predicate HasAddress(r: Region, a: nat) { r.start <= a < r.end }

  function AddressIn(r: Region, i: nat): nat
    requires HasIndex(r, i)
  {
    r.start + (i - r.first) * PAGE_SIZE
  }

  function IndexIn(r: Region, a: nat): nat
    requires HasAddress(r, a)
  {
    r.first + (a - r.start) / PAGE_SIZE
  }

  lemma FramesExact(r: Region)
    requires RegionOk(r)
    ensures r.end == r.start + Frames(r) * PAGE_SIZE && 0 < Frames(r)
  {
  }

  lemma AddressInExact(r: Region, i: nat)
    requires RegionOk(r) && HasIndex(r, i)
    ensures HasAddress(r, AddressIn(r, i)) && AddressIn(r, i) % PAGE_SIZE == 0
    ensures IndexIn(r, AddressIn(r, i)) == i
  {
    FramesExact(r);
  }

  lemma IndexInExact(r: Region, a: nat)
    requires RegionOk(r) && HasAddress(r, a) && a % PAGE_SIZE == 0
    ensures HasIndex(r, IndexIn(r, a)) && AddressIn(r, IndexIn(r, a)) == a
  {
    FramesExact(r);
  }

  /** The region holding frame number `i`. */
  ghost function RegionOf(rs: seq<Region>, count: nat, i: nat): (k: nat)
    requires Layout(rs, count) && i < count
    ensures k < |rs| && HasIndex(rs[k], i)
  {
    RegionExists(rs, count, i, |rs|);
    var k :| 0 <= k < |rs| && HasIndex(rs[k], i);
    k
  }

  lemma {:induction false} RegionExists(rs: seq<Region>, count: nat, i: nat, n: nat)
    requires Layout(rs, count) && n <= |rs|
    requires i < if n < |rs| then rs[n].first else count
    ensures exists k :: 0 <= k < n && HasIndex(rs[k], i)
  {
    if n == 0 {
      assert false;
    } else if i >= rs[n - 1].first {
      assert HasIndex(rs[n - 1], i);
    } else {
      RegionExists(rs, count, i, n - 1);
    }
  }

  lemma IndexRegionUnique(rs: seq<Region>, count: nat, i: nat, j: nat, k: nat)
    requires Layout(rs, count) && j < |rs| && k < |rs| && HasIndex(rs[j], i) && HasIndex(rs[k], i)
    ensures j == k
  {
    assert j < k ==> Before(rs[j], rs[k]);
    assert k < j ==> Before(rs[k], rs[j]);
  }

  /** The physical address of frame number `i`. */
  ghost function AddressOf(rs: seq<Region>, count: nat, i: nat): nat
    requires Layout(rs, count) && i < count
  {
    AddressIn(rs[RegionOf(rs, count, i)], i)
  }

  lemma AddressOfIn(rs: seq<Region>, count: nat, i: nat, k: nat)
    requires Layout(rs, count) && k < |rs| && HasIndex(rs[k], i)
    ensures i < count && AddressOf(rs, count, i) == AddressIn(rs[k], i)
  {
    assert i < count by {
      assert Before(rs[k], rs[|rs| - 1]) || k == |rs| - 1;
    }
    IndexRegionUnique(rs, count, i, RegionOf(rs, count, i), k);
  }

  /** Numbers and addresses are in the same order, so the correspondence is one to one. */
  lemma AddressOfMonotone(rs: seq<Region>, count: nat, i: nat, j: nat)
    requires Layout(rs, count) && i < j < count
    ensures AddressOf(rs, count, i) < AddressOf(rs, count, j)
  {
    var k, l := RegionOf(rs, count, i), RegionOf(rs, count, j);
    if k < l {
      AddressInExact(rs[k], i);
      assert Before(rs[k], rs[l]);
    } else if l < k {
      assert false;
    }
  }

  lemma AddressOfAligned(rs: seq<Region>, count: nat, i: nat)
    requires Layout(rs, count) && i < count
    ensures AddressOf(rs, count, i) % PAGE_SIZE == 0 && PAGE_SIZE <= AddressOf(rs, count, i)
    ensures exists k :: 0 <= k < |rs| && HasAddress(rs[k], AddressOf(rs, count, i))
  {
    var k := RegionOf(rs, count, i);
    AddressInExact(rs[k], i);
    assert HasAddress(rs[k], AddressOf(rs, count, i));
  }

  // ----- sets of frames -----

  /** The whole pages of the usable regions. */
  ghost function Managed(rs: seq<Region>): set<nat> {
    set k, a | 0 <= k < |rs| && a in Pages(rs[k].start, rs[k].end) :: a
  }

  ghost function Pages(start: nat, end: nat): set<nat> {
    set a: nat | start <= a < end && a % PAGE_SIZE == 0
  }

  ghost function Live(rs: seq<Region>, count: nat, bits: seq<bool>): set<nat>
    requires Layout(rs, count) && count <= |bits|
  {
    set i | 0 <= i < count && bits[i] :: AddressOf(rs, count, i)
  }

  lemma AddressManaged(rs: seq<Region>, count: nat, i: nat)
    requires Layout(rs, count) && i < count
    ensures AddressOf(rs, count, i) in Managed(rs)
  {
    var k := RegionOf(rs, count, i);
    AddressInExact(rs[k], i);
    assert AddressOf(rs, count, i) in Pages(rs[k].start, rs[k].end);
  }

  /** Exactly the numbered addresses are managed. */
  lemma ManagedHasIndex(rs: seq<Region>, count: nat, a: nat)
    requires Layout(rs, count) && a in Managed(rs)
    ensures exists i :: 0 <= i < count && AddressOf(rs, count, i) == a
    ensures PAGE_SIZE <= a && a % PAGE_SIZE == 0
  {
    var k :| 0 <= k < |rs| && a in Pages(rs[k].start, rs[k].end);
    IndexInExact(rs[k], a);
    AddressOfIn(rs, count, IndexIn(rs[k], a), k);
  }

  lemma LiveAt(rs: seq<Region>, count: nat, bits: seq<bool>, i: nat)
    requires Layout(rs, count) && i < count <= |bits|
    ensures AddressOf(rs, count, i) in Live(rs, count, bits) <==> bits[i]
  {
    hide AddressOf, Layout;
    if AddressOf(rs, count, i) in Live(rs, count, bits) {
      var j :| 0 <= j < count && bits[j] && AddressOf(rs, count, j) == AddressOf(rs, count, i);
      if i < j { AddressOfMonotone(rs, count, i, j); }
      if j < i { AddressOfMonotone(rs, count, j, i); }
    }
  }

  lemma LiveUpdate(rs: seq<Region>, count: nat, bits: seq<bool>, i: nat, b: bool)
    requires Layout(rs, count) && i < count <= |bits|
    ensures Live(rs, count, bits[i := b]) ==
            if b then Live(rs, count, bits) + {AddressOf(rs, count, i)}
            else Live(rs, count, bits) - {AddressOf(rs, count, i)}
  {
    hide AddressOf, Layout;
    var bits' := bits[i := b];
    forall j | 0 <= j < count
      ensures AddressOf(rs, count, j) in Live(rs, count, bits') <==> bits'[j]
      ensures AddressOf(rs, count, j) in Live(rs, count, bits) <==> bits[j]
    {
      LiveAt(rs, count, bits', j);
      LiveAt(rs, count, bits, j);
    }
    forall j | 0 <= j < count && j != i ensures AddressOf(rs, count, j) != AddressOf(rs, count, i) {
      if i < j { AddressOfMonotone(rs, count, i, j); } else { AddressOfMonotone(rs, count, j, i); }
    }
  }

  // ----- adding a region -----

  /** Number of frames in the first `k` regions. */
  ghost function FramesBefore(rs: seq<Region>, k: nat): nat
    requires k <= |rs|
  {
    if k == 0 then 0 else FramesBefore(rs, k - 1) + Frames(rs[k - 1])
  }

  /** The same regions, numbered consecutively. */
  ghost function Numbered(rs: seq<Region>): seq<Region> {
    seq(|rs|, k requires 0 <= k < |rs| => rs[k].(first := FramesBefore(rs, k)))
  }

  ghost predicate Sorted(rs: seq<Region>) {
    && (forall k :: 0 <= k < |rs| ==> RegionOk(rs[k]))
    && (forall j, k :: 0 <= j < k < |rs| ==> rs[j].end <= rs[k].start)
  }

  lemma {:induction false} FramesBeforeMonotone(rs: seq<Region>, j: nat, k: nat)
    requires j < k <= |rs|
    ensures FramesBefore(rs, j) + Frames(rs[j]) <= FramesBefore(rs, k)
  {
    if j + 1 < k { FramesBeforeMonotone(rs, j, k - 1); }
  }

  lemma FramesBeforeNext(rs: seq<Region>, k: nat)
    requires k < |rs|
    ensures FramesBefore(rs, k + 1) == FramesBefore(rs, k) + Frames(rs[k])
  {
  }

  lemma NumberedAt(rs: seq<Region>, k: nat)
    requires Sorted(rs) && k < |rs|
    ensures |Numbered(rs)| == |rs|
    ensures Numbered(rs)[k].start == rs[k].start && Numbered(rs)[k].end == rs[k].end
    ensures Numbered(rs)[k].first == FramesBefore(rs, k)
    ensures Frames(Numbered(rs)[k]) == Frames(rs[k]) && RegionOk(Numbered(rs)[k])
  {
  }

  lemma NumberedPair(rs: seq<Region>, j: nat, k: nat)
    requires Sorted(rs) && j < k < |rs|
    ensures |Numbered(rs)| == |rs| && Before(Numbered(rs)[j], Numbered(rs)[k])
    ensures k == j + 1 ==> Numbered(rs)[j].first + Frames(Numbered(rs)[j]) == Numbered(rs)[k].first
  {
    hide Frames, Numbered;
    NumberedAt(rs, j);
    NumberedAt(rs, k);
    FramesBeforeMonotone(rs, j, k);
    FramesBeforeNext(rs, j);
  }

  lemma NumberedLayout(rs: seq<Region>)
    requires Sorted(rs)
    ensures Layout(Numbered(rs), FramesBefore(rs, |rs|))
  {
    hide Frames, Numbered, Before, FramesBefore, RegionOk, Sorted;
    var ns := Numbered(rs);
    forall k | 0 <= k < |rs| ensures |ns| == |rs| && RegionOk(ns[k]) { NumberedAt(rs, k); }
    forall j, k | 0 <= j < k < |rs|
      ensures |ns| == |rs| && Before(ns[j], ns[k])
      ensures k == j + 1 ==> ns[j].first + Frames(ns[j]) == ns[k].first
    {
      NumberedPair(rs, j, k);
    }
    NumberedEnds(rs);
  }

  lemma NumberedEnds(rs: seq<Region>)
    requires Sorted(rs)
    ensures |Numbered(rs)| == |rs|
    ensures if rs == [] then FramesBefore(rs, |rs|) == 0
            else Numbered(rs)[0].first == 0
                 && Numbered(rs)[|rs| - 1].first + Frames(Numbered(rs)[|rs| - 1]) == FramesBefore(rs, |rs|)
  {
    if rs != [] {
      NumberedAt(rs, 0);
      NumberedAt(rs, |rs| - 1);
    }
  }

  lemma {:induction false} LayoutCount(rs: seq<Region>, count: nat, k: nat)
    requires Layout(rs, count) && k <= |rs|
    ensures FramesBefore(rs, k) == if k < |rs| then rs[k].first else count
  {
    if k > 0 { LayoutCount(rs, count, k - 1); }
  }

  ghost function Inserted(rs: seq<Region>, slot: nat, r: Region): seq<Region>
    requires slot <= |rs|
  {
    rs[..slot] + [r] + rs[slot..]
  }

  /** A list that holds the old regions on both sides of the new one. */
  lemma InsertedIs(a: seq<Region>, rs: seq<Region>, slot: nat, r: Region)
    requires slot <= |rs| && |a| == |rs| + 1 && a[slot] == r
    requires forall k :: 0 <= k < slot ==> a[k] == rs[k]
    requires forall k :: slot < k < |a| ==> a[k] == rs[k - 1]
    ensures a == Inserted(rs, slot, r)
  {
    forall k | 0 <= k < |a| ensures a[k] == Inserted(rs, slot, r)[k] { }
  }

  lemma {:induction false} InsertedCount(rs: seq<Region>, slot: nat, r: Region, k: nat)
    requires slot <= |rs| && k <= |rs| + 1
    ensures FramesBefore(Inserted(rs, slot, r), k) ==
            if k <= slot then FramesBefore(rs, k) else FramesBefore(rs, k - 1) + Frames(r)
  {
    if k > 0 { InsertedCount(rs, slot, r, k - 1); }
  }

  /** `slot` is where a region belongs among regions sorted by start. */
  ghost predicate InPlace(rs: seq<Region>, slot: nat, r: Region) {
    slot <= |rs| && (forall k :: 0 <= k < slot ==> rs[k].start <= r.start) && (slot < |rs| ==> r.start < rs[slot].start)
  }

  ghost predicate Overlaps(rs: seq<Region>, start: nat, end: nat) {
    exists k :: 0 <= k < |rs| && start < rs[k].end && rs[k].start < end
  }

  /** Inserting a disjoint region at its place and renumbering extends the layout by exactly its frames. */
  lemma InsertLayout(rs: seq<Region>, count: nat, slot: nat, r: Region)
    requires Layout(rs, count) && RegionOk(r) && !Overlaps(rs, r.start, r.end)
    requires InPlace(rs, slot, r)
    ensures Layout(Numbered(Inserted(rs, slot, r)), count + Frames(r))
    ensures Managed(Numbered(Inserted(rs, slot, r))) == Managed(rs) + Pages(r.start, r.end)
  {
    hide Layout, Frames, RegionOk, Numbered, FramesBefore, Sorted, Overlaps, Managed, Pages;
    var xs := Inserted(rs, slot, r);
    InsertSorted(rs, count, slot, r);
    NumberedLayout(xs);
    InsertedCount(rs, slot, r, |xs|);
    LayoutCount(rs, count, |rs|);
    InsertManaged(rs, slot, r);
  }

  lemma InsertManaged(rs: seq<Region>, slot: nat, r: Region)
    requires slot <= |rs|
    ensures Managed(Numbered(Inserted(rs, slot, r))) == Managed(rs) + Pages(r.start, r.end)
  {
    var ns := Numbered(Inserted(rs, slot, r));
    forall a: nat | a in Managed(ns) ensures a in Managed(rs) + Pages(r.start, r.end) {
      var k :| 0 <= k < |ns| && a in Pages(ns[k].start, ns[k].end);
      if k != slot { var j := if k < slot then k else k - 1; assert a in Pages(rs[j].start, rs[j].end); }
    }
    forall a | a in Managed(rs) ensures a in Managed(ns) {
      var k :| 0 <= k < |rs| && a in Pages(rs[k].start, rs[k].end);
      var j := if k < slot then k else k + 1; assert a in Pages(ns[j].start, ns[j].end);
    }
    forall a | a in Pages(r.start, r.end) ensures a in Managed(ns) { assert a in Pages(ns[slot].start, ns[slot].end); }
  }

  lemma InsertSorted(rs: seq<Region>, count: nat, slot: nat, r: Region)
    requires Layout(rs, count) && slot <= |rs| && RegionOk(r) && !Overlaps(rs, r.start, r.end)
    requires InPlace(rs, slot, r)
    ensures Sorted(Inserted(rs, slot, r))
  {
    var xs := Inserted(rs, slot, r);
    forall k | 0 <= k < |rs| ensures if k < slot then rs[k].end <= r.start else r.end <= rs[k].start {
      assert !(r.start < rs[k].end && rs[k].start < r.end);
      assert slot < k ==> Before(rs[slot], rs[k]);
    }
    forall j, k | 0 <= j < k < |xs| ensures xs[j].end <= xs[k].start {
      var j', k' := if j < slot then j else j - 1, if k < slot then k else k - 1;
      if j != slot && k != slot { assert Before(rs[j'], rs[k']); }
    }
  }
}
