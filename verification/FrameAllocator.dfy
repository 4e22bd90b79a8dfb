/** The bitmap allocator: one bit per managed frame in 64-bit words, kept equal to a set of
    live frame addresses. A word is its 64 bits, least significant first. */
module FrameAllocator {
  import opened Wrappers
  import opened FrameRegions

  type Word = w: seq<bool> | |w| == 64 witness seq(64, _ => false)

  const EMPTY_WORD: Word := seq(64, _ => false)
  const U64_LIMIT: nat := 0x1_0000_0000_0000_0000
  type U64 = x: int | 0 <= x < 0x1_0000_0000_0000_0000

  /** A region of the boot memory map. */
  datatype MemoryRegion = MemoryRegion(start: U64, size: U64, usable: bool)

  function AlignDown(value: nat): (aligned: nat)
    ensures aligned % PAGE_SIZE == 0 && aligned <= value < aligned + PAGE_SIZE
  {
    value / PAGE_SIZE * PAGE_SIZE
  }

  /** `saturating_add` then mask, on 64-bit values. */
  function AlignUp(value: nat): (aligned: nat)
    ensures aligned % PAGE_SIZE == 0 && (PAGE_SIZE <= value < U64_LIMIT ==> PAGE_SIZE <= aligned)
  {
    AlignDown(if value + (PAGE_SIZE - 1) < U64_LIMIT then value + (PAGE_SIZE - 1) else U64_LIMIT - 1)
  }

  function Words(frames: nat): nat { (frames + 63) / 64 }

  // ----- bits -----

  ghost function Flat(words: seq<Word>): (bits: seq<bool>)
    ensures |bits| == 64 * |words|
  {
    seq(64 * |words|, i requires 0 <= i < 64 * |words| => words[i / 64][i % 64])
  }

  lemma FlatUpdate(words: seq<Word>, i: nat, b: bool)
    requires i < 64 * |words|
    ensures Flat(words[i / 64 := words[i / 64][i % 64 := b]]) == Flat(words)[i := b]
  {
  }

  ghost function Count(bits: seq<bool>): nat {
    if bits == [] then 0 else Count(bits[..|bits| - 1]) + if bits[|bits| - 1] then 1 else 0
  }

  lemma {:induction false} CountUpdate(bits: seq<bool>, i: nat, b: bool)
    requires i < |bits|
    ensures Count(bits[i := b]) == Count(bits) - (if bits[i] then 1 else 0) + (if b then 1 else 0)
  {
    var n := |bits| - 1;
    if i < n {
      CountUpdate(bits[..n], i, b);
      assert bits[i := b][..n] == bits[..n][i := b];
    } else {
      assert bits[i := b][..n] == bits[..n];
    }
  }

  /** Ones only below `h` means at most `h` ones. */
  lemma {:induction false} CountBound(bits: seq<bool>, h: nat)
    requires forall i :: 0 <= i < |bits| && bits[i] ==> i < h
    ensures Count(bits) <= h
    ensures (forall i :: 0 <= i < |bits| ==> !bits[i]) ==> Count(bits) == 0
    decreases |bits|
  {
    if bits != [] {
      var n := |bits| - 1;
      CountBound(bits[..n], if h < n then h else n);
    }
  }

  lemma {:induction false} CountConcat(a: seq<bool>, b: seq<bool>)
    ensures Count(a + b) == Count(a) + Count(b)
  {
    if b == [] {
      assert a + b == a;
    } else {
      var n := |b| - 1;
      assert (a + b)[..|a + b| - 1] == a + b[..n];
      CountConcat(a, b[..n]);
    }
  }

  lemma FlatSnoc(words: seq<Word>, w: Word)
    ensures Flat(words + [w]) == Flat(words) + w
  {
  }

  /** Words from `used` on are all zero. */
  lemma {:induction false} CountPrefix(words: seq<Word>, used: nat)
    requires used <= |words|
    requires forall i :: 64 * used <= i < 64 * |words| ==> !Flat(words)[i]
    ensures Count(Flat(words)) == Count(Flat(words[..used]))
    decreases |words|
  {
    if used == |words| {
      assert words[..used] == words;
    } else {
      var n := |words| - 1;
      var front := words[..n];
      assert words == front + [words[n]];
      FlatSnoc(front, words[n]);
      CountConcat(Flat(front), words[n]);
      forall b | 0 <= b < 64 ensures !words[n][b] {
        assert !Flat(words)[64 * n + b];
      }
      CountBound(words[n], 0);
      forall i | 64 * used <= i < 64 * |front| ensures !Flat(front)[i] {
        assert !Flat(words)[i];
      }
      CountPrefix(front, used);
      assert front[..used] == words[..used];
    }
  }

  /** `count_ones`. */
  method CountOnes(w: Word) returns (n: nat)
    ensures n == Count(w)
  {
    n := 0;
    for i := 0 to 64
      invariant n == Count(w[..i])
    {
      assert w[..i + 1][..i] == w[..i];
      if w[i] { n := n + 1; }
    }
    assert w[..64] == w;
  }

  /** `trailing_zeros` of the free bits among the first `remaining`. */
  method LowestFree(w: Word, remaining: nat) returns (bit: Option<nat>)
    requires remaining <= 64
    ensures bit.Some? ==> bit.value < remaining && !w[bit.value] && forall b :: 0 <= b < bit.value ==> w[b]
    ensures bit.None? ==> forall b :: 0 <= b < remaining ==> w[b]
  {
    for b := 0 to remaining
      invariant forall c :: 0 <= c < b ==> w[c]
    {
      if !w[b] { return Some(b); }
    }
    return None;
  }

  /** Bits agree with the counters, every word below `nextWord` is full, and nothing is set beyond the layout. */
  ghost predicate BitmapOk(bits: seq<bool>, count: nat, nextWord: nat, highWater: nat, live: nat, peak: nat, started: bool) {
    && count <= |bits|
    && (forall i :: 0 <= i < |bits| && bits[i] ==> i < highWater)
    && (forall i :: 0 <= i < count && i < 64 * nextWord ==> bits[i])
    && nextWord <= Words(count)
    && live == Count(bits)
    && live <= peak <= count && highWater <= count
    && (!started ==> forall i :: 0 <= i < |bits| ==> !bits[i])
  }

  lemma TakeKeeps(bits: seq<bool>, count: nat, nextWord: nat, highWater: nat, live: nat, peak: nat, started: bool, index: nat)
    requires BitmapOk(bits, count, nextWord, highWater, live, peak, started)
    requires index < count && !bits[index]
    ensures BitmapOk(bits[index := true], count, nextWord, if highWater < index + 1 then index + 1 else highWater,
                     live + 1, if peak < live + 1 then live + 1 else peak, true)
  {
    var high := if highWater < index + 1 then index + 1 else highWater;
    CountUpdate(bits, index, true);
    CountBound(bits[index := true], high);
  }

  /** Before the first allocation the bitmap is empty, so any layout suits it. */
  lemma LayoutGrows(bits: seq<bool>, count: nat, nextWord: nat, highWater: nat, live: nat, peak: nat, total: nat)
    requires BitmapOk(bits, count, nextWord, highWater, live, peak, false)
    requires count <= total <= |bits|
    ensures BitmapOk(bits, total, 0, highWater, live, peak, false)
    ensures forall i :: 0 <= i < |bits| ==> !bits[i]
  {
  }

  lemma LiveMeansStarted(bits: seq<bool>, count: nat, nextWord: nat, highWater: nat, live: nat, peak: nat, started: bool, i: nat)
    requires BitmapOk(bits, count, nextWord, highWater, live, peak, started) && i < count && bits[i]
    ensures started
  {
  }

  lemma DropKeeps(bits: seq<bool>, count: nat, nextWord: nat, highWater: nat, live: nat, peak: nat, index: nat)
    requires BitmapOk(bits, count, nextWord, highWater, live, peak, true)
    requires index < count && bits[index]
    ensures 0 < live
    ensures BitmapOk(bits[index := false], count, if nextWord < index / 64 then nextWord else index / 64, highWater, live - 1, peak, true)
  {
    CountUpdate(bits, index, false);
  }

  class FrameAllocator {
    const words: array<Word>
    const regions: array<Region>
    var regionCount: nat
    var frameCount: nat
    var nextWord: nat
    var highWater: nat
    var allocatedFrames: nat
    var peakLive: nat
    var started: bool

    ghost function Regions(): seq<Region>
      reads this, regions
      requires regionCount <= regions.Length
    {
      regions[..regionCount]
    }

    ghost function Bits(): seq<bool>
      reads this, words
    {
      Flat(words[..])
    }

    ghost predicate Shape()
      reads this, regions
    {
      && regions.Length == MAX_USABLE_REGIONS && regionCount <= MAX_USABLE_REGIONS
      && Layout(Regions(), frameCount) && frameCount <= 64 * words.Length
    }

    ghost predicate Valid()
      reads this, words, regions
    {
      Shape() && BitmapOk(Bits(), frameCount, nextWord, highWater, allocatedFrames, peakLive, started)
    }

    /** The frames under management and the frames currently handed out. */
    ghost function ManagedFrames(): set<nat>
      reads this, regions
      requires Shape()
    {
      Managed(Regions())
    }

    ghost function LiveFrames(): set<nat>
      reads this, words, regions
      requires Shape()
    {
      Live(Regions(), frameCount, Bits())
    }

    constructor (capacity: nat)
      ensures Valid() && fresh(words) && fresh(regions) && words.Length == capacity
      ensures ManagedFrames() == {} && LiveFrames() == {} && !started
    {
      words := new Word[capacity](_ => EMPTY_WORD);
      regions := new Region[MAX_USABLE_REGIONS](_ => Region(0, 0, 0));
      regionCount, frameCount, nextWord, highWater := 0, 0, 0, 0;
      allocatedFrames, peakLive, started := 0, 0, false;
      new;
      CountBound(Bits(), 0);
    }

    /** The region of a frame number; by the layout there always is one. */
    method FindByIndex(index: nat) returns (k: nat)
      requires Shape() && index < frameCount
      ensures k < regionCount && HasIndex(regions[k], index)
    {
      k := 0;
      ghost var target := RegionOf(Regions(), frameCount, index);
      while !HasIndex(regions[k], index)
        invariant k <= target
        decreases target - k
      {
        k := k + 1;
      }
    }

    method FindByAddress(frame: nat) returns (k: Option<nat>)
      requires Shape()
      ensures k.Some? ==> k.value < regionCount && HasAddress(regions[k.value], frame)
      ensures k.None? ==> forall j :: 0 <= j < regionCount ==> !HasAddress(regions[j], frame)
    {
      for j := 0 to regionCount
        invariant forall l :: 0 <= l < j ==> !HasAddress(regions[l], frame)
      {
        if HasAddress(regions[j], frame) { return Some(j); }
      }
      return None;
    }

    /** Advance `nextWord` past full words to the first clear bit. */
    method SeekFree() returns (index: Option<nat>)
      requires Valid()
      modifies this`nextWord
      ensures Valid()
      ensures index.Some? ==> index.value < frameCount && index.value / 64 == nextWord && !Bits()[index.value]
                              && forall i :: 0 <= i < index.value ==> Bits()[i]
      ensures index.None? ==> forall i :: 0 <= i < frameCount ==> Bits()[i]
    {
      hide Layout, Count;
      while nextWord < Words(frameCount)
        invariant Valid()
        decreases Words(frameCount) - nextWord
      {
        var base := nextWord * 64;
        var remaining := if frameCount - base < 64 then frameCount - base else 64;
        var bit := LowestFree(words[nextWord], remaining);
        if bit.None? {
          WordFull(words[..], frameCount, nextWord);
          nextWord := nextWord + 1;
        } else {
          WordFullBelow(words[..], frameCount, nextWord, bit.value);
          return Some(base + bit.value);
        }
      }
      return None;
    }

    /** The lowest free managed frame, or `None` exactly when every managed frame is live. */
    method AllocFrame() returns (frame: Option<nat>)
      requires Valid()
      modifies this, words
      ensures Valid() && ManagedFrames() == old(ManagedFrames())
      ensures frame.Some? ==>
                && frame.value in old(ManagedFrames()) - old(LiveFrames())
                && (forall a :: a in old(ManagedFrames()) - old(LiveFrames()) ==> frame.value <= a)
                && LiveFrames() == old(LiveFrames()) + {frame.value}
                && started
      ensures frame.None? ==> old(LiveFrames()) == ManagedFrames() && LiveFrames() == old(LiveFrames())
    {
      hide Layout, Count, AddressOf, Flat;
      ghost var rs, n, bits := Regions(), frameCount, Bits();
      var index := SeekFree();
      if index.None? { AllLive(rs, n, bits); return None; }
      LowestIsLeast(rs, n, bits, index.value);
      var address := Take(index.value);
      return Some(address);
    }

    /** Set the bit of a free frame. */
    method Take(index: nat) returns (frame: nat)
      requires Valid() && index < frameCount && index / 64 == nextWord && !Bits()[index]
      modifies this, words
      ensures Valid() && started && Regions() == old(Regions()) && frameCount == old(frameCount)
      ensures Bits() == old(Bits())[index := true]
      ensures frame == AddressOf(Regions(), frameCount, index)
    {
      hide Layout, Count, AddressOf, BitmapOk, Flat;
      var k := FindByIndex(index);
      frame := AddressIn(regions[k], index);
      AddressOfIn(Regions(), frameCount, index, k);
      FlatUpdate(words[..], index, true);
      TakeKeeps(Bits(), frameCount, nextWord, highWater, allocatedFrames, peakLive, started, index);
      ghost var updated := words[..][index / 64 := words[..][index / 64][index % 64 := true]];
      words[nextWord] := words[nextWord][index % 64 := true];
      assert words[..] == updated;
      highWater := if highWater < index + 1 then index + 1 else highWater;
      allocatedFrames := allocatedFrames + 1;
      peakLive := if peakLive < allocatedFrames then allocatedFrames else peakLive;
      started := true;
    }

    /** The number of a live frame; anything else, including page zero and unaligned addresses, has none. */
    method LiveIndex(frame: nat) returns (index: Option<nat>)
      requires Valid()
      ensures index.Some? ==> index.value < frameCount && Bits()[index.value]
                              && AddressOf(Regions(), frameCount, index.value) == frame
                              && frame in LiveFrames()
      ensures index.None? ==> frame !in LiveFrames()
    {
      hide Layout, Count, Flat;
      LiveInRegion(Regions(), frameCount, Bits(), frame);
      if frame == 0 || frame % PAGE_SIZE != 0 { return None; }
      var k := FindByAddress(frame);
      if k.None? { return None; }
      var i := IndexIn(regions[k.value], frame);
      InLayout(Regions(), frameCount, k.value);
      IndexInExact(regions[k.value], frame);
      AddressOfIn(Regions(), frameCount, i, k.value);
      LiveAt(Regions(), frameCount, Bits(), i);
      BitAt(words[..], i);
      if words[i / 64][i % 64] { return Some(i); }
      return None;
    }

    method ContainsLive(frame: nat) returns (live: bool)
      requires Valid()
      ensures live == (frame in LiveFrames())
    {
      var index := LiveIndex(frame);
      return index.Some?;
    }

    /** Release a live frame after the caller prepared it; a refused or unprepared release changes nothing. */
    method FreeFrameWith(frame: nat, prepared: bool) returns (freed: bool)
      requires Valid()
      modifies this, words
      ensures Valid() && ManagedFrames() == old(ManagedFrames())
      ensures freed == (frame in old(LiveFrames()) && prepared)
      ensures LiveFrames() == if freed then old(LiveFrames()) - {frame} else old(LiveFrames())
      ensures nextWord <= old(nextWord) && started == old(started)
    {
      hide Layout, Count, AddressOf, Managed, Live, BitmapOk, Flat;
      var found := LiveIndex(frame);
      if found.None? || !prepared { return false; }
      var index := found.value;
      LiveMeansStarted(Bits(), frameCount, nextWord, highWater, allocatedFrames, peakLive, started, index);
      LiveUpdate(Regions(), frameCount, Bits(), index, false);
      FlatUpdate(words[..], index, false);
      DropKeeps(Bits(), frameCount, nextWord, highWater, allocatedFrames, peakLive, index);
      ghost var updated := words[..][index / 64 := words[..][index / 64][index % 64 := false]];
      words[index / 64] := words[index / 64][index % 64 := false];
      assert words[..] == updated;
      allocatedFrames := allocatedFrames - 1;
      nextWord := if nextWord < index / 64 then nextWord else index / 64;
      return true;
    }

    /** Shift later regions up and put the new one in its place. */
    method InsertSorted(r: Region) returns (slot: nat)
      requires regions.Length == MAX_USABLE_REGIONS && regionCount < MAX_USABLE_REGIONS
      modifies regions
      ensures slot <= regionCount
      ensures regions[..regionCount + 1] == Inserted(old(Regions()), slot, r)
      ensures 0 < slot ==> old(Regions())[slot - 1].start <= r.start
      ensures slot < regionCount ==> r.start < old(Regions())[slot].start
    {
      ghost var rs := Regions();
      slot := regionCount;
      while slot > 0 && regions[slot - 1].start > r.start
        invariant slot <= regionCount
        invariant forall k :: 0 <= k < slot ==> regions[k] == rs[k]
        invariant forall k :: slot < k <= regionCount ==> regions[k] == rs[k - 1]
        invariant slot < regionCount ==> r.start < rs[slot].start
      {
        regions[slot] := regions[slot - 1];
        slot := slot - 1;
      }
      regions[slot] := r;
      InsertedIs(regions[..regionCount + 1], rs, slot, r);
    }

    /** Recompute the first frame number of every region. */
    method Renumber(n: nat)
      requires n <= regions.Length
      modifies regions
      ensures regions[..n] == Numbered(old(regions[..n]))
    {
      ghost var rs := regions[..n];
      var first := 0;
      for k := 0 to n
        invariant first == FramesBefore(rs, k)
        invariant forall j :: k <= j < n ==> regions[j] == rs[j]
        invariant forall j :: 0 <= j < k ==> regions[j] == rs[j].(first := FramesBefore(rs, j))
      {
        var r := regions[k];
        regions[k] := r.(first := first);
        first := first + Frames(r);
      }
      assert regions[..n] == Numbered(rs);
    }

    method OverlapsRegion(start: nat, end: nat) returns (overlaps: bool)
      requires regionCount <= regions.Length
      ensures overlaps == Overlaps(Regions(), start, end)
    {
      for k := 0 to regionCount
        invariant forall j :: 0 <= j < k ==> !(start < regions[j].end && regions[j].start < end)
      {
        if start < regions[k].end && regions[k].start < end {
          assert start < Regions()[k].end && Regions()[k].start < end;
          return true;
        }
      }
      return false;
    }

    /** Whether a usable region can be taken over: the layout is still open, the region does not wrap,
        and either it holds no whole page or it fits and overlaps nothing. */
    ghost predicate Admissible(r: MemoryRegion)
      reads this, regions
      requires Shape()
    {
      var start, end := FirstPage(r), LastPage(r);
      !started && r.start + r.size < U64_LIMIT
      && (start >= end
          || (regionCount < MAX_USABLE_REGIONS && frameCount + (end - start) / PAGE_SIZE <= 64 * words.Length
              && !Overlaps(Regions(), start, end)))
    }

    method Admit(r: MemoryRegion) returns (admitted: bool)
      requires Shape()
      ensures admitted == Admissible(r)
    {
      hide Layout, Overlaps;
      if started || r.start + r.size >= U64_LIMIT { return false; }
      var start, end := FirstPage(r), LastPage(r);
      if start >= end { return true; }
      var overlaps := OverlapsRegion(start, end);
      return regionCount != MAX_USABLE_REGIONS && frameCount + (end - start) / PAGE_SIZE <= 64 * words.Length && !overlaps;
    }

    /** Take over every whole page of a usable region, or refuse and change nothing. */
    method AddRegion(r: MemoryRegion) returns (ok: bool)
      requires Valid()
      modifies this, regions
      ensures Valid()
      ensures ok == (!r.usable || old(Admissible(r)))
      ensures !ok || !r.usable ==> ManagedFrames() == old(ManagedFrames()) && LiveFrames() == old(LiveFrames())
      ensures ok && r.usable ==>
                LiveFrames() == {} && ManagedFrames() == old(ManagedFrames()) + Pages(FirstPage(r), LastPage(r))
    {
      hide Layout, Count, Flat, Overlaps, AlignDown, AlignUp, Managed, Live;
      ok := true;
      if r.usable {
        ok := Admit(r);
        if ok {
          var region := Region(FirstPage(r), LastPage(r), 0);
          if region.start < region.end {
            Place(region);
          } else {
            NothingLive(Regions(), frameCount, Bits());
          }
        }
      }
    }

    /** Insert a disjoint region while nothing was ever allocated. */
    method Place(r: Region)
      requires Valid() && !started && regionCount < MAX_USABLE_REGIONS
      requires RegionOk(r) && !Overlaps(Regions(), r.start, r.end)
      requires frameCount + Frames(r) <= 64 * words.Length
      modifies this, regions
      ensures Valid() && LiveFrames() == {} && !started
      ensures ManagedFrames() == old(ManagedFrames()) + Pages(r.start, r.end)
    {
      hide InPlace, Pages, Layout, Count, Flat, Overlaps, Inserted, Numbered, Managed, Live, Frames, RegionOk, AddressOf, BitmapOk;
      ghost var rs, n := Regions(), frameCount;
      LayoutGrows(Bits(), n, nextWord, highWater, allocatedFrames, peakLive, n + Frames(r));
      var slot := InsertAndNumber(r);
      InsertLayout(rs, n, slot, r);
      regionCount := regionCount + 1;
      frameCount := frameCount + Frames(r);
      nextWord := 0;
      assert Regions() == Numbered(Inserted(rs, slot, r));
      NothingLive(Regions(), frameCount, Bits());
    }

    method InsertAndNumber(r: Region) returns (slot: nat)
      requires Shape() && regionCount < MAX_USABLE_REGIONS
      modifies regions
      ensures slot <= regionCount && InPlace(old(Regions()), slot, r)
      ensures regions[..regionCount + 1] == Numbered(Inserted(old(Regions()), slot, r))
    {
      hide Inserted, Numbered, Layout;
      SortedStarts(Regions(), frameCount);
      slot := InsertSorted(r);
      Renumber(regionCount + 1);
    }

    /** The self-check the kernel runs; in every reachable state it succeeds. */
    method IsConsistent() returns (ok: bool)
      requires Valid()
      ensures ok
    {
      CountBound(Bits(), highWater);
      if regionCount > MAX_USABLE_REGIONS || frameCount > words.Length * 64 || highWater > frameCount
         || allocatedFrames > highWater || peakLive < allocatedFrames || peakLive > frameCount
         || (allocatedFrames != 0 && !started) {
        return false;
      }
      var used := Words(frameCount);
      var clear := TailClear(used);
      var laid := RegionsNumbered();
      var ones := TotalOnes(used);
      return nextWord <= used && clear && laid && ones == allocatedFrames;
    }

    method TailClear(used: nat) returns (ok: bool)
      requires Valid() && used == Words(frameCount)
      ensures ok
    {
      hide Layout, Count;
      for w := used to words.Length {
        forall b | 0 <= b < 64 ensures !words[w][b] { BitAt(words[..], 64 * w + b); assert !Bits()[64 * w + b]; }
        if exists b :: 0 <= b < 64 && words[w][b] { return false; }
      }
      var tail := frameCount % 64;
      if tail != 0 {
        var last := words[used - 1];
        forall b | tail <= b < 64 ensures !last[b] {
          BitAt(words[..], 64 * (used - 1) + b);
          assert !Bits()[64 * (used - 1) + b];
        }
        if exists b :: tail <= b < 64 && last[b] { return false; }
      }
      return true;
    }

    method RegionsNumbered() returns (ok: bool)
      requires Valid()
      ensures ok
    {
      hide Count, Flat;
      var first, end := 0, PAGE_SIZE;
      ghost var rs := Regions();
      for k := 0 to regionCount
        invariant end == (if k == 0 then PAGE_SIZE else rs[k - 1].end)
        invariant first == (if k == regionCount then frameCount else rs[k].first)
      {
        var r := regions[k];
        assert r == rs[k] && RegionOk(rs[k]);
        if k > 0 { assert Before(rs[k - 1], rs[k]); }
        if r.start < end || r.start >= r.end || r.first != first || r.start % PAGE_SIZE != 0 || r.end % PAGE_SIZE != 0 {
          return false;
        }
        first := first + Frames(r);
        end := r.end;
        if k + 1 < regionCount { assert rs[k].first + Frames(rs[k]) == rs[k + 1].first; }
      }
      return first == frameCount;
    }

    method TotalOnes(used: nat) returns (ones: nat)
      requires Valid() && used == Words(frameCount)
      ensures ones == allocatedFrames
    {
      hide Layout;
      ones := 0;
      for w := 0 to used
        invariant ones == Count(Flat(words[..w]))
      {
        var n := CountOnes(words[w]);
        assert words[..w + 1] == words[..w] + [words[w]];
        FlatSnoc(words[..w], words[w]);
        CountConcat(Flat(words[..w]), words[w]);
        ones := ones + n;
      }
      assert words[..][..used] == words[..used];
      CountPrefix(words[..], used);
    }
  }

  /** First and last (exclusive) whole page of a boot region; page zero is never used. */
  function FirstPage(r: MemoryRegion): nat { AlignUp(if r.start < PAGE_SIZE then PAGE_SIZE else r.start) }

  function LastPage(r: MemoryRegion): nat { AlignDown(r.start + r.size) }

  lemma SortedStarts(rs: seq<Region>, count: nat)
    requires Layout(rs, count)
    ensures forall j, k :: 0 <= j < k < |rs| ==> rs[j].start <= rs[k].start
  {
    forall j, k | 0 <= j < k < |rs| ensures rs[j].start <= rs[k].start {
      assert RegionOk(rs[j]) && Before(rs[j], rs[k]);
    }
  }

  lemma NothingLive(rs: seq<Region>, count: nat, bits: seq<bool>)
    requires Layout(rs, count) && count <= |bits|
    ensures (forall i :: 0 <= i < |bits| ==> !bits[i]) ==> Live(rs, count, bits) == {}
  {
  }

  lemma LiveInRegion(rs: seq<Region>, count: nat, bits: seq<bool>, a: nat)
    requires Layout(rs, count) && count <= |bits|
    ensures a in Live(rs, count, bits) ==>
              a in Managed(rs) && a != 0 && a % PAGE_SIZE == 0 && exists k :: 0 <= k < |rs| && HasAddress(rs[k], a)
  {
    if a in Live(rs, count, bits) {
      var i :| 0 <= i < count && bits[i] && AddressOf(rs, count, i) == a;
      AddressOfAligned(rs, count, i);
      AddressManaged(rs, count, i);
    }
  }

  lemma InLayout(rs: seq<Region>, count: nat, k: nat)
    requires Layout(rs, count) && k < |rs|
    ensures RegionOk(rs[k])
  {
  }

  lemma BitAt(words: seq<Word>, i: nat)
    requires i < 64 * |words|
    ensures Flat(words)[i] == words[i / 64][i % 64]
  {
  }

  lemma WordFull(words: seq<Word>, count: nat, w: nat)
    requires count <= 64 * |words| && 64 * w < count
    requires forall i :: 0 <= i < count && i < 64 * w ==> Flat(words)[i]
    requires forall b :: 0 <= b < 64 && 64 * w + b < count ==> words[w][b]
    ensures forall i :: 0 <= i < count && i < 64 * (w + 1) ==> Flat(words)[i]
  {
    forall i | 0 <= i < count && i < 64 * (w + 1) ensures Flat(words)[i] {
      if 64 * w <= i { assert words[w][i - 64 * w]; }
    }
  }

  lemma WordFullBelow(words: seq<Word>, count: nat, w: nat, bit: nat)
    requires count <= 64 * |words| && 64 * w + bit < count && bit < 64
    requires forall i :: 0 <= i < count && i < 64 * w ==> Flat(words)[i]
    requires forall b :: 0 <= b < bit ==> words[w][b]
    ensures forall i :: 0 <= i < 64 * w + bit ==> Flat(words)[i]
    ensures Flat(words)[64 * w + bit] == words[w][bit]
  {
    forall i | 0 <= i < 64 * w + bit ensures Flat(words)[i] {
      if 64 * w <= i { assert words[w][i - 64 * w]; }
    }
  }

  /** Marking the first clear bit takes the least free frame. */
  lemma LowestIsLeast(rs: seq<Region>, n: nat, bits: seq<bool>, index: nat)
    requires Layout(rs, n) && index < n <= |bits|
    requires !bits[index] && forall i :: 0 <= i < index ==> bits[i]
    ensures AddressOf(rs, n, index) in Managed(rs) - Live(rs, n, bits)
    ensures forall a :: a in Managed(rs) - Live(rs, n, bits) ==> AddressOf(rs, n, index) <= a
    ensures Live(rs, n, bits[index := true]) == Live(rs, n, bits) + {AddressOf(rs, n, index)}
  {
    hide AddressOf, Layout, Managed;
    LiveAt(rs, n, bits, index);
    AddressManaged(rs, n, index);
    LiveUpdate(rs, n, bits, index, true);
    forall a | a in Managed(rs) - Live(rs, n, bits) ensures AddressOf(rs, n, index) <= a {
      ManagedHasIndex(rs, n, a);
      var i :| 0 <= i < n && AddressOf(rs, n, i) == a;
      if index < i { AddressOfMonotone(rs, n, index, i); }
    }
  }

  /** When every bit is set, every managed frame is live. */
  lemma AllLive(rs: seq<Region>, n: nat, bits: seq<bool>)
    requires Layout(rs, n) && n <= |bits|
    requires forall i :: 0 <= i < n ==> bits[i]
    ensures Live(rs, n, bits) == Managed(rs)
  {
    hide AddressOf, Layout, Managed;
    forall a | a in Managed(rs) ensures a in Live(rs, n, bits) { ManagedHasIndex(rs, n, a); }
    forall a | a in Live(rs, n, bits) ensures a in Managed(rs) {
      var i :| 0 <= i < n && AddressOf(rs, n, i) == a;
      AddressManaged(rs, n, i);
    }
  }
}
