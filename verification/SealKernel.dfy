/** Sealing the bootstrap map: every page of usable memory gets a 4 KiB leaf, then every leaf outside the text becomes
    non-executable. The result is a kernel map under which user address spaces are safe from the start. */
module SealKernel {
  import opened Wrappers
  import opened PageTable
  import opened CloneTable
  import opened SplitTable
  import opened ProtectPage
  import opened SealTable
  import opened UserPlaces
  import opened UserWorld
  import opened UserViews
  import A = Authority

  /** One entry of the boot memory map. */
  datatype Region = Region(start: nat, size: nat, usable: bool)

  function First(r: Region): nat {
    var start := if r.start < PAGE then PAGE else r.start;
    (start + PAGE - 1) / PAGE * PAGE
  }

  function End(r: Region): nat { (r.start + r.size) / PAGE * PAGE }

  predicate InRegion(r: Region, va: nat) { r.usable && First(r) <= va < End(r) }

  // ----- 4 KiB leaves for usable memory -----

  /** The first address of the next 2 MiB. */
  function NextChunk(address: nat): nat { (address / Span(2) + 1) * Span(2) }

  /** An address goes where it went, and can be written if it could. */
  predicate ViewKept(a: Option<View>, b: Option<View>) {
    a.Some? == b.Some? && (a.Some? ==> b.value.target == a.value.target && (a.value.writable ==> b.value.writable))
  }

  /** What protecting pages keeps of the map it started from. */
  ghost predicate Kept(T: Tables, t: Tables, root: nat) {
    && Structure(T, t, root) && Mapped(T, root, 4) && Mapped(t, root, 4)
    && forall va: nat :: ViewKept(PageView(T, root, 4, va), PageView(t, root, 4, va))
  }

  lemma KeptSelf(t: Tables, root: nat)
    requires Mapped(t, root, 4)
    ensures Kept(t, t, root)
  {
  }

  lemma ProtectKeeps(T: Tables, t: Tables, u: Tables, root: nat, address: nat)
    requires Kept(T, t, root) && OnlyTightened(t, u, root, address, true, false) && Deepened(t, u, root, address)
    ensures Kept(T, u, root)
  {
    hide Structure, PageView, SameSlots, Deep;
    StructureTransitive(T, t, u, root);
    forall va: nat ensures ViewKept(PageView(T, root, 4, va), PageView(u, root, 4, va)) {
      assert ViewKept(PageView(T, root, 4, va), PageView(t, root, 4, va));
    }
  }

  /** Addresses of one 2 MiB chunk share their tables. */
  lemma SameChunk(t: Tables, root: nat, address: nat, va: nat)
    requires Mapped(t, root, 4) && Deep(t, root, 4, address) && address <= va < NextChunk(address)
    ensures Deep(t, root, 4, va)
  {
    assert va / Span(2) == address / Span(2);
    assert va / Span(3) == va / Span(2) / 512 && address / Span(3) == address / Span(2) / 512;
    assert va / Span(4) == va / Span(3) / 512 && address / Span(4) == address / Span(3) / 512;
    SameTables(t, root, 4, address, va);
  }

  lemma {:induction false} SameTables(t: Tables, root: nat, level: nat, address: nat, va: nat)
    requires Mapped(t, root, level) && Deep(t, root, level, address)
    requires forall l :: 2 <= l <= level ==> Index(va, l) == Index(address, l)
    ensures Deep(t, root, level, va)
    decreases level
  {
    if level > 1 { SameTables(t, t[root][Index(address, level)].address, level - 1, address, va); }
  }

  /** Every address from `from` up to `to` is mapped, if at all, by a 4 KiB leaf. */
  ghost predicate DeepRange(t: Tables, root: nat, from: nat, to: nat) {
    Mapped(t, root, 4) && forall va: nat :: from <= va < to ==> Deep(t, root, 4, va)
  }

  lemma DeepFurther(t: Tables, u: Tables, root: nat, from: nat, address: nat)
    requires DeepRange(t, root, from, address) && Deepened(t, u, root, address)
    ensures DeepRange(u, root, from, NextChunk(address))
  {
    hide Deep, NextChunk, Supervisor;
    forall va: nat | from <= va < NextChunk(address) ensures Deep(u, root, 4, va) {
      if va < address { assert Deep(t, root, 4, va); } else { SameChunk(u, root, address, va); }
    }
  }

  lemma ChunkAhead(address: nat)
    ensures address < NextChunk(address)
  {
  }

  /** The tables are a tree of well-formed leaves that keeps the map it started from. */
  ghost predicate Steady(memory: TableMemory, root: nat, T: Tables)
    reads memory
  {
    memory.Valid() && Tree(memory.tables, root, 4) && LeavesOk(memory.tables, root, 4) && Kept(T, memory.tables, root)
  }

  /** Protect one page of every 2 MiB of a region. Each call splits what is huge there, so afterwards the whole region
      has 4 KiB leaves; what was reached before, in this region or another, stays reached. An error is that of page `at`. */
  method ProtectRegion(memory: TableMemory, root: nat, r: Region, ready: bool, ghost T: Tables)
    returns (error: Option<PagingError>, ghost at: nat)
    requires Steady(memory, root, T)
    modifies memory
    ensures Steady(memory, root, T)
    ensures Structure(old(memory.tables), memory.tables, root)
    ensures error.None? ==> DeepRange(memory.tables, root, First(r), End(r))
    ensures error.Some? ==> First(r) <= at < End(r) && Refuses(memory.tables, memory.free, root, at, ready, error)
  {
    hide Tree, LeavesOk, Kept, Structure, Deep, OnlyTightened, Deepened, NextChunk, First, End, Outcome, SplitsNeeded, DeepRange;
    var address := First(r);
    at := address;
    StructureSelf(memory.tables, root);
    NoRange(memory.tables, root, address);
    while address < End(r)
      invariant Steady(memory, root, T) && Structure(old(memory.tables), memory.tables, root)
      invariant DeepRange(memory.tables, root, First(r), address) && First(r) <= address
      decreases End(r) - address
    {
      ghost var t := memory.tables;
      at := address;
      TreeMapped(t, root, 4);
      error := ProtectKernelPage(memory, root, address, true, false, ready);
      if error.Some? { return; }
      ProtectKeeps(T, t, memory.tables, root, address);
      DeepFurther(t, memory.tables, root, First(r), address);
      DeepenedStructure(t, memory.tables, root, address);
      StructureTransitive(old(memory.tables), t, memory.tables, root);
      ChunkAhead(address);
      address := NextChunk(address);
    }
    RangeWithin(memory.tables, root, First(r), address, End(r));
    return None, at;
  }

  /** Protecting the page at `address` is refused in this state. */
  ghost predicate Refuses(t: Tables, free: set<nat>, root: nat, address: nat, ready: bool, error: Option<PagingError>) {
    Mapped(t, root, 4) && error.Some? && error == Outcome(t, free, root, address, true, false, ready)
  }

  lemma StructureSelf(t: Tables, root: nat)
    requires Tree(t, root, 4)
    ensures Structure(t, t, root)
  {
  }

  lemma DeepenedStructure(t: Tables, u: Tables, root: nat, address: nat)
    requires Deepened(t, u, root, address)
    ensures Structure(t, u, root)
  {
  }

  lemma NoRange(t: Tables, root: nat, at: nat)
    requires Tree(t, root, 4)
    ensures DeepRange(t, root, at, at)
  {
    TreeMapped(t, root, 4);
  }

  lemma RangeWithin(t: Tables, root: nat, from: nat, to: nat, end: nat)
    requires DeepRange(t, root, from, to) && end <= to
    ensures DeepRange(t, root, from, end)
  {
  }

  // ----- the whole seal -----

  /** Every page of the first `n` usable regions has a 4 KiB leaf. */
  ghost predicate Small(t: Tables, root: nat, regions: seq<Region>, n: nat) {
    n <= |regions| && forall i :: 0 <= i < n && regions[i].usable ==> DeepRange(t, root, First(regions[i]), End(regions[i]))
  }

  lemma SmallStays(t: Tables, u: Tables, root: nat, regions: seq<Region>, n: nat)
    requires Small(t, root, regions, n) && Structure(t, u, root)
    ensures Small(u, root, regions, n)
  {
    hide Deep, First, End, Supervisor;
  }

  /** `u` is the sealed form of the protected map `P`, which keeps the original map `T`. */
  ghost predicate SealedFrom(T: Tables, P: Tables, u: Tables, root: nat, regions: seq<Region>, text: Text) {
    && Kept(T, P, root) && Small(P, root, regions, |regions|)
    && Tree(P, root, 4) && Tree(u, root, 4) && u.Keys == P.Keys && TreeSet(u, root, 4) == TreeSet(P, root, 4)
    && Agree(P, u, P.Keys - TreeSet(P, root, 4)) && Sealed(P, u, root, 4, text)
  }

  /** Protecting page `at` of a usable region was refused; every address still sees what it saw. */
  ghost predicate PageRefused(T: Tables, t: Tables, free: set<nat>, root: nat, regions: seq<Region>, at: nat, error: Option<PagingError>) {
    Kept(T, t, root) && Refuses(t, free, root, at, true, error) && exists i :: 0 <= i < |regions| && InRegion(regions[i], at)
  }

  /** The protected map `P` breaks the text policy. */
  ghost predicate TextRefused(T: Tables, P: Tables, root: nat, regions: seq<Region>, text: Text) {
    Kept(T, P, root) && Small(P, root, regions, |regions|) && Mapped(P, root, 4) && !Sealable(P, root, 4, text)
  }

  /** Seal the kernel's map: 4 KiB leaves for all usable memory, then the text policy. `P` is the map between the two. A
      refusal comes from one page that cannot be protected or from a leaf that breaks the text policy. */
  method SealKernelMappings(memory: TableMemory, root: nat, regions: seq<Region>, text: Text, ready: bool)
    returns (error: Option<PagingError>, ghost P: Tables, ghost at: nat)
    requires memory.Valid() && Tree(memory.tables, root, 4) && LeavesOk(memory.tables, root, 4)
    requires forall s :: 0 <= s < ENTRIES ==> !memory.tables[root][s].huge
    modifies memory
    ensures error.None? ==> SealedFrom(old(memory.tables), P, memory.tables, root, regions, text)
    ensures !ready ==> error == Some(InvalidAddress) && memory.tables == old(memory.tables)
    ensures ready && error.Some? ==>
              || PageRefused(old(memory.tables), memory.tables, memory.free, root, regions, at, error)
              || (error == Some(InvalidAddress) && TextRefused(old(memory.tables), P, root, regions, text))
  {
    hide LeavesOk, Kept, Structure, Deep, Small, Tree, TreeSet, Sealed, Sealable, DeepRange;
    P, at := memory.tables, 0;
    if !ready { return Some(InvalidAddress), P, at; }
    ghost var T := memory.tables;
    TreeMapped(T, root, 4);
    KeptSelf(T, root);
    NoneSmall(T, root, regions);
    for i := 0 to |regions|
      invariant Steady(memory, root, T) && Small(memory.tables, root, regions, i)
    {
      if regions[i].usable {
        ghost var t := memory.tables;
        error, at := ProtectRegion(memory, root, regions[i], ready, T);
        if error.Some? {
          assert InRegion(regions[i], at);
          return error, P, at;
        }
        SmallStays(t, memory.tables, root, regions, i);
      }
      SmallNext(memory.tables, root, regions, i);
    }
    P := memory.tables;
    KeptRoot(T, P, root);
    TreeMapped(P, root, 4);
    var ok := SealTable.SealTable(memory, root, 4, text);
    if !ok { return Some(InvalidAddress), P, at; }
    return None, P, at;
  }

  lemma NoneSmall(t: Tables, root: nat, regions: seq<Region>)
    ensures Small(t, root, regions, 0)
  {
  }

  lemma SmallNext(t: Tables, root: nat, regions: seq<Region>, i: nat)
    requires i < |regions| && Small(t, root, regions, i)
    requires regions[i].usable ==> DeepRange(t, root, First(regions[i]), End(regions[i]))
    ensures Small(t, root, regions, i + 1)
  {
    hide DeepRange;
  }

  lemma KeptRoot(T: Tables, t: Tables, root: nat)
    requires Kept(T, t, root)
    ensures root in T && root in t && t[root] == T[root]
  {
    hide PageView, Deep;
  }

  // ----- what the seal establishes -----

  /** The boot map shows every managed frame at its own address, writable, outside the text and inside usable memory. */
  ghost predicate Identity(T: Tables, root: nat, managed: set<nat>, regions: seq<Region>, text: Text) {
    Mapped(T, root, 4) &&
    forall f :: f in managed ==>
      && ShownAt(PageView(T, root, 4, f), f) && (f + PAGE <= text.start || text.end <= f)
      && exists i :: 0 <= i < |regions| && InRegion(regions[i], f)
  }

  predicate ShownAt(v: Option<View>, f: nat) { v.Some? && v.value.target == f && v.value.writable }

  /** An entry's address field starts at bit 12. */
  predicate Encoded(t: Tables) { forall x, s :: x in t && 0 <= s < ENTRIES ==> t[x][s].address % PAGE == 0 }

  function Booted(u: Tables, a: A.Authority, root: nat): World { World(u, a, map[], map[], root) }

  /** Before the first space every table is the kernel's. */
  lemma AllKernel(u: Tables, a: A.Authority, root: nat, t: nat)
    requires Frames(Booted(u, a, root)) && t in u
    ensures KernelTable(Booted(u, a, root), t)
  {
    hide A.Ok;
  }

  /** Sealing only sets no-execute bits. */
  lemma {:induction false} SealedRow(P: Tables, u: Tables, root: nat, level: nat, text: Text, x: nat, s: nat)
    requires Mapped(P, root, level) && Mapped(u, root, level) && Sealed(P, u, root, level, text)
    requires x in TreeSet(P, root, level) && s < ENTRIES && x in P && x in u
    ensures u[x][s] == P[x][s].(nx := u[x][s].nx)
    decreases level
  {
    if x == root {
      assert SlotSealed(P, u, root, level, s, text);
    } else {
      var k :| 0 <= k < ENTRIES && x in ChildSet(P, root, level, k);
      assert SlotSealed(P, u, root, level, k, text);
      SealedRow(P, u, P[root][k].address, level - 1, text, x, s);
    }
  }

  lemma SealedSupervisor(P: Tables, u: Tables, root: nat, text: Text)
    requires Mapped(P, root, 4) && Mapped(u, root, 4) && Sealed(P, u, root, 4, text) && Supervisor(P) && u.Keys == P.Keys
    requires Agree(P, u, P.Keys - TreeSet(P, root, 4))
    ensures Supervisor(u)
  {
    hide TreeSet, Sealed;
    forall x, s | x in u && 0 <= s < ENTRIES ensures !u[x][s].user {
      if x in TreeSet(P, root, 4) { SealedRow(P, u, root, 4, text, x, s); }
    }
  }

  /** Where a walk through tables ends before and after sealing. */
  lemma {:induction false} SealedDeep(P: Tables, u: Tables, root: nat, level: nat, text: Text, va: nat)
    requires Mapped(P, root, level) && Mapped(u, root, level) && Sealed(P, u, root, level, text) && Deep(P, root, level, va)
    ensures Deep(u, root, level, va)
    ensures var a, b := Walk(P, root, level, va), Walk(u, root, level, va);
            && a.Some? == b.Some?
            && (a.Some? ==> a.value.level == 1 && b.value.level == 1 && SealLeaf(a.value.entry, 1, text) == Some(b.value.entry)
                            && b.value.writable == a.value.writable)
    decreases level
  {
    var s := Index(va, level);
    assert SlotSealed(P, u, root, level, s, text);
    if level > 1 { SealedDeep(P, u, P[root][s].address, level - 1, text, va); }
  }

  /** The kernel's way to `f` is an alias path, and the walk ends in its entry. */
  ghost predicate AliasView(w: World, t: nat, level: nat, f: nat) {
    && 1 <= level <= 4 && Mapped(w.tables, t, level) && AliasPath(w, t, level, f)
    && var e, leaf := w.tables[AliasTable(w, t, level, f)][Index(f, 1)], Walk(w.tables, t, level, f);
       leaf.Some? == e.present && (leaf.Some? ==> leaf.value.entry == e && (leaf.value.writable ==> e.writable))
  }

  lemma {:induction false} DeepAlias(w: World, t: nat, level: nat, f: nat)
    requires Mapped(w.tables, t, level) && Deep(w.tables, t, level, f) && level <= 3
    requires w.kernel !in TreeSet(w.tables, t, level) && Supervisor(w.tables)
    requires forall x :: x in w.tables ==> KernelTable(w, x)
    ensures AliasView(w, t, level, f)
    decreases level
  {
    hide TreeSet;
    TreeSetInTables(w.tables, t, level);
    if level > 1 {
      ChildInTree(w.tables, t, level, Index(f, level));
      ChildSetIs(w.tables, t, level, Index(f, level));
      DeepAlias(w, w.tables[t][Index(f, level)].address, level - 1, f);
    }
  }

  lemma ChildSetIs(t: Tables, root: nat, level: nat, s: nat)
    requires Mapped(t, root, level) && s < ENTRIES && Branch(level, t[root][s])
    ensures TreeSet(t, t[root][s].address, level - 1) == ChildSet(t, root, level, s)
  {
  }

  lemma RootAlias(w: World, f: nat)
    requires Tree(w.tables, w.kernel, 4) && Mapped(w.tables, w.kernel, 4) && Deep(w.tables, w.kernel, 4, f) && Supervisor(w.tables)
    requires !w.tables[w.kernel][Index(f, 4)].huge && forall x :: x in w.tables ==> KernelTable(w, x)
    ensures AliasView(w, w.kernel, 4, f)
  {
    hide TreeSet, Tree;
    var s := Index(f, 4);
    TreeParts(w.tables, w.kernel, 4, s, s);
    DeepAlias(w, w.tables[w.kernel][s].address, 3, f);
  }

  /** The alias of one managed frame after the seal. */
  lemma SealedAlias(T: Tables, P: Tables, w: World, regions: seq<Region>, text: Text, f: nat)
    requires SealedFrom(T, P, w.tables, w.kernel, regions, text) && Identity(T, w.kernel, w.authority.managed, regions, text)
    requires Supervisor(w.tables) && Encoded(w.tables) && (forall x :: x in w.tables ==> KernelTable(w, x)) && w.place == map[]
    requires f in w.authority.managed && f % PAGE == 0 && !w.tables[w.kernel][Index(f, 4)].huge
    ensures AliasOk(w, f)
  {
    hide TreeSet, Tree, Walk, Deep, Structure, Sealed, AliasPath, AliasTable;
    var root := w.kernel;
    TreeMapped(P, root, 4);
    TreeMapped(w.tables, root, 4);
    var i :| 0 <= i < |regions| && InRegion(regions[i], f);
    assert DeepRange(P, root, First(regions[i]), End(regions[i]));
    SealedDeep(P, w.tables, root, 4, text, f);
    RootAlias(w, f);
    assert ViewKept(PageView(T, root, 4, f), PageView(P, root, 4, f));
    ShownLeaf(Walk(P, root, 4, f), PageView(P, root, 4, f), f, text);
  }

  lemma ShownLeaf(leaf: Option<Leaf>, v: Option<View>, f: nat, text: Text)
    requires leaf.Some? ==> leaf.value.level == 1
    requires v == ViewOf(leaf, f) && ShownAt(v, f) && f % PAGE == 0 && (f + PAGE <= text.start || text.end <= f)
    ensures leaf.Some? && leaf.value.writable && leaf.value.entry.address - leaf.value.entry.address % PAGE == f
    ensures SealLeaf(leaf.value.entry, 1, text) == Some(leaf.value.entry.(nx := true))
  {
  }

  /** Sealing a boot map that shows every managed frame at its own address, writable and outside the text, establishes the
      invariant of the user address spaces before the first one exists, with no leaf writable and executable. */
  lemma SealEstablishes(T: Tables, P: Tables, u: Tables, root: nat, regions: seq<Region>, text: Text, a: A.Authority)
    requires SealedFrom(T, P, u, root, regions, text) && Identity(T, root, a.managed, regions, text)
    requires Supervisor(T) && T[root][USER_SLOT] == ZERO && (forall s :: 0 <= s < ENTRIES ==> !T[root][s].huge)
    requires Frames(Booted(u, a, root)) && Encoded(u)
    ensures Inv(Booted(u, a, root)) && KernelSealed(Booted(u, a, root))
  {
    hide TreeSet, Tree, Walk, Deep, Sealed, PageView, AliasOk, Encoded, Identity, Small, Frames;
    var w := Booted(u, a, root);
    TreeMapped(P, root, 4);
    TreeMapped(u, root, 4);
    SealedSupervisor(P, u, root, text);
    TreeSetInTables(u, root, 4);
    forall x | x in u ensures KernelTable(w, x) { AllKernel(u, a, root, x); }
    RootRow(P, u, root, text);
    forall f | f in a.managed ensures AliasOk(w, f) {
      ManagedAligned(w, f);
      SealedAlias(T, P, w, regions, text, f);
    }
    forall va: nat ensures NotBoth(Walk(u, root, 4, va)) { SealedWalk(P, u, root, 4, text, va); }
  }

  lemma RootRow(P: Tables, u: Tables, root: nat, text: Text)
    requires Mapped(P, root, 4) && Mapped(u, root, 4) && Sealed(P, u, root, 4, text)
    ensures forall s :: 0 <= s < ENTRIES ==> u[root][s].huge == P[root][s].huge
    ensures !P[root][USER_SLOT].present ==> u[root][USER_SLOT] == P[root][USER_SLOT]
  {
    forall s | 0 <= s < ENTRIES ensures u[root][s].huge == P[root][s].huge { assert SlotSealed(P, u, root, 4, s, text); }
    assert SlotSealed(P, u, root, 4, USER_SLOT, text);
  }

  lemma ManagedAligned(w: World, f: nat)
    requires Frames(w) && f in w.authority.managed
    ensures f % PAGE == 0
  {
  }

  // ----- the cloned boot map -----

  /** The tables of the clone alone. */
  ghost function Own(tables: Tables, root: nat): Tables
    requires Mapped(tables, root, 4)
  {
    map t | t in TreeSet(tables, root, 4) && t in tables :: tables[t]
  }

  lemma OwnAgrees(tables: Tables, root: nat)
    requires Mapped(tables, root, 4)
    ensures Agree(tables, Own(tables, root), TreeSet(tables, root, 4))
  {
  }

  /** A clone of an identity map is a map to seal: supervisor tables only, nothing at the user slot, no huge entry in the
      root, and every address mapped to itself or not at all. */
  lemma CloneReady(tables: Tables, owned: set<nat>, free: set<nat>, T: Tables, O: set<nat>, F: set<nat>, source: nat, root: nat, va: nat)
    requires Built(tables, owned, free, T, O, F, source, root, 4, ENTRIES)
    requires Followed(T, source, 4) && IdentityTree(T, source, 4, 0)
    ensures Mapped(tables, root, 4)
    ensures var B := Own(tables, root);
            && Tree(B, root, 4) && Mapped(B, root, 4) && Supervisor(B)
            && B[root][USER_SLOT] == ZERO && (forall s :: 0 <= s < ENTRIES ==> !B[root][s].huge)
            && (va < ENTRIES * Span(4) && PageView(B, root, 4, va).Some? ==> PageView(B, root, 4, va).value.target == va)
  {
    hide TreeSet, Tree, IdentityTree, Walk, Followed;
    CloneMeaning(tables, owned, free, T, O, F, source, root, va);
    CloneUser(tables, owned, free, T, O, F, source, root);
    CloneRoot(tables, owned, free, T, O, F, source, root);
    OwnAgrees(tables, root);
    TreeFrame(tables, Own(tables, root), root, 4);
    TreeSetInTables(tables, root, 4);
    WalkFrame(tables, Own(tables, root), root, 4, va);
  }

  lemma CloneUser(tables: Tables, owned: set<nat>, free: set<nat>, T: Tables, O: set<nat>, F: set<nat>, source: nat, root: nat)
    requires Built(tables, owned, free, T, O, F, source, root, 4, ENTRIES)
    ensures Mapped(tables, root, 4) && Supervisor(Own(tables, root))
  {
    hide TreeSet, Tree, SlotCloned;
    TreeMapped(tables, root, 4);
    assert CloneOf(T, source, tables, root, 4);
    forall x, s | x in Own(tables, root) && 0 <= s < ENTRIES ensures !Own(tables, root)[x][s].user {
      CloneHasNoUser(T, source, tables, root, 4, x, s);
    }
  }

  lemma CloneRoot(tables: Tables, owned: set<nat>, free: set<nat>, T: Tables, O: set<nat>, F: set<nat>, source: nat, root: nat)
    requires Built(tables, owned, free, T, O, F, source, root, 4, ENTRIES)
    requires Followed(T, source, 4) && IdentityTree(T, source, 4, 0)
    ensures Mapped(tables, root, 4) && root in tables
    ensures tables[root][USER_SLOT] == ZERO && forall s :: 0 <= s < ENTRIES ==> !tables[root][s].huge
  {
    hide TreeSet, Tree;
    TreeMapped(tables, root, 4);
    assert IdentityBelow(T, source, 4, 0, USER_SLOT) && SlotCloned(T, source, tables, root, 4, USER_SLOT);
    forall s | 0 <= s < ENTRIES ensures !tables[root][s].huge {
      assert IdentityBelow(T, source, 4, 0, s) && SlotCloned(T, source, tables, root, 4, s);
    }
  }
}
