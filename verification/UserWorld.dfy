/** Every user address space at once: the invariant that ties page tables, grants and pins together, and what it
    means for the page walk. */
module UserWorld {
  import opened Wrappers
  import opened PageTable
  import opened UserPlaces
  import A = Authority

  /** `at` and `place` say which frame holds which table or page of which space; they are bookkeeping of the proof. */
  datatype World = World(tables: Tables, authority: A.Authority, at: map<Place, nat>, place: map<nat, Place>, kernel: nat)

  function TableEntry(child: nat): Entry { Entry(true, true, true, 0, 0, false, child, 0, false) }

  function LeafEntry(frame: nat, writable: bool, executable: bool): Entry {
    Entry(true, writable, true, 0, 0, false, frame, 0, !executable)
  }

  /** A user leaf for this frame that is not both writable and executable. */
  predicate IsLeaf(e: Entry, frame: nat) { e == LeafEntry(frame, e.writable, !e.nx) && !(e.writable && !e.nx) }

  // ----- grants and places -----

  /** Pinned pages and user tables have a place; unmapped pages and kernel frames have none. */
  predicate Placed(h: A.Holding) { h.mappedAt != 0 || (h.grant.kind == A.Table && h.grant.owner != A.KERNEL) }

  ghost predicate Frames(w: World) {
    && A.Ok(w.authority)
    && (forall f :: f in w.tables <==> f in w.authority.frames && w.authority.frames[f].grant.kind == A.Table)
    && (forall f :: f in w.place <==> f in w.authority.frames && Placed(w.authority.frames[f]))
    && (forall f :: f in w.authority.frames ==> w.authority.frames[f].grant.owner < w.authority.nextOwner)
  }

  ghost predicate PlaceOk(w: World, f: nat)
    requires f in w.place
  {
    f in w.authority.frames &&
    var h, p := w.authority.frames[f], w.place[f];
    && Shaped(p) && p.owner == h.grant.owner != A.KERNEL
    && (p.level == 0 <==> h.grant.kind == A.User)
    && (p.level == 0 ==> h.mappedAt == Va(p.number))
    && p in w.at && w.at[p] == f
  }

  ghost predicate Places(w: World) {
    && (forall f :: f in w.place ==> PlaceOk(w, f))
    && (forall p :: p in w.at ==> w.at[p] in w.place && w.place[w.at[p]] == p)
    && (forall p :: p in w.at && p.level < 4 ==> Up(p) in w.at)
  }

  // ----- entries -----

  /** A user slot holds exactly the edge to the place below it, or nothing; the rest of a root is the kernel's. */
  ghost predicate SlotOk(w: World, p: Place, s: nat)
    requires p in w.at && 1 <= p.level <= 4 && s < ENTRIES
  {
    && w.at[p] in w.tables && w.kernel in w.tables
    && var e := w.tables[w.at[p]][s];
       if p.level == 4 && s != USER_SLOT then e == w.tables[w.kernel][s]
       else if Child(p, s) !in w.at then e == ZERO
       else if p.level > 1 then e == TableEntry(w.at[Child(p, s)])
       else IsLeaf(e, w.at[Child(p, s)])
  }

  ghost predicate Entries(w: World) {
    forall p, s :: p in w.at && 1 <= p.level <= 4 && 0 <= s < ENTRIES ==> SlotOk(w, p, s)
  }

  // ----- the kernel's part -----

  ghost predicate KernelTable(w: World, t: nat) {
    t in w.tables && t in w.authority.frames && w.authority.frames[t].grant.owner == A.KERNEL
  }

  predicate NoUser(row: Table) { forall s :: 0 <= s < ENTRIES ==> !row[s].user }

  ghost predicate KernelOk(w: World) {
    && KernelTable(w, w.kernel) && Mapped(w.tables, w.kernel, 4)
    && (forall t :: t in TreeSet(w.tables, w.kernel, 4) ==> KernelTable(w, t))
    && (forall t :: KernelTable(w, t) ==> NoUser(w.tables[t]))
    && (w.tables[w.kernel][USER_SLOT] == ZERO || (w.tables[w.kernel][USER_SLOT].present && w.at == map[]))
  }

  /** The kernel's own way down to the 4 KiB alias of `f` passes through its own tables only. */
  ghost predicate AliasPath(w: World, table: nat, level: nat, f: nat)
    requires 1 <= level <= 4
    decreases level
  {
    KernelTable(w, table) &&
    if level == 1 then table != w.kernel
    else
      var e := w.tables[table][Index(f, level)];
      e.present && !e.user && !e.huge && AliasPath(w, e.address, level - 1, f)
  }

  /** The table holding the alias. */
  ghost function AliasTable(w: World, table: nat, level: nat, f: nat): (t: nat)
    requires 1 <= level <= 4 && AliasPath(w, table, level, f)
    ensures KernelTable(w, t) && t != w.kernel
    decreases level
  {
    if level == 1 then table else AliasTable(w, w.tables[table][Index(f, level)].address, level - 1, f)
  }

  /** The table that holds the alias of `f`. */
  ghost function AliasHome(w: World, f: nat): nat {
    if AliasPath(w, w.kernel, 4, f) then AliasTable(w, w.kernel, 4, f) else w.kernel
  }

  /** The user leaf of a mapped page. */
  ghost predicate UserLeaf(w: World, f: nat, e: Entry) {
    && f in w.place && w.place[f].level == 0 && Up(w.place[f]) in w.at && w.at[Up(w.place[f])] in w.tables
    && w.tables[w.at[Up(w.place[f])]][SlotOf(w.place[f])] == e
  }

  /** The alias of a frame is a non-executable supervisor page of the same frame, writable unless the frame is mapped
      by a leaf that is not. */
  ghost predicate AliasOk(w: World, f: nat) {
    AliasPath(w, w.kernel, 4, f) && AliasEntryOk(w, f, w.tables[AliasTable(w, w.kernel, 4, f)][Index(f, 1)])
  }

  ghost predicate AliasEntryOk(w: World, f: nat, e: Entry) {
    && e.present && !e.user && e.nx && e.address == f
    && (f !in w.place || w.place[f].level != 0 ==> e.writable)
    && (forall u :: UserLeaf(w, f, u) ==> e.writable == u.writable)
  }

  ghost predicate Aliases(w: World) { forall f :: f in w.authority.managed ==> AliasOk(w, f) }

  /** The invariant of every reachable state. */
  ghost predicate Inv(w: World) { Frames(w) && Places(w) && Entries(w) && KernelOk(w) && Aliases(w) }

  // ----- facts, one at a time -----

  lemma PlaceFacts(w: World, p: Place)
    requires Frames(w) && Places(w) && p in w.at
    ensures Shaped(p) && p.owner != A.KERNEL && w.at[p] in w.authority.frames && w.at[p] in w.authority.managed
    ensures w.at[p] in w.place && w.place[w.at[p]] == p
    ensures w.authority.frames[w.at[p]].grant.owner == p.owner && w.authority.frames[w.at[p]].grant.address == w.at[p]
    ensures p.level == 0 ==> w.authority.frames[w.at[p]].grant.kind == A.User && w.authority.frames[w.at[p]].mappedAt == Va(p.number)
    ensures p.level > 0 ==> w.authority.frames[w.at[p]].grant.kind == A.Table && w.at[p] in w.tables
                            && w.authority.frames[w.at[p]].mappedAt == 0 && !KernelTable(w, w.at[p])
    ensures p.level < 4 ==> Up(p) in w.at
  {
    assert PlaceOk(w, w.at[p]);
  }

  /** Every ancestor of a place is in use. */
  lemma {:induction false} AncestorIn(w: World, q: Place, level: nat)
    requires Places(w) && q in w.at && q.level <= level <= 4
    ensures Ancestor(q, level) in w.at
    decreases level - q.level
  {
    hide PlaceOk;
    if q.level < level { AncestorIn(w, Up(q), level); }
  }

  /** The two maps are inverse to each other. */
  lemma AtInjective(w: World, p: Place, q: Place)
    requires Places(w) && p in w.at && q in w.at && w.at[p] == w.at[q]
    ensures p == q
  {
  }

  // ----- what the walk sees -----

  lemma {:induction false} UserMapped(w: World, p: Place)
    requires Frames(w) && Places(w) && Entries(w) && KernelOk(w) && p in w.at && 1 <= p.level <= 4
    ensures Mapped(w.tables, w.at[p], p.level)
    decreases p.level
  {
    hide Frames, Places, KernelOk, TreeSet, Entries;
    PlaceFacts(w, p);
    KernelMapped(w);
    forall s | 0 <= s < ENTRIES && Branch(p.level, w.tables[w.at[p]][s])
      ensures Mapped(w.tables, w.tables[w.at[p]][s].address, p.level - 1)
    {
      SlotFact(w, p, s);
      if !(p.level == 4 && s != USER_SLOT) { UserMapped(w, Child(p, s)); }
    }
  }

  lemma SlotFact(w: World, p: Place, s: nat)
    requires Entries(w) && p in w.at && 1 <= p.level <= 4 && s < ENTRIES
    ensures SlotOk(w, p, s)
  {
  }

  lemma KernelMapped(w: World)
    requires KernelOk(w)
    ensures Mapped(w.tables, w.kernel, 4) && w.kernel in w.tables
  {
  }

  /** The space sees at `va` what the kernel sees. */
  ghost predicate SharesView(w: World, owner: nat, va: nat) {
    && Root(owner) in w.at && Mapped(w.tables, w.at[Root(owner)], 4) && Mapped(w.tables, w.kernel, 4)
    && Walk(w.tables, w.at[Root(owner)], 4, va) == Walk(w.tables, w.kernel, 4, va)
  }

  /** Outside the user slot a space sees what the kernel sees. */
  lemma SharedWalk(w: World, owner: nat, va: nat)
    requires Inv(w) && Root(owner) in w.at && Index(va, 4) != USER_SLOT
    ensures SharesView(w, owner, va)
  {
    hide Frames, Places, KernelOk, TreeSet, Aliases, Entries;
    UserMapped(w, Root(owner));
    KernelMapped(w);
    SlotFact(w, Root(owner), Index(va, 4));
  }

  /** The place met at `level` on the way to `va`. */
  function OnWay(owner: nat, va: nat, level: nat): Place
    requires level <= 4
  {
    Ancestor(Place(owner, 0, PageOf(va)), level)
  }

  lemma OnWayIs(owner: nat, va: nat)
    ensures OnWay(owner, va, 0) == Place(owner, 0, PageOf(va))
    ensures OnWay(owner, va, 1) == Place(owner, 1, PageOf(va) / ENTRIES) == Up(OnWay(owner, va, 0))
    ensures OnWay(owner, va, 2) == Place(owner, 2, PageOf(va) / ENTRIES / ENTRIES) == Up(OnWay(owner, va, 1))
    ensures OnWay(owner, va, 3) == Place(owner, 3, 0) == Up(OnWay(owner, va, 2))
    ensures OnWay(owner, va, 4) == Root(owner)
    ensures Child(OnWay(owner, va, 1), Index(va, 1)) == OnWay(owner, va, 0)
    ensures Child(OnWay(owner, va, 2), Index(va, 2)) == OnWay(owner, va, 1)
    ensures Child(OnWay(owner, va, 3), Index(va, 3)) == OnWay(owner, va, 2)
  {
    PageSlots(va);
    PageLimit(va);
    var q := Place(owner, 0, PageOf(va));
    assert Up(q) == Place(owner, 1, PageOf(va) / ENTRIES);
    assert Up(Up(q)) == Place(owner, 2, PageOf(va) / ENTRIES / ENTRIES);
    assert Index(va, 3) < 512;
    assert Up(Up(Up(q))) == Place(owner, 3, 0);
    AncestorUp(q, 0);
    AncestorUp(q, 1);
    AncestorUp(q, 2);
    AncestorUp(q, 3);
  }

  /** From the table at `p` on the way to `va`, the walk finds the mapped page with the rights of its leaf, or nothing. */
  ghost predicate SeesPage(w: World, p: Place, va: nat) {
    && p in w.at && 1 <= p.level <= 4 && Mapped(w.tables, w.at[p], p.level)
    && FoundPage(w, Place(p.owner, 0, PageOf(va)), Walk(w.tables, w.at[p], p.level, va))
  }

  ghost predicate FoundPage(w: World, page: Place, found: Option<Leaf>) {
    if page !in w.at then found.None?
    else found.Some? && UserLeaf(w, w.at[page], found.value.entry) && IsLeaf(found.value.entry, w.at[page])
         && found.value == Leaf(found.value.entry, 1, found.value.entry.writable, true, found.value.entry.nx)
  }

  lemma {:induction false} WalkBelow(w: World, owner: nat, va: nat, level: nat)
    requires Frames(w) && Places(w) && Entries(w) && KernelOk(w)
    requires 1 <= level <= 3 && OnWay(owner, va, level) in w.at
    ensures SeesPage(w, OnWay(owner, va, level), va)
    decreases level
  {
    hide Frames, Places, KernelOk, TreeSet, Entries, OnWay;
    var p := OnWay(owner, va, level);
    OnWayIs(owner, va);
    UserMapped(w, p);
    SlotFact(w, p, Index(va, level));
    var page := OnWay(owner, va, 0);
    if Child(p, Index(va, level)) in w.at {
      if level > 1 {
        WalkBelow(w, owner, va, level - 1);
      } else {
        PlaceFacts(w, page);
        LeafHere(w, owner, va);
      }
    } else if page in w.at {
      UpIn(w, page);
      UpIn(w, OnWay(owner, va, 1));
    }
  }

  lemma UpIn(w: World, p: Place)
    requires Places(w) && (p.level < 4)
    ensures p in w.at ==> Up(p) in w.at
  {
  }

  lemma LeafHere(w: World, owner: nat, va: nat)
    requires Frames(w) && Places(w) && OnWay(owner, va, 0) in w.at
    ensures OnWay(owner, va, 1) in w.at && w.at[OnWay(owner, va, 1)] in w.tables
    ensures UserLeaf(w, w.at[OnWay(owner, va, 0)], w.tables[w.at[OnWay(owner, va, 1)]][Index(va, 1)])
  {
    hide OnWay;
    OnWayIs(owner, va);
    var page := OnWay(owner, va, 0);
    PlaceFacts(w, page);
    PlaceFacts(w, Up(page));
    PageSlots(va);
  }

  /** What a space sees in its user slot: exactly its mapped pages, each with the rights of its leaf. */
  lemma UserWalk(w: World, owner: nat, va: nat)
    requires Inv(w) && Root(owner) in w.at && Index(va, 4) == USER_SLOT
    ensures SeesPage(w, Root(owner), va)
  {
    hide Frames, Places, KernelOk, TreeSet, Aliases, Entries, OnWay;
    OnWayIs(owner, va);
    UserMapped(w, Root(owner));
    SlotFact(w, Root(owner), USER_SLOT);
    var page := OnWay(owner, va, 0);
    if OnWay(owner, va, 3) in w.at {
      WalkBelow(w, owner, va, 3);
    } else if page in w.at {
      UpIn(w, page);
      UpIn(w, OnWay(owner, va, 1));
      UpIn(w, OnWay(owner, va, 2));
    }
  }

  /** Nothing in the kernel's tables is reachable from user mode. */
  lemma {:induction false} KernelWalk(w: World, t: nat, level: nat, va: nat)
    requires KernelOk(w) && Mapped(w.tables, t, level) && TreeSet(w.tables, t, level) <= TreeSet(w.tables, w.kernel, 4)
    ensures var leaf := Walk(w.tables, t, level, va);
            leaf.Some? ==> !leaf.value.user
    decreases level
  {
    TreeSetInTables(w.tables, t, level);
    var s := Index(va, level);
    assert KernelTable(w, t);
    if Branch(level, w.tables[t][s]) {
      ChildInTree(w.tables, t, level, s);
      KernelWalk(w, w.tables[t][s].address, level - 1, va);
    }
  }

  /** The page that user mode reaches at `va`, if any. */
  ghost predicate Reaches(w: World, owner: nat, va: nat, leaf: Leaf) {
    && Root(owner) in w.at && Mapped(w.tables, w.at[Root(owner)], 4)
    && Walk(w.tables, w.at[Root(owner)], 4, va) == Some(leaf) && leaf.user
  }

  /** A live user frame of `owner`, pinned at exactly the page of `va`, no page table, and aliased by the kernel with
      the same right to write. */
  ghost predicate OwnPage(w: World, owner: nat, va: nat, leaf: Leaf) {
    var f := leaf.entry.address;
    && Index(va, 4) == USER_SLOT && leaf.level == 1 && !(leaf.writable && !leaf.nx)
    && f in w.authority.frames && w.authority.frames[f].grant.kind == A.User
    && w.authority.frames[f].grant.owner == owner && w.authority.frames[f].mappedAt == Va(PageOf(va))
    && f !in w.tables && AliasedAs(w, f, leaf.writable)
  }

  ghost predicate AliasedAs(w: World, f: nat, writable: bool) {
    && AliasPath(w, w.kernel, 4, f)
    && var e := w.tables[AliasTable(w, w.kernel, 4, f)][Index(f, 1)];
       e.present && !e.user && e.nx && e.address == f && e.writable == writable
  }

  /** Isolation. Whatever user mode can reach in any space is a page of a live user frame granted to that space and
      pinned at exactly that address, it is not writable and executable, and the kernel's alias of the frame is
      writable exactly when the page is. */
  lemma Isolation(w: World, owner: nat, va: nat, leaf: Leaf)
    requires Inv(w) && Reaches(w, owner, va, leaf)
    ensures OwnPage(w, owner, va, leaf)
  {
    hide Frames, Places, KernelOk, TreeSet, Entries, UserLeaf, AliasPath, AliasTable;
    if Index(va, 4) == USER_SLOT {
      UserWalk(w, owner, va);
      var page := Place(owner, 0, PageOf(va));
      PlaceFacts(w, page);
      NotATable(w, w.at[page]);
      assert AliasOk(w, w.at[page]);
    } else {
      SharedWalk(w, owner, va);
      KernelWalk(w, w.kernel, 4, va);
    }
  }

  lemma NotATable(w: World, f: nat)
    requires Frames(w) && f in w.authority.frames && w.authority.frames[f].grant.kind == A.User
    ensures f !in w.tables
  {
  }

  /** No frame is mapped twice, in one space or in two. */
  lemma MappedOnce(w: World, owner: nat, va: nat, leaf: Leaf, other: nat, va': nat, leaf': Leaf)
    requires Inv(w) && Reaches(w, owner, va, leaf) && Reaches(w, other, va', leaf')
    requires leaf.entry.address == leaf'.entry.address
    ensures owner == other && PageOf(va) == PageOf(va')
  {
    hide Inv, Reaches, AliasedAs;
    Isolation(w, owner, va, leaf);
    Isolation(w, other, va', leaf');
  }
}
