/** Mapping one user page: how much memory it needs, when it is refused, and what it changes. */
module UserMap {
  import opened Wrappers
  import opened PageTable
  import opened UserPlaces
  import opened UserWorld
  import opened UserSteps
  import opened UserViews
  import opened UserTrees
  import A = Authority
  import P = ProtectPage

  // ----- room for tables -----

  /** `n` more tables for `owner` are within every limit. */
  ghost predicate Room(a: A.Authority, owner: nat, n: nat) {
    n == 0 ||
    (&& |A.Owned(a, owner)| + n <= A.USER_FRAME_LIMIT && |a.frames| + n <= A.UserShare(a.capacity) && |a.frames| + n <= a.capacity
     && a.nextGeneration + n <= A.U64_MAX && n <= |a.managed - a.frames.Keys|)
  }

  lemma RoomStep(a: A.Authority, owner: nat, n: nat)
    requires A.Ok(a) && owner != A.KERNEL
    ensures Room(a, owner, n + 1) <==> A.CanAlloc(a, owner) && Room(A.Alloc(a, owner, A.Table).0, owner, n)
  {
    hide A.Ok, A.Owned, A.Alloc, A.CanAlloc, Room;
    CanAllocIs(a, owner, n);
    if A.CanAlloc(a, owner) { RoomAfter(a, owner, n); }
  }

  lemma CanAllocIs(a: A.Authority, owner: nat, n: nat)
    requires owner != A.KERNEL
    ensures Room(a, owner, n + 1) ==> A.CanAlloc(a, owner)
  {
    hide A.Owned;
    var free := a.managed - a.frames.Keys;
    if free == {} { assert |free| == 0; }
  }

  lemma RoomAfter(a: A.Authority, owner: nat, n: nat)
    requires A.Ok(a) && owner != A.KERNEL && A.CanAlloc(a, owner)
    ensures Room(a, owner, n + 1) <==> Room(A.Alloc(a, owner, A.Table).0, owner, n)
  {
    hide A.Ok, A.Owned, A.Alloc, A.IsLeast;
    A.AllocCounters(a, owner, A.Table);
    A.AllocOwned(a, owner, A.Table);
    var (b, g) := A.Alloc(a, owner, A.Table);
    var f := g.value.address;
    assert b.managed - b.frames.Keys == (a.managed - a.frames.Keys) - {f};
    assert |b.managed - b.frames.Keys| == |a.managed - a.frames.Keys| - 1;
    assert |b.frames| == |b.frames.Keys| == |a.frames.Keys| + 1;
    OwnedIn(a, owner);
    assert |A.Owned(b, owner)| == |A.Owned(a, owner)| + 1;
  }

  lemma OwnedIn(a: A.Authority, owner: nat)
    ensures A.Owned(a, owner) <= a.frames.Keys
  {
  }

  /** Tables missing on the way to `va`, from the table at `level` down. */
  ghost function Missing(w: World, owner: nat, va: nat, level: nat): nat
    requires level <= 3
  {
    if level == 0 then 0 else (if OnWay(owner, va, level) in w.at then 0 else 1) + Missing(w, owner, va, level - 1)
  }

  // ----- the outcome -----

  /** A space as handed out: the root it was created with and the grant for that root. */
  datatype Space = Space(root: nat, grant: A.Grant, owner: nat)

  /** The space came from a creation in the past: its grant is that of its root for as long as it is live. */
  ghost predicate Issued(w: World, space: Space) {
    && space.grant.address == space.root && space.grant.owner == space.owner != A.KERNEL && space.grant.kind == A.Table
    && space.grant.generation < w.authority.nextGeneration
    && (A.IsLive(w.authority, space.grant) ==> Root(space.owner) in w.at && w.at[Root(space.owner)] == space.root)
  }

  predicate Mappable(va: nat, frame: nat, writable: bool, executable: bool) {
    va % PAGE == 0 && frame % PAGE == 0 && frame != 0 && frame < 0x10_0000_0000_0000 && !(writable && executable) && InUserRange(va)
  }

  /** The result of a mapping, decided by the state before it. */
  ghost function MapOutcome(w: World, active: nat, space: Space, va: nat, grant: A.Grant, writable: bool, executable: bool, nx: bool): Option<P.PagingError> {
    if active == space.root then Some(P.ActiveAddressSpace)
    else if !A.IsLive(w.authority, space.grant) || !A.CanBind(w.authority, grant, space.owner) then Some(P.InvalidAddress)
    else if !Mappable(va, grant.address, writable, executable) || (!executable && !nx) then Some(P.InvalidAddress)
    else if Place(space.owner, 0, PageOf(va)) in w.at then Some(P.AddressInUse)
    else if !Room(w.authority, space.owner, Missing(w, space.owner, va, 3)) then Some(P.OutOfMemory)
    else None
  }

  /** Nothing but the generation counter moved. */
  predicate SameBut(w: World, v: World) {
    v == w.(authority := w.authority.(nextGeneration := v.authority.nextGeneration))
    && v.authority.nextGeneration >= w.authority.nextGeneration
  }

  /** Between the start of a mapping and its last step: every page of every space is as it was, and the only new
      frames are tables of this owner. */
  ghost predicate Grown(w: World, v: World, owner: nat, page: Place) {
    && LeavesSame(w, v, page) && RootsSame(w, v) && KernelWritten(w, v, {}) && (page in v.at <==> page in w.at)
    && FramesGrow(w.authority, v.authority, owner)
  }

  ghost predicate FramesGrow(a: A.Authority, b: A.Authority, owner: nat) {
    && (forall f :: f in a.frames ==> f in b.frames && b.frames[f] == a.frames[f])
    && (forall f :: f in b.frames && f !in a.frames ==>
          b.frames[f].grant.owner == owner && b.frames[f].grant.kind == A.Table && b.frames[f].grant.generation >= a.nextGeneration)
    && b.nextGeneration >= a.nextGeneration && b.managed == a.managed
  }

  lemma GrownSelf(w: World, owner: nat, page: Place)
    requires KernelOk(w)
    ensures Grown(w, w, owner, page)
  {
    WrittenSelf(w);
  }

  lemma GraftGrows(w: World, v: World, c: Place, page: Place)
    requires Grown(w, v, c.owner, page) && CanGraft(v, c) && page.level == 0
    ensures Grown(w, Grafted(v, c), c.owner, page)
  {
    hide Inv, LeavesSame, RootsSame, KernelWritten, KernelSame, A.Alloc, A.CanAlloc, Linked, Frames, Places, Entries, KernelOk, Aliases, FramesGrow;
    Parts(v);
    GraftLeaves(v, c, page);
    SameLeafTransitive(w, v, Grafted(v, c), page);
    RootsTransitive(w, v, Grafted(v, c));
    GraftKernel(v, c);
    KernelRoot(v);
    SameIsWritten(v, Grafted(v, c));
    WrittenOnce(w, v, Grafted(v, c), {});
    GraftFramesGrow(v, c);
    FramesGrowMore(w.authority, v.authority, Grafted(v, c).authority, c.owner);
  }

  lemma GraftFramesGrow(v: World, c: Place)
    requires CanGraft(v, c)
    ensures FramesGrow(v.authority, Grafted(v, c).authority, c.owner)
  {
    hide Inv, A.Alloc, A.CanAlloc, Linked, Frames, Places, Entries, KernelOk, Aliases, A.Ok;
    Parts(v);
    Fresh(v, c.owner, A.Table);
  }

  lemma FramesGrowMore(a: A.Authority, b: A.Authority, c: A.Authority, owner: nat)
    requires FramesGrow(a, b, owner) && FramesGrow(b, c, owner)
    ensures FramesGrow(a, c, owner)
  {
  }

  lemma RootsTransitive(w: World, v: World, u: World)
    requires RootsSame(w, v) && RootsSame(v, u)
    ensures RootsSame(w, u)
  {
  }

  /** A table added on the way makes one fewer missing. */
  lemma {:induction false} MissingAfter(w: World, v: World, c: Place, owner: nat, va: nat, level: nat)
    requires v.at.Keys == w.at.Keys + {c} && level < c.level && level <= 3
    ensures Missing(v, owner, va, level) == Missing(w, owner, va, level)
  {
    hide OnWay;
    if level > 0 {
      OnWayIs(owner, va);
      MissingAfter(w, v, c, owner, va, level - 1);
    }
  }

  // ----- undoing a graft -----

  /** Unlinking a table just linked restores everything but the generation counter. */
  lemma UngraftUndoes(w: World, c: Place, u: World)
    requires CanGraft(w, c) && SameBut(Grafted(w, c), u) && CanUngraft(u, c)
    ensures SameBut(w, Ungrafted(u, c))
  {
    hide Entries, KernelOk, Aliases, A.Ok, A.Alloc, A.CanAlloc, A.Release, Places, Childless, Linked;
    Fresh(w, c.owner, A.Table);
    PlaceFacts(w, Up(c));
    SlotFact(w, Up(c), SlotOf(c));
    UpChild(c);
    var f := u.at[c];
    Released(u, f);
    var v := Ungrafted(u, c);
    UnlinkedRow(w.tables, f, w.at[Up(c)], SlotOf(c));
    assert v.at == w.at;
    assert v.place == w.place;
    assert v.authority.frames == w.authority.frames;
  }

  lemma UnlinkedRow(t: Tables, f: nat, x: nat, slot: nat)
    requires f !in t && x in t && slot < ENTRIES && t[x][slot] == ZERO
    ensures x in Linked(t[f := Blank()], x, slot, TableEntry(f))
    ensures Linked(Linked(t[f := Blank()], x, slot, TableEntry(f)), x, slot, ZERO) - {f} == t
  {
    var v := Linked(Linked(t[f := Blank()], x, slot, TableEntry(f)), x, slot, ZERO) - {f};
    assert v.Keys == t.Keys;
    assert v[x] == t[x];
  }

  lemma GraftIsEmpty(w: World, c: Place, u: World)
    requires CanGraft(w, c) && SameBut(Grafted(w, c), u) && Inv(u)
    ensures CanUngraft(u, c)
  {
    hide Entries, KernelOk, Aliases, A.Ok, A.Alloc, A.CanAlloc, Places, Frames;
    Parts(w);
    Parts(u);
    Fresh(w, c.owner, A.Table);
    PlaceFacts(w, Up(c));
    PlaceFacts(u, c);
    PlaceFacts(u, Up(c));
    forall s | 0 <= s < ENTRIES ensures Child(c, s) !in u.at {
      ChildUp(c, s);
      UpIn(w, Child(c, s));
    }
  }

  // ----- the whole mapping -----

  /** The request of one mapping, and the state it started from. */
  datatype Request = Request(w: World, owner: nat, va: nat, grant: A.Grant)

  function PageAt(q: Request): Place { Place(q.owner, 0, PageOf(q.va)) }

  /** There is memory for every table missing at the start. */
  ghost predicate HasRoom(q: Request) { Room(q.w.authority, q.owner, Missing(q.w, q.owner, q.va, 3)) }

  /** What is still missing below `level` is affordable exactly when all that was missing was. */
  ghost predicate Affordable(q: Request, v: World, level: nat)
    requires 1 <= level <= 4
  {
    HasRoom(q) <==> Room(v.authority, q.owner, Missing(v, q.owner, q.va, level - 1))
  }

  /** The walk of a mapping has reached the table at `level`. */
  ghost predicate Reached(q: Request, v: World, level: nat) {
    && 1 <= level <= 4 && q.owner != A.KERNEL && OnWay(q.owner, q.va, level) in v.at && Affordable(q, v, level)
    && Grown(q.w, v, q.owner, PageAt(q)) && Inv(v)
  }

  lemma ReachedStart(q: Request)
    requires Inv(q.w) && Root(q.owner) in q.w.at && q.owner != A.KERNEL
    ensures Reached(q, q.w, 4)
  {
    hide Inv, OnWay, Grown, Room, Missing, Frames, Places, Entries, KernelOk, Aliases;
    Parts(q.w);
    GrownSelf(q.w, q.owner, PageAt(q));
    OnWayIs(q.owner, q.va);
  }

  /** The next table exists already. */
  lemma ReachedDown(q: Request, v: World, level: nat)
    requires 2 <= level <= 4 && OnWay(q.owner, q.va, level - 1) in v.at && Reached(q, v, level)
    ensures Reached(q, v, level - 1)
  {
    hide Inv, OnWay, Grown, Room, HasRoom, Missing;
    MissingNext(v, q.owner, q.va, level - 1);
  }

  /** The place of the next table down, and the slot that leads to it. */
  ghost predicate NextReady(q: Request, v: World, level: nat, c: Place)
    requires 2 <= level <= 4
  {
    && Shaped(c) && c.level == level - 1 && c.owner == q.owner && Up(c) in v.at
    && Up(c) == OnWay(q.owner, q.va, level) && v.at[Up(c)] in v.tables
    && (Index(q.va, 4) == USER_SLOT ==> SlotOf(c) == Index(q.va, level))
  }

  lemma NextPlace(q: Request, v: World, level: nat)
    requires 2 <= level <= 4 && Reached(q, v, level)
    ensures NextReady(q, v, level, OnWay(q.owner, q.va, level - 1))
  {
    hide Inv, OnWay, Grown, Room, Frames, Places, Entries, KernelOk, Aliases, Missing;
    Parts(v);
    OnWayIs(q.owner, q.va);
    PageSlots(q.va);
    PlaceFacts(v, OnWay(q.owner, q.va, level));
  }

  /** The next table is missing and can be linked. */
  lemma NextGraft(q: Request, v: World, level: nat, c: Place)
    requires 2 <= level <= 4 && c == OnWay(q.owner, q.va, level - 1) && c !in v.at && Reached(q, v, level)
    requires A.CanAlloc(v.authority, q.owner)
    ensures CanGraft(v, c)
  {
    hide Inv, OnWay, Affordable, A.CanAlloc, Grown;
    NextPlace(q, v, level);
  }

  /** One table fewer is missing, and one allocation fewer is left. */
  lemma AffordableNext(q: Request, v: World, u: World, level: nat, c: Place)
    requires 2 <= level <= 4 && c == OnWay(q.owner, q.va, level - 1) && c !in v.at && c.level == level - 1
    requires q.owner != A.KERNEL && A.Ok(v.authority) && A.CanAlloc(v.authority, q.owner) && Affordable(q, v, level)
    requires u.authority == A.Alloc(v.authority, q.owner, A.Table).0 && u.at.Keys == v.at.Keys + {c}
    ensures Affordable(q, u, level - 1)
  {
    hide OnWay, Room, HasRoom, A.Ok, A.CanAlloc, A.Alloc, Missing;
    MissingAfter(v, u, c, q.owner, q.va, level - 2);
    MissingNext(v, q.owner, q.va, level - 1);
    RoomStep(v.authority, q.owner, Missing(v, q.owner, q.va, level - 2));
  }

  /** The next table was missing and has been linked. */
  lemma ReachedGraft(q: Request, v: World, level: nat, c: Place)
    requires 2 <= level <= 4 && c == OnWay(q.owner, q.va, level - 1) && c !in v.at && c.owner == q.owner && c.level == level - 1
    requires CanGraft(v, c) && Reached(q, v, level)
    ensures Reached(q, Grafted(v, c), level - 1)
  {
    hide Inv, OnWay, A.CanAlloc, A.Alloc, A.Ok, Grafted, Grown, Affordable;
    GraftKeeps(v, c);
    GraftGrows(q.w, v, c, PageAt(q));
    GraftedAuthority(v, c);
    AuthorityOk(v);
    AffordableNext(q, v, Grafted(v, c), level, c);
  }

  lemma AuthorityOk(v: World)
    requires Inv(v)
    ensures A.Ok(v.authority)
  {
    hide Places, Entries, KernelOk, Aliases;
  }

  lemma GraftedAuthority(v: World, c: Place)
    requires CanGraft(v, c)
    ensures Grafted(v, c).authority == A.Alloc(v.authority, c.owner, A.Table).0 && Grafted(v, c).at.Keys == v.at.Keys + {c}
  {
    hide Inv, A.Alloc;
  }

  /** The next table is missing and there is no memory for it: then there was none for all of them, and the page is free. */
  lemma ReachedFull(q: Request, v: World, level: nat)
    requires 2 <= level <= 4 && OnWay(q.owner, q.va, level - 1) !in v.at && Reached(q, v, level)
    requires !A.CanAlloc(v.authority, q.owner)
    ensures !HasRoom(q) && PageAt(q) !in q.w.at
  {
    hide Inv, OnWay, Room, A.CanAlloc, A.Alloc, Frames, Places, Entries, KernelOk, Aliases, Grown, Missing, HasRoom;
    MissingNext(v, q.owner, q.va, level - 1);
    var n := Missing(v, q.owner, q.va, level - 2);
    assert Missing(v, q.owner, q.va, level - 1) == n + 1;
    CanAllocIs(v.authority, q.owner, n);
    Parts(v);
    PageNeedsTables(v, q.owner, q.va, level - 1);
    GrownPage(q, v);
  }

  lemma GrownPage(q: Request, v: World)
    requires Grown(q.w, v, q.owner, PageAt(q))
    ensures PageAt(q) in v.at <==> PageAt(q) in q.w.at
  {
    hide LeavesSame, RootsSame, KernelWritten, FramesGrow;
  }

  lemma MissingNext(v: World, owner: nat, va: nat, level: nat)
    requires 1 <= level <= 3
    ensures Missing(v, owner, va, level) == Missing(v, owner, va, level - 1) + if OnWay(owner, va, level) in v.at then 0 else 1
  {
    hide OnWay;
  }

  lemma NoneMissing(v: World, owner: nat, va: nat)
    ensures Missing(v, owner, va, 0) == 0
  {
  }

  lemma PageNeedsTables(v: World, owner: nat, va: nat, level: nat)
    requires Places(v) && level <= 3 && OnWay(owner, va, level) !in v.at
    ensures Place(owner, 0, PageOf(va)) !in v.at
  {
    if Place(owner, 0, PageOf(va)) in v.at { AncestorIn(v, Place(owner, 0, PageOf(va)), level); }
  }

  /** The slot of the leaf: it is filled exactly when the page was mapped before. */
  ghost predicate LeafSlot(q: Request, v: World) {
    var t := OnWay(q.owner, q.va, 1);
    && t in v.at && v.at[t] in v.tables && t == Up(PageAt(q)) && SlotOf(PageAt(q)) == Index(q.va, 1)
    && (v.tables[v.at[t]][Index(q.va, 1)].present <==> PageAt(q) in v.at)
  }

  lemma ReachedLeaf(q: Request, v: World)
    requires Reached(q, v, 1)
    ensures LeafSlot(q, v) && (PageAt(q) in v.at <==> PageAt(q) in q.w.at)
    ensures HasRoom(q)
  {
    hide Inv, OnWay, Frames, Places, Entries, KernelOk, Aliases, Grown, Missing, HasRoom;
    Parts(v);
    OnWayIs(q.owner, q.va);
    PageSlots(q.va);
    var t := OnWay(q.owner, q.va, 1);
    PlaceFacts(v, t);
    SlotFact(v, t, Index(q.va, 1));
    GrownPage(q, v);
    NoneMissing(v, q.owner, q.va);
  }

  /** A grant that could be bound still can. */
  lemma StillBindable(q: Request, v: World, level: nat)
    requires Reached(q, v, level) && A.CanBind(q.w.authority, q.grant, q.owner)
    ensures A.CanBind(v.authority, q.grant, q.owner)
  {
    hide Inv, OnWay, Room, Missing, LeavesSame, RootsSame, KernelWritten;
  }

  /** What a successful mapping does: this page, with these rights, and nothing else in any space; in the kernel's tables
      only the write right of this frame's alias. */
  ghost predicate MappedPage(w: World, v: World, owner: nat, va: nat, f: nat, writable: bool, executable: bool) {
    var page := Place(owner, 0, PageOf(va));
    && page !in w.at && page in v.at && v.at[page] == f && UserLeaf(v, f, LeafEntry(f, writable, executable))
    && LeavesSame(w, v, page) && RootsSame(w, v) && KernelWritten(w, v, {f}) && NoTables(w, {f})
    && (forall x :: x in w.authority.frames && x != f ==> x in v.authority.frames && v.authority.frames[x] == w.authority.frames[x])
    && (forall x :: x in v.authority.frames && x !in w.authority.frames ==>
          v.authority.frames[x].grant.owner == owner && v.authority.frames[x].grant.kind == A.Table
          && v.authority.frames[x].grant.generation >= w.authority.nextGeneration)
    && f in w.authority.frames && f in v.authority.frames
    && v.authority.frames[f] == A.Holding(w.authority.frames[f].grant, Va(page.number))
    && v.authority.nextGeneration >= w.authority.nextGeneration
  }

  lemma PublishedPage(q: Request, v: World, writable: bool, executable: bool)
    requires Grown(q.w, v, q.owner, PageAt(q)) && CanPublish(v, PageAt(q), q.grant.address, writable, executable)
    requires Frames(q.w) && PageAt(q) !in q.w.at && q.grant.address in q.w.authority.frames
    ensures MappedPage(q.w, Published(v, PageAt(q), q.grant.address, writable, executable), q.owner, q.va, q.grant.address, writable, executable)
  {
    hide Inv, LeavesSame, RootsSame, KernelWritten, Frames, Places, Entries, KernelOk, Aliases, UserLeaf, A.Bind, Linked, AliasPath,
         AliasTable, AliasSet, A.CanBind;
    var u := Published(v, PageAt(q), q.grant.address, writable, executable);
    PublishLeaves(v, PageAt(q), q.grant.address, writable, executable);
    SameLeafTransitive(q.w, v, u, PageAt(q));
    RootsTransitive(q.w, v, u);
    PublishWrites(v, PageAt(q), q.grant.address, writable, executable);
    WrittenOnce(q.w, v, u, {q.grant.address});
    Parts(v);
    Bindable(v, PageAt(q), q.grant.address);
    NotATable(q.w, q.grant.address);
  }

  /** In the new state the page translates to the granted frame with exactly the requested rights. */
  ghost predicate Translates(v: World, owner: nat, va: nat, f: nat, writable: bool, executable: bool) {
    && Root(owner) in v.at && Mapped(v.tables, v.at[Root(owner)], 4)
    && Walk(v.tables, v.at[Root(owner)], 4, va) == Some(Leaf(LeafEntry(f, writable, executable), 1, writable, true, !executable))
    && Translate(v.tables, v.at[Root(owner)], va) == Some(f + va % PAGE)
  }

  /** What a mapping means for every address of every space: the mapped page translates to its frame, every other
      translation is what it was, with the same rights but for the kernel's right to write this frame. */
  lemma MapMeaning(w: World, v: World, owner: nat, va: nat, f: nat, writable: bool, executable: bool, other: nat, va': nat)
    requires Inv(w) && Inv(v) && MappedPage(w, v, owner, va, f, writable, executable) && Root(other) in w.at && f % PAGE == 0
    ensures if other == owner && Index(va', 4) == USER_SLOT && PageOf(va') == PageOf(va)
            then Translates(v, other, va', f, writable, executable) else SameTranslation(w, v, other, va', {f})
  {
    hide Inv, Walk, Mapped, KernelWritten, UserLeaf;
    assert Root(other) in v.at;
    if other == owner && Index(va', 4) == USER_SLOT && PageOf(va') == PageOf(va) {
      UserWalk(v, other, va');
      OneLeaf(v, Place(owner, 0, PageOf(va)));
    } else {
      assert Index(va', 4) == USER_SLOT ==> SameLeaf(w, v, Place(other, 0, PageOf(va')));
      Undisturbed(w, v, other, va', {f});
    }
  }

  // ----- spaces stay what they are -----

  /** From `w` to `v`: generations only grow, no old grant comes back, and a root that is still granted is still a root. */
  ghost predicate Continues(w: World, v: World) {
    && v.authority.nextGeneration >= w.authority.nextGeneration
    && (forall f :: f in v.authority.frames && v.authority.frames[f].grant.generation < w.authority.nextGeneration ==>
          f in w.authority.frames && w.authority.frames[f].grant == v.authority.frames[f].grant)
    && (forall owner :: Root(owner) in w.at && w.at[Root(owner)] in v.authority.frames
                        && w.at[Root(owner)] in w.authority.frames
                        && v.authority.frames[w.at[Root(owner)]].grant == w.authority.frames[w.at[Root(owner)]].grant ==>
          Root(owner) in v.at && v.at[Root(owner)] == w.at[Root(owner)])
  }

  /** A space handle stays valid or becomes stale; it never comes to denote anything else. */
  lemma IssuedStays(w: World, v: World, space: Space)
    requires Continues(w, v) && Issued(w, space)
    ensures Issued(v, space)
  {
  }

  lemma MapContinues(w: World, v: World, owner: nat, va: nat, f: nat, writable: bool, executable: bool)
    requires MappedPage(w, v, owner, va, f, writable, executable)
    ensures Continues(w, v)
  {
    hide LeavesSame, KernelWritten, UserLeaf;
  }
}
