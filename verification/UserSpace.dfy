/** User address spaces: create, hand out pages, map and destroy. Every operation keeps the invariant, its result is
    decided by the state before it, and a refusal leaves no trace. */
module UserSpace {
  import opened Wrappers
  import opened PageTable
  import opened UserPlaces
  import opened UserWorld
  import opened UserSteps
  import opened UserLifecycle
  import opened UserViews
  import opened UserTrees
  import opened UserTeardown
  import opened UserDestroy
  import opened UserMap
  import A = Authority
  import P = ProtectPage

  /** A table linked by a mapping in progress. */
  datatype Created = Created(parent: nat, slot: nat, child: nat)

  /** The states a mapping in progress went through, one per table it linked. */
  ghost predicate Trail(w: World, worlds: seq<World>, steps: seq<Place>, created: seq<Created>) {
    && |worlds| == |steps| + 1 == |created| + 1 && worlds[0] == w
    && (forall j :: 0 <= j < |steps| ==> TrailStep(worlds, j, steps[j], created[j]))
  }

  ghost predicate TrailStep(worlds: seq<World>, j: nat, c: Place, made: Created) {
    && j + 1 < |worlds| && GraftShape(worlds[j], c) && worlds[j + 1] == Grafted(worlds[j], c)
    && made.parent == worlds[j].at[Up(c)] && made.slot == SlotOf(c) && c in worlds[j + 1].at && made.child == worlds[j + 1].at[c]
    && Inv(worlds[j])
  }

  lemma TrailAppend(w: World, worlds: seq<World>, steps: seq<Place>, created: seq<Created>, c: Place, made: Created, v: World)
    requires Trail(w, worlds, steps, created) && TrailStep(worlds + [v], |steps|, c, made)
    ensures Trail(w, worlds + [v], steps + [c], created + [made])
  {
    hide Inv, GraftShape, Grafted;
    var ws, ss, ms := worlds + [v], steps + [c], created + [made];
    forall j | 0 <= j < |ss| ensures TrailStep(ws, j, ss[j], ms[j]) {
      if j < |steps| {
        assert TrailStep(worlds, j, steps[j], created[j]);
        assert ws[j] == worlds[j] && ws[j + 1] == worlds[j + 1];
      }
    }
  }

  /** `v` is the state after `made` was linked at `c`. */
  ghost predicate Undoable(w: World, c: Place, v: World, made: Created) {
    && GraftShape(w, c) && SameBut(Grafted(w, c), v) && c in v.at
    && made.parent == w.at[Up(c)] && made.slot == SlotOf(c) && made.child == v.at[c] && Inv(w)
  }

  ghost predicate SameOwner(steps: seq<Place>, owner: nat) { forall j :: 0 <= j < |steps| ==> steps[j].owner == owner }

  /** A mapping in progress whose walk stands at the table `current` of `level`. */
  ghost predicate Running(q: Request, v: World, level: nat, current: nat, created: seq<Created>, worlds: seq<World>, steps: seq<Place>) {
    && 1 <= level <= 4 && OnWay(q.owner, q.va, level) in v.at && v.at[OnWay(q.owner, q.va, level)] == current
    && current in v.tables && Index(q.va, 4) == USER_SLOT
    && |worlds| == |steps| + 1 && v == worlds[|steps|] && SameOwner(steps, q.owner)
    && Trail(q.w, worlds, steps, created) && Reached(q, v, level)
  }

  /** One level further down, or out of memory for what was missing. */
  ghost predicate Stepped(q: Request, v: World, level: nat, next: Option<nat>, created: seq<Created>, worlds: seq<World>, steps: seq<Place>) {
    if next.Some? then 2 <= level && Running(q, v, level - 1, next.value, created, worlds, steps)
    else |worlds| == |steps| + 1 && v == worlds[|steps|] && SameOwner(steps, q.owner)
         && Trail(q.w, worlds, steps, created) && !HasRoom(q) && PageAt(q) !in q.w.at
  }

  lemma ReachedInv(q: Request, v: World, level: nat)
    requires Reached(q, v, level)
    ensures Inv(v)
  {
    hide Inv, Grown, OnWay, Affordable;
  }

  /** A slot is filled exactly when the place below it is in use. */
  ghost predicate Filled(v: World, c: Place) {
    c.level < 4 && Up(c) in v.at && v.at[Up(c)] in v.tables && (v.tables[v.at[Up(c)]][SlotOf(c)].present <==> c in v.at)
  }

  lemma FilledSlot(v: World, c: Place)
    requires Shaped(c) && 1 <= c.level <= 3 && Up(c) in v.at && v.at[Up(c)] in v.tables && Inv(v)
    ensures Filled(v, c)
  {
    hide Frames, Places, Entries, KernelOk, Aliases;
    UpChild(c);
    SlotFact(v, Up(c), SlotOf(c));
  }

  /** `v` is `w` with this page published. */
  ghost predicate PublishedAs(w: World, v: World, page: Place, f: nat, writable: bool, executable: bool) {
    CanPublish(w, page, f, writable, executable) && v == Published(w, page, f, writable, executable)
  }

  /** `v` is `w` with a table linked at `c`. */
  ghost predicate GraftedAs(w: World, v: World, c: Place) { CanGraft(w, c) && v == Grafted(w, c) }

  datatype Destroyed = Done(frames: nat) | Refused(error: P.PagingError)

  /** The result of a destruction, decided by the state before it. */
  ghost function DestroyOutcome(w: World, active: nat, space: Space): Destroyed {
    if !A.IsLive(w.authority, space.grant) then Refused(P.InvalidAddress)
    else if active == space.root then Refused(P.ActiveAddressSpace)
    else if !AllPlaced(w, space.owner) then Refused(P.InvalidAddress)
    else Done(|A.Owned(w.authority, space.owner)|)
  }

  class AddressSpaces {
    const store: Store
    /** The root the processor uses. */
    var active: nat
    ghost var at: map<Place, nat>
    ghost var place: map<nat, Place>

    ghost function View(): World
      reads this, store
    {
      World(store.tables, store.authority, at, place, store.kernel)
    }

    ghost predicate Valid()
      reads this, store
    {
      Inv(View())
    }

    /** The invariant of the public operations: the processor uses the kernel's root or the root of a live space, and no
        leaf of the kernel's map is writable and executable. */
    ghost predicate Safe()
      reads this, store
    {
      Inv(View()) && ActiveRoot(View(), active) && KernelSealed(View())
    }

    /** The sealed kernel map before the first space: supervisor tables only, and a writable alias of every frame. */
    constructor (kernel: nat, tables: Tables, authority: A.Authority)
      requires Inv(World(tables, authority, map[], map[], kernel)) && KernelSealed(World(tables, authority, map[], map[], kernel))
      ensures Safe() && fresh(store) && active == kernel
      ensures View() == World(tables, authority, map[], map[], kernel)
    {
      hide Inv, KernelSealed;
      store := new Store(kernel, tables, authority);
      active, at, place := kernel, map[], map[];
    }

    // ----- the active root -----

    /** A stale space must not be activated. */
    method Activate(space: Space)
      requires Safe() && Issued(View(), space) && A.IsLive(store.authority, space.grant)
      modifies this`active
      ensures Safe() && active == space.root
    {
      hide Inv, KernelSealed;
      RootPlaced(View(), space.owner);
      active := space.root;
    }

    method ActivateKernel()
      requires Safe()
      modifies this`active
      ensures Safe() && active == store.kernel
    {
      hide Inv, KernelSealed;
      active := store.kernel;
    }

    // ----- mapping -----

    /** The table a slot points to, linking a fresh one if the slot is empty. */
    method EnsureUserTable(parent: nat, slot: nat, owner: nat, ghost c: Place) returns (child: Option<nat>)
      requires Shaped(c) && 1 <= c.level <= 3 && c.owner == owner && Up(c) in at
      requires parent == at[Up(c)] && slot == SlotOf(c) && parent in store.tables && Valid()
      modifies this`at, this`place, store
      ensures Valid() && (child.Some? ==> c in at && at[c] == child.value)
      ensures c in old(at) ==> View() == old(View()) && child.Some?
      ensures c !in old(at) && !A.CanAlloc(old(store.authority), owner) ==> View() == old(View()) && child.None?
      ensures c !in old(at) && A.CanAlloc(old(store.authority), owner) ==> GraftedAs(old(View()), View(), c) && child.Some?
    {
      hide Inv, Frames, Places, Entries, KernelOk, Aliases, A.Alloc, A.CanAlloc;
      Parts(View());
      UpChild(c);
      SlotFact(View(), Up(c), slot);
      var entry := store.tables[parent][slot];
      if !entry.present {
        AllocNothing(store.authority, owner);
        var (authority, grant) := A.Alloc(store.authority, owner, A.Table);
        if grant.None? { return None; }
        GraftKeeps(View(), c);
        Fresh(View(), owner, A.Table);
        var frame := grant.value.address;
        store.tables := store.tables[frame := Blank()];
        store.authority := authority;
        store.tables := store.tables[parent := store.tables[parent][slot := TableEntry(frame)]];
        at, place := at[c := frame], place[frame := c];
        TableFound(View(), c);
        assert A.Find(store.authority, owner, frame, A.Table).Some?;
        return Some(frame);
      }
      assert !entry.huge && entry.user && entry.writable && !entry.nx;
      TableFound(View(), c);
      assert A.Find(store.authority, owner, entry.address, A.Table).Some?;
      return Some(entry.address);
    }

    /** Take back one table: the edge first, then the frame. */
    method Undo(owner: nat, made: Created, ghost w: World, ghost c: Place)
      requires Valid() && Undoable(w, c, View(), made) && c.owner == owner
      modifies this`at, this`place, store
      ensures Valid() && SameBut(w, View())
    {
      hide Inv, Frames, Places, Entries, KernelOk, Aliases, A.Alloc, A.CanAlloc, A.Release;
      GraftIsEmpty(w, c, View());
      UngraftUndoes(w, c, View());
      UngraftKeeps(View(), c);
      Parts(View());
      PlaceFacts(View(), c);
      Released(View(), at[c]);
      GraftedParent(w, c, View());
      store.tables := store.tables[made.parent := store.tables[made.parent][made.slot := ZERO]];
      var grant := A.Find(store.authority, owner, made.child, A.Table);
      assert grant.Some?;
      var (authority, ok) := A.Release(store.authority, grant.value);
      assert ok;
      store.authority, store.tables := authority, store.tables - {made.child};
      at, place := at - {c}, place - {made.child};
    }

    /** Undo a mapping in progress, newest table first. */
    method RollBack(owner: nat, created: seq<Created>, ghost w: World, ghost worlds: seq<World>, ghost steps: seq<Place>)
      requires Valid() && |worlds| == |steps| + 1 && View() == worlds[|steps|] && Trail(w, worlds, steps, created)
      requires SameOwner(steps, owner)
      modifies this`at, this`place, store
      ensures Valid() && SameBut(w, View())
    {
      hide Inv, GraftShape, Grafted;
      var j := |created|;
      while j > 0
        invariant 0 <= j <= |created| && Valid() && SameBut(worlds[j], View())
      {
        j := j - 1;
        assert TrailStep(worlds, j, steps[j], created[j]);
        GraftUp(worlds[j], steps[j]);
        Undo(owner, created[j], worlds[j], steps[j]);
      }
    }

    /** Seal the kernel's alias, pin the frame, publish the leaf. */
    method Publish(owner: nat, table: nat, slot: nat, va: nat, grant: A.Grant, writable: bool, executable: bool, ghost page: Place)
      requires page.level == 0 && page.owner == owner && page !in at && Up(page) in at && table == at[Up(page)]
      requires slot == SlotOf(page) && va == Va(page.number) && A.CanBind(store.authority, grant, owner) && !(writable && executable)
      requires Valid()
      modifies this`at, this`place, store
      ensures Valid() && PublishedAs(old(View()), View(), page, grant.address, writable, executable)
    {
      hide Inv, Frames, Places, Entries, KernelOk, Aliases, AliasPath, AliasTable, A.Bind;
      Parts(View());
      TableFound(View(), Up(page));
      Bindable(View(), page, grant.address);
      ManagedAlias(View(), grant.address);
      PublishKeeps(View(), page, grant.address, writable, executable);
      store.SetUserAliasWritable(grant.address, writable, View());
      var (authority, ok) := A.Bind(store.authority, grant, owner, va);
      assert ok;
      store.authority := authority;
      store.tables := store.tables[table := store.tables[table][slot := LeafEntry(grant.address, writable, executable)]];
      at, place := at[page := grant.address], place[grant.address := page];
    }

    /** One of the three upper levels. A failure here is a failure of the whole mapping. */
    method StepDown(owner: nat, va: nat, level: nat, current: nat, created: seq<Created>,
                    ghost q: Request, ghost worlds: seq<World>, ghost steps: seq<Place>)
      returns (next: Option<nat>, created': seq<Created>, ghost worlds': seq<World>, ghost steps': seq<Place>)
      requires q.owner == owner && q.va == va && 2 <= level <= 4 && Running(q, View(), level, current, created, worlds, steps)
      modifies this`at, this`place, store
      ensures Valid() && Stepped(q, View(), level, next, created', worlds', steps')
    {
      hide Inv, Reached, OnWay, GraftShape, Grafted, A.CanAlloc, Trail, HasRoom;
      created', worlds', steps' := created, worlds, steps;
      ReachedInv(q, View(), level);
      NextPlace(q, View(), level);
      ghost var c := OnWay(q.owner, q.va, level - 1);
      ghost var v := View();
      if c !in at && A.CanAlloc(store.authority, q.owner) {
        NextGraft(q, View(), level, c);
        ReachedGraft(q, View(), level, c);
      }
      if c !in at && !A.CanAlloc(store.authority, q.owner) { ReachedFull(q, View(), level); }
      if c in at { ReachedDown(q, View(), level); }
      var slot := Index(va, level);
      var empty := !store.tables[current][slot].present;
      next := EnsureUserTable(current, slot, owner, c);
      if next.None? { return; }
      TableFound(View(), c);
      FilledSlot(v, c);
      if empty {
        created' := created + [Created(current, slot, next.value)];
        worlds', steps' := worlds + [View()], steps + [c];
        TrailAppend(q.w, worlds, steps, created, c, Created(current, slot, next.value), View());
      }
    }

    /** Everything after the admission checks: walk, then publish, or put every table back. */
    method MapAdmitted(owner: nat, root: nat, va: nat, grant: A.Grant, writable: bool, executable: bool) returns (error: Option<P.PagingError>)
      requires Valid() && Root(owner) in at && at[Root(owner)] == root && owner != A.KERNEL
      requires A.CanBind(store.authority, grant, owner) && Mappable(va, grant.address, writable, executable)
      modifies this`at, this`place, store
      ensures Valid()
      ensures error == if Place(owner, 0, PageOf(va)) in old(at) then Some(P.AddressInUse)
                       else if !HasRoom(Request(old(View()), owner, va, grant)) then Some(P.OutOfMemory) else None
      ensures error.Some? ==> SameBut(old(View()), View())
      ensures error.None? ==> MappedPage(old(View()), View(), owner, va, grant.address, writable, executable)
    {
      hide Inv, Reached, OnWay, Trail, HasRoom, MappedPage, CanPublish, Published, A.CanBind, SameOwner, Frames, Places, Entries, KernelOk, Aliases;
      ghost var q := Request(View(), owner, va, grant);
      Parts(q.w);
      ReachedStart(q);
      PageAddress(va);
      ghost var worlds, steps := [View()], [];
      var current, created := root, [];
      StartRunning(q, root);
      for level := 5 downto 2
        invariant Running(q, View(), level - 1, current, created, worlds, steps)
      {
        var next;
        next, created, worlds, steps := StepDown(owner, va, level, current, created, q, worlds, steps);
        if next.None? {
          RollBack(owner, created, q.w, worlds, steps);
          return Some(P.OutOfMemory);
        }
        current := next.value;
      }
      ReachedInv(q, View(), 1);
      ReachedLeaf(q, View());
      StillBindable(q, View(), 1);
      ReachedGrown(q, View(), 1);
      if store.tables[current][Index(va, 1)].present {
        RollBack(owner, created, q.w, worlds, steps);
        return Some(P.AddressInUse);
      }
      ghost var v := View();
      Publish(owner, current, Index(va, 1), va, grant, writable, executable, PageAt(q));
      BindLive(q.w.authority, grant, owner);
      PublishedPage(q, v, writable, executable);
      return None;
    }

    /** Map one page of a space. The result is decided by the state before the call; a refusal changes nothing but the
        generation counter, a success maps exactly this page. */
    method MapUserPage(space: Space, va: nat, grant: A.Grant, writable: bool, executable: bool, nx: bool) returns (error: Option<P.PagingError>)
      requires Safe() && Issued(View(), space)
      modifies this`at, this`place, store
      ensures Safe()
      ensures error == MapOutcome(old(View()), active, space, va, grant, writable, executable, nx)
      ensures error.Some? ==> SameBut(old(View()), View())
      ensures error.None? ==> MappedPage(old(View()), View(), space.owner, va, grant.address, writable, executable)
      ensures Continues(old(View()), View())
    {
      hide Inv, Room, Missing, MappedPage, A.CanBind, KernelSealed;
      ghost var w := View();
      if active == space.root { return Some(P.ActiveAddressSpace); }
      if !A.IsLive(store.authority, space.grant) || !A.CanBind(store.authority, grant, space.owner) { return Some(P.InvalidAddress); }
      if !Mappable(va, grant.address, writable, executable) { return Some(P.InvalidAddress); }
      if !executable && !nx { return Some(P.InvalidAddress); }
      error := MapAdmitted(space.owner, space.root, va, grant, writable, executable);
      SealedTables(w, View());
      if error.None? {
        MapSealed(w, View(), space.owner, va, grant.address, writable, executable);
        MapContinues(w, View(), space.owner, va, grant.address, writable, executable);
        MapRoots(w, View(), space.owner, va, grant.address, writable, executable);
        ActiveStays(w, View(), active);
      }
    }

    // ----- creating and handing out pages -----

    /** A new space under a new owner, sharing the kernel's map. */
    method CreateUserAddressSpace(isSealed: bool) returns (r: Opening)
      requires Safe()
      modifies this`at, this`place, store
      ensures Safe()
      ensures r.Opened? == CanOpen(old(View()), isSealed)
      ensures r.Opened? ==> OpenedSpace(old(View()), View(), r.space)
      ensures r.NotOpened? ==> r.error == OpenError(old(View()), isSealed) && SameFrames(old(View()), View())
      ensures Continues(old(View()), View())
    {
      hide Inv, A.CanAlloc, A.Alloc, A.Release, Continues, KernelSealed, OpenedSpace, ActiveRoot;
      ghost var w := View();
      CounterContinues(w);
      ActiveCounters(w, active);
      if !isSealed { return NotOpened(P.MissingMapping); }
      var (named, owner) := A.NewOwner(store.authority);
      if owner.None? { return NotOpened(P.OutOfMemory); }
      NewOwnerKeeps(w);
      store.authority := named;
      ghost var w1 := View();
      SealedTables(w, w1);
      AllocNothing(store.authority, owner.value);
      var (authority, grant) := A.Alloc(store.authority, owner.value, A.Table);
      if grant.None? { return NotOpened(P.OutOfMemory); }
      RootAlloc(w, w1);
      var root := grant.value.address;
      var copy := store.tables[store.kernel];
      store.authority := authority;
      if copy[USER_SLOT].present {
        var (freed, ok) := A.Release(store.authority, grant.value);
        assert ok;
        store.authority := freed;
        AuthorityStep(w1, freed);
        SealedTables(w, View());
        return NotOpened(P.AddressInUse);
      }
      RootOpens(w, w1, grant.value, active);
      store.tables := store.tables[root := copy];
      at, place := at[Root(owner.value) := root], place[root := Root(owner.value)];
      return Opened(Space(root, grant.value, owner.value));
    }

    /** An unmapped page for a live space. */
    method AllocateZeroedFrame(space: Space) returns (grant: Option<A.Grant>, error: Option<P.PagingError>)
      requires Safe() && Issued(View(), space)
      modifies store
      ensures Safe()
      ensures error == if !A.IsLive(old(store.authority), space.grant) then Some(P.InvalidAddress)
                       else if !A.CanAlloc(old(store.authority), space.owner) then Some(P.OutOfMemory) else None
      ensures error.Some? ==> View() == old(View()) && grant.None?
      ensures error.None? ==> grant.Some? && HandedOut(old(View()), View(), space.owner, grant.value)
      ensures Continues(old(View()), View())
    {
      hide Inv, A.CanAlloc, A.Alloc, Continues, A.CanBind, KernelSealed;
      ghost var w := View();
      ContinuesSelf(w);
      if !A.IsLive(store.authority, space.grant) { return None, Some(P.InvalidAddress); }
      PageAlloc(View(), space);
      var (authority, granted) := A.Alloc(store.authority, space.owner, A.User);
      if granted.None? { return None, Some(P.OutOfMemory); }
      store.authority := authority;
      SealedTables(w, View());
      return Some(granted.value), None;
    }

    // ----- destroying -----

    /** Release the root of a space of which nothing else is left. */
    method CloseRoot(space: Space, ghost w: World, ghost u: World)
      requires store.authority == u.authority && store.kernel == u.kernel && Masked(u.tables, {}, store.tables)
      requires Issued(w, space) && A.IsLive(w.authority, space.grant) && Inv(w) && Inv(u)
      requires Lost(w, u, OfOwner(w, space.owner) - {Root(space.owner)}, Root(space.owner))
      modifies this`at, this`place, store
      ensures Valid() && Lost(w, View(), OfOwner(w, space.owner), Root(space.owner))
    {
      hide Inv, OfOwner, Lost, A.Release, Masked;
      ghost var owner := space.owner;
      LastStep(w, u, owner, space, store.tables);
      var (authority, ok) := A.Release(store.authority, space.grant);
      assert ok;
      store.authority, store.tables := authority, store.tables - {space.root};
      at, place := Unrooted(u, owner).at, Unrooted(u, owner).place;
    }

    /** Destroy a space: validate its whole tree, then unlink and release it. */
    method DestroyUserAddressSpace(space: Space) returns (r: Destroyed)
      requires Safe() && Issued(View(), space)
      modifies this`at, this`place, store
      ensures Safe()
      ensures r == DestroyOutcome(old(View()), active, space)
      ensures r.Refused? ==> View() == old(View())
      ensures r.Done? ==> Lost(old(View()), View(), OfOwner(old(View()), space.owner), Root(space.owner))
      ensures r.Done? ==> store.authority == old(store.authority).(frames := old(store.authority).frames - A.Owned(old(store.authority), space.owner))
      ensures Continues(old(View()), View())
    {
      hide Inv, Below, OfOwner, A.Owned, Lost, AllPlaced, A.Release, Masked, CutAbove, KernelSealed;
      if !A.IsLive(store.authority, space.grant) { return Refused(P.InvalidAddress); }
      if active == space.root { return Refused(P.ActiveAddressSpace); }
      ghost var w, owner := View(), space.owner;
      RootCounts(w, owner);
      NothingCut(w.tables);
      var entry := store.tables[space.root][USER_SLOT];
      var released := 0;
      ghost var u := w;
      if entry.present {
        assert !entry.huge && entry.user;
        var userRoot := entry.address;
        var treeFrames := store.ValidateUserTable(space.owner, userRoot, 3, USER_BASE, w, Top(owner));
        if |A.Owned(store.authority, space.owner)| != treeFrames + 1 { return Refused(P.InvalidAddress); }
        store.tables := store.tables[space.root := store.tables[space.root][USER_SLOT := ZERO]];
        CutRoot(w, owner, store.tables);
        ghost var v;
        released, v := store.ReleaseUserTable(space.owner, userRoot, 3, USER_BASE, w, {(space.root, USER_SLOT)}, Top(owner));
        RootEmptied(w, v, owner, space.root);
        u := store.ReleaseTable(space.owner, userRoot, v, {}, Top(owner));
        released := released + 1;
        RootReleased(w, v, u, owner);
      } else if |A.Owned(store.authority, space.owner)| != 1 {
        return Refused(P.InvalidAddress);
      } else {
        RootAlone(w, owner);
      }
      CloseRoot(space, w, u);
      NothingLeft(w, View(), owner);
      DestroyContinues(w, View(), owner);
      OthersRooted(w, View(), owner, active);
      LostSealed(w, View(), owner);
      assert |A.Owned(store.authority, space.owner)| == 0;
      return Done(released + 1);
    }
  }

  // ----- the kernel's map stays sealed -----

  lemma SealedTables(w: World, v: World)
    requires KernelSealed(w)
    ensures v.tables == w.tables && v.kernel == w.kernel ==> KernelSealed(v)
  {
  }

  lemma MapSealed(w: World, v: World, owner: nat, va: nat, f: nat, writable: bool, executable: bool)
    requires Inv(w) && KernelSealed(w) && MappedPage(w, v, owner, va, f, writable, executable)
    ensures KernelSealed(v)
  {
    hide Inv, KernelSealed, KernelWritten, LeavesSame, RootsSame, UserLeaf;
    SealedStays(w, v, {f});
  }

  lemma RootSealed(w: World, owner: nat)
    requires CanRoot(w, owner) && KernelSealed(w)
    ensures KernelSealed(Rooted(w, owner))
  {
    hide Inv, KernelSealed, KernelWritten, KernelSame, Rooted, Frames, Places, Entries, KernelOk, Aliases;
    Parts(w);
    RootFrames(w, owner);
    KernelRoot(w);
    SameIsWritten(w, Rooted(w, owner));
    SealedStays(w, Rooted(w, owner), {});
  }

  lemma LostSealed(w: World, v: World, owner: nat)
    requires Inv(w) && KernelSealed(w) && Lost(w, v, OfOwner(w, owner), Root(owner))
    ensures KernelSealed(v)
  {
    hide Inv, KernelSealed, KernelWritten, PagesAt, Frames, Places, Entries, KernelOk, Aliases;
    Parts(w);
    LostPages(w, OfOwner(w, owner));
    SealedStays(w, v, PagesAt(w, OfOwner(w, owner)));
  }

  // ----- the active root -----

  ghost predicate ActiveRoot(w: World, active: nat) {
    active == w.kernel || (active in w.place && w.place[active].level == 4)
  }

  lemma RootPlaced(w: World, owner: nat)
    requires Inv(w) && Root(owner) in w.at
    ensures w.at[Root(owner)] in w.place && w.place[w.at[Root(owner)]].level == 4
  {
    hide Frames, Places, Entries, KernelOk, Aliases;
    PlaceFacts(w, Root(owner));
  }

  /** An active root is still a root if the roots are still there. */
  lemma ActiveStays(w: World, v: World, active: nat)
    requires Inv(w) && Inv(v) && ActiveRoot(w, active) && v.kernel == w.kernel
    requires forall o :: Root(o) in w.at && w.at[Root(o)] == active ==> Root(o) in v.at && v.at[Root(o)] == active
    ensures ActiveRoot(v, active)
  {
    hide Frames, Entries, KernelOk, Aliases;
    if active != w.kernel {
      assert PlaceOk(w, active);
      assert w.place[active] == Root(w.place[active].owner);
    }
  }

  lemma MapRoots(w: World, v: World, owner: nat, va: nat, f: nat, writable: bool, executable: bool)
    requires MappedPage(w, v, owner, va, f, writable, executable)
    ensures RootsSame(w, v) && v.kernel == w.kernel
  {
    hide LeavesSame, RootsSame, UserLeaf, AliasCell;
  }

  lemma OthersRooted(w: World, v: World, owner: nat, active: nat)
    requires Inv(w) && Inv(v) && Lost(w, v, OfOwner(w, owner), Root(owner)) && ActiveRoot(w, active)
    requires Root(owner) in w.at && w.at[Root(owner)] != active
    ensures ActiveRoot(v, active)
  {
    hide Inv;
    ActiveStays(w, v, active);
  }

  /** One more unmapped page for `owner`, and nothing else. */
  ghost predicate HandedOut(w: World, v: World, owner: nat, g: A.Grant) {
    v == w.(authority := A.Alloc(w.authority, owner, A.User).0) && A.CanBind(v.authority, g, owner) && g.address !in w.authority.frames
  }

  // ----- creation -----

  datatype Opening = Opened(space: Space) | NotOpened(error: P.PagingError)

  ghost predicate CanOpen(w: World, isSealed: bool) {
    && isSealed && w.authority.nextOwner < A.U64_MAX && A.CanAlloc(A.NewOwner(w.authority).0, w.authority.nextOwner)
    && w.kernel in w.tables && !w.tables[w.kernel][USER_SLOT].present
  }

  ghost function OpenError(w: World, isSealed: bool): P.PagingError {
    if !isSealed then P.MissingMapping
    else if w.authority.nextOwner < A.U64_MAX && A.CanAlloc(A.NewOwner(w.authority).0, w.authority.nextOwner) then P.AddressInUse
    else P.OutOfMemory
  }

  /** A refused creation leaves every table, grant and pin alone; only the counters of owners and generations move. */
  ghost predicate SameFrames(w: World, v: World) {
    v == w.(authority := w.authority.(nextOwner := v.authority.nextOwner, nextGeneration := v.authority.nextGeneration))
    && v.authority.nextOwner >= w.authority.nextOwner && v.authority.nextGeneration >= w.authority.nextGeneration
  }

  /** The new space has a root of its own and no page, and nothing else changed. */
  ghost predicate OpenedSpace(w: World, v: World, space: Space) {
    && Issued(v, space) && A.IsLive(v.authority, space.grant) && space.grant.generation >= w.authority.nextGeneration
    && space.owner >= w.authority.nextOwner
    && v.at == w.at[Root(space.owner) := space.root] && Root(space.owner) !in w.at
    && v.authority.frames == w.authority.frames[space.root := A.Holding(space.grant, 0)] && space.root !in w.authority.frames
    && (forall t :: t in w.tables ==> t in v.tables && v.tables[t] == w.tables[t]) && v.kernel == w.kernel
    && v.authority.nextGeneration >= w.authority.nextGeneration
  }

  /** Placing the new root opens the space and keeps everything else. */
  lemma RootOpens(w: World, w1: World, g: A.Grant, active: nat)
    requires w.authority.nextOwner < A.U64_MAX && w1 == w.(authority := A.NewOwner(w.authority).0)
    requires A.Alloc(w1.authority, w.authority.nextOwner, A.Table).1 == Some(g)
    requires RootGrant(w, w1, A.Alloc(w1.authority, w.authority.nextOwner, A.Table).0, g)
    requires Inv(w) && KernelSealed(w1) && ActiveRoot(w, active) && CanRoot(w1, w.authority.nextOwner)
    ensures OpenedAs(w, Rooted(w1, w.authority.nextOwner), Space(g.address, g, w.authority.nextOwner), active)
  {
    hide Inv, A.CanAlloc, A.Alloc, A.Release, KernelSealed, A.Ok;
    var owner := w.authority.nextOwner;
    var v := Rooted(w1, owner);
    RootKeeps(w1, owner);
    RootSealed(w1, owner);
    OpenContinues(w, v, Space(g.address, g, owner));
    ActiveStays(w, v, active);
  }

  ghost predicate OpenedAs(w: World, v: World, space: Space, active: nat) {
    OpenedSpace(w, v, space) && Continues(w, v) && Inv(v) && KernelSealed(v) && ActiveRoot(v, active)
  }

  lemma ActiveCounters(w: World, active: nat)
    requires ActiveRoot(w, active)
    ensures forall v :: SameFrames(w, v) ==> ActiveRoot(v, active)
  {
  }

  lemma ContinuesSelf(w: World)
    ensures Continues(w, w)
  {
  }

  lemma OpenContinues(w: World, v: World, space: Space)
    requires OpenedSpace(w, v, space)
    ensures Continues(w, v)
  {
  }

  /** Moving the counters forward continues every state. */
  lemma CounterContinues(w: World)
    ensures forall v :: SameFrames(w, v) ==> Continues(w, v)
  {
  }

  lemma NewOwnerKeeps(w: World)
    requires Inv(w)
    ensures Inv(w.(authority := A.NewOwner(w.authority).0))
  {
    hide Inv, A.Ok;
    AuthorityOk(w);
    A.ApplyKeeps(w.authority, A.OpNewOwner);
    AuthorityStep(w, A.NewOwner(w.authority).0);
  }

  /** The grant of a new root, and what giving it back at once would leave. */
  ghost predicate RootGrant(w: World, w1: World, a: A.Authority, g: A.Grant) {
    && g == A.Grant(g.address, w.authority.nextGeneration, w.authority.nextOwner, A.Table)
    && g.address !in w.authority.frames && g.address !in w.tables
    && a == w1.authority.(frames := w1.authority.frames[g.address := A.Holding(g, 0)], nextGeneration := w.authority.nextGeneration + 1)
    && A.Release(a, g) == (w1.authority.(nextGeneration := w.authority.nextGeneration + 1), true)
    && A.Ok(w1.authority.(nextGeneration := w.authority.nextGeneration + 1))
  }

  /** After a new owner is named, a root for it can be taken. */
  lemma RootAlloc(w: World, w1: World)
    requires Inv(w) && Inv(w1) && w.authority.nextOwner < A.U64_MAX && w1 == w.(authority := A.NewOwner(w.authority).0)
    requires A.CanAlloc(w1.authority, w.authority.nextOwner) && A.Alloc(w1.authority, w.authority.nextOwner, A.Table).1.Some?
    ensures RootGrant(w, w1, A.Alloc(w1.authority, w.authority.nextOwner, A.Table).0, A.Alloc(w1.authority, w.authority.nextOwner, A.Table).1.value)
    ensures w.kernel in w.tables && (!w.tables[w.kernel][USER_SLOT].present ==> CanRoot(w1, w.authority.nextOwner))
  {
    hide Inv, A.Alloc, A.CanAlloc, Places, Entries, Aliases, A.Ok;
    Parts(w);
    Parts(w1);
    var owner := w.authority.nextOwner;
    OwnerIsNew(w, owner);
    Fresh(w1, owner, A.Table);
    var (a, g) := A.Alloc(w1.authority, owner, A.Table);
    var f := g.value.address;
    A.ReleaseKeeps(a, g.value);
    assert w1.authority.frames[f := A.Holding(g.value, 0)] - {f} == w1.authority.frames;
  }

  lemma OwnerIsNew(w: World, owner: nat)
    requires Frames(w) && Places(w) && owner >= w.authority.nextOwner
    ensures Root(owner) !in w.at && owner != A.KERNEL
  {
    if Root(owner) in w.at { PlaceFacts(w, Root(owner)); }
  }

  lemma PageAlloc(w: World, space: Space)
    requires Inv(w) && Issued(w, space) && A.IsLive(w.authority, space.grant)
    ensures A.Alloc(w.authority, space.owner, A.User).1.Some? <==> A.CanAlloc(w.authority, space.owner)
    ensures A.CanAlloc(w.authority, space.owner) ==>
              var v := w.(authority := A.Alloc(w.authority, space.owner, A.User).0);
              HandedOut(w, v, space.owner, A.Alloc(w.authority, space.owner, A.User).1.value) && Inv(v) && Continues(w, v)
  {
    hide Inv, A.CanAlloc, A.Ok, Places, Entries, KernelOk, Aliases;
    Parts(w);
    if A.CanAlloc(w.authority, space.owner) {
      Fresh(w, space.owner, A.User);
      AuthorityStep(w, A.Alloc(w.authority, space.owner, A.User).0);
    }
  }

  // ----- destruction -----

  ghost predicate RootSlot(w: World, owner: nat, e: Entry) {
    && (e.present <==> Top(owner) in w.at) && (e.present ==> e == TableEntry(w.at[Top(owner)]))
  }

  /** What the root's user slot holds, and how the owner's count compares with the size of its tree. */
  ghost predicate RootReport(w: World, owner: nat) {
    && Root(owner) in w.at && w.at[Root(owner)] in w.tables && RootSlot(w, owner, w.tables[w.at[Root(owner)]][USER_SLOT])
    && OfOwner(w, owner) == {Root(owner)} + (if Top(owner) in w.at then {Top(owner)} + Below(w, Top(owner)) else {})
    && |OfOwner(w, owner)| == (if Top(owner) in w.at then 2 + |Below(w, Top(owner))| else 1)
    && Root(owner) !in Below(w, Top(owner)) && Top(owner) !in Below(w, Top(owner))
    && (|A.Owned(w.authority, owner)| == |OfOwner(w, owner)| <==> AllPlaced(w, owner))
    && OfOwner(w, owner) <= w.at.Keys && (AllPlaced(w, owner) ==> A.Owned(w.authority, owner) == FramesAt(w, OfOwner(w, owner)))
    && BaseOf(Top(owner)) == USER_BASE
  }

  lemma RootCounts(w: World, owner: nat)
    requires Root(owner) in w.at && Inv(w)
    ensures RootReport(w, owner)
  {
    hide Inv, Frames, Places, Entries, KernelOk, Aliases, A.Owned, Below, AllPlaced;
    Parts(w);
    TableFound(w, Root(owner));
    SlotFact(w, Root(owner), USER_SLOT);
    OwnerPlaces(w, owner);
    OwnerCount(w, owner);
    var rest := if Top(owner) in w.at then {Top(owner)} + Below(w, Top(owner)) else {};
    assert Root(owner) !in rest;
    assert |{Root(owner)} + rest| == 1 + |rest|;
  }

  lemma NothingCut(t: Tables)
    ensures Masked(t, {}, t)
  {
  }

  lemma CutRoot(w: World, owner: nat, tables: Tables)
    requires Inv(w) && Root(owner) in w.at && w.at[Root(owner)] in w.tables
    requires tables == w.tables[w.at[Root(owner)] := w.tables[w.at[Root(owner)]][USER_SLOT := ZERO]]
    ensures Masked(w.tables, {(w.at[Root(owner)], USER_SLOT)}, tables) && CutAbove(w, {(w.at[Root(owner)], USER_SLOT)}, 3)
  {
    hide Inv, Frames, Places, Entries, KernelOk, Aliases;
    Parts(w);
    PlaceFacts(w, Root(owner));
  }

  lemma RootEmptied(w: World, v: World, owner: nat, root: nat)
    requires Inv(w) && Root(owner) in w.at && w.at[Root(owner)] == root && Top(owner) in w.at
    requires Lost(w, v, Below(w, Top(owner)), Top(owner))
    ensures Top(owner) in v.at && v.at[Top(owner)] == w.at[Top(owner)] && Root(owner) in v.at && v.at[Root(owner)] == root
    ensures Childless(v, Top(owner)) && CutAbove(v, {}, 3) && {(root, USER_SLOT)} == {} + {(root, USER_SLOT)}
  {
    hide Inv, KernelWritten, Within, Ancestor;
    forall r | 0 <= r < ENTRIES ensures Child(Top(owner), r) !in v.at {
      if Child(Top(owner), r) in w.at { ChildBelow(w, Top(owner), r); }
    }
  }

  /** Everything of the space but its root is gone. */
  lemma RootReleased(w: World, v: World, u: World, owner: nat)
    requires Inv(w) && Root(owner) in w.at && Top(owner) in w.at
    requires Lost(w, v, Below(w, Top(owner)), Top(owner)) && Lost(v, u, {Top(owner)}, Root(owner))
    ensures Lost(w, u, OfOwner(w, owner) - {Root(owner)}, Root(owner))
  {
    hide Inv, Lost, Below, Frames, Places, Entries, KernelOk, Aliases, OfOwner;
    Parts(w);
    TablesHeld(w);
    OwnerPlaces(w, owner);
    LostTwice(w, v, u, Below(w, Top(owner)), {Top(owner)}, Top(owner), Root(owner));
    assert Below(w, Top(owner)) + {Top(owner)} == OfOwner(w, owner) - {Root(owner)};
  }

  lemma RootAlone(w: World, owner: nat)
    requires Inv(w) && Root(owner) in w.at && Top(owner) !in w.at
    ensures Lost(w, w, OfOwner(w, owner) - {Root(owner)}, Root(owner))
  {
    hide Inv, Lost, Below, Frames, Places, Entries, KernelOk, Aliases, OfOwner;
    Parts(w);
    OwnerPlaces(w, owner);
    LostNothing(w, Root(owner));
    assert OfOwner(w, owner) - {Root(owner)} == {};
  }

  /** Only the root is left, and closing it completes the removal of exactly this owner's frames. */
  lemma LastStep(w: World, u: World, owner: nat, space: Space, tables: Tables)
    requires Inv(w) && Inv(u) && Issued(w, space) && space.owner == owner && A.IsLive(w.authority, space.grant)
    requires Lost(w, u, OfOwner(w, owner) - {Root(owner)}, Root(owner)) && Masked(u.tables, {}, tables)
    ensures CanUnroot(u, owner) && Inv(Unrooted(u, owner)) && Lost(w, Unrooted(u, owner), OfOwner(w, owner), Root(owner))
    ensures A.Release(u.authority, space.grant) == (Unrooted(u, owner).authority, true)
    ensures tables - {space.root} == Unrooted(u, owner).tables
  {
    hide Inv, Frames, Places, Entries, KernelOk, Aliases, Lost, OfOwner, A.Release, Childless, Masked;
    Parts(w);
    Parts(u);
    RootStays(w, u, owner);
    PlaceFacts(w, Root(owner));
    SameTables(u.tables, tables);
    UnrootKeeps(u, owner);
    UnrootLoses(u, owner);
    LastLost(w, u, owner);
    Released(u, space.root);
  }

  lemma LastLost(w: World, u: World, owner: nat)
    requires Frames(w) && Places(w) && Root(owner) in w.at && CanUnroot(u, owner)
    requires Lost(w, u, OfOwner(w, owner) - {Root(owner)}, Root(owner)) && Lost(u, Unrooted(u, owner), {Root(owner)}, Root(owner))
    ensures Lost(w, Unrooted(u, owner), OfOwner(w, owner), Root(owner))
  {
    hide Inv, Frames, Places, Lost, OfOwner, Unrooted;
    TablesHeld(w);
    OwnerPlaces(w, owner);
    LostTwice(w, u, Unrooted(u, owner), OfOwner(w, owner) - {Root(owner)}, {Root(owner)}, Root(owner), Root(owner));
    assert OfOwner(w, owner) - {Root(owner)} + {Root(owner)} == OfOwner(w, owner);
  }

  lemma RootStays(w: World, u: World, owner: nat)
    requires Frames(w) && Places(w) && Root(owner) in w.at && Lost(w, u, OfOwner(w, owner) - {Root(owner)}, Root(owner))
    ensures Root(owner) in u.at && u.at[Root(owner)] == w.at[Root(owner)]
    ensures w.at[Root(owner)] in u.authority.frames && u.authority.frames[w.at[Root(owner)]] == w.authority.frames[w.at[Root(owner)]]
    ensures Childless(u, Root(owner))
  {
    hide Frames, Places, KernelWritten;
    PlaceFacts(w, Root(owner));
    var gone := OfOwner(w, owner) - {Root(owner)};
    forall q | q in gone ensures w.at[q] != w.at[Root(owner)] {
      if w.at[q] == w.at[Root(owner)] { AtInjective(w, q, Root(owner)); }
    }
  }

  lemma SameTables(t: Tables, tables: Tables)
    requires Masked(t, {}, tables)
    ensures tables == t
  {
    forall x | x in t ensures tables[x] == t[x] { MaskedRow(t, {}, tables, x); }
  }

  lemma DestroyContinues(w: World, v: World, owner: nat)
    requires Inv(w) && Lost(w, v, OfOwner(w, owner), Root(owner)) && v.authority.frames == w.authority.frames - A.Owned(w.authority, owner)
    ensures Continues(w, v)
  {
    hide Inv, KernelWritten, Frames, Places, Entries, KernelOk, Aliases;
    Parts(w);
    forall o | Root(o) in w.at && w.at[Root(o)] in v.authority.frames ensures Root(o) in v.at && v.at[Root(o)] == w.at[Root(o)] {
      PlaceFacts(w, Root(o));
    }
  }

  lemma NothingLeft(w: World, v: World, owner: nat)
    requires Lost(w, v, OfOwner(w, owner), Root(owner)) && OfOwner(w, owner) <= w.at.Keys
    requires A.Owned(w.authority, owner) == FramesAt(w, OfOwner(w, owner))
    ensures v.authority == w.authority.(frames := w.authority.frames - A.Owned(w.authority, owner))
    ensures A.Owned(v.authority, owner) == {}
  {
    hide OfOwner, KernelWritten;
  }

  lemma StartRunning(q: Request, root: nat)
    requires Root(q.owner) in q.w.at && q.w.at[Root(q.owner)] == root && Index(q.va, 4) == USER_SLOT && Reached(q, q.w, 4)
    ensures Running(q, q.w, 4, root, [], [q.w], [])
  {
    hide Reached, OnWay, Inv;
    ReachedInv(q, q.w, 4);
    OnWayIs(q.owner, q.va);
    TableFound(q.w, Root(q.owner));
  }

  lemma ReachedGrown(q: Request, v: World, level: nat)
    requires Reached(q, v, level)
    ensures Grown(q.w, v, q.owner, PageAt(q))
  {
    hide Inv, Grown, OnWay, Affordable;
  }

  lemma BindLive(a: A.Authority, grant: A.Grant, owner: nat)
    requires A.CanBind(a, grant, owner)
    ensures grant.address in a.frames
  {
  }

  lemma AllocNothing(a: A.Authority, owner: nat)
    ensures !A.CanAlloc(a, owner) ==> A.Alloc(a, owner, A.Table) == (a, None)
    ensures A.CanAlloc(a, owner) ==> A.Alloc(a, owner, A.Table).1.Some?
  {
  }

  lemma GraftUp(w: World, c: Place)
    requires CanGraft(w, c)
    ensures c.level < 4 && Up(c) in w.at
  {
    hide Inv;
  }

  lemma GraftedParent(w: World, c: Place, u: World)
    requires CanGraft(w, c) && SameBut(Grafted(w, c), u)
    ensures ParentHeld(w, c, u)
  {
    hide Inv, A.Alloc;
  }

  ghost predicate ParentHeld(w: World, c: Place, u: World) {
    c.level < 4 && Up(c) in w.at && Up(c) in u.at && u.at[Up(c)] == w.at[Up(c)] && u.at[Up(c)] in u.tables
  }
}
