/** The remaining steps: unmapping a page, opening and closing a space, and handing out a page. */
module UserLifecycle {
  import opened Wrappers
  import opened PageTable
  import opened UserPlaces
  import opened UserWorld
  import opened UserSteps
  import A = Authority

  // ----- unmapping a page and giving it back -----

  /** The leaf is cleared, the alias becomes writable, the pin is retired and the frame released. */
  ghost function Unpublished(w: World, c: Place): World
    requires UnpublishShape(w, c)
  {
    World(Linked(AliasSet(w, w.at[c], true), w.at[Up(c)], SlotOf(c), ZERO),
          w.authority.(frames := w.authority.frames - {w.at[c]}), w.at - {c}, w.place - {w.at[c]}, w.kernel)
  }

  ghost predicate UnpublishShape(w: World, c: Place) {
    c in w.at && c.level == 0 && Up(c) in w.at && w.at[Up(c)] in w.tables && AliasPath(w, w.kernel, 4, w.at[c])
  }

  ghost predicate CanUnpublish(w: World, c: Place) { UnpublishShape(w, c) && Inv(w) }

  /** Retiring the pin and then releasing the grant both succeed. */
  lemma RetiredAndReleased(w: World, c: Place)
    requires Frames(w) && Places(w) && c in w.at && c.level == 0
    ensures var f := w.at[c];
            && A.MappingMatches(w.authority, c.owner, f, Va(c.number))
            && var (a, g) := A.Retire(w.authority, c.owner, f, Va(c.number));
               && g == Some(w.authority.frames[f].grant)
               && A.Release(a, g.value) == (w.authority.(frames := w.authority.frames - {f}), true)
               && A.Ok(w.authority.(frames := w.authority.frames - {f}))
  {
    hide Places, A.Ok;
    PlaceFacts(w, c);
    var f := w.at[c];
    var (a, g) := A.Retire(w.authority, c.owner, f, Va(c.number));
    A.ApplyKeeps(w.authority, A.OpRetire(c.owner, f, Va(c.number)));
    A.ReleaseKeeps(a, g.value);
    assert a.frames - {f} == w.authority.frames - {f};
  }

  lemma UnpublishFrames(w: World, c: Place)
    requires CanUnpublish(w, c)
    ensures Frames(Unpublished(w, c))
  {
    hide Aliases, KernelOk, Entries, A.Ok, Places, AliasPath, AliasTable;
    PlaceFacts(w, c);
    PlaceFacts(w, Up(c));
    RetiredAndReleased(w, c);
  }

  lemma UnpublishPlaces(w: World, c: Place)
    requires CanUnpublish(w, c)
    ensures Places(Unpublished(w, c))
  {
    hide Aliases, KernelOk, Entries, A.Ok, Frames, Linked, AliasSet, AliasPath, AliasTable, Places;
    PlaceFacts(w, c);
    PlacesWithout(w, Unpublished(w, c), c);
  }

  /** What unmapping a page writes. */
  ghost predicate UnpublishWrote(w: World, c: Place) {
    && UnpublishShape(w, c)
    && Wrote(w, Unpublished(w, c), AliasHome(w, w.at[c]), w.at[c], true, w.at[Up(c)], SlotOf(c), ZERO)
  }

  lemma UnpublishTables(w: World, c: Place)
    requires CanUnpublish(w, c)
    ensures UnpublishWrote(w, c)
  {
    hide Inv, A.Ok, AliasPath, AliasTable, KernelAlike, Linked, Frames, Places, Entries, KernelOk, Aliases;
    Parts(w);
    KernelRoot(w);
    PlaceFacts(w, Up(c));
    PlaceFacts(w, c);
    NotATable(w, w.at[c]);
    var f := w.at[c];
    var v := Unpublished(w, c);
    var t := AliasTable(w, w.kernel, 4, f);
    TwoWrites(w.tables, t, w.tables[t][Index(f, 1) := w.tables[t][Index(f, 1)].(writable := true)], w.at[Up(c)], SlotOf(c), ZERO);
    AlikeAfter(w, v, t, w.at[Up(c)], Index(f, 1), true);
  }

  lemma UnpublishEntries(w: World, c: Place)
    requires CanUnpublish(w, c)
    ensures Entries(Unpublished(w, c))
  {
    hide Aliases, KernelOk, A.Ok, Frames, Places, AliasPath, AliasTable, Linked, AliasSet;
    PlaceFacts(w, c);
    PlaceFacts(w, Up(c));
    KernelRoot(w);
    UpChild(c);
    var v := Unpublished(w, c);
    UnpublishTables(w, c);
    forall p, s | p in v.at && 1 <= p.level <= 4 && 0 <= s < ENTRIES ensures SlotOk(v, p, s) {
      PlaceFacts(w, p);
      SlotFact(w, p, s);
      if UserSlot(p, s) { ChildUp(p, s); }
    }
  }

  lemma UnpublishAliases(w: World, c: Place)
    requires CanUnpublish(w, c)
    ensures Aliases(Unpublished(w, c))
  {
    hide KernelOk, A.Ok, Frames, Places, AliasPath, AliasTable, Linked, AliasSet, Entries;
    PlaceFacts(w, c);
    PlaceFacts(w, Up(c));
    var v := Unpublished(w, c);
    var f := w.at[c];
    UnpublishTables(w, c);
    assert AliasOk(w, f);
    forall g | g in v.authority.managed ensures AliasOk(v, g) {
      assert AliasOk(w, g);
      AliasEntry(w, g);
      if g == f {
        AliasPathKeeps(w, v, w.kernel, 4, f);
      } else {
        AliasesDiffer(w, f, g);
        forall e | UserLeaf(v, g, e) ensures UserLeaf(w, g, e) { OtherLeaf(w, c, g); }
        AliasKeeps(w, v, g);
      }
    }
  }

  lemma UnpublishKeeps(w: World, c: Place)
    requires CanUnpublish(w, c)
    ensures Inv(Unpublished(w, c))
  {
    hide Frames, Places, Entries, Aliases, KernelOk, Unpublished, AliasPath, AliasTable;
    var v := Unpublished(w, c);
    UnpublishFrames(w, c);
    UnpublishPlaces(w, c);
    UnpublishEntries(w, c);
    UnpublishAliases(w, c);
    UnpublishTables(w, c);
    SlotZero(w, c);
    KernelPart(w, v);
  }

  // ----- opening a space -----

  ghost predicate RootShape(w: World, owner: nat) {
    && Root(owner) !in w.at && owner != A.KERNEL && owner < w.authority.nextOwner && A.CanAlloc(w.authority, owner)
    && w.kernel in w.tables && w.tables[w.kernel][USER_SLOT] == ZERO
  }

  ghost predicate CanRoot(w: World, owner: nat) { RootShape(w, owner) && Inv(w) }

  /** A root that starts as a copy of the kernel's. */
  ghost function Rooted(w: World, owner: nat): World
    requires RootShape(w, owner)
  {
    var f := A.Alloc(w.authority, owner, A.Table).1.value.address;
    World(w.tables[f := w.tables[w.kernel]], A.Alloc(w.authority, owner, A.Table).0, w.at[Root(owner) := f],
          w.place[f := Root(owner)], w.kernel)
  }

  lemma RootFrames(w: World, owner: nat)
    requires CanRoot(w, owner)
    ensures Frames(Rooted(w, owner)) && KernelSame(w, Rooted(w, owner))
  {
    hide Aliases, KernelOk, Entries, A.Alloc, A.CanAlloc, A.Ok, Places;
    Fresh(w, owner, A.Table);
  }

  lemma RootPlaces(w: World, owner: nat)
    requires CanRoot(w, owner)
    ensures Places(Rooted(w, owner))
  {
    hide Aliases, KernelOk, Entries, A.Alloc, A.CanAlloc, A.Ok, Frames, Places;
    Fresh(w, owner, A.Table);
    var v := Rooted(w, owner);
    PlacesWith(w, v, Root(owner), v.at[Root(owner)]);
  }

  lemma RootEntries(w: World, owner: nat)
    requires CanRoot(w, owner)
    ensures Entries(Rooted(w, owner))
  {
    hide Aliases, KernelOk, A.Alloc, A.CanAlloc, A.Ok, Frames, Places, IsLeaf;
    Fresh(w, owner, A.Table);
    KernelRoot(w);
    var v := Rooted(w, owner);
    forall p, s | p in v.at && 1 <= p.level <= 4 && 0 <= s < ENTRIES ensures SlotOk(v, p, s) {
      if p == Root(owner) {
        UpIn(w, Child(p, s));
      } else {
        PlaceFacts(w, p);
        SlotFact(w, p, s);
      }
    }
  }

  lemma RootAliases(w: World, owner: nat)
    requires CanRoot(w, owner)
    ensures Aliases(Rooted(w, owner))
  {
    hide KernelOk, A.Alloc, A.CanAlloc, A.Ok, Frames, Places, AliasOk, AliasPath, AliasTable, Entries;
    Fresh(w, owner, A.Table);
    KernelRoot(w);
    var v := Rooted(w, owner);
    RootFrames(w, owner);
    SameIsAlike(w, v);
    forall f | f in v.authority.managed ensures AliasOk(v, f) {
      assert AliasOk(w, f);
      AliasEntry(w, f);
      forall e | UserLeaf(v, f, e) ensures UserLeaf(w, f, e) { OtherLeaf(w, Place(owner, 0, 0), f); }
      AliasKeeps(w, v, f);
    }
  }

  lemma RootKeeps(w: World, owner: nat)
    requires CanRoot(w, owner)
    ensures Inv(Rooted(w, owner))
  {
    hide Frames, Places, Entries, Aliases, KernelOk, Rooted, A.Alloc, A.CanAlloc;
    var v := Rooted(w, owner);
    RootFrames(w, owner);
    RootPlaces(w, owner);
    RootEntries(w, owner);
    RootAliases(w, owner);
    KernelRoot(w);
    SameIsAlike(w, v);
    KernelPart(w, v);
  }

  // ----- closing a space -----

  ghost predicate UnrootShape(w: World, owner: nat) {
    Root(owner) in w.at && w.at[Root(owner)] in w.authority.frames && Childless(w, Root(owner))
  }

  ghost predicate CanUnroot(w: World, owner: nat) { UnrootShape(w, owner) && Inv(w) }

  ghost function Unrooted(w: World, owner: nat): World
    requires UnrootShape(w, owner)
  {
    var f := w.at[Root(owner)];
    World(w.tables - {f}, A.Release(w.authority, w.authority.frames[f].grant).0, w.at - {Root(owner)}, w.place - {f}, w.kernel)
  }

  lemma UnrootFrames(w: World, owner: nat)
    requires CanUnroot(w, owner)
    ensures Frames(Unrooted(w, owner)) && KernelSame(w, Unrooted(w, owner))
  {
    hide Aliases, KernelOk, Entries, A.Ok, Places;
    PlaceFacts(w, Root(owner));
    Released(w, w.at[Root(owner)]);
  }

  lemma UnrootPlaces(w: World, owner: nat)
    requires CanUnroot(w, owner)
    ensures Places(Unrooted(w, owner))
  {
    hide Aliases, KernelOk, Entries, A.Ok, Frames, A.Release, Childless, Places;
    PlaceFacts(w, Root(owner));
    Released(w, w.at[Root(owner)]);
    NothingBelow(w, Root(owner));
    PlacesWithout(w, Unrooted(w, owner), Root(owner));
  }

  lemma UnrootEntries(w: World, owner: nat)
    requires CanUnroot(w, owner)
    ensures Entries(Unrooted(w, owner))
  {
    hide Aliases, KernelOk, A.Ok, Frames, Places, IsLeaf, A.Release;
    PlaceFacts(w, Root(owner));
    KernelRoot(w);
    var v := Unrooted(w, owner);
    forall p, s | p in v.at && 1 <= p.level <= 4 && 0 <= s < ENTRIES ensures SlotOk(v, p, s) {
      PlaceFacts(w, p);
      SlotFact(w, p, s);
    }
  }

  lemma UnrootAliases(w: World, owner: nat)
    requires CanUnroot(w, owner)
    ensures Aliases(Unrooted(w, owner))
  {
    hide KernelOk, A.Ok, Frames, Places, AliasOk, AliasPath, AliasTable, Entries, A.Release;
    PlaceFacts(w, Root(owner));
    KernelRoot(w);
    Released(w, w.at[Root(owner)]);
    var v := Unrooted(w, owner);
    UnrootFrames(w, owner);
    SameIsAlike(w, v);
    forall f | f in v.authority.managed ensures AliasOk(v, f) {
      assert AliasOk(w, f);
      AliasEntry(w, f);
      forall e | UserLeaf(v, f, e) ensures UserLeaf(w, f, e) { LeafTable(w, f, Root(owner)); }
      AliasKeeps(w, v, f);
    }
  }

  lemma UnrootKeeps(w: World, owner: nat)
    requires CanUnroot(w, owner)
    ensures Inv(Unrooted(w, owner))
  {
    hide Frames, Places, Entries, Aliases, KernelOk, Unrooted;
    var v := Unrooted(w, owner);
    UnrootFrames(w, owner);
    UnrootPlaces(w, owner);
    UnrootEntries(w, owner);
    UnrootAliases(w, owner);
    KernelRoot(w);
    SameIsAlike(w, v);
    SlotZero(w, Root(owner));
    KernelPart(w, v);
  }

  // ----- steps of the authority alone -----

  /** An unmapped page for an owner, or a new owner: no table and no place changes. */
  lemma AuthorityStep(w: World, a: A.Authority)
    requires Inv(w) && A.Ok(a) && a.managed == w.authority.managed && w.authority.nextOwner <= a.nextOwner
    requires forall f :: f in w.authority.frames ==> f in a.frames && a.frames[f] == w.authority.frames[f]
    requires forall f :: f in a.frames && f !in w.authority.frames ==>
               a.frames[f].grant.kind == A.User && a.frames[f].mappedAt == 0 && a.frames[f].grant.owner < a.nextOwner
    ensures Inv(w.(authority := a))
  {
    hide A.Ok, AliasOk, AliasPath, AliasTable, Frames, Places, TreeSet, Entries;
    var v := w.(authority := a);
    StepFrames(w, a);
    StepPlaces(w, a);
    KernelRoot(w);
    SameIsAlike(w, v);
    KernelPart(w, v);
    forall f | f in v.authority.managed ensures AliasOk(v, f) {
      assert AliasOk(w, f);
      AliasEntry(w, f);
      AliasKeeps(w, v, f);
    }
    SameEntries(w, v);
  }

  lemma SameEntries(w: World, v: World)
    requires Entries(w) && v.tables == w.tables && v.at == w.at && v.kernel == w.kernel
    ensures Entries(v)
  {
    forall p, s | p in v.at && 1 <= p.level <= 4 && 0 <= s < ENTRIES ensures SlotOk(v, p, s) { SlotFact(w, p, s); }
  }

  lemma StepFrames(w: World, a: A.Authority)
    requires Frames(w) && A.Ok(a) && w.authority.nextOwner <= a.nextOwner
    requires forall f :: f in w.authority.frames ==> f in a.frames && a.frames[f] == w.authority.frames[f]
    requires forall f :: f in a.frames && f !in w.authority.frames ==>
               a.frames[f].grant.kind == A.User && a.frames[f].mappedAt == 0 && a.frames[f].grant.owner < a.nextOwner
    ensures Frames(w.(authority := a)) && KernelSame(w, w.(authority := a))
  {
    hide A.Ok;
  }

  lemma StepPlaces(w: World, a: A.Authority)
    requires Places(w) && forall f :: f in w.authority.frames ==> f in a.frames && a.frames[f] == w.authority.frames[f]
    ensures Places(w.(authority := a))
  {
    var v := w.(authority := a);
    forall f | f in v.place ensures PlaceOk(v, f) { assert PlaceOk(w, f); }
  }
}
