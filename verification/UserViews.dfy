/** What a change of state means for translations: which pages of which spaces look the same before and after. */
module UserViews {
  import opened Wrappers
  import opened PageTable
  import opened UserPlaces
  import opened UserWorld
  import opened UserSteps
  import A = Authority

  /** The page at place `c` is mapped to the same frame with the same leaf in both states, or in neither. */
  ghost predicate SameLeaf(w: World, v: World, c: Place) {
    && (c in w.at <==> c in v.at)
    && (c in w.at ==> v.at[c] == w.at[c] && forall e :: UserLeaf(w, w.at[c], e) ==> UserLeaf(v, v.at[c], e))
  }

  /** All pages but one are unaffected. */
  ghost predicate LeavesSame(w: World, v: World, except: Place) {
    forall c: Place :: c.level == 0 && c != except ==> SameLeaf(w, v, c)
  }

  ghost predicate RootsSame(w: World, v: World) {
    forall owner :: (Root(owner) in w.at <==> Root(owner) in v.at) && (Root(owner) in w.at ==> v.at[Root(owner)] == w.at[Root(owner)])
  }

  /** Both states send `va` of this space to the same physical address, or to none, and with the same rights; the one
      exception is the kernel's own right to write where it sees one of the frames `touched`. */
  ghost predicate SameTranslation(w: World, v: World, owner: nat, va: nat, touched: set<nat>) {
    && Root(owner) in w.at && Root(owner) in v.at
    && Mapped(w.tables, w.at[Root(owner)], 4) && Mapped(v.tables, v.at[Root(owner)], 4)
    && SameView(Walk(w.tables, w.at[Root(owner)], 4, va), Walk(v.tables, v.at[Root(owner)], 4, va), if Index(va, 4) == USER_SLOT then {} else touched)
    && Translate(w.tables, w.at[Root(owner)], va) == Translate(v.tables, v.at[Root(owner)], va)
  }

  /** The same leaf, or the alias of one of the frames `touched` with another right to write. */
  predicate SameView(a: Option<Leaf>, b: Option<Leaf>, touched: set<nat>) {
    a == b || (SameTarget(a, b) && a.Some? && a.value.nx && a.value.entry.address in touched)
  }

  /** Managed frames that hold no table. */
  ghost predicate NoTables(w: World, touched: set<nat>) {
    forall f :: f in touched ==> f !in w.tables && f in w.authority.managed
  }

  /** Writing aliases changes the kernel's walk only where it ends in one of them. */
  lemma {:induction false} WrittenWalk(w: World, v: World, touched: set<nat>, t: nat, level: nat, va: nat)
    requires KernelOk(w) && Aliases(w) && KernelWritten(w, v, touched) && NoTables(w, touched)
    requires Mapped(w.tables, t, level) && TreeSet(w.tables, t, level) <= TreeSet(w.tables, w.kernel, 4)
    ensures Mapped(v.tables, t, level) && SameView(Walk(w.tables, t, level, va), Walk(v.tables, t, level, va), touched)
    decreases level
  {
    hide TreeSet, KernelAlike, Aliases, KernelOk, AliasCell;
    KernelTreeAlike(w, v);
    AlikeWalk(w.tables, v.tables, t, level, va);
    TreeSetInTables(w.tables, t, level);
    KernelTreeTable(w, t);
    var s := Index(va, level);
    var e := w.tables[t][s];
    if v.tables[t][s] != e {
      WrittenCell(w, t, s, touched);
    }
    if Branch(level, e) {
      ChildInTree(w.tables, t, level, s);
      ChildIs(w.tables, t, level, s);
      WrittenWalk(w, v, touched, e.address, level - 1, va);
    }
  }

  lemma KernelTreeTable(w: World, t: nat)
    requires KernelOk(w) && t in TreeSet(w.tables, w.kernel, 4)
    ensures KernelTable(w, t)
  {
  }

  /** An alias is no branch and not executable. */
  lemma WrittenCell(w: World, t: nat, s: nat, touched: set<nat>)
    requires Aliases(w) && NoTables(w, touched) && t in w.tables && s < ENTRIES && AliasCell(w, t, s, touched)
    ensures w.tables[t][s].nx && w.tables[t][s].address in touched && w.tables[t][s].address !in w.tables
  {
    assert AliasOk(w, w.tables[t][s].address);
  }

  lemma TargetsTranslate(a: Option<Leaf>, b: Option<Leaf>, va: nat)
    requires SameTarget(a, b) && a.Some? && 1 <= a.value.level <= 4
    ensures Target(a.value, va) == Target(b.value, va)
  {
  }

  /** A page whose leaf stays, and everything outside the user slot, keeps its translation. */
  lemma Undisturbed(w: World, v: World, owner: nat, va: nat, touched: set<nat>)
    requires Inv(w) && Inv(v) && KernelWritten(w, v, touched) && NoTables(w, touched) && Root(owner) in w.at && Root(owner) in v.at
    requires Index(va, 4) == USER_SLOT ==> SameLeaf(w, v, Place(owner, 0, PageOf(va)))
    ensures SameTranslation(w, v, owner, va, touched)
  {
    hide Frames, Places, Entries, KernelOk, Aliases, TreeSet, Walk, Mapped, KernelAlike, UserLeaf;
    if Index(va, 4) == USER_SLOT {
      UserWalk(w, owner, va);
      UserWalk(v, owner, va);
      OneLeaf(v, Place(owner, 0, PageOf(va)));
    } else {
      SharedWalk(w, owner, va);
      SharedWalk(v, owner, va);
      WrittenWalk(w, v, touched, w.kernel, 4, va);
      WrittenAlike(w, v, touched);
    }
    var root, root' := w.at[Root(owner)], v.at[Root(owner)];
    WalkLevel(w.tables, root, 4, va);
    WalkLevel(v.tables, root', 4, va);
    if Walk(w.tables, root, 4, va).Some? && Walk(w.tables, root, 4, va) != Walk(v.tables, root', 4, va) {
      TargetsTranslate(Walk(w.tables, root, 4, va), Walk(v.tables, root', 4, va), va);
    }
  }

  // ----- nothing is writable and executable -----

  /** The kernel's own map has no leaf that is writable and executable. */
  ghost predicate KernelSealed(w: World) {
    Mapped(w.tables, w.kernel, 4) && forall va: nat :: NotBoth(Walk(w.tables, w.kernel, 4, va))
  }

  predicate NotBoth(leaf: Option<Leaf>) { leaf.Some? ==> !(leaf.value.writable && !leaf.value.nx) }

  /** Writing aliases keeps the kernel's map sealed. */
  lemma SealedStays(w: World, v: World, touched: set<nat>)
    requires Inv(w) && KernelWritten(w, v, touched) && NoTables(w, touched) && KernelSealed(w)
    ensures KernelSealed(v)
  {
    hide Frames, Places, Entries, KernelOk, Aliases, TreeSet, Walk, Mapped, KernelAlike;
    WrittenAlike(w, v, touched);
    WrittenWalk(w, v, touched, w.kernel, 4, 0);
    forall va: nat ensures NotBoth(Walk(v.tables, v.kernel, 4, va)) {
      WrittenWalk(w, v, touched, w.kernel, 4, va);
      assert NotBoth(Walk(w.tables, w.kernel, 4, va));
    }
  }

  /** In no space is any address writable and executable, for user mode or for the kernel. */
  lemma NeverBoth(w: World, owner: nat, va: nat)
    requires Inv(w) && KernelSealed(w) && Root(owner) in w.at
    ensures Mapped(w.tables, w.at[Root(owner)], 4) && NotBoth(Walk(w.tables, w.at[Root(owner)], 4, va))
  {
    hide Frames, Places, Entries, KernelOk, Aliases, TreeSet, Walk, Mapped, UserLeaf;
    if Index(va, 4) == USER_SLOT {
      UserWalk(w, owner, va);
    } else {
      SharedWalk(w, owner, va);
      assert NotBoth(Walk(w.tables, w.kernel, 4, va));
    }
  }

  /** A mapped page has one leaf. */
  lemma OneLeaf(w: World, c: Place)
    ensures c in w.at ==> forall e, e' :: UserLeaf(w, w.at[c], e) && UserLeaf(w, w.at[c], e') ==> e == e'
  {
  }

  // ----- the steps -----

  lemma SameLeafTransitive(w: World, v: World, u: World, except: Place)
    requires LeavesSame(w, v, except) && LeavesSame(v, u, except)
    ensures LeavesSame(w, u, except)
  {
    hide UserLeaf;
    forall c: Place | c.level == 0 && c != except ensures SameLeaf(w, u, c) {
      assert SameLeaf(w, v, c) && SameLeaf(v, u, c);
    }
  }

  /** Linking an empty table changes no page. */
  lemma GraftLeaves(w: World, c: Place, except: Place)
    requires CanGraft(w, c)
    ensures LeavesSame(w, Grafted(w, c), except) && RootsSame(w, Grafted(w, c))
  {
    hide Frames, Places, Entries, KernelOk, Aliases, A.Alloc, A.CanAlloc;
    Fresh(w, c.owner, A.Table);
    PlaceFacts(w, Up(c));
    var v := Grafted(w, c);
    forall q: Place | q.level == 0 && q != except ensures SameLeaf(w, v, q) {
      if q in w.at {
        PlaceFacts(w, q);
        LeafTable(w, w.at[q], Up(c));
        PlaceFacts(w, Up(q));
      }
    }
  }

  lemma AliasHolds(w: World, f: nat)
    requires Aliases(w) && f in w.authority.managed
    ensures AliasOk(w, f)
  {
  }

  /** Mapping a page writes the alias of its frame and nothing else in the kernel's tables. */
  lemma PublishWrites(w: World, c: Place, f: nat, writable: bool, executable: bool)
    requires CanPublish(w, c, f, writable, executable)
    ensures KernelWritten(w, Published(w, c, f, writable, executable), {f}) && NoTables(w, {f})
  {
    hide Frames, Places, Entries, KernelOk, Aliases, A.Bind, A.CanBind, Published, KernelWritten, AliasOk, Wrote, AliasPath;
    PublishTables(w, c, f, writable, executable);
    Bindable(w, c, f);
    AliasHolds(w, f);
    WroteIsWritten(w, Published(w, c, f, writable, executable), f, writable, w.at[Up(c)], SlotOf(c), LeafEntry(f, writable, executable));
  }

  /** Mapping a page changes that page only. */
  lemma PublishLeaves(w: World, c: Place, f: nat, writable: bool, executable: bool)
    requires CanPublish(w, c, f, writable, executable)
    ensures var v := Published(w, c, f, writable, executable);
            LeavesSame(w, v, c) && RootsSame(w, v) && UserLeaf(v, f, LeafEntry(f, writable, executable))
  {
    hide Frames, Places, Entries, KernelOk, Aliases, A.Bind, A.CanBind, Linked, AliasSet, KernelAlike, AliasHome, AliasPath, AliasTable;
    PublishTables(w, c, f, writable, executable);
    PlaceFacts(w, Up(c));
    Bindable(w, c, f);
    var v := Published(w, c, f, writable, executable);
    forall q: Place | q.level == 0 && q != c ensures SameLeaf(w, v, q) {
      if q in w.at {
        PlaceFacts(w, q);
        OtherLeaf(w, c, w.at[q]);
      }
    }
  }
}
