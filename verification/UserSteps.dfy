/** The single steps every operation on user address spaces is made of. Each keeps the invariant. */
module UserSteps {
  import opened Wrappers
  import opened PageTable
  import opened UserPlaces
  import opened UserWorld
  import A = Authority

  // ----- what the steps leave alone -----

  /** Equal but for the right to write. */
  predicate AlikeEntry(a: Entry, b: Entry) { b == a.(writable := b.writable) }

  predicate AlikeRow(a: Table, b: Table) {
    forall s :: 0 <= s < ENTRIES ==> AlikeEntry(a[s], b[s])
  }

  /** The kernel's tables differ at most in write rights, and not at all in the root. */
  ghost predicate KernelAlike(w: World, v: World) {
    && v.kernel == w.kernel && w.kernel in w.tables && w.kernel in v.tables
    && v.tables[w.kernel] == w.tables[w.kernel]
    && (forall t :: KernelTable(w, t) <==> KernelTable(v, t))
    && (forall t :: KernelTable(w, t) ==> AlikeRow(w.tables[t], v.tables[t]))
  }

  ghost predicate KernelSame(w: World, v: World) {
    && v.kernel == w.kernel
    && (forall t :: KernelTable(w, t) <==> KernelTable(v, t))
    && (forall t :: KernelTable(w, t) ==> v.tables[t] == w.tables[t])
  }

  ghost predicate AlikeOn(a: Tables, b: Tables, on: set<nat>) {
    forall t :: t in on ==> t in a && t in b && AlikeRow(a[t], b[t])
  }

  /** Write rights do not matter to the shape of a tree. */
  lemma {:induction false} AlikeTree(a: Tables, b: Tables, root: nat, level: nat)
    requires Mapped(a, root, level) && AlikeOn(a, b, TreeSet(a, root, level))
    ensures Mapped(b, root, level) && TreeSet(b, root, level) == TreeSet(a, root, level)
    decreases level
  {
    assert root in TreeSet(a, root, level);
    forall s | 0 <= s < ENTRIES && Branch(level, a[root][s])
      ensures var c := a[root][s].address;
              Mapped(b, c, level - 1) && TreeSet(b, c, level - 1) == TreeSet(a, c, level - 1)
    {
      ChildInTree(a, root, level, s);
      AlikeTree(a, b, a[root][s].address, level - 1);
    }
    assert forall s :: 0 <= s < ENTRIES ==> AlikeEntry(a[root][s], b[root][s]);
    assert Mapped(b, root, level);
    forall s | 0 <= s < ENTRIES ensures ChildSet(b, root, level, s) == ChildSet(a, root, level, s) { }
  }

  /** Same page up to the right to write. */
  predicate SameTarget(a: Option<Leaf>, b: Option<Leaf>) {
    && a.Some? == b.Some?
    && (a.Some? ==> b.value.level == a.value.level && b.value.user == a.value.user && b.value.nx == a.value.nx
                    && b.value.entry == a.value.entry.(writable := b.value.entry.writable))
  }

  lemma {:induction false} AlikeWalk(a: Tables, b: Tables, root: nat, level: nat, va: nat)
    requires Mapped(a, root, level) && AlikeOn(a, b, TreeSet(a, root, level))
    ensures Mapped(b, root, level) && SameTarget(Walk(a, root, level, va), Walk(b, root, level, va))
    decreases level
  {
    hide TreeSet;
    AlikeTree(a, b, root, level);
    TreeSetInTables(a, root, level);
    var s := Index(va, level);
    assert AlikeEntry(a[root][s], b[root][s]);
    if Branch(level, a[root][s]) {
      ChildInTree(a, root, level, s);
      ChildIs(a, root, level, s);
      AlikeWalk(a, b, a[root][s].address, level - 1, va);
    }
  }

  lemma ChildIs(t: Tables, root: nat, level: nat, s: nat)
    requires Mapped(t, root, level) && s < ENTRIES && Branch(level, t[root][s])
    ensures Mapped(t, t[root][s].address, level - 1)
    ensures TreeSet(t, t[root][s].address, level - 1) == ChildSet(t, root, level, s)
  {
  }

  lemma KernelTreeAlike(w: World, v: World)
    requires KernelOk(w) && KernelAlike(w, v)
    ensures AlikeOn(w.tables, v.tables, TreeSet(w.tables, w.kernel, 4))
  {
    hide TreeSet, AlikeRow;
    forall t | t in TreeSet(w.tables, w.kernel, 4)
      ensures t in w.tables && t in v.tables && AlikeRow(w.tables[t], v.tables[t])
    {
      assert KernelTable(w, t) && KernelTable(v, t);
    }
  }

  lemma KernelPart(w: World, v: World)
    requires KernelOk(w) && KernelAlike(w, v) && (w.tables[w.kernel][USER_SLOT] == ZERO || v.at == map[])
    ensures KernelOk(v)
  {
    hide TreeSet;
    KernelTreeAlike(w, v);
    AlikeTree(w.tables, v.tables, w.kernel, 4);
    forall t | KernelTable(v, t) ensures NoUser(v.tables[t]) {
      assert KernelTable(w, t) && NoUser(w.tables[t]) && AlikeRow(w.tables[t], v.tables[t]);
    }
    assert KernelTable(v, w.kernel);
  }

  lemma SameIsAlike(w: World, v: World)
    requires KernelTable(w, w.kernel) && KernelSame(w, v)
    ensures KernelAlike(w, v)
  {
    assert KernelTable(v, w.kernel);
  }

  lemma {:induction false} AliasPathKeeps(w: World, v: World, t: nat, level: nat, f: nat)
    requires 1 <= level <= 4 && AliasPath(w, t, level, f) && KernelAlike(w, v)
    ensures AliasPath(v, t, level, f) && AliasTable(v, t, level, f) == AliasTable(w, t, level, f)
    decreases level
  {
    assert KernelTable(v, t) && AlikeRow(w.tables[t], v.tables[t]);
    if level > 1 {
      var s := Index(f, level);
      assert AlikeEntry(w.tables[t][s], v.tables[t][s]);
      AliasPathKeeps(w, v, w.tables[t][s].address, level - 1, f);
    }
  }

  // ----- what is written in the kernel's tables -----

  /** Slot `s` of kernel table `t` holds the alias of one of the frames `touched`. */
  ghost predicate AliasCell(w: World, t: nat, s: nat, touched: set<nat>)
    requires t in w.tables && s < ENTRIES
  {
    var f := w.tables[t][s].address;
    f in touched && t == AliasHome(w, f) && s == Index(f, 1)
  }

  /** The kernel's tables are equal but for the write right in the aliases of `touched`. */
  ghost predicate KernelWritten(w: World, v: World, touched: set<nat>) {
    && KernelAlike(w, v)
    && (forall t, s :: KernelTable(w, t) && 0 <= s < ENTRIES && v.tables[t][s] != w.tables[t][s] ==> AliasCell(w, t, s, touched))
  }

  lemma WrittenAlike(w: World, v: World, touched: set<nat>)
    requires KernelWritten(w, v, touched)
    ensures KernelAlike(w, v) && v.kernel == w.kernel
  {
  }

  lemma SameIsWritten(w: World, v: World)
    requires KernelTable(w, w.kernel) && KernelSame(w, v)
    ensures KernelWritten(w, v, {})
  {
    SameIsAlike(w, v);
  }

  lemma AlikeBack(w: World, v: World)
    requires KernelAlike(w, v)
    ensures KernelAlike(v, w)
  {
    forall t | KernelTable(v, t) ensures AlikeRow(v.tables[t], w.tables[t]) {
      assert KernelTable(w, t) && AlikeRow(w.tables[t], v.tables[t]);
      forall s | 0 <= s < ENTRIES ensures AlikeEntry(v.tables[t][s], w.tables[t][s]) {
        assert AlikeEntry(w.tables[t][s], v.tables[t][s]);
      }
    }
  }

  /** Every alias stays where it is. */
  lemma AliasHomeStays(w: World, v: World, f: nat)
    requires KernelAlike(w, v)
    ensures AliasHome(v, f) == AliasHome(w, f)
  {
    hide KernelAlike, AliasPath, AliasTable;
    AlikeBack(w, v);
    AlikeRoot(w, v);
    if AliasPath(w, w.kernel, 4, f) {
      AliasPathKeeps(w, v, w.kernel, 4, f);
    } else if AliasPath(v, v.kernel, 4, f) {
      AliasPathKeeps(v, w, v.kernel, 4, f);
    }
  }

  lemma AlikeRoot(w: World, v: World)
    requires KernelAlike(w, v)
    ensures v.kernel == w.kernel
  {
  }

  lemma KernelAlikeTransitive(w: World, v: World, u: World)
    requires KernelAlike(w, v) && KernelAlike(v, u)
    ensures KernelAlike(w, u)
  {
    forall t | KernelTable(w, t) ensures AlikeRow(w.tables[t], u.tables[t]) {
      assert KernelTable(v, t) && AlikeRow(w.tables[t], v.tables[t]) && AlikeRow(v.tables[t], u.tables[t]);
      forall s | 0 <= s < ENTRIES ensures AlikeEntry(w.tables[t][s], u.tables[t][s]) {
        assert AlikeEntry(w.tables[t][s], v.tables[t][s]) && AlikeEntry(v.tables[t][s], u.tables[t][s]);
      }
    }
  }

  lemma WrittenTransitive(w: World, v: World, u: World, a: set<nat>, b: set<nat>)
    requires KernelWritten(w, v, a) && KernelWritten(v, u, b)
    ensures KernelWritten(w, u, a + b)
  {
    hide AliasHome;
    KernelAlikeTransitive(w, v, u);
    forall t, s | KernelTable(w, t) && 0 <= s < ENTRIES && u.tables[t][s] != w.tables[t][s] ensures AliasCell(w, t, s, a + b) {
      assert KernelTable(v, t) && AlikeRow(w.tables[t], v.tables[t]);
      assert AlikeEntry(w.tables[t][s], v.tables[t][s]);
      if v.tables[t][s] != w.tables[t][s] {
        assert AliasCell(w, t, s, a);
      } else {
        assert AliasCell(v, t, s, b);
        AliasHomeStays(w, v, w.tables[t][s].address);
      }
    }
  }

  lemma WrittenOnce(w: World, v: World, u: World, touched: set<nat>)
    requires KernelWritten(w, v, {}) && KernelWritten(v, u, touched)
    ensures KernelWritten(w, u, touched)
  {
    hide KernelWritten;
    WrittenTransitive(w, v, u, {}, touched);
    assert {} + touched == touched;
  }

  /** An alias stays right if neither its entry nor the mapping of its frame changed. */
  lemma AliasKeeps(w: World, v: World, f: nat)
    requires AliasOk(w, f) && KernelAlike(w, v)
    requires var t := AliasTable(w, w.kernel, 4, f);
             t in v.tables && v.tables[t][Index(f, 1)] == w.tables[t][Index(f, 1)]
    requires f in v.place && v.place[f].level == 0 ==> f in w.place && w.place[f].level == 0
    requires forall e :: UserLeaf(v, f, e) ==> UserLeaf(w, f, e)
    requires f in w.place && w.place[f].level == 0 ==> f in v.place && v.place[f] == w.place[f]
    ensures AliasOk(v, f)
  {
    hide UserLeaf;
    AliasPathKeeps(w, v, w.kernel, 4, f);
  }

  /** Different frames have different aliases. */
  lemma AliasesDiffer(w: World, f: nat, g: nat)
    requires AliasOk(w, f) && AliasOk(w, g) && f != g
    ensures AliasTable(w, w.kernel, 4, f) != AliasTable(w, w.kernel, 4, g) || Index(f, 1) != Index(g, 1)
  {
  }

  // ----- places come and go one at a time -----

  lemma PlacesWith(w: World, v: World, c: Place, f: nat)
    requires Places(w) && c !in w.at && f !in w.place && v.at == w.at[c := f] && v.place == w.place[f := c]
    requires forall g :: g in w.place && g in w.authority.frames ==> g in v.authority.frames && v.authority.frames[g] == w.authority.frames[g]
    requires f in v.place && PlaceOk(v, f) && (c.level < 4 ==> Up(c) in w.at)
    ensures Places(v)
  {
    forall g | g in v.place ensures PlaceOk(v, g) {
      if g != f { assert PlaceOk(w, g); }
    }
  }

  lemma PlacesWithout(w: World, v: World, c: Place)
    requires Places(w) && c in w.at && v.at == w.at - {c} && v.place == w.place - {w.at[c]}
    requires forall g :: g in v.place && g in w.authority.frames ==> g in v.authority.frames && v.authority.frames[g] == w.authority.frames[g]
    requires forall p :: p in w.at && p.level < 4 ==> Up(p) != c
    ensures Places(v)
  {
    forall g | g in v.place ensures PlaceOk(v, g) { assert PlaceOk(w, g); }
  }

  /** Nothing hangs below the table at `c`. */
  ghost predicate Childless(w: World, c: Place)
    requires 1 <= c.level <= 4
  {
    forall s :: 0 <= s < ENTRIES ==> Child(c, s) !in w.at
  }

  lemma NothingBelow(w: World, c: Place)
    requires Frames(w) && Places(w) && 1 <= c.level <= 4 && Childless(w, c)
    ensures forall p :: p in w.at && p.level < 4 ==> Up(p) != c
  {
    hide Frames, Places;
    forall p | p in w.at && p.level < 4 ensures Up(p) != c {
      PlaceFacts(w, p);
      UpChild(p);
    }
  }

  // ----- adding and removing a table -----

  function Linked(t: Tables, parent: nat, slot: nat, e: Entry): Tables
    requires parent in t && slot < ENTRIES
  {
    t[parent := t[parent][slot := e]]
  }

  /** A zeroed frame. */
  function Blank(): (t: Table)
    ensures forall s :: 0 <= s < ENTRIES ==> t[s] == ZERO
  {
    seq(512, _ => ZERO)
  }

  /** An empty table at place `c`, linked into its parent. */
  function Graft(w: World, c: Place, a: A.Authority, f: nat): World
    requires c.level < 4 && Up(c) in w.at && w.at[Up(c)] in w.tables
  {
    World(Linked(w.tables[f := Blank()], w.at[Up(c)], SlotOf(c), TableEntry(f)), a, w.at[c := f], w.place[f := c], w.kernel)
  }

  /** A frame just allocated was nobody's. */
  lemma Fresh(w: World, owner: nat, kind: A.Kind)
    requires Frames(w) && A.CanAlloc(w.authority, owner)
    ensures var (a, g) := A.Alloc(w.authority, owner, kind);
            && g.Some?
            && var f := g.value.address;
               && f !in w.authority.frames && f in w.authority.managed && f !in w.tables && f !in w.place
               && a == w.authority.(frames := w.authority.frames[f := A.Holding(g.value, 0)],
                                    nextGeneration := w.authority.nextGeneration + 1)
               && g.value == A.Grant(f, w.authority.nextGeneration, owner, kind) && A.Ok(a)
  {
    hide A.Ok, A.CanAlloc;
    A.AllocCounters(w.authority, owner, kind);
    A.AllocKeeps(w.authority, owner, kind);
  }

  /** The state just before a table is linked at `c`. */
  ghost predicate GraftShape(w: World, c: Place) {
    && Shaped(c) && 1 <= c.level <= 3 && c !in w.at && Up(c) in w.at && w.at[Up(c)] in w.tables
    && A.CanAlloc(w.authority, c.owner)
  }

  ghost predicate CanGraft(w: World, c: Place) { GraftShape(w, c) && Inv(w) }

  ghost function Grafted(w: World, c: Place): (v: World)
    requires GraftShape(w, c)
  {
    Graft(w, c, A.Alloc(w.authority, c.owner, A.Table).0, A.Alloc(w.authority, c.owner, A.Table).1.value.address)
  }

  lemma GraftFrames(w: World, c: Place)
    requires CanGraft(w, c)
    ensures Frames(Grafted(w, c))
  {
    hide Aliases, KernelOk, Entries, A.Alloc, A.CanAlloc, A.Ok, Places;
    PlaceFacts(w, Up(c));
    Fresh(w, c.owner, A.Table);
  }

  lemma GraftPlaces(w: World, c: Place)
    requires CanGraft(w, c)
    ensures Places(Grafted(w, c))
  {
    hide Aliases, KernelOk, Entries, A.Alloc, A.CanAlloc, A.Ok, Frames, Linked, Places;
    PlaceFacts(w, Up(c));
    Fresh(w, c.owner, A.Table);
    var v := Grafted(w, c);
    PlacesWith(w, v, c, v.at[c]);
  }

  lemma GraftKernel(w: World, c: Place)
    requires CanGraft(w, c)
    ensures KernelSame(w, Grafted(w, c))
  {
    hide Aliases, KernelOk, Entries, A.Alloc, A.CanAlloc, A.Ok, Places;
    PlaceFacts(w, Up(c));
    Fresh(w, c.owner, A.Table);
  }

  lemma GraftEntries(w: World, c: Place)
    requires CanGraft(w, c)
    ensures Entries(Grafted(w, c))
  {
    hide Aliases, KernelOk, A.Alloc, A.CanAlloc, A.Ok, Frames, Places, IsLeaf;
    PlaceFacts(w, Up(c));
    Fresh(w, c.owner, A.Table);
    KernelMapped(w);
    KernelRoot(w);
    UpChild(c);
    var v := Grafted(w, c);
    forall p, s | p in v.at && 1 <= p.level <= 4 && 0 <= s < ENTRIES ensures SlotOk(v, p, s) {
      if p == c {
        ChildUp(c, s);
        UpIn(w, Child(c, s));
      } else {
        PlaceFacts(w, p);
        SlotFact(w, p, s);
        if p == Up(c) && s == SlotOf(c) {
        } else if UserSlot(p, s) {
          ChildUp(p, s);
        }
      }
    }
  }

  lemma KernelRoot(w: World)
    requires KernelOk(w)
    ensures KernelTable(w, w.kernel)
  {
  }

  lemma GraftAliases(w: World, c: Place)
    requires CanGraft(w, c)
    ensures Aliases(Grafted(w, c))
  {
    hide KernelOk, A.Alloc, A.CanAlloc, A.Ok, Frames, Places, AliasOk, AliasPath, AliasTable, Entries;
    PlaceFacts(w, Up(c));
    Fresh(w, c.owner, A.Table);
    KernelRoot(w);
    var v := Grafted(w, c);
    GraftKernel(w, c);
    SameIsAlike(w, v);
    forall f | f in v.authority.managed ensures AliasOk(v, f) {
      assert AliasOk(w, f);
      AliasEntry(w, f);
      forall e | UserLeaf(v, f, e) ensures UserLeaf(w, f, e) { LeafTable(w, f, Up(c)); }
      AliasKeeps(w, v, f);
    }
  }

  lemma AliasEntry(w: World, f: nat)
    requires AliasOk(w, f)
    ensures AliasPath(w, w.kernel, 4, f) && KernelTable(w, AliasTable(w, w.kernel, 4, f))
  {
  }

  /** Leaves live in tables of level 1. */
  lemma LeafTable(w: World, f: nat, p: Place)
    requires Frames(w) && Places(w) && p in w.at && p.level >= 2
    ensures f in w.place && w.place[f].level == 0 ==>
              Up(w.place[f]) in w.at && w.at[Up(w.place[f])] in w.tables && w.at[Up(w.place[f])] != w.at[p]
  {
    if f in w.place && w.place[f].level == 0 {
      assert PlaceOk(w, f);
      PlaceFacts(w, w.place[f]);
      PlaceFacts(w, Up(w.place[f]));
    }
  }

  lemma GraftKeeps(w: World, c: Place)
    requires CanGraft(w, c)
    ensures Inv(Grafted(w, c))
  {
    hide Frames, Places, Entries, Aliases, KernelOk, Graft, A.Alloc, A.CanAlloc;
    var v := Grafted(w, c);
    GraftFrames(w, c);
    GraftPlaces(w, c);
    GraftEntries(w, c);
    GraftAliases(w, c);
    GraftKernel(w, c);
    KernelRoot(w);
    SameIsAlike(w, v);
    SlotZero(w, Up(c));
    KernelPart(w, v);
  }

  /** While any space exists, the kernel's own user slot is empty. */
  lemma SlotZero(w: World, p: Place)
    requires KernelOk(w) && p in w.at
    ensures w.tables[w.kernel][USER_SLOT] == ZERO
  {
  }

  // ----- removing an empty table -----

  /** Unlink the table at `c` and give its frame back. */
  ghost function Ungrafted(w: World, c: Place): World
    requires UngraftShape(w, c)
  {
    World(Linked(w.tables, w.at[Up(c)], SlotOf(c), ZERO) - {w.at[c]},
          A.Release(w.authority, w.authority.frames[w.at[c]].grant).0, w.at - {c}, w.place - {w.at[c]}, w.kernel)
  }

  ghost predicate UngraftShape(w: World, c: Place) {
    && c in w.at && 1 <= c.level <= 3 && Up(c) in w.at && w.at[Up(c)] in w.tables && w.at[c] in w.authority.frames
    && Childless(w, c)
  }

  ghost predicate CanUngraft(w: World, c: Place) { UngraftShape(w, c) && Inv(w) }

  /** The grant of an unpinned frame is released. */
  lemma Released(w: World, f: nat)
    requires Frames(w) && f in w.authority.frames && w.authority.frames[f].mappedAt == 0
    ensures var g := w.authority.frames[f].grant;
            && A.Release(w.authority, g) == (w.authority.(frames := w.authority.frames - {f}), true)
            && A.Ok(A.Release(w.authority, g).0)
  {
    A.ReleaseKeeps(w.authority, w.authority.frames[f].grant);
  }

  lemma UngraftFrames(w: World, c: Place)
    requires CanUngraft(w, c)
    ensures Frames(Ungrafted(w, c)) && KernelSame(w, Ungrafted(w, c))
  {
    hide Aliases, KernelOk, Entries, A.Ok, Places;
    PlaceFacts(w, c);
    PlaceFacts(w, Up(c));
    Released(w, w.at[c]);
  }

  lemma UngraftPlaces(w: World, c: Place)
    requires CanUngraft(w, c)
    ensures Places(Ungrafted(w, c))
  {
    hide Aliases, KernelOk, Entries, A.Ok, Frames, Linked, A.Release, Childless, Places;
    PlaceFacts(w, c);
    Released(w, w.at[c]);
    NothingBelow(w, c);
    PlacesWithout(w, Ungrafted(w, c), c);
  }

  lemma UngraftEntries(w: World, c: Place)
    requires CanUngraft(w, c)
    ensures Entries(Ungrafted(w, c))
  {
    hide Aliases, KernelOk, A.Ok, Frames, Places, IsLeaf, A.Release;
    PlaceFacts(w, c);
    PlaceFacts(w, Up(c));
    KernelRoot(w);
    UpChild(c);
    var v := Ungrafted(w, c);
    forall p, s | p in v.at && 1 <= p.level <= 4 && 0 <= s < ENTRIES ensures SlotOk(v, p, s) {
      PlaceFacts(w, p);
      SlotFact(w, p, s);
      if UserSlot(p, s) { ChildUp(p, s); }
    }
  }

  lemma UngraftAliases(w: World, c: Place)
    requires CanUngraft(w, c)
    ensures Aliases(Ungrafted(w, c))
  {
    hide KernelOk, A.Ok, Frames, Places, AliasOk, AliasPath, AliasTable, Entries, A.Release;
    PlaceFacts(w, c);
    PlaceFacts(w, Up(c));
    KernelRoot(w);
    Released(w, w.at[c]);
    var v := Ungrafted(w, c);
    UngraftFrames(w, c);
    SameIsAlike(w, v);
    forall f | f in v.authority.managed ensures AliasOk(v, f) {
      assert AliasOk(w, f);
      AliasEntry(w, f);
      forall e | UserLeaf(v, f, e) ensures UserLeaf(w, f, e) { LeafTable(w, f, Up(c)); }
      AliasKeeps(w, v, f);
    }
  }

  lemma UngraftKeeps(w: World, c: Place)
    requires CanUngraft(w, c)
    ensures Inv(Ungrafted(w, c))
  {
    hide Frames, Places, Entries, Aliases, KernelOk, Ungrafted;
    var v := Ungrafted(w, c);
    UngraftFrames(w, c);
    UngraftPlaces(w, c);
    UngraftEntries(w, c);
    UngraftAliases(w, c);
    KernelRoot(w);
    SameIsAlike(w, v);
    SlotZero(w, c);
    KernelPart(w, v);
  }

  // ----- mapping and unmapping a page -----

  /** Set the write right of the kernel's alias of `f`. */
  ghost function AliasSet(w: World, f: nat, writable: bool): Tables
    requires AliasPath(w, w.kernel, 4, f)
  {
    var t := AliasTable(w, w.kernel, 4, f);
    w.tables[t := w.tables[t][Index(f, 1) := w.tables[t][Index(f, 1)].(writable := writable)]]
  }

  /** The alias of `f` gets the new right, the frame its pin, the slot its leaf. */
  ghost function Published(w: World, c: Place, f: nat, writable: bool, executable: bool): World
    requires PublishShape(w, c, f, writable, executable)
  {
    World(Linked(AliasSet(w, f, writable), w.at[Up(c)], SlotOf(c), LeafEntry(f, writable, executable)),
          A.Bind(w.authority, w.authority.frames[f].grant, c.owner, Va(c.number)).0, w.at[c := f], w.place[f := c], w.kernel)
  }

  ghost predicate PublishShape(w: World, c: Place, f: nat, writable: bool, executable: bool) {
    && c.level == 0 && c !in w.at && Up(c) in w.at && w.at[Up(c)] in w.tables
    && f in w.authority.frames && A.CanBind(w.authority, w.authority.frames[f].grant, c.owner)
    && !(writable && executable) && AliasPath(w, w.kernel, 4, f)
  }

  ghost predicate CanPublish(w: World, c: Place, f: nat, writable: bool, executable: bool) { PublishShape(w, c, f, writable, executable) && Inv(w) }

  /** An unmapped user page has no place, and binding it succeeds. */
  lemma Bindable(w: World, c: Place, f: nat)
    requires Frames(w) && c.level == 0 && f in w.authority.frames && A.CanBind(w.authority, w.authority.frames[f].grant, c.owner)
    ensures f in w.authority.managed && f !in w.place && f !in w.tables
    ensures var h := w.authority.frames[f];
            && h.grant.address == f && h.grant.kind == A.User && h.grant.owner == c.owner
            && A.Bind(w.authority, h.grant, c.owner, Va(c.number))
               == (w.authority.(frames := w.authority.frames[f := A.Holding(h.grant, Va(c.number))]), true)
            && A.Ok(A.Bind(w.authority, h.grant, c.owner, Va(c.number)).0)
  {
    A.ApplyKeeps(w.authority, A.OpBind(w.authority.frames[f].grant, c.owner, Va(c.number)));
    assert Va(c.number) % 4096 == 0;
  }

  lemma PublishFrames(w: World, c: Place, f: nat, writable: bool, executable: bool)
    requires CanPublish(w, c, f, writable, executable)
    ensures Frames(Published(w, c, f, writable, executable))
  {
    hide Aliases, KernelOk, Entries, A.Ok, Places, A.Bind, A.CanBind;
    PlaceFacts(w, Up(c));
    Bindable(w, c, f);
  }

  lemma PublishPlaces(w: World, c: Place, f: nat, writable: bool, executable: bool)
    requires CanPublish(w, c, f, writable, executable)
    ensures Places(Published(w, c, f, writable, executable))
  {
    hide Aliases, KernelOk, Entries, A.Ok, Frames, Linked, AliasSet, A.Bind, A.CanBind, Places;
    PlaceFacts(w, Up(c));
    Bindable(w, c, f);
    PlacesWith(w, Published(w, c, f, writable, executable), c, f);
  }

  /** Only the alias of one frame, in kernel table `t`, and one slot of user table `x` are written. */
  ghost predicate Wrote(w: World, v: World, t: nat, f: nat, writable: bool, x: nat, slot: nat, e: Entry)
    requires slot < ENTRIES
  {
    && KernelTable(w, t) && t != w.kernel && x in w.tables && !KernelTable(w, x)
    && KernelAlike(w, v) && v.tables.Keys == w.tables.Keys
    && v.tables[t] == w.tables[t][Index(f, 1) := w.tables[t][Index(f, 1)].(writable := writable)]
    && v.tables[x] == w.tables[x][slot := e]
    && (forall y :: y in w.tables && y != t && y != x ==> v.tables[y] == w.tables[y])
  }

  lemma WroteIsWritten(w: World, v: World, f: nat, writable: bool, x: nat, slot: nat, e: Entry)
    requires slot < ENTRIES && AliasOk(w, f) && Wrote(w, v, AliasHome(w, f), f, writable, x, slot, e)
    ensures KernelWritten(w, v, {f})
  {
    hide KernelAlike, AliasPath, AliasTable;
    forall t, s | KernelTable(w, t) && 0 <= s < ENTRIES && v.tables[t][s] != w.tables[t][s] ensures AliasCell(w, t, s, {f}) {
      assert t == AliasHome(w, f);
    }
  }

  /** What publishing a page writes. */
  ghost predicate PublishWrote(w: World, c: Place, f: nat, writable: bool, executable: bool) {
    && PublishShape(w, c, f, writable, executable)
    && Wrote(w, Published(w, c, f, writable, executable), AliasHome(w, f), f, writable,
             w.at[Up(c)], SlotOf(c), LeafEntry(f, writable, executable))
  }

  lemma PublishTables(w: World, c: Place, f: nat, writable: bool, executable: bool)
    requires CanPublish(w, c, f, writable, executable)
    ensures PublishWrote(w, c, f, writable, executable)
  {
    hide Inv, A.Ok, A.Bind, A.CanBind, AliasPath, AliasTable, KernelAlike, Linked, Frames, Places, Entries, KernelOk, Aliases;
    Parts(w);
    KernelRoot(w);
    PlaceFacts(w, Up(c));
    Bindable(w, c, f);
    var v := Published(w, c, f, writable, executable);
    var t := AliasTable(w, w.kernel, 4, f);
    TwoWrites(w.tables, t, w.tables[t][Index(f, 1) := w.tables[t][Index(f, 1)].(writable := writable)], w.at[Up(c)], SlotOf(c),
              LeafEntry(f, writable, executable));
    AlikeAfter(w, v, t, w.at[Up(c)], Index(f, 1), writable);
  }

  lemma TwoWrites(t: Tables, a: nat, row: Table, b: nat, slot: nat, e: Entry)
    requires a in t && b in t && a != b && slot < ENTRIES
    ensures var u := Linked(t[a := row], b, slot, e);
            && u.Keys == t.Keys && u[a] == row && u[b] == t[b][slot := e]
            && forall y :: y in t && y != a && y != b ==> u[y] == t[y]
  {
  }

  lemma Parts(w: World)
    requires Inv(w)
    ensures Frames(w) && Places(w) && Entries(w) && KernelOk(w) && Aliases(w)
  {
  }

  lemma AlikeAfter(w: World, v: World, t: nat, table: nat, slot: nat, writable: bool)
    requires KernelTable(w, w.kernel) && KernelTable(w, t) && t != w.kernel && !KernelTable(w, table) && slot < ENTRIES
    requires v.kernel == w.kernel && v.tables.Keys == w.tables.Keys
    requires forall x :: x in w.tables ==> (x in v.authority.frames <==> x in w.authority.frames)
    requires forall x :: x in w.tables && x in w.authority.frames ==> v.authority.frames[x] == w.authority.frames[x]
    requires v.tables[t] == w.tables[t][slot := w.tables[t][slot].(writable := writable)]
    requires forall x :: x in w.tables && x != t && x != table ==> v.tables[x] == w.tables[x]
    ensures KernelAlike(w, v)
  {
  }

  lemma PublishEntries(w: World, c: Place, f: nat, writable: bool, executable: bool)
    requires CanPublish(w, c, f, writable, executable)
    ensures Entries(Published(w, c, f, writable, executable))
  {
    hide Aliases, KernelOk, A.Ok, Frames, Places, A.Bind, A.CanBind, AliasPath, AliasTable, Linked, AliasSet;
    PlaceFacts(w, Up(c));
    KernelRoot(w);
    UpChild(c);
    var v := Published(w, c, f, writable, executable);
    PublishTables(w, c, f, writable, executable);
    forall p, s | p in v.at && 1 <= p.level <= 4 && 0 <= s < ENTRIES ensures SlotOk(v, p, s) {
      PlaceFacts(w, p);
      SlotFact(w, p, s);
      if UserSlot(p, s) { ChildUp(p, s); }
    }
  }

  lemma PublishAliases(w: World, c: Place, f: nat, writable: bool, executable: bool)
    requires CanPublish(w, c, f, writable, executable)
    ensures Aliases(Published(w, c, f, writable, executable))
  {
    hide KernelOk, A.Ok, Frames, Places, A.Bind, A.CanBind, AliasPath, AliasTable, Linked, AliasSet, Entries;
    PlaceFacts(w, Up(c));
    Bindable(w, c, f);
    var v := Published(w, c, f, writable, executable);
    PublishTables(w, c, f, writable, executable);
    assert AliasOk(w, f);
    forall g | g in v.authority.managed ensures AliasOk(v, g) {
      assert AliasOk(w, g);
      AliasEntry(w, g);
      if g == f {
        AliasPathKeeps(w, v, w.kernel, 4, f);
      } else {
        AliasesDiffer(w, f, g);
        forall e | UserLeaf(v, g, e) ensures UserLeaf(w, g, e) { OtherLeaf(w, c, g); }
        AliasKeeps(w, v, g);
      }
    }
  }

  /** A different page has a different leaf. */
  lemma OtherLeaf(w: World, c: Place, g: nat)
    requires Frames(w) && Places(w) && c.level == 0
    ensures g in w.place && w.place[g].level == 0 ==>
              && w.place[g] in w.at && w.at[w.place[g]] == g
              && Up(w.place[g]) in w.at && w.at[Up(w.place[g])] in w.tables && !KernelTable(w, w.at[Up(w.place[g])])
              && (Up(c) in w.at && w.at[Up(c)] == w.at[Up(w.place[g])] && SlotOf(c) == SlotOf(w.place[g]) ==> w.place[g] == c)
  {
    if g in w.place && w.place[g].level == 0 {
      assert PlaceOk(w, g);
      PlaceFacts(w, w.place[g]);
      PlaceFacts(w, Up(w.place[g]));
      UpChild(w.place[g]);
      UpChild(c);
      if Up(c) in w.at && w.at[Up(c)] == w.at[Up(w.place[g])] { AtInjective(w, Up(c), Up(w.place[g])); }
    }
  }

  lemma PublishKeeps(w: World, c: Place, f: nat, writable: bool, executable: bool)
    requires CanPublish(w, c, f, writable, executable)
    ensures Inv(Published(w, c, f, writable, executable))
  {
    hide Frames, Places, Entries, Aliases, KernelOk, Published, AliasPath, AliasTable;
    var v := Published(w, c, f, writable, executable);
    PublishFrames(w, c, f, writable, executable);
    PublishPlaces(w, c, f, writable, executable);
    PublishEntries(w, c, f, writable, executable);
    PublishAliases(w, c, f, writable, executable);
    PublishTables(w, c, f, writable, executable);
    SlotZero(w, Up(c));
    KernelPart(w, v);
  }
}
