/** Transactional cloning of a supervisor page-table tree, and the identity check that precedes it. */
module CloneTable {
  import opened Wrappers
  import opened PageTable

  // ----- what a clone is -----

  /** Slot `s` of the clone stands for slot `s` of the source: same leaf or a cloned table, USER cleared. */
  ghost predicate SlotCloned(src: Tables, source: nat, dst: Tables, clone: nat, level: nat, s: nat)
    requires Mapped(src, source, level) && Mapped(dst, clone, level) && s < ENTRIES
    decreases level, 0
  {
    var e, e' := src[source][s], dst[clone][s];
    if !e.present then e' == ZERO
    else if !Branch(level, e) then e' == e.(user := false)
    else e' == e.(user := false, address := e'.address) && CloneOf(src, e.address, dst, e'.address, level - 1)
  }

  ghost predicate CloneOf(src: Tables, source: nat, dst: Tables, clone: nat, level: nat)
    requires Mapped(src, source, level) && Mapped(dst, clone, level)
    decreases level, 1
  {
    forall s :: 0 <= s < ENTRIES ==> SlotCloned(src, source, dst, clone, level, s)
  }

  /** A leaf with USER cleared in the entry and on the way to it. */
  function Supervised(leaf: Option<Leaf>): Option<Leaf> {
    if leaf.None? then None else Some(leaf.value.(entry := leaf.value.entry.(user := false), user := false))
  }

  /** The clone's page walk is the source's, for every address, without USER. */
  lemma {:induction false} CloneWalk(src: Tables, source: nat, dst: Tables, clone: nat, level: nat, va: nat)
    requires Mapped(src, source, level) && Mapped(dst, clone, level) && CloneOf(src, source, dst, clone, level)
    ensures Walk(dst, clone, level, va) == Supervised(Walk(src, source, level, va))
    decreases level
  {
    var s := Index(va, level);
    assert SlotCloned(src, source, dst, clone, level, s);
    var e, e' := src[source][s], dst[clone][s];
    if Branch(level, e) { CloneWalk(src, e.address, dst, e'.address, level - 1, va); }
  }

  /** More source tables, or other clone tables outside the clone's own, change nothing. */
  lemma {:induction false} CloneFrame(src: Tables, src': Tables, source: nat, dst: Tables, dst': Tables, clone: nat, level: nat)
    requires Mapped(src, source, level) && Mapped(dst, clone, level) && CloneOf(src, source, dst, clone, level)
    requires Agree(src, src', TreeSet(src, source, level)) && Agree(dst, dst', TreeSet(dst, clone, level))
    ensures Mapped(src', source, level) && Mapped(dst', clone, level) && CloneOf(src', source, dst', clone, level)
    decreases level
  {
    hide TreeSet;
    TreeFrame(src, src', source, level);
    TreeFrame(dst, dst', clone, level);
    TreeSetInTables(src, source, level);
    TreeSetInTables(dst, clone, level);
    forall s | 0 <= s < ENTRIES ensures SlotCloned(src', source, dst', clone, level, s) {
      assert SlotCloned(src, source, dst, clone, level, s);
      if Branch(level, src[source][s]) {
        ChildInTree(src, source, level, s);
        ChildInTree(dst, clone, level, s);
        CloneFrame(src, src', src[source][s].address, dst, dst', dst[clone][s].address, level - 1);
      }
    }
  }

  // ----- identity -----

  /** An entry the identity test descends through. */
  predicate Follows(level: nat, e: Entry) { e.present && level != 1 && !e.huge }

  /** Every entry the identity test descends through leads to a table. */
  ghost predicate Followed(tables: Tables, root: nat, level: nat)
    decreases level
  {
    1 <= level <= 4 && root in tables &&
    forall s :: 0 <= s < ENTRIES && Follows(level, tables[root][s]) ==> Followed(tables, tables[root][s].address, level - 1)
  }

  /** Every leaf maps its own virtual address, and nothing is mapped from `USER_BASE` on. */
  ghost predicate IdentityTree(tables: Tables, root: nat, level: nat, base: nat)
    requires Followed(tables, root, level)
    decreases level, 1
  {
    forall s :: 0 <= s < ENTRIES ==> IdentityBelow(tables, root, level, base, s)
  }

  /** Slot `s` and everything below it. */
  ghost predicate IdentityBelow(tables: Tables, root: nat, level: nat, base: nat, s: nat)
    requires Followed(tables, root, level) && s < ENTRIES
    decreases level, 0
  {
    var e := tables[root][s];
    e.present ==>
      && IdentitySlot(e, level, SlotBase(base, level, s))
      && (Follows(level, e) ==> IdentityTree(tables, e.address, level - 1, SlotBase(base, level, s)))
  }

  /** The first address of slot `s`. */
  function SlotBase(base: nat, level: nat, s: nat): nat
    requires 1 <= level <= 4
  {
    base + s * Span(level)
  }

  predicate IdentitySlot(e: Entry, level: nat, va: nat)
    requires 1 <= level <= 4
  {
    va < USER_BASE && !(level == 4 && e.huge) && (Follows(level, e) || e.address - e.address % Span(level) == va)
  }

  /** Mapped tables can be tested, and tables that pass the test are mapped. */
  lemma {:induction false} MappedFollowed(tables: Tables, root: nat, level: nat)
    requires Mapped(tables, root, level)
    ensures Followed(tables, root, level)
    decreases level
  {
    forall s | 0 <= s < ENTRIES && Follows(level, tables[root][s]) ensures Followed(tables, tables[root][s].address, level - 1) {
      MappedFollowed(tables, tables[root][s].address, level - 1);
    }
  }

  lemma {:induction false} IdentityMapped(tables: Tables, root: nat, level: nat, base: nat)
    requires Followed(tables, root, level) && IdentityTree(tables, root, level, base)
    ensures Mapped(tables, root, level)
    decreases level
  {
    forall s | 0 <= s < ENTRIES && Branch(level, tables[root][s]) ensures Mapped(tables, tables[root][s].address, level - 1) {
      assert IdentityBelow(tables, root, level, base, s);
      IdentityMapped(tables, tables[root][s].address, level - 1, SlotBase(base, level, s));
    }
  }

  lemma SlotArithmetic(va: nat, level: nat, base: nat)
    requires 1 <= level <= 4 && base <= va < base + ENTRIES * Span(level) && base % (ENTRIES * Span(level)) == 0
    ensures base + Index(va, level) * Span(level) <= va < base + (Index(va, level) + 1) * Span(level)
    ensures va % Span(level) == va - (base + Index(va, level) * Span(level))
    ensures level > 1 ==> (base + Index(va, level) * Span(level)) % (ENTRIES * Span(level - 1)) == 0
  {
    hide Span;
    SpanPositive(level);
    var k := BaseMultiple(base, level);
    SplitOffset(va, Span(level), k);
    SpanMultiple(k * ENTRIES + Index(va, level), level);
  }

  lemma SpanPositive(level: nat)
    requires 1 <= level <= 4
    ensures 0 < Span(level)
  {
  }

  lemma BaseMultiple(base: nat, level: nat) returns (k: nat)
    requires 1 <= level <= 4 && base % (ENTRIES * Span(level)) == 0
    ensures base == k * ENTRIES * Span(level)
  {
    k := base / (ENTRIES * Span(level));
  }

  lemma SpanMultiple(q: nat, level: nat)
    requires 1 <= level <= 4
    ensures level > 1 ==> ENTRIES * Span(level - 1) == Span(level) && q * Span(level) % (ENTRIES * Span(level - 1)) == 0
  {
    assert level == 2 ==> q * 0x20_0000 % 0x20_0000 == 0;
    assert level == 3 ==> q * 0x4000_0000 % 0x4000_0000 == 0;
    assert level == 4 ==> q * 0x80_0000_0000 % 0x80_0000_0000 == 0;
  }

  lemma Scaled(a: nat, b: nat, c: nat)
    requires a <= b
    ensures a * c <= b * c
  {
  }

  lemma SplitOffset(va: nat, span: nat, k: nat)
    requires 0 < span && k * ENTRIES * span <= va < k * ENTRIES * span + ENTRIES * span
    ensures var i := va / span % ENTRIES;
            && k * ENTRIES * span + i * span == (k * ENTRIES + i) * span == va / span * span
            && k * ENTRIES * span + i * span <= va < k * ENTRIES * span + (i + 1) * span
            && va % span == va - (k * ENTRIES * span + i * span)
  {
    var q := va / span;
    assert va == q * span + va % span;
    if q + 1 <= k * ENTRIES { Scaled(q + 1, k * ENTRIES, span); }
    if (k + 1) * ENTRIES <= q { Scaled((k + 1) * ENTRIES, q, span); }
    assert k * ENTRIES <= q < k * ENTRIES + ENTRIES;
    assert q % ENTRIES == q - k * ENTRIES;
  }

  /** An identity tree maps each address to itself or to nothing. */
  lemma {:induction false} IdentityWalk(tables: Tables, root: nat, level: nat, base: nat, va: nat)
    requires Followed(tables, root, level) && IdentityTree(tables, root, level, base)
    requires base <= va < base + ENTRIES * Span(level) && base % (ENTRIES * Span(level)) == 0
    ensures Mapped(tables, root, level)
    ensures var leaf := Walk(tables, root, level, va);
            leaf.Some? ==> 1 <= leaf.value.level <= 4 && Target(leaf.value, va) == va
    decreases level
  {
    var s := Index(va, level);
    IdentityMapped(tables, root, level, base);
    SlotArithmetic(va, level, base);
    assert IdentityBelow(tables, root, level, base, s);
    var e := tables[root][s];
    if Branch(level, e) {
      assert ENTRIES * Span(level - 1) == Span(level);
      IdentityWalk(tables, e.address, level - 1, base + s * Span(level), va);
    }
  }

  // ----- table memory -----

  /** The tables below the first `k` slots. */
  ghost function Children(tables: Tables, root: nat, level: nat, k: nat): set<nat>
    requires Mapped(tables, root, level) && k <= ENTRIES
  {
    set s, t | 0 <= s < k && t in ChildSet(tables, root, level, s) :: t
  }

  lemma ChildrenStep(tables: Tables, root: nat, level: nat, k: nat)
    requires Mapped(tables, root, level) && k < ENTRIES
    ensures Children(tables, root, level, k + 1) == Children(tables, root, level, k) + ChildSet(tables, root, level, k)
  {
  }

  lemma ChildrenAll(tables: Tables, root: nat, level: nat)
    requires Mapped(tables, root, level)
    ensures TreeSet(tables, root, level) == {root} + Children(tables, root, level, ENTRIES)
  {
  }

  /** A table store with a pool of free frames; `owned` are the tables it allocated itself. */
  class TableMemory {
    var tables: Tables
    var owned: set<nat>
    var free: set<nat>

    ghost predicate Valid()
      reads this
    {
      owned <= tables.Keys && free !! tables.Keys
    }

    method Allocate() returns (t: Option<nat>)
      requires Valid()
      modifies this
      ensures Valid()
      ensures t.None? ==> free == {} && tables == old(tables) && owned == old(owned) && free == old(free)
      ensures t.Some? ==> t.value in old(free) && free == old(free) - {t.value}
                          && tables == old(tables)[t.value := EMPTY_TABLE] && owned == old(owned) + {t.value}
    {
      if free == {} { return None; }
      var f :| f in free;
      free := free - {f};
      tables := tables[f := EMPTY_TABLE];
      owned := owned + {f};
      return Some(f);
    }

    method Release(t: nat)
      requires Valid() && t in owned
      modifies this
      ensures Valid()
      ensures tables == old(tables) - {t} && owned == old(owned) - {t} && free == old(free) + {t}
    {
      tables := tables - {t};
      owned := owned - {t};
      free := free + {t};
    }

    /** Release a private tree: exactly its tables go, and nothing else changes. */
    method ReleaseClone(root: nat, level: nat)
      requires Valid() && Tree(tables, root, level) && TreeSet(tables, root, level) <= owned
      modifies this
      ensures Valid()
      ensures var gone := TreeSet(old(tables), root, level);
              tables == old(tables) - gone && owned == old(owned) - gone && free == old(free) + gone
      decreases level
    {
      hide TreeSet, Mapped;
      ghost var T, O, F := tables, owned, free;
      TreeSetInTables(T, root, level);
      if level > 1 {
        for slot := 0 to ENTRIES
          invariant Valid() && root in tables && tables[root] == T[root] && root in owned
          invariant tables == T - Children(T, root, level, slot)
          invariant owned == O - Children(T, root, level, slot) && free == F + Children(T, root, level, slot)
        {
          ChildrenStep(T, root, level, slot);
          var e := tables[root][slot];
          if Branch(level, e) {
            ReleasePoint(T, tables, root, level, slot);
            ChildInTree(T, root, level, slot);
            ReleaseClone(e.address, level - 1);
          }
        }
      } else {
        NoChildren(T, root, level);
      }
      ChildrenAll(T, root, level);
      Release(root);
    }

    /** Accept only a bounded identity map; nothing is written. */
    method IdentityMappings(table: nat, level: nat, base: nat) returns (ok: bool)
      requires Followed(tables, table, level)
      ensures ok == IdentityTree(tables, table, level, base)
      decreases level
    {
      hide SlotBase, Span;
      SpanPositive(level);
      for slot := 0 to ENTRIES
        invariant forall s :: 0 <= s < slot ==> IdentityBelow(tables, table, level, base, s)
      {
        var e := tables[table][slot];
        if e.present {
          var va := SlotBase(base, level, slot);
          if va >= USER_BASE || (level == 4 && e.huge) || ((level == 1 || e.huge) && e.address - e.address % Span(level) != va) {
            assert !IdentityBelow(tables, table, level, base, slot);
            return false;
          }
          if level != 1 && !e.huge {
            var below := IdentityMappings(e.address, level - 1, va);
            if !below {
              assert !IdentityBelow(tables, table, level, base, slot);
              return false;
            }
          }
        }
        assert IdentityBelow(tables, table, level, base, slot);
      }
      return true;
    }

    /** Copy a tree with USER cleared. It succeeds exactly when the pool holds a table for every source
        table; then only new tables appeared and they form a clone. Otherwise every table and the pool
        are as before, however deep the failing allocation was. */
    method CloneSupervisor(source: nat, level: nat) returns (clone: Option<nat>)
      requires Valid() && (1 <= level <= 4 ==> Mapped(tables, source, level))
      modifies this
      ensures Valid()
      ensures clone.None? ==> tables == old(tables) && owned == old(owned) && free == old(free)
      ensures clone.Some? == (1 <= level <= 4 && Needed(old(tables), source, level) <= |old(free)|)
      ensures clone.Some? ==> Built(tables, owned, free, old(tables), old(owned), old(free), source, clone.value, level, ENTRIES)
      ensures clone.Some? ==> |free| == |old(free)| - Needed(old(tables), source, level)
      decreases level, 1
    {
      hide TreeSet, Mapped, CloneOf, Tree, SlotCloned, ChildSet, Built, Needed, NeededBelow;
      if !(1 <= level <= 4) { return None; }
      ghost var T, O, F := tables, owned, free;
      NeededParts(T, source, level);
      clone := Allocate();
      if clone.None? { return; }
      var root := clone.value;
      BuiltEmpty(T, O, F, source, root, level);
      for slot := 0 to ENTRIES
        invariant Valid() && Built(tables, owned, free, T, O, F, source, root, level, slot)
        invariant |free| == |F| - 1 - NeededBelow(T, source, level, slot) && 0 <= |free|
      {
        var ok := CloneSlot(source, level, slot, root, T, O, F);
        if !ok { return None; }
      }
    }

    /** Copy one slot into the growing clone, or release the clone. */
    method CloneSlot(source: nat, level: nat, slot: nat, root: nat, ghost T: Tables, ghost O: set<nat>, ghost F: set<nat>) returns (ok: bool)
      requires Valid() && 1 <= level <= 4 && slot < ENTRIES && Mapped(T, source, level)
      requires Built(tables, owned, free, T, O, F, source, root, level, slot) && O <= T.Keys && F !! T.Keys
      requires |free| == |F| - 1 - NeededBelow(T, source, level, slot) && 1 + NeededBelow(T, source, level, ENTRIES) == Needed(T, source, level)
      modifies this
      ensures Valid()
      ensures ok ==> Built(tables, owned, free, T, O, F, source, root, level, slot + 1)
      ensures ok ==> |free| == |F| - 1 - NeededBelow(T, source, level, slot + 1)
      ensures !ok ==> tables == T && owned == O && free == F && Needed(T, source, level) > |F|
      decreases level, 0
    {
      hide TreeSet, Mapped, CloneOf, Tree, SlotCloned, ChildSet, Built, Needed, NeededBelow;
      BuiltSource(tables, owned, free, T, O, F, source, root, level, slot);
      NeededStep(T, source, level, slot);
      var e := tables[source][slot];
      if !e.present {
        BuiltSkip(tables, owned, free, T, O, F, source, root, level, slot);
      } else if !Branch(level, e) {
        BuiltLeaf(tables, owned, free, T, O, F, source, root, level, slot);
        tables := tables[root := tables[root][slot := e.(user := false)]];
      } else {
        ghost var t, o, f := tables, owned, free;
        MappedHere(T, source, level);
        MappedHere(t, source, level);
        NeededFrame(T, t, e.address, level - 1);
        var child := CloneSupervisor(e.address, level - 1);
        if child.None? {
          BuiltRelease(t, o, f, T, O, F, source, root, level, slot);
          NeededGrows(T, source, level, slot + 1, ENTRIES);
          ReleaseClone(root, level);
          return false;
        }
        BuiltBranch(t, o, f, tables, owned, free, T, O, F, source, root, level, slot, child.value);
        tables := tables[root := tables[root][slot := e.(user := false, address := child.value)]];
      }
      return true;
    }
  }

  lemma MappedHere(tables: Tables, root: nat, level: nat)
    requires Mapped(tables, root, level)
    ensures 1 <= level <= 4 && root in tables
    ensures forall s :: 0 <= s < ENTRIES && Branch(level, tables[root][s]) ==> Mapped(tables, tables[root][s].address, level - 1)
    ensures 0 < Span(level)
  {
  }

  lemma NoChildren(tables: Tables, root: nat, level: nat)
    requires Mapped(tables, root, level) && level <= 1
    ensures Children(tables, root, level, ENTRIES) == {}
  {
  }

  /** When the tables below earlier slots are gone, the tree below slot `k` is still intact. */
  lemma ReleasePoint(T: Tables, tables: Tables, root: nat, level: nat, k: nat)
    requires Tree(T, root, level) && k < ENTRIES && Branch(level, T[root][k])
    requires tables == T - Children(T, root, level, k)
    ensures Mapped(T, T[root][k].address, level - 1)
    ensures Tree(tables, T[root][k].address, level - 1)
    ensures TreeSet(tables, T[root][k].address, level - 1) == ChildSet(T, root, level, k)
    ensures ChildSet(T, root, level, k) !! Children(T, root, level, k)
    ensures root !in ChildSet(T, root, level, k)
  {
    var c := T[root][k].address;
    assert ChildSet(T, root, level, k) !! Children(T, root, level, k);
    TreeFrame(T, tables, c, level - 1);
  }

  // ----- the state of a clone in progress -----

  /** Tables a clone of this tree needs, counting a shared source table once per path to it. */
  ghost function Needed(tables: Tables, root: nat, level: nat): nat
    requires Mapped(tables, root, level)
    decreases level, ENTRIES + 1
  {
    1 + NeededBelow(tables, root, level, ENTRIES)
  }

  ghost function NeededBelow(tables: Tables, root: nat, level: nat, k: nat): nat
    requires Mapped(tables, root, level) && k <= ENTRIES
    decreases level, k
  {
    if k == 0 then 0
    else NeededBelow(tables, root, level, k - 1) +
         if Branch(level, tables[root][k - 1]) then Needed(tables, tables[root][k - 1].address, level - 1) else 0
  }

  lemma NeededParts(tables: Tables, root: nat, level: nat)
    requires Mapped(tables, root, level)
    ensures Needed(tables, root, level) == 1 + NeededBelow(tables, root, level, ENTRIES)
    ensures NeededBelow(tables, root, level, 0) == 0
  {
  }

  lemma NeededStep(tables: Tables, root: nat, level: nat, k: nat)
    requires Mapped(tables, root, level) && k < ENTRIES
    ensures Branch(level, tables[root][k]) ==> Mapped(tables, tables[root][k].address, level - 1)
    ensures NeededBelow(tables, root, level, k + 1) == NeededBelow(tables, root, level, k) +
            if Branch(level, tables[root][k]) then Needed(tables, tables[root][k].address, level - 1) else 0
  {
  }

  lemma {:induction false} NeededGrows(tables: Tables, root: nat, level: nat, j: nat, k: nat)
    requires Mapped(tables, root, level) && j <= k <= ENTRIES
    ensures NeededBelow(tables, root, level, j) <= NeededBelow(tables, root, level, k)
  {
    if j < k { NeededGrows(tables, root, level, j, k - 1); }
  }

  lemma {:induction false} NeededFrame(a: Tables, b: Tables, root: nat, level: nat)
    requires Mapped(a, root, level) && Agree(a, b, a.Keys)
    ensures Mapped(b, root, level) && Needed(b, root, level) == Needed(a, root, level)
    decreases level, ENTRIES + 1
  {
    TreeFrame(a, b, root, level);
    NeededBelowFrame(a, b, root, level, ENTRIES);
  }

  lemma {:induction false} NeededBelowFrame(a: Tables, b: Tables, root: nat, level: nat, k: nat)
    requires Mapped(a, root, level) && Mapped(b, root, level) && Agree(a, b, a.Keys) && k <= ENTRIES
    ensures NeededBelow(b, root, level, k) == NeededBelow(a, root, level, k)
    decreases level, k
  {
    if k > 0 {
      NeededBelowFrame(a, b, root, level, k - 1);
      if Branch(level, a[root][k - 1]) { NeededFrame(a, b, a[root][k - 1].address, level - 1); }
    }
  }

  /** `tables`, `owned`, `free` are what `T`, `O`, `F` became when the first `k` slots of `source` were cloned
      into the new tree at `root`: old tables untouched, new tables taken from the pool, later slots zero. */
  ghost predicate Built(tables: Tables, owned: set<nat>, free: set<nat>, T: Tables, O: set<nat>, F: set<nat>,
                        source: nat, root: nat, level: nat, k: nat)
  {
    && k <= ENTRIES && Mapped(T, source, level) && Tree(tables, root, level)
    && (forall s :: 0 <= s < k ==> SlotCloned(T, source, tables, root, level, s))
    && (forall s :: k <= s < ENTRIES ==> tables[root][s] == ZERO)
    && var added := TreeSet(tables, root, level);
       && added !! T.Keys && tables.Keys == T.Keys + added && Agree(T, tables, T.Keys)
       && owned == O + added && free == F - added && added <= F
  }

  lemma BuiltEmpty(T: Tables, O: set<nat>, F: set<nat>, source: nat, root: nat, level: nat)
    requires Mapped(T, source, level) && root in F && F !! T.Keys
    ensures Built(T[root := EMPTY_TABLE], O + {root}, F - {root}, T, O, F, source, root, level, 0)
  {
    var tables := T[root := EMPTY_TABLE];
    assert TreeSet(tables, root, level) == {root};
  }

  /** The source tree is not disturbed by the growing clone. */
  lemma BuiltSource(tables: Tables, owned: set<nat>, free: set<nat>, T: Tables, O: set<nat>, F: set<nat>,
                    source: nat, root: nat, level: nat, k: nat)
    requires Built(tables, owned, free, T, O, F, source, root, level, k)
    ensures source in T && source in tables && tables[source] == T[source] && root in tables
    ensures Agree(T, tables, T.Keys) && Mapped(tables, source, level)
  {
    TreeSetInTables(T, source, level);
    TreeFrame(T, tables, source, level);
    TreeSetInTables(tables, root, level);
  }

  lemma BuiltSkip(tables: Tables, owned: set<nat>, free: set<nat>, T: Tables, O: set<nat>, F: set<nat>,
                  source: nat, root: nat, level: nat, k: nat)
    requires Built(tables, owned, free, T, O, F, source, root, level, k) && k < ENTRIES && !T[source][k].present
    ensures Built(tables, owned, free, T, O, F, source, root, level, k + 1)
  {
  }

  /** At a failing child the new tree is exactly what must be released. */
  lemma BuiltRelease(tables: Tables, owned: set<nat>, free: set<nat>, T: Tables, O: set<nat>, F: set<nat>,
                     source: nat, root: nat, level: nat, k: nat)
    requires Built(tables, owned, free, T, O, F, source, root, level, k) && O <= T.Keys && F !! T.Keys
    ensures Tree(tables, root, level) && TreeSet(tables, root, level) <= owned
    ensures var gone := TreeSet(tables, root, level);
            tables - gone == T && owned - gone == O && free + gone == F
  {
  }

  /** Filling an empty slot of a tree with a leaf or with a separate tree. */
  lemma WriteSlot(t: Tables, root: nat, level: nat, k: nat, e: Entry)
    requires Tree(t, root, level) && k < ENTRIES && !Branch(level, t[root][k])
    requires Branch(level, e) ==> Tree(t, e.address, level - 1) && TreeSet(t, e.address, level - 1) !! TreeSet(t, root, level)
    ensures var u := t[root := t[root][k := e]];
            && Tree(u, root, level)
            && TreeSet(u, root, level) == TreeSet(t, root, level) + (if Branch(level, e) then TreeSet(t, e.address, level - 1) else {})
            && (forall s :: 0 <= s < ENTRIES && s != k && Branch(level, t[root][s]) ==>
                  Mapped(t, t[root][s].address, level - 1) && Agree(t, u, TreeSet(t, t[root][s].address, level - 1)))
            && (Branch(level, e) ==> Agree(t, u, TreeSet(t, e.address, level - 1)))
  {
    var u := t[root := t[root][k := e]];
    forall s | 0 <= s < ENTRIES && Branch(level, u[root][s])
      ensures var c := u[root][s].address;
              && Mapped(t, c, level - 1) && Agree(t, u, TreeSet(t, c, level - 1))
              && Tree(u, c, level - 1) && TreeSet(u, c, level - 1) == TreeSet(t, c, level - 1)
    {
      WriteSlotChild(t, root, level, k, e, s);
    }
    forall s | 0 <= s < ENTRIES && s != k && Branch(level, t[root][s])
      ensures Mapped(t, t[root][s].address, level - 1) && Agree(t, u, TreeSet(t, t[root][s].address, level - 1))
    {
      assert u[root][s] == t[root][s];
    }
    assert Mapped(u, root, level);
    WriteSlotSets(t, root, level, k, e);
    forall s, s' | 0 <= s < s' < ENTRIES ensures ChildSet(u, root, level, s) !! ChildSet(u, root, level, s') {
      ChildInTree(t, root, level, s);
      ChildInTree(t, root, level, s');
    }
    TreeSetInTables(t, root, level);
  }

  lemma WriteSlotChild(t: Tables, root: nat, level: nat, k: nat, e: Entry, s: nat)
    requires Tree(t, root, level) && k < ENTRIES && !Branch(level, t[root][k])
    requires Branch(level, e) ==> Tree(t, e.address, level - 1) && TreeSet(t, e.address, level - 1) !! TreeSet(t, root, level)
    requires s < ENTRIES && Branch(level, t[root][k := e][s])
    ensures var u := t[root := t[root][k := e]];
            var c := u[root][s].address;
            && Mapped(t, c, level - 1) && Agree(t, u, TreeSet(t, c, level - 1))
            && Tree(u, c, level - 1) && TreeSet(u, c, level - 1) == TreeSet(t, c, level - 1)
  {
    var u := t[root := t[root][k := e]];
    assert root in TreeSet(t, root, level);
    if s != k { assert root !in ChildSet(t, root, level, s); }
    TreeFrame(t, u, u[root][s].address, level - 1);
  }

  lemma WriteSlotSets(t: Tables, root: nat, level: nat, k: nat, e: Entry)
    requires Tree(t, root, level) && k < ENTRIES && !Branch(level, t[root][k])
    requires Branch(level, e) ==> Tree(t, e.address, level - 1) && TreeSet(t, e.address, level - 1) !! TreeSet(t, root, level)
    requires var u := t[root := t[root][k := e]];
             Mapped(u, root, level) &&
             forall s :: 0 <= s < ENTRIES && Branch(level, u[root][s]) ==>
               TreeSet(u, u[root][s].address, level - 1) == TreeSet(t, u[root][s].address, level - 1)
    ensures var u := t[root := t[root][k := e]];
            && (forall s :: 0 <= s < ENTRIES && s != k ==> ChildSet(u, root, level, s) == ChildSet(t, root, level, s))
            && ChildSet(u, root, level, k) == (if Branch(level, e) then TreeSet(t, e.address, level - 1) else {})
            && TreeSet(u, root, level) == TreeSet(t, root, level) + ChildSet(u, root, level, k)
  {
    var u := t[root := t[root][k := e]];
    assert ChildSet(t, root, level, k) == {};
    forall s | 0 <= s < ENTRIES ensures ChildSet(u, root, level, s) ==
      if s != k then ChildSet(t, root, level, s) else if Branch(level, e) then TreeSet(t, e.address, level - 1) else {} { }
  }

  /** A cloned slot stays cloned when its entry and the tables below it stay. */
  lemma SlotClonedFrame(src: Tables, source: nat, t: Tables, u: Tables, root: nat, level: nat, s: nat)
    requires Mapped(src, source, level) && Mapped(t, root, level) && Mapped(u, root, level) && s < ENTRIES
    requires SlotCloned(src, source, t, root, level, s) && u[root][s] == t[root][s]
    requires Branch(level, t[root][s]) ==> Agree(t, u, TreeSet(t, t[root][s].address, level - 1))
    ensures SlotCloned(src, source, u, root, level, s)
  {
    var e := src[source][s];
    if Branch(level, e) {
      CloneFrame(src, src, e.address, t, u, t[root][s].address, level - 1);
    }
  }

  lemma BuiltLeaf(t: Tables, o: set<nat>, f: set<nat>, T: Tables, O: set<nat>, F: set<nat>,
                  source: nat, root: nat, level: nat, k: nat)
    requires Built(t, o, f, T, O, F, source, root, level, k) && k < ENTRIES
    requires T[source][k].present && !Branch(level, T[source][k])
    ensures Built(t[root := t[root][k := T[source][k].(user := false)]], o, f, T, O, F, source, root, level, k + 1)
  {
    hide TreeSet, ChildSet;
    var e := T[source][k].(user := false);
    var u := t[root := t[root][k := e]];
    WriteSlot(t, root, level, k, e);
    TreeSetInTables(t, root, level);
    TreeSetInTables(T, source, level);
    forall s | 0 <= s < k ensures SlotCloned(T, source, u, root, level, s) {
      SlotClonedFrame(T, source, t, u, root, level, s);
    }
  }

  /** Cloning the child happened beside the tree built so far. */
  lemma BuiltBeside(t: Tables, o: set<nat>, f: set<nat>, t2: Tables, T: Tables, O: set<nat>, F: set<nat>,
                    source: nat, root: nat, level: nat, k: nat, child: nat)
    requires Built(t, o, f, T, O, F, source, root, level, k) && k < ENTRIES && Branch(level, T[source][k])
    requires Mapped(t, T[source][k].address, level - 1) && Tree(t2, child, level - 1)
    requires CloneOf(t, T[source][k].address, t2, child, level - 1)
    requires Agree(t, t2, t.Keys) && TreeSet(t2, child, level - 1) !! t.Keys
    ensures Tree(t2, root, level) && TreeSet(t2, root, level) == TreeSet(t, root, level) && t2[root] == t[root]
    ensures forall s :: 0 <= s < k ==> SlotCloned(T, source, t2, root, level, s)
    ensures Mapped(T, T[source][k].address, level - 1) && CloneOf(T, T[source][k].address, t2, child, level - 1)
    ensures Agree(T, t2, T.Keys)
  {
    hide TreeSet, CloneOf, SlotCloned;
    TreeSetInTables(t, root, level);
    TreeFrame(t, t2, root, level);
    forall s | 0 <= s < k ensures SlotCloned(T, source, t2, root, level, s) {
      SlotClonedFrame(T, source, t, t2, root, level, s);
    }
    var c := T[source][k].address;
    TreeSetInTables(T, c, level - 1);
    TreeFrame(T, t, c, level - 1);
    CloneFrame(t, T, c, t2, t2, child, level - 1);
  }

  lemma BuiltBranch(t: Tables, o: set<nat>, f: set<nat>, t2: Tables, o2: set<nat>, f2: set<nat>,
                    T: Tables, O: set<nat>, F: set<nat>, source: nat, root: nat, level: nat, k: nat, child: nat)
    requires Built(t, o, f, T, O, F, source, root, level, k) && k < ENTRIES && Branch(level, T[source][k])
    requires Built(t2, o2, f2, t, o, f, T[source][k].address, child, level - 1, ENTRIES)
    ensures root in t2
    ensures Built(t2[root := t2[root][k := T[source][k].(user := false, address := child)]], o2, f2,
                  T, O, F, source, root, level, k + 1)
  {
    hide TreeSet, ChildSet, SlotCloned;
    var e := T[source][k].(user := false, address := child);
    assert CloneOf(t, T[source][k].address, t2, child, level - 1);
    BuiltBeside(t, o, f, t2, T, O, F, source, root, level, k, child);
    TreeSetInTables(t2, root, level);
    TreeSetInTables(t, root, level);
    TreeSetInTables(T, source, level);
    WriteSlot(t2, root, level, k, e);
    BuiltSlots(t2, T, source, root, level, k, child);
  }

  lemma BuiltSlots(t2: Tables, T: Tables, source: nat, root: nat, level: nat, k: nat, child: nat)
    requires Mapped(T, source, level) && Tree(t2, root, level) && k < ENTRIES && Branch(level, T[source][k])
    requires !Branch(level, t2[root][k])
    requires Tree(t2, child, level - 1) && TreeSet(t2, child, level - 1) !! TreeSet(t2, root, level)
    requires CloneOf(T, T[source][k].address, t2, child, level - 1)
    requires forall s :: 0 <= s < k ==> SlotCloned(T, source, t2, root, level, s)
    ensures var u := t2[root := t2[root][k := T[source][k].(user := false, address := child)]];
            Mapped(u, root, level) && forall s :: 0 <= s < k + 1 ==> SlotCloned(T, source, u, root, level, s)
  {
    hide TreeSet, ChildSet, CloneOf, Tree;
    TreeMapped(t2, root, level);
    TreeMapped(t2, child, level - 1);
    var e := T[source][k].(user := false, address := child);
    var u := t2[root := t2[root][k := e]];
    WriteSlot(t2, root, level, k, e);
    TreeMapped(u, root, level);
    forall s | 0 <= s < k ensures SlotCloned(T, source, u, root, level, s) {
      SlotClonedFrame(T, source, t2, u, root, level, s);
    }
    CloneFrame(T, T, T[source][k].address, t2, u, child, level - 1);
  }

  lemma TreeMapped(t: Tables, root: nat, level: nat)
    requires Tree(t, root, level)
    ensures Mapped(t, root, level)
  {
  }

  // ----- what a successful clone means -----

  /** No table of a clone carries the USER bit, at any level. */
  lemma {:induction false} CloneHasNoUser(src: Tables, source: nat, dst: Tables, clone: nat, level: nat, t: nat, s: nat)
    requires Mapped(src, source, level) && Mapped(dst, clone, level) && CloneOf(src, source, dst, clone, level)
    requires t in TreeSet(dst, clone, level) && s < ENTRIES
    ensures t in dst && !dst[t][s].user
    decreases level
  {
    if t == clone {
      assert SlotCloned(src, source, dst, clone, level, s);
    } else {
      var k :| 0 <= k < ENTRIES && t in ChildSet(dst, clone, level, k);
      assert SlotCloned(src, source, dst, clone, level, k);
      CloneHasNoUser(src, src[source][k].address, dst, dst[clone][k].address, level - 1, t, s);
    }
  }

  /** A completed clone: it walks like the source without USER, the source still walks as before, and an
      identity source gives a clone that maps every address to itself or to nothing. */
  lemma CloneMeaning(tables: Tables, owned: set<nat>, free: set<nat>, T: Tables, O: set<nat>, F: set<nat>,
                     source: nat, root: nat, va: nat)
    requires Built(tables, owned, free, T, O, F, source, root, 4, ENTRIES)
    ensures Mapped(tables, root, 4) && Mapped(tables, source, 4) && Mapped(T, source, 4)
    ensures Walk(tables, root, 4, va) == Supervised(Walk(T, source, 4, va))
    ensures Walk(tables, source, 4, va) == Walk(T, source, 4, va)
    ensures Followed(T, source, 4)
    ensures IdentityTree(T, source, 4, 0) && va < ENTRIES * Span(4) ==>
              Translate(tables, root, va).None? || Translate(tables, root, va).value == va
  {
    assert CloneOf(T, source, tables, root, 4);
    CloneWalk(T, source, tables, root, 4, va);
    TreeSetInTables(T, source, 4);
    WalkFrame(T, tables, source, 4, va);
    MappedFollowed(T, source, 4);
    if IdentityTree(T, source, 4, 0) && va < ENTRIES * Span(4) {
      IdentityWalk(T, source, 4, 0, va);
    }
  }
}
