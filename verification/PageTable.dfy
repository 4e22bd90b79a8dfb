/** Four-level page tables as values: tables of 512 entries by physical address, and the page walk
    that gives them meaning. */
module PageTable {
  import opened Wrappers

  const ENTRIES: nat := 512
  const PAGE: nat := 4096
  const USER_BASE: nat := 0x4000_0000_0000

  /** A 64-bit entry by field. `address` is bits 12 to 51 (so bit 12, the PAT bit of a huge leaf, is part
      of it), `huge` is bit 7, `low` is bits 3 to 5, `leafOnly` bits 6 and 8 to 11, `high` bits 52 to 62. */
  datatype Entry = Entry(present: bool, writable: bool, user: bool, low: nat, leafOnly: nat, huge: bool,
                         address: nat, high: nat, nx: bool)

  const ZERO := Entry(false, false, false, 0, 0, false, 0, 0, false)

  type Table = t: seq<Entry> | |t| == 512 witness seq(512, _ => ZERO)

  const EMPTY_TABLE: Table := seq(512, _ => ZERO)

  type Tables = map<nat, Table>

  /** Bytes covered by one entry of a table at `level` (1 is the leaf level, 4 the root). */
  function Span(level: nat): nat
    requires 1 <= level <= 4
  {
    if level == 1 then 0x1000 else if level == 2 then 0x20_0000 else if level == 3 then 0x4000_0000 else 0x80_0000_0000
  }

  function Index(va: nat, level: nat): nat
    requires 1 <= level <= 4
  {
    va / Span(level) % ENTRIES
  }

  /** A present entry that points to a table of the level below. */
  predicate Branch(level: nat, e: Entry) { e.present && 1 < level && !(level <= 3 && e.huge) }

  /** Every branch leads to a table, down to the leaf level. */
  ghost predicate Mapped(tables: Tables, root: nat, level: nat)
    decreases level
  {
    1 <= level <= 4 && root in tables &&
    forall s :: 0 <= s < ENTRIES && Branch(level, tables[root][s]) ==> Mapped(tables, tables[root][s].address, level - 1)
  }

  /** Where a walk ends: the leaf entry, its level and the permissions accumulated on the way. */
  datatype Leaf = Leaf(entry: Entry, level: nat, writable: bool, user: bool, nx: bool)

  function Through(e: Entry, below: Option<Leaf>): Option<Leaf> {
    if below.None? then None
    else Some(below.value.(writable := below.value.writable && e.writable,
                           user := below.value.user && e.user, nx := below.value.nx || e.nx))
  }

  ghost function Walk(tables: Tables, root: nat, level: nat, va: nat): Option<Leaf>
    requires Mapped(tables, root, level)
    decreases level
  {
    var e := tables[root][Index(va, level)];
    if !e.present then None
    else if !Branch(level, e) then Some(Leaf(e, level, e.writable, e.user, e.nx))
    else Through(e, Walk(tables, e.address, level - 1, va))
  }

  /** The physical address a leaf gives to `va`. */
  function Target(leaf: Leaf, va: nat): nat
    requires 1 <= leaf.level <= 4
  {
    leaf.entry.address - leaf.entry.address % Span(leaf.level) + va % Span(leaf.level)
  }

  ghost function Translate(tables: Tables, root: nat, va: nat): Option<nat>
    requires Mapped(tables, root, 4)
  {
    var leaf := Walk(tables, root, 4, va);
    WalkLevel(tables, root, 4, va);
    if leaf.None? then None else Some(Target(leaf.value, va))
  }

  lemma {:induction false} WalkLevel(tables: Tables, root: nat, level: nat, va: nat)
    requires Mapped(tables, root, level)
    ensures var leaf := Walk(tables, root, level, va);
            leaf.Some? ==> 1 <= leaf.value.level <= level && leaf.value.entry.present
    decreases level
  {
    var e := tables[root][Index(va, level)];
    if Branch(level, e) { WalkLevel(tables, e.address, level - 1, va); }
  }

  // ----- the tables of a tree -----

  /** All tables reachable from `root`. */
  ghost function TreeSet(tables: Tables, root: nat, level: nat): set<nat>
    requires Mapped(tables, root, level)
    decreases level, 1
  {
    {root} + set s, t | 0 <= s < ENTRIES && t in ChildSet(tables, root, level, s) :: t
  }

  /** The tables below slot `s`. */
  ghost function ChildSet(tables: Tables, root: nat, level: nat, s: nat): set<nat>
    requires Mapped(tables, root, level) && s < ENTRIES
    decreases level, 0
  {
    if Branch(level, tables[root][s]) then TreeSet(tables, tables[root][s].address, level - 1) else {}
  }

  /** No table is reachable twice. */
  ghost predicate Tree(tables: Tables, root: nat, level: nat)
    decreases level
  {
    && Mapped(tables, root, level)
    && (forall s :: 0 <= s < ENTRIES && Branch(level, tables[root][s]) ==> Tree(tables, tables[root][s].address, level - 1))
    && (forall s :: 0 <= s < ENTRIES ==> root !in ChildSet(tables, root, level, s))
    && (forall s, s' :: 0 <= s < s' < ENTRIES ==> ChildSet(tables, root, level, s) !! ChildSet(tables, root, level, s'))
  }

  lemma {:induction false} TreeSetInTables(tables: Tables, root: nat, level: nat)
    requires Mapped(tables, root, level)
    ensures TreeSet(tables, root, level) <= tables.Keys && root in TreeSet(tables, root, level)
    decreases level
  {
    forall s | 0 <= s < ENTRIES ensures ChildSet(tables, root, level, s) <= tables.Keys {
      if Branch(level, tables[root][s]) { TreeSetInTables(tables, tables[root][s].address, level - 1); }
    }
  }

  lemma ChildInTree(tables: Tables, root: nat, level: nat, s: nat)
    requires Mapped(tables, root, level) && s < ENTRIES
    ensures ChildSet(tables, root, level, s) <= TreeSet(tables, root, level)
  {
  }

  ghost predicate Agree(a: Tables, b: Tables, on: set<nat>) {
    forall t :: t in on && t in a ==> t in b && b[t] == a[t]
  }

  /** Tables outside a tree do not matter to it. */
  lemma {:induction false} TreeFrame(a: Tables, b: Tables, root: nat, level: nat)
    requires Mapped(a, root, level) && Agree(a, b, TreeSet(a, root, level))
    ensures Mapped(b, root, level) && TreeSet(b, root, level) == TreeSet(a, root, level)
    ensures forall s :: 0 <= s < ENTRIES ==> ChildSet(b, root, level, s) == ChildSet(a, root, level, s)
    ensures Tree(a, root, level) ==> Tree(b, root, level)
    decreases level
  {
    assert root in TreeSet(a, root, level);
    forall s | 0 <= s < ENTRIES && Branch(level, a[root][s])
      ensures var c := a[root][s].address;
              Mapped(b, c, level - 1) && TreeSet(b, c, level - 1) == TreeSet(a, c, level - 1)
              && (Tree(a, c, level - 1) ==> Tree(b, c, level - 1))
    {
      ChildInTree(a, root, level, s);
      TreeFrame(a, b, a[root][s].address, level - 1);
    }
    assert Mapped(b, root, level);
    forall s | 0 <= s < ENTRIES ensures ChildSet(b, root, level, s) == ChildSet(a, root, level, s) { }
  }

  lemma {:induction false} WalkFrame(a: Tables, b: Tables, root: nat, level: nat, va: nat)
    requires Mapped(a, root, level) && Agree(a, b, TreeSet(a, root, level))
    ensures Mapped(b, root, level) && Walk(b, root, level, va) == Walk(a, root, level, va)
    decreases level
  {
    hide TreeSet;
    TreeFrame(a, b, root, level);
    TreeSetInTables(a, root, level);
    var e := a[root][Index(va, level)];
    if Branch(level, e) {
      ChildInTree(a, root, level, Index(va, level));
      WalkFrame(a, b, e.address, level - 1, va);
    }
  }
}
