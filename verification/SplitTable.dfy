/** Sealing one supervisor page: huge pages on the way are split without changing any translation,
    attribute or permission, and only the target page is then tightened. */
module SplitTable {
  import opened Wrappers
  import opened PageTable
  import opened CloneTable

  // ----- what a page looks like -----

  /** Everything a mapping says about an address: where it goes, with which rights and attributes. */
  datatype View = View(target: nat, writable: bool, user: bool, nx: bool, low: nat, leafOnly: nat, high: nat, pat: bool)

  /** The PAT bit is bit 7 of a small leaf and bit 12 of a huge one. */
  function Pat(leaf: Leaf): bool {
    if leaf.level == 1 then leaf.entry.huge else leaf.entry.address / PAGE % 2 == 1
  }

  ghost function ViewOf(leaf: Option<Leaf>, va: nat): Option<View>
    requires leaf.Some? ==> 1 <= leaf.value.level <= 4
  {
    if leaf.None? then None
    else Some(View(Target(leaf.value, va), leaf.value.writable, leaf.value.user, leaf.value.nx,
                   leaf.value.entry.low, leaf.value.entry.leafOnly, leaf.value.entry.high, Pat(leaf.value)))
  }

  ghost function PageView(tables: Tables, root: nat, level: nat, va: nat): Option<View>
    requires Mapped(tables, root, level)
  {
    WalkLevel(tables, root, level, va);
    ViewOf(Walk(tables, root, level, va), va)
  }

  function Restricted(e: Entry, v: Option<View>): Option<View> {
    if v.None? then None
    else Some(v.value.(writable := v.value.writable && e.writable, user := v.value.user && e.user, nx := v.value.nx || e.nx))
  }

  lemma PageViewStep(tables: Tables, root: nat, level: nat, va: nat)
    requires Mapped(tables, root, level)
    ensures var e := tables[root][Index(va, level)];
            PageView(tables, root, level, va) ==
            if !e.present then None
            else if !Branch(level, e) then ViewOf(Some(Leaf(e, level, e.writable, e.user, e.nx)), va)
            else Restricted(e, PageView(tables, e.address, level - 1, va))
  {
    var e := tables[root][Index(va, level)];
    if Branch(level, e) { WalkLevel(tables, e.address, level - 1, va); }
  }

  // ----- splitting one huge entry -----

  /** A huge leaf whose reserved address bits are zero: below its span only the PAT bit may be set. */
  ghost predicate HugeLeaf(e: Entry, level: nat) {
    2 <= level <= 3 && e.present && e.huge && (e.address % Span(level) == 0 || e.address % Span(level) == PAGE)
  }

  /** The `i`th entry of the table that replaces a huge leaf. */
  function Piece(e: Entry, level: nat, i: nat): Entry
    requires 2 <= level <= 3
  {
    var base := e.address - e.address % Span(level);
    if level == 3 then e.(address := base + i * Span(2) + e.address % Span(3))
    else e.(address := base + i * Span(1), huge := e.address / PAGE % 2 == 1)
  }

  function Pieces(e: Entry, level: nat): Table
    requires 2 <= level <= 3
  {
    seq(512, i requires 0 <= i < 512 => Piece(e, level, i))
  }

  /** The parent keeps the access bits and drops what only makes sense in a leaf. */
  function Parent(e: Entry, child: nat): Entry {
    Entry(e.present, e.writable, e.user, e.low, 0, false, child, 0, e.nx)
  }

  function Split(t: Tables, table: nat, slot: nat, level: nat, child: nat): Tables
    requires table in t && slot < ENTRIES && 2 <= level <= 3
  {
    t[child := Pieces(t[table][slot], level)][table := t[table][slot := Parent(t[table][slot], child)]]
  }

  lemma Arithmetic3(a: nat, va: nat)
    requires a % 0x4000_0000 == 0 || a % 0x4000_0000 == 0x1000
    ensures var r := a % 0x4000_0000;
            var x := a - r + va / 0x20_0000 % 512 * 0x20_0000 + r;
            && x % 0x20_0000 == r
            && x - x % 0x20_0000 + va % 0x20_0000 == a - r + va % 0x4000_0000
            && x / 0x1000 % 2 == a / 0x1000 % 2
  {
    var r, k, i := a % 0x4000_0000, a / 0x4000_0000, va / 0x20_0000 % 512;
    var q := 512 * k + i;
    var x := a - r + i * 0x20_0000 + r;
    assert x == q * 0x20_0000 + r;
    assert x / 0x20_0000 == q && x % 0x20_0000 == r;
    OffsetIn(va);
    PatBit(q, r, 512);
    PatBit(k, r, 0x4_0000);
    assert x == q * 512 * 0x1000 + r && a == k * 0x4_0000 * 0x1000 + r;
  }

  lemma OffsetIn(va: nat)
    ensures va % 0x4000_0000 == va / 0x20_0000 % 512 * 0x20_0000 + va % 0x20_0000
  {
    var m, i := va / 0x4000_0000, va / 0x20_0000 % 512;
    assert va / 0x20_0000 == 512 * m + i;
  }

  /** Bit 12 of a multiple of two pages plus 0 or one page. */
  lemma PatBit(q: nat, r: nat, n: nat)
    requires (r == 0 || r == 0x1000) && n % 2 == 0
    ensures (q * n * 0x1000 + r) / 0x1000 % 2 == r / 0x1000
  {
    var h := n / 2;
    assert q * n == 2 * (q * h);
    assert (q * n * 0x1000 + r) / 0x1000 == q * n + r / 0x1000;
  }

  lemma Arithmetic2(a: nat, va: nat)
    requires a % 0x20_0000 == 0 || a % 0x20_0000 == 0x1000
    ensures var r := a % 0x20_0000;
            var x := a - r + va / 0x1000 % 512 * 0x1000;
            && x % 0x1000 == 0
            && x + va % 0x1000 == a - r + va % 0x20_0000
  {
    var r, k, i := a % 0x20_0000, a / 0x20_0000, va / 0x1000 % 512;
    var q := 512 * k + i;
    assert a - r + i * 0x1000 == q * 0x1000;
    var m := va / 0x20_0000;
    assert va / 0x1000 == 512 * m + i;
  }

  lemma PieceView3(e: Entry, va: nat)
    requires HugeLeaf(e, 3)
    ensures var p := Piece(e, 3, Index(va, 2));
            ViewOf(Some(Leaf(p, 2, p.writable, p.user, p.nx)), va) == ViewOf(Some(Leaf(e, 3, e.writable, e.user, e.nx)), va)
  {
    Arithmetic3(e.address, va);
  }

  lemma PieceView2(e: Entry, va: nat)
    requires HugeLeaf(e, 2)
    ensures var p := Piece(e, 2, Index(va, 1));
            ViewOf(Some(Leaf(p, 1, p.writable, p.user, p.nx)), va) == ViewOf(Some(Leaf(e, 2, e.writable, e.user, e.nx)), va)
  {
    Arithmetic2(e.address, va);
  }

  // ----- changes deep inside a tree -----

  /** Every huge leaf of the tree is well formed. */
  ghost predicate LeavesOk(t: Tables, root: nat, level: nat)
    requires Mapped(t, root, level)
    decreases level
  {
    forall s :: 0 <= s < ENTRIES && t[root][s].present ==>
      if Branch(level, t[root][s]) then LeavesOk(t, t[root][s].address, level - 1)
      else 1 < level ==> HugeLeaf(t[root][s], level)
  }

  /** The walk for `address` from `root` reaches `table` at level `to`, and every entry on the way is a
      supervisor entry that permits writing if `w` and executing if `x`. */
  ghost predicate Path(t: Tables, root: nat, level: nat, address: nat, to: nat, table: nat, w: bool, x: bool)
    requires Mapped(t, root, level)
    decreases level
  {
    if level <= to then level == to && root == table
    else
      var e := t[root][Index(address, level)];
      Branch(level, e) && Permits(e, w, x) && Path(t, e.address, level - 1, address, to, table, w, x)
  }

  predicate Permits(e: Entry, w: bool, x: bool) { !e.user && (w ==> e.writable) && (x ==> !e.nx) }

  lemma {:induction false} PathInTree(t: Tables, root: nat, level: nat, address: nat, to: nat, table: nat, w: bool, x: bool)
    requires Tree(t, root, level) && Path(t, root, level, address, to, table, w, x)
    ensures table in TreeSet(t, root, level) && table in t && Tree(t, table, to) && to <= level
    decreases level
  {
    if level > to {
      var s := Index(address, level);
      PathInTree(t, t[root][s].address, level - 1, address, to, table, w, x);
      ChildInTree(t, root, level, s);
    }
  }

  lemma {:induction false} PathExtends(t: Tables, root: nat, level: nat, address: nat, to: nat, table: nat, w: bool, x: bool)
    requires Mapped(t, root, level) && Path(t, root, level, address, to, table, w, x) && 1 < to <= level
    requires table in t
    requires var e := t[table][Index(address, to)]; Branch(to, e) && Permits(e, w, x)
    ensures Path(t, root, level, address, to - 1, t[table][Index(address, to)].address, w, x)
    decreases level
  {
    if level > to {
      PathExtends(t, t[root][Index(address, level)].address, level - 1, address, to, table, w, x);
    }
  }

  /** `u` is `t` with changes confined to the tree below slot `s`, plus new tables `added` there. */
  ghost predicate ChangedBelow(t: Tables, u: Tables, root: nat, level: nat, s: nat, added: set<nat>) {
    && Tree(t, root, level) && s < ENTRIES && Branch(level, t[root][s])
    && Tree(u, t[root][s].address, level - 1)
    && TreeSet(u, t[root][s].address, level - 1) == ChildSet(t, root, level, s) + added
    && added !! t.Keys
    && Agree(t, u, t.Keys - ChildSet(t, root, level, s))
  }

  lemma TreeParts(t: Tables, root: nat, level: nat, k: nat, s: nat)
    requires Tree(t, root, level) && k < ENTRIES && s < ENTRIES
    ensures Mapped(t, root, level) && root in t
    ensures root !in ChildSet(t, root, level, k)
    ensures k != s ==> ChildSet(t, root, level, k) !! ChildSet(t, root, level, s)
    ensures Branch(level, t[root][k]) ==>
              Mapped(t, t[root][k].address, level - 1) && Tree(t, t[root][k].address, level - 1)
              && ChildSet(t, root, level, k) == TreeSet(t, t[root][k].address, level - 1)
  {
    assert k < s ==> ChildSet(t, root, level, k) !! ChildSet(t, root, level, s);
    assert s < k ==> ChildSet(t, root, level, s) !! ChildSet(t, root, level, k);
  }

  lemma OthersAgree(t: Tables, u: Tables, root: nat, level: nat, s: nat, added: set<nat>, k: nat)
    requires ChangedBelow(t, u, root, level, s, added) && k < ENTRIES && k != s && Branch(level, t[root][k])
    ensures Mapped(t, t[root][k].address, level - 1)
    ensures Agree(t, u, TreeSet(t, t[root][k].address, level - 1))
    ensures Tree(u, t[root][k].address, level - 1)
    ensures TreeSet(u, t[root][k].address, level - 1) == ChildSet(t, root, level, k)
  {
    hide Tree, TreeSet;
    TreeParts(t, root, level, k, s);
    TreeSetInTables(t, t[root][k].address, level - 1);
    TreeFrame(t, u, t[root][k].address, level - 1);
  }

  lemma ChangedRoot(t: Tables, u: Tables, root: nat, level: nat, s: nat, added: set<nat>)
    requires ChangedBelow(t, u, root, level, s, added)
    ensures root in t && root in u && u[root] == t[root]
    ensures Mapped(u, root, level)
    ensures forall k :: 0 <= k < ENTRIES ==> ChildSet(u, root, level, k) == ChildSet(t, root, level, k) + if k == s then added else {}
  {
    hide Tree, TreeSet;
    TreeParts(t, root, level, s, s);
    forall k | 0 <= k < ENTRIES && Branch(level, t[root][k])
      ensures Mapped(u, t[root][k].address, level - 1)
      ensures TreeSet(u, t[root][k].address, level - 1) == ChildSet(t, root, level, k) + if k == s then added else {}
    {
      if k != s { OthersAgree(t, u, root, level, s, added, k); }
      TreeMapped(u, t[root][k].address, level - 1);
      TreeParts(t, root, level, k, k);
    }
  }

  /** A change below one slot leaves a tree, with the new tables in it. */
  lemma ChangedTree(t: Tables, u: Tables, root: nat, level: nat, s: nat, added: set<nat>)
    requires ChangedBelow(t, u, root, level, s, added)
    ensures root in u && u[root] == t[root] && Tree(u, root, level)
    ensures TreeSet(u, root, level) == TreeSet(t, root, level) + added
  {
    ChangedRoot(t, u, root, level, s, added);
    TreeSetInTables(t, root, level);
    forall k | 0 <= k < ENTRIES && Branch(level, u[root][k]) ensures Tree(u, u[root][k].address, level - 1) {
      if k != s { OthersAgree(t, u, root, level, s, added, k); }
    }
    ChangedSets(t, u, root, level, s, added);
  }

  lemma ChangedSets(t: Tables, u: Tables, root: nat, level: nat, s: nat, added: set<nat>)
    requires Tree(t, root, level) && Mapped(u, root, level) && s < ENTRIES && added !! t.Keys
    requires forall k :: 0 <= k < ENTRIES ==> ChildSet(u, root, level, k) == ChildSet(t, root, level, k) + if k == s then added else {}
    ensures forall k :: 0 <= k < ENTRIES ==> root !in ChildSet(u, root, level, k)
    ensures forall k, l :: 0 <= k < l < ENTRIES ==> ChildSet(u, root, level, k) !! ChildSet(u, root, level, l)
    ensures TreeSet(u, root, level) == TreeSet(t, root, level) + added
  {
    hide TreeSet, Tree, ChildSet;
    TreeMapped(t, root, level);
    TreeSetInTables(t, root, level);
    forall k | 0 <= k < ENTRIES ensures ChildSet(t, root, level, k) !! added && root !in ChildSet(t, root, level, k) {
      ChildInTree(t, root, level, k);
      TreeParts(t, root, level, k, k);
    }
    forall k, l | 0 <= k < l < ENTRIES ensures ChildSet(t, root, level, k) !! ChildSet(t, root, level, l) {
      TreeParts(t, root, level, k, l);
    }
    ChangedTreeSet(t, u, root, level, s, added);
  }

  lemma ChangedTreeSet(t: Tables, u: Tables, root: nat, level: nat, s: nat, added: set<nat>)
    requires Mapped(t, root, level) && Mapped(u, root, level) && s < ENTRIES
    requires forall k :: 0 <= k < ENTRIES ==> ChildSet(u, root, level, k) == ChildSet(t, root, level, k) + if k == s then added else {}
    ensures TreeSet(u, root, level) == TreeSet(t, root, level) + added
  {
    hide TreeSet, ChildSet;
    forall x | x in TreeSet(u, root, level) ensures x in TreeSet(t, root, level) + added {
      var k := SlotHolding(u, root, level, x);
      ChildInTree(t, root, level, k);
      RootInTree(t, root, level);
    }
    forall x | x in TreeSet(t, root, level) ensures x in TreeSet(u, root, level) {
      var k := SlotHolding(t, root, level, x);
      ChildInTree(u, root, level, k);
      RootInTree(u, root, level);
    }
    ChildInTree(u, root, level, s);
  }

  lemma RootInTree(t: Tables, root: nat, level: nat)
    requires Mapped(t, root, level)
    ensures root in TreeSet(t, root, level)
  {
  }

  /** The slot through which a table of the tree is reached. */
  lemma SlotHolding(t: Tables, root: nat, level: nat, x: nat) returns (k: nat)
    requires Mapped(t, root, level) && x in TreeSet(t, root, level)
    ensures k < ENTRIES && (x == root || x in ChildSet(t, root, level, k))
  {
    if x == root { return 0; }
    k :| 0 <= k < ENTRIES && x in ChildSet(t, root, level, k);
  }

  /** What an address sees changes only if it goes through the changed slot. */
  lemma ChangedView(t: Tables, u: Tables, root: nat, level: nat, s: nat, added: set<nat>, va: nat)
    requires ChangedBelow(t, u, root, level, s, added)
    ensures Mapped(t, root, level) && Mapped(u, root, level)
    ensures Mapped(t, t[root][s].address, level - 1) && Mapped(u, t[root][s].address, level - 1)
    ensures PageView(u, root, level, va) ==
            if Index(va, level) == s then Restricted(t[root][s], PageView(u, t[root][s].address, level - 1, va))
            else PageView(t, root, level, va)
  {
    hide Tree, TreeSet, Mapped, Walk;
    ChangedTree(t, u, root, level, s, added);
    TreeMapped(u, root, level);
    TreeParts(t, root, level, s, s);
    TreeMapped(u, t[root][s].address, level - 1);
    PageViewStep(t, root, level, va);
    PageViewStep(u, root, level, va);
    var k := Index(va, level);
    if k != s && Branch(level, t[root][k]) {
      OthersAgree(t, u, root, level, s, added, k);
      WalkFrame(t, u, t[root][k].address, level - 1, va);
    }
  }

  // ----- a split anywhere in the tree -----

  /** The pieces form a table of leaves. */
  lemma PiecesTree(t: Tables, e: Entry, level: nat, child: nat)
    requires HugeLeaf(e, level) && child in t && t[child] == Pieces(e, level)
    ensures Tree(t, child, level - 1) && TreeSet(t, child, level - 1) == {child} && LeavesOk(t, child, level - 1)
  {
    forall i | 0 <= i < ENTRIES ensures !Branch(level - 1, t[child][i]) { }
    assert TreeSet(t, child, level - 1) == {child};
    if level == 3 {
      forall i | 0 <= i < ENTRIES ensures HugeLeaf(t[child][i], 2) { PieceHuge(e, i); }
    }
  }

  lemma PieceHuge(e: Entry, i: nat)
    requires HugeLeaf(e, 3)
    ensures HugeLeaf(Piece(e, 3, i), 2)
  {
    var k := e.address / 0x4000_0000;
    var r := e.address % 0x4000_0000;
    assert e.address - r + i * 0x20_0000 + r == (512 * k + i) * 0x20_0000 + r;
  }

  lemma SplitTree(t: Tables, root: nat, slot: nat, level: nat, child: nat)
    requires Tree(t, root, level) && slot < ENTRIES && HugeLeaf(t[root][slot], level) && child !in t
    ensures var u := Split(t, root, slot, level, child);
            Tree(u, root, level) && TreeSet(u, root, level) == TreeSet(t, root, level) + {child}
            && Agree(t, u, t.Keys - {root}) && u.Keys == t.Keys + {child}
  {
    hide Tree, TreeSet;
    TreeMapped(t, root, level);
    var e := t[root][slot];
    var v := t[child := Pieces(e, level)];
    TreeSetInTables(t, root, level);
    TreeFrame(t, v, root, level);
    PiecesTree(v, e, level, child);
    WriteSlot(v, root, level, slot, Parent(e, child));
  }

  lemma SplitView(t: Tables, root: nat, slot: nat, level: nat, child: nat, va: nat)
    requires Tree(t, root, level) && slot < ENTRIES && HugeLeaf(t[root][slot], level) && child !in t
    ensures var u := Split(t, root, slot, level, child);
            Mapped(u, root, level) && PageView(u, root, level, va) == PageView(t, root, level, va)
  {
    hide Tree, TreeSet;
    TreeMapped(t, root, level);
    var u := Split(t, root, slot, level, child);
    SplitTree(t, root, slot, level, child);
    TreeMapped(u, root, level);
    var e, k := t[root][slot], Index(va, level);
    PageViewStep(t, root, level, va);
    PageViewStep(u, root, level, va);
    if k == slot {
      PiecesTree(u, e, level, child);
      TreeMapped(u, child, level - 1);
      PageViewStep(u, child, level - 1, va);
      if level == 3 { PieceView3(e, va); } else { PieceView2(e, va); }
    } else if Branch(level, t[root][k]) {
      SplitOther(t, root, slot, level, child, k);
      WalkFrame(t, u, t[root][k].address, level - 1, va);
    }
  }

  lemma SplitOther(t: Tables, root: nat, slot: nat, level: nat, child: nat, k: nat)
    requires Tree(t, root, level) && slot < ENTRIES && HugeLeaf(t[root][slot], level) && child !in t
    requires k < ENTRIES && Branch(level, t[root][k])
    ensures Mapped(t, t[root][k].address, level - 1)
    ensures Agree(t, Split(t, root, slot, level, child), TreeSet(t, t[root][k].address, level - 1))
  {
    TreeParts(t, root, level, k, slot);
    TreeSetInTables(t, t[root][k].address, level - 1);
  }

  lemma SplitLeaves(t: Tables, root: nat, slot: nat, level: nat, child: nat)
    requires Tree(t, root, level) && slot < ENTRIES && HugeLeaf(t[root][slot], level) && child !in t && LeavesOk(t, root, level)
    ensures var u := Split(t, root, slot, level, child);
            Mapped(u, root, level) && LeavesOk(u, root, level)
  {
    hide Tree, TreeSet;
    TreeMapped(t, root, level);
    var u := Split(t, root, slot, level, child);
    SplitTree(t, root, slot, level, child);
    TreeMapped(u, root, level);
    PiecesTree(u, t[root][slot], level, child);
    forall k | 0 <= k < ENTRIES && k != slot && Branch(level, t[root][k])
      ensures Mapped(u, t[root][k].address, level - 1) && Mapped(t, t[root][k].address, level - 1)
              && LeavesOk(u, t[root][k].address, level - 1)
    {
      SplitOther(t, root, slot, level, child, k);
      LeavesFrame(t, u, t[root][k].address, level - 1);
    }
  }

  lemma {:induction false} LeavesFrame(t: Tables, u: Tables, root: nat, level: nat)
    requires Mapped(t, root, level) && Agree(t, u, TreeSet(t, root, level)) && LeavesOk(t, root, level)
    ensures Mapped(u, root, level) && LeavesOk(u, root, level)
    decreases level
  {
    hide TreeSet;
    TreeFrame(t, u, root, level);
    TreeSetInTables(t, root, level);
    forall k | 0 <= k < ENTRIES && Branch(level, t[root][k])
      ensures Mapped(u, t[root][k].address, level - 1) && LeavesOk(u, t[root][k].address, level - 1)
    {
      ChildInTree(t, root, level, k);
      LeavesFrame(t, u, t[root][k].address, level - 1);
    }
  }

  lemma ChangedLeaves(t: Tables, u: Tables, root: nat, level: nat, s: nat, added: set<nat>)
    requires ChangedBelow(t, u, root, level, s, added)
    requires Mapped(t, root, level) && LeavesOk(t, root, level)
    requires Mapped(u, t[root][s].address, level - 1) && LeavesOk(u, t[root][s].address, level - 1)
    ensures Mapped(u, root, level) && LeavesOk(u, root, level)
  {
    hide Tree, TreeSet;
    ChangedTree(t, u, root, level, s, added);
    TreeMapped(u, root, level);
    forall k | 0 <= k < ENTRIES && k != s && Branch(level, t[root][k])
      ensures Mapped(u, t[root][k].address, level - 1) && LeavesOk(u, t[root][k].address, level - 1)
    {
      OthersAgree(t, u, root, level, s, added, k);
      LeavesFrame(t, u, t[root][k].address, level - 1);
    }
  }

  /** Splitting the huge leaf that `address` meets keeps the tree, its path and its leaves well formed. */
  lemma {:induction false} SplitDeep(t: Tables, root: nat, level: nat, address: nat, to: nat, table: nat, w: bool, x: bool, child: nat)
    requires Tree(t, root, level) && LeavesOk(t, root, level) && Path(t, root, level, address, to, table, w, x)
    requires table in t && 2 <= to <= level && HugeLeaf(t[table][Index(address, to)], to) && child !in t
    ensures var u := Split(t, table, Index(address, to), to, child);
            && Tree(u, root, level) && TreeSet(u, root, level) == TreeSet(t, root, level) + {child}
            && LeavesOk(u, root, level) && Path(u, root, level, address, to, table, w, x)
    decreases level
  {
    hide Tree, TreeSet, LeavesOk;
    var slot := Index(address, to);
    TreeMapped(t, root, level);
    if level == to {
      SplitTree(t, root, slot, level, child);
      SplitLeaves(t, root, slot, level, child);
    } else {
      var s := Index(address, level);
      TreeParts(t, root, level, s, s);
      LeavesBelow(t, root, level, s);
      SplitDeep(t, t[root][s].address, level - 1, address, to, table, w, x, child);
      SplitBelow(t, root, level, address, to, table, w, x, child);
      var u := Split(t, table, slot, to, child);
      TreeMapped(u, t[root][s].address, level - 1);
      ChangedTree(t, u, root, level, s, {child});
      ChangedLeaves(t, u, root, level, s, {child});
    }
  }

  lemma LeavesBelow(t: Tables, root: nat, level: nat, s: nat)
    requires Mapped(t, root, level) && LeavesOk(t, root, level) && s < ENTRIES && Branch(level, t[root][s])
    ensures LeavesOk(t, t[root][s].address, level - 1)
  {
  }

  lemma SplitBelow(t: Tables, root: nat, level: nat, address: nat, to: nat, table: nat, w: bool, x: bool, child: nat)
    requires Tree(t, root, level) && Path(t, root, level, address, to, table, w, x)
    requires table in t && 2 <= to < level && to <= 3 && child !in t
    requires var u := Split(t, table, Index(address, to), to, child);
             var c := t[root][Index(address, level)].address;
             Mapped(t, c, level - 1) && Tree(u, c, level - 1) && TreeSet(u, c, level - 1) == TreeSet(t, c, level - 1) + {child}
    ensures ChangedBelow(t, Split(t, table, Index(address, to), to, child), root, level, Index(address, level), {child})
  {
    hide Tree, TreeSet;
    TreeMapped(t, root, level);
    var s := Index(address, level);
    TreeParts(t, root, level, s, s);
    PathInTree(t, t[root][s].address, level - 1, address, to, table, w, x);
  }

  /** ... and no address sees a difference. */
  lemma {:induction false} SplitDeepView(t: Tables, root: nat, level: nat, address: nat, to: nat, table: nat, w: bool, x: bool, child: nat, va: nat)
    requires Tree(t, root, level) && LeavesOk(t, root, level) && Path(t, root, level, address, to, table, w, x)
    requires table in t && 2 <= to <= level && HugeLeaf(t[table][Index(address, to)], to) && child !in t
    ensures var u := Split(t, table, Index(address, to), to, child);
            Mapped(u, root, level) && PageView(u, root, level, va) == PageView(t, root, level, va)
    decreases level
  {
    hide Tree, TreeSet, LeavesOk;
    TreeMapped(t, root, level);
    SplitDeep(t, root, level, address, to, table, w, x, child);
    var u := Split(t, table, Index(address, to), to, child);
    TreeMapped(u, root, level);
    if level == to {
      SplitView(t, root, Index(address, to), level, child, va);
    } else {
      var s := Index(address, level);
      TreeParts(t, root, level, s, s);
      LeavesBelow(t, root, level, s);
      SplitDeep(t, t[root][s].address, level - 1, address, to, table, w, x, child);
      SplitBelow(t, root, level, address, to, table, w, x, child);
      SplitDeepView(t, t[root][s].address, level - 1, address, to, table, w, x, child, va);
      ChangedView(t, u, root, level, s, {child}, va);
      PageViewStep(t, root, level, va);
    }
  }

  // ----- tightening the target page -----

  /** `va` and `address` take the same slot at every level from `level` down: they are on one page. */
  predicate SameSlots(va: nat, address: nat, level: nat)
    requires level <= 4
  {
    level == 0 || (Index(va, level) == Index(address, level) && SameSlots(va, address, level - 1))
  }

  function Tighten(t: Tables, table: nat, slot: nat, w: bool, x: bool): Tables
    requires table in t && slot < ENTRIES
  {
    t[table := t[table][slot := t[table][slot].(writable := w, nx := !x)]]
  }

  function Tightened(v: Option<View>, w: bool, x: bool): Option<View> {
    if v.None? then None else Some(v.value.(writable := w, nx := !x))
  }

  lemma TightenHere(t: Tables, table: nat, slot: nat, w: bool, x: bool)
    requires Tree(t, table, 1) && slot < ENTRIES
    ensures var u := Tighten(t, table, slot, w, x);
            Tree(u, table, 1) && TreeSet(u, table, 1) == TreeSet(t, table, 1) && LeavesOk(u, table, 1)
  {
    var u := Tighten(t, table, slot, w, x);
    assert forall s :: 0 <= s < ENTRIES ==> ChildSet(t, table, 1, s) == {};
    assert Mapped(u, table, 1);
    assert forall s :: 0 <= s < ENTRIES ==> ChildSet(u, table, 1, s) == {};
  }

  lemma {:induction false} TightenDeep(t: Tables, root: nat, level: nat, address: nat, table: nat, w: bool, x: bool)
    requires Tree(t, root, level) && LeavesOk(t, root, level) && Path(t, root, level, address, 1, table, w, x)
    requires table in t
    ensures var u := Tighten(t, table, Index(address, 1), w, x);
            && Tree(u, root, level) && TreeSet(u, root, level) == TreeSet(t, root, level) && LeavesOk(u, root, level)
            && (1 < level ==> ChangedBelow(t, u, root, level, Index(address, level), {}))
    decreases level
  {
    hide Tree, TreeSet, LeavesOk;
    TreeMapped(t, root, level);
    var u := Tighten(t, table, Index(address, 1), w, x);
    if level == 1 {
      TightenHere(t, root, Index(address, 1), w, x);
    } else {
      var s := Index(address, level);
      var c := t[root][s].address;
      TreeParts(t, root, level, s, s);
      LeavesBelow(t, root, level, s);
      TightenDeep(t, c, level - 1, address, table, w, x);
      PathInTree(t, c, level - 1, address, 1, table, w, x);
      TreeMapped(u, c, level - 1);
      ChangedTree(t, u, root, level, s, {});
      ChangedLeaves(t, u, root, level, s, {});
    }
  }

  /** Only the target page changes, and it ends up with exactly the requested rights. */
  lemma {:induction false} TightenDeepView(t: Tables, root: nat, level: nat, address: nat, table: nat, w: bool, x: bool, va: nat)
    requires Tree(t, root, level) && LeavesOk(t, root, level) && Path(t, root, level, address, 1, table, w, x)
    requires table in t
    requires var e := t[table][Index(address, 1)]; e.present && Permits(e, w, x)
    ensures var u := Tighten(t, table, Index(address, 1), w, x);
            && Mapped(u, root, level)
            && PageView(u, root, level, va) ==
               (if SameSlots(va, address, level) then Tightened(PageView(t, root, level, va), w, x) else PageView(t, root, level, va))
            && (SameSlots(va, address, level) ==> PageView(t, root, level, va).Some? && !PageView(t, root, level, va).value.user)
    decreases level
  {
    hide Tree, TreeSet, LeavesOk, Walk, PageView;
    TreeMapped(t, root, level);
    TightenDeep(t, root, level, address, table, w, x);
    var u := Tighten(t, table, Index(address, 1), w, x);
    TreeMapped(u, root, level);
    PageViewStep(t, root, level, va);
    if level == 1 {
      PageViewStep(u, root, level, va);
    } else {
      var s := Index(address, level);
      TreeParts(t, root, level, s, s);
      LeavesBelow(t, root, level, s);
      ChangedView(t, u, root, level, s, {}, va);
      TightenDeepView(t, t[root][s].address, level - 1, address, table, w, x, va);
    }
  }

  // ----- what splitting and tightening keep of the tables themselves -----

  /** The walk for `va` goes through tables all the way down, so a leaf it ends in is a 4 KiB page. */
  ghost predicate Deep(t: Tables, root: nat, level: nat, va: nat)
    requires Mapped(t, root, level)
    decreases level
  {
    level == 1 ||
    var e := t[root][Index(va, level)];
    Branch(level, e) && Deep(t, e.address, level - 1, va)
  }

  /** No entry is open to user mode. */
  predicate Supervisor(t: Tables) { forall x, s :: x in t && 0 <= s < ENTRIES ==> !t[x][s].user }

  lemma {:induction false} DeepFrame(t: Tables, u: Tables, root: nat, level: nat, va: nat)
    requires Mapped(t, root, level) && Agree(t, u, TreeSet(t, root, level)) && Deep(t, root, level, va)
    ensures Mapped(u, root, level) && Deep(u, root, level, va)
    decreases level
  {
    hide TreeSet;
    TreeFrame(t, u, root, level);
    TreeSetInTables(t, root, level);
    if level > 1 {
      ChildInTree(t, root, level, Index(va, level));
      DeepFrame(t, u, t[root][Index(va, level)].address, level - 1, va);
    }
  }

  /** The way a request took is a walk through tables. */
  lemma {:induction false} PathDeep(t: Tables, root: nat, level: nat, address: nat, table: nat, w: bool, x: bool)
    requires Mapped(t, root, level) && Path(t, root, level, address, 1, table, w, x)
    ensures Deep(t, root, level, address)
    decreases level
  {
    if level > 1 { PathDeep(t, t[root][Index(address, level)].address, level - 1, address, table, w, x); }
  }

  /** A change below one slot keeps the depth of every address, if it keeps that of the addresses going through the slot. */
  lemma ChangedDeep(t: Tables, u: Tables, root: nat, level: nat, s: nat, added: set<nat>, va: nat)
    requires ChangedBelow(t, u, root, level, s, added) && Mapped(t, root, level) && Deep(t, root, level, va) && 1 < level
    requires Mapped(u, t[root][s].address, level - 1)
    requires Index(va, level) == s ==> Deep(u, t[root][s].address, level - 1, va)
    ensures Mapped(u, root, level) && Deep(u, root, level, va)
  {
    hide Tree, TreeSet;
    ChangedRoot(t, u, root, level, s, added);
    var k := Index(va, level);
    if k != s {
      OthersAgree(t, u, root, level, s, added, k);
      DeepFrame(t, u, t[root][k].address, level - 1, va);
    }
  }

  lemma {:induction false} SplitDeepStays(t: Tables, root: nat, level: nat, address: nat, to: nat, table: nat, w: bool, x: bool, child: nat, va: nat)
    requires Tree(t, root, level) && LeavesOk(t, root, level) && Path(t, root, level, address, to, table, w, x)
    requires table in t && 2 <= to <= level && HugeLeaf(t[table][Index(address, to)], to) && child !in t
    requires Deep(t, root, level, va)
    ensures var u := Split(t, table, Index(address, to), to, child); Mapped(u, root, level) && Deep(u, root, level, va)
    decreases level
  {
    hide Tree, TreeSet, LeavesOk;
    TreeMapped(t, root, level);
    SplitDeep(t, root, level, address, to, table, w, x, child);
    var u := Split(t, table, Index(address, to), to, child);
    TreeMapped(u, root, level);
    if level == to {
      var k := Index(va, level);
      SplitOther(t, root, Index(address, to), level, child, k);
      DeepFrame(t, u, t[root][k].address, level - 1, va);
    } else {
      var s := Index(address, level);
      TreeParts(t, root, level, s, s);
      LeavesBelow(t, root, level, s);
      SplitDeep(t, t[root][s].address, level - 1, address, to, table, w, x, child);
      SplitBelow(t, root, level, address, to, table, w, x, child);
      TreeMapped(u, t[root][s].address, level - 1);
      if Index(va, level) == s { SplitDeepStays(t, t[root][s].address, level - 1, address, to, table, w, x, child, va); }
      ChangedDeep(t, u, root, level, s, {child}, va);
    }
  }

  lemma {:induction false} TightenDeepStays(t: Tables, root: nat, level: nat, address: nat, table: nat, w: bool, x: bool, va: nat)
    requires Tree(t, root, level) && LeavesOk(t, root, level) && Path(t, root, level, address, 1, table, w, x)
    requires table in t && Deep(t, root, level, va)
    ensures var u := Tighten(t, table, Index(address, 1), w, x); Mapped(u, root, level) && Deep(u, root, level, va)
    decreases level
  {
    hide Tree, TreeSet, LeavesOk;
    TreeMapped(t, root, level);
    TightenDeep(t, root, level, address, table, w, x);
    var u := Tighten(t, table, Index(address, 1), w, x);
    TreeMapped(u, root, level);
    if level > 1 {
      var s := Index(address, level);
      TreeParts(t, root, level, s, s);
      LeavesBelow(t, root, level, s);
      TightenDeep(t, t[root][s].address, level - 1, address, table, w, x);
      TreeMapped(u, t[root][s].address, level - 1);
      if Index(va, level) == s { TightenDeepStays(t, t[root][s].address, level - 1, address, table, w, x, va); }
      ChangedDeep(t, u, root, level, s, {}, va);
    }
  }

  /** The root's own entries, the absence of user entries and the depth of every address stay. */
  ghost predicate Structure(t: Tables, u: Tables, root: nat) {
    && Mapped(t, root, 4) && Mapped(u, root, 4) && u[root] == t[root]
    && (Supervisor(t) ==> Supervisor(u))
    && (forall va: nat :: Deep(t, root, 4, va) ==> Deep(u, root, 4, va))
  }

  lemma StructureTransitive(t: Tables, u: Tables, v: Tables, root: nat)
    requires Structure(t, u, root) && Structure(u, v, root)
    ensures Structure(t, v, root)
  {
    hide Deep, Supervisor, Mapped;
  }

  lemma SplitStructure(t: Tables, root: nat, address: nat, to: nat, table: nat, w: bool, x: bool, child: nat)
    requires Tree(t, root, 4) && LeavesOk(t, root, 4) && Path(t, root, 4, address, to, table, w, x)
    requires table in t && 2 <= to <= 3 && HugeLeaf(t[table][Index(address, to)], to) && child !in t
    ensures Structure(t, Split(t, table, Index(address, to), to, child), root)
  {
    hide Tree, TreeSet, LeavesOk, Deep;
    TreeMapped(t, root, 4);
    var u, s := Split(t, table, Index(address, to), to, child), Index(address, 4);
    SplitDeep(t, root, 4, address, to, table, w, x, child);
    TreeMapped(u, root, 4);
    TreeParts(t, root, 4, s, s);
    LeavesBelow(t, root, 4, s);
    SplitDeep(t, t[root][s].address, 3, address, to, table, w, x, child);
    SplitBelow(t, root, 4, address, to, table, w, x, child);
    ChangedTree(t, u, root, 4, s, {child});
    SplitSupervisor(t, table, Index(address, to), to, child);
    forall va: nat | Deep(t, root, 4, va) ensures Deep(u, root, 4, va) {
      SplitDeepStays(t, root, 4, address, to, table, w, x, child, va);
    }
  }

  lemma SplitSupervisor(t: Tables, table: nat, slot: nat, level: nat, child: nat)
    requires table in t && slot < ENTRIES && 2 <= level <= 3
    ensures Supervisor(t) ==> Supervisor(Split(t, table, slot, level, child))
  {
  }

  lemma TightenStructure(t: Tables, root: nat, address: nat, table: nat, w: bool, x: bool)
    requires Tree(t, root, 4) && LeavesOk(t, root, 4) && Path(t, root, 4, address, 1, table, w, x) && table in t
    ensures Structure(t, Tighten(t, table, Index(address, 1), w, x), root)
  {
    hide Tree, TreeSet, LeavesOk, Deep;
    TreeMapped(t, root, 4);
    var u := Tighten(t, table, Index(address, 1), w, x);
    TightenDeep(t, root, 4, address, table, w, x);
    TreeMapped(u, root, 4);
    ChangedTree(t, u, root, 4, Index(address, 4), {});
    forall va: nat | Deep(t, root, 4, va) ensures Deep(u, root, 4, va) {
      TightenDeepStays(t, root, 4, address, table, w, x, va);
    }
  }
}
