/** `protect_kernel_page`: tighten one supervisor page, splitting huge pages on the way, or put every
    table back exactly as it was. */
module ProtectPage {
  import opened Wrappers
  import opened PageTable
  import opened CloneTable
  import opened SplitTable

  datatype PagingError = OutOfMemory | MissingMapping | InvalidAddress | AddressInUse | ActiveAddressSpace

  /** What the entries on the way say, before memory for splitting is considered. */
  ghost function Verdict(t: Tables, table: nat, level: nat, address: nat, w: bool, x: bool): Option<PagingError>
    requires Mapped(t, table, level)
    decreases level
  {
    var e := t[table][Index(address, level)];
    if !e.present || e.user then Some(MissingMapping)
    else if !Permits(e, w, x) then Some(InvalidAddress)
    else if level == 1 then None
    else if e.huge then (if level == 4 then Some(InvalidAddress) else None)
    else Verdict(t, e.address, level - 1, address, w, x)
  }

  /** Tables a split down to a 4 KiB page needs. */
  ghost function SplitsNeeded(t: Tables, table: nat, level: nat, address: nat): nat
    requires Mapped(t, table, level)
    decreases level
  {
    var e := t[table][Index(address, level)];
    if level == 1 || !e.present then 0
    else if e.huge then (if level == 4 then 0 else level - 1)
    else SplitsNeeded(t, e.address, level - 1, address)
  }

  predicate Admissible(address: nat, w: bool, x: bool) {
    address % PAGE == 0 && PAGE <= address < USER_BASE && !(w && x)
  }

  /** The result of a call, decided by the old tables and the size of the free pool. */
  ghost function Outcome(t: Tables, free: set<nat>, root: nat, address: nat, w: bool, x: bool, ready: bool): Option<PagingError>
    requires Mapped(t, root, 4)
  {
    if !ready || !Admissible(address, w, x) then Some(InvalidAddress)
    else if Verdict(t, root, 4, address, w, x).Some? then Verdict(t, root, 4, address, w, x)
    else if |free| < SplitsNeeded(t, root, 4, address) then Some(OutOfMemory)
    else None
  }

  ghost predicate SameViews(t: Tables, u: Tables, root: nat) {
    Mapped(t, root, 4) && Mapped(u, root, 4) && forall va :: PageView(u, root, 4, va) == PageView(t, root, 4, va)
  }

  /** The page of `address` has exactly the requested rights; every other address sees what it saw. */
  ghost predicate OnlyTightened(t: Tables, u: Tables, root: nat, address: nat, w: bool, x: bool) {
    Mapped(t, root, 4) && Mapped(u, root, 4) &&
    forall va :: PageView(u, root, 4, va) ==
                 if SameSlots(va, address, 4) then Tightened(PageView(t, root, 4, va), w, x) else PageView(t, root, 4, va)
  }

  /** The walk for `address` now goes through tables all the way down, and so does every walk that did before. */
  ghost predicate Deepened(t: Tables, u: Tables, root: nat, address: nat) {
    Structure(t, u, root) && Mapped(u, root, 4) && Deep(u, root, 4, address)
  }

  /** A parent entry that was replaced by a table, and what it was. */
  datatype Created = Created(table: nat, slot: nat, original: Entry, child: nat)

  /** `u` came from `t` by one recorded split. */
  ghost predicate SplitStep(t: Tables, u: Tables, c: Created) {
    && c.table in t && c.slot < ENTRIES && c.original == t[c.table][c.slot] && c.child !in t
    && u.Keys == t.Keys + {c.child} && Agree(t, u, t.Keys - {c.table})
    && u[c.table][c.slot := c.original] == t[c.table]
  }

  /** The tables after each recorded split, starting from the original ones. */
  ghost predicate Chain(states: seq<Tables>, created: seq<Created>) {
    |states| == |created| + 1 && forall j {:trigger created[j]} :: 0 <= j < |created| ==> SplitStep(states[j], states[j + 1], created[j])
  }

  /** Tables created by the first `j` splits. */
  ghost function ChildrenOf(created: seq<Created>, j: nat): set<nat>
    requires j <= |created|
  {
    if j == 0 then {} else ChildrenOf(created, j - 1) + {created[j - 1].child}
  }

  lemma NoChildrenYet(created: seq<Created>)
    ensures ChildrenOf(created, 0) == {}
  {
  }

  lemma ChildrenNext(created: seq<Created>, j: nat)
    requires j < |created|
    ensures ChildrenOf(created, j + 1) == ChildrenOf(created, j) + {created[j].child}
  {
  }

  lemma {:induction false} ChainKeys(states: seq<Tables>, created: seq<Created>, j: nat)
    requires Chain(states, created) && j <= |created|
    ensures states[j].Keys == states[0].Keys + ChildrenOf(created, j)
    ensures ChildrenOf(created, j) !! states[0].Keys
    ensures j > 0 ==> created[j - 1].child !in ChildrenOf(created, j - 1)
  {
    hide Chain, SplitStep;
    ChainLength(states, created);
    if j > 0 {
      ChainKeys(states, created, j - 1);
      ChainStep(states, created, j - 1);
    }
  }

  lemma ChainStep(states: seq<Tables>, created: seq<Created>, j: nat)
    requires Chain(states, created) && j < |created|
    ensures |states| == |created| + 1
    ensures states[j + 1].Keys == states[j].Keys + {created[j].child} && created[j].child !in states[j]
  {
    assert SplitStep(states[j], states[j + 1], created[j]);
  }

  /** Put back the parent entries, newest first. */
  method RestoreParents(memory: TableMemory, created: seq<Created>, ghost states: seq<Tables>)
    requires memory.Valid() && Chain(states, created) && memory.tables == states[|created|]
    modifies memory`tables
    ensures memory.Valid() && memory.tables.Keys == old(memory.tables).Keys
    ensures Agree(states[0], memory.tables, states[0].Keys)
  {
    ghost var n := |created|;
    var j := |created|;
    while j > 0
      invariant 0 <= j <= n && memory.Valid()
      invariant memory.tables.Keys == states[n].Keys && Agree(states[j], memory.tables, states[j].Keys)
      invariant states[j].Keys <= memory.tables.Keys
    {
      j := j - 1;
      var c := created[j];
      assert SplitStep(states[j], states[j + 1], c);
      memory.tables := memory.tables[c.table := memory.tables[c.table][c.slot := c.original]];
    }
  }

  /** Undo every recorded split: parents first, then the tables. */
  method Rollback(memory: TableMemory, created: seq<Created>, ghost states: seq<Tables>)
    requires memory.Valid() && Chain(states, created) && memory.tables == states[|created|]
    requires ChildrenOf(created, |created|) <= memory.owned
    modifies memory
    ensures memory.Valid() && memory.tables == states[0]
    ensures memory.owned == old(memory.owned) - ChildrenOf(created, |created|)
    ensures memory.free == old(memory.free) + ChildrenOf(created, |created|)
  {
    hide Agree, Chain, ChildrenOf;
    RestoreParents(memory, created, states);
    ghost var n, restored, gone := |created|, memory.tables, {};
    ghost var all := ChildrenOf(created, n);
    ChainKeys(states, created, n);
    ChainLength(states, created);
    NoChildrenYet(created);
    var j := |created|;
    while j > 0
      invariant 0 <= j <= n && memory.Valid()
      invariant memory.tables == restored - gone && memory.owned == old(memory.owned) - gone
      invariant memory.free == old(memory.free) + gone
      invariant gone + ChildrenOf(created, j) == all && gone !! ChildrenOf(created, j)
    {
      j := j - 1;
      ChainKeys(states, created, j + 1);
      ChildrenNext(created, j);
      assert created[j].child in all;
      gone := gone + {created[j].child};
      memory.Release(created[j].child);
    }
    RestoredExactly(states[0], restored, all);
  }

  lemma ChainLength(states: seq<Tables>, created: seq<Created>)
    requires Chain(states, created)
    ensures |states| == |created| + 1
  {
  }

  lemma RestoredExactly(t: Tables, u: Tables, added: set<nat>)
    requires Agree(t, u, t.Keys) && u.Keys == t.Keys + added && added !! t.Keys
    ensures u - added == t
  {
  }

  // ----- a call in progress -----

  /** Where a call stands after following `address` down to `current` at level `to`. */
  datatype Progress = Progress(tables: Tables, owned: set<nat>, free: set<nat>, to: nat, current: nat,
                               created: seq<Created>, states: seq<Tables>)

  /** The request and the state it started from. */
  datatype Request = Request(tables: Tables, owned: set<nat>, free: set<nat>, root: nat, address: nat, w: bool, x: bool)

  /** Every split so far can be undone, and nothing else was touched. */
  ghost predicate Undoable(q: Request, p: Progress) {
    && Chain(p.states, p.created) && p.states[0] == q.tables && p.states[|p.created|] == p.tables
    && p.owned == q.owned + ChildrenOf(p.created, |p.created|)
    && p.free == q.free - ChildrenOf(p.created, |p.created|) && ChildrenOf(p.created, |p.created|) <= q.free
    && |p.free| == |q.free| - |p.created|
  }

  /** No address sees a difference so far, no depth is lost, and the way down permits what is asked. */
  ghost predicate Intact(q: Request, p: Progress) {
    && Mapped(q.tables, q.root, 4)
    && Tree(p.tables, q.root, 4) && LeavesOk(p.tables, q.root, 4) && SameViews(q.tables, p.tables, q.root)
    && Structure(q.tables, p.tables, q.root)
    && 1 <= p.to <= 4 && Path(p.tables, q.root, 4, q.address, p.to, p.current, q.w, q.x)
    && p.current in p.tables && Tree(p.tables, p.current, p.to)
  }

  /** What remains to be decided at `current` is what was to be decided at the root. */
  ghost predicate Pending(q: Request, p: Progress) {
    && Mapped(q.tables, q.root, 4) && Mapped(p.tables, p.current, p.to)
    && Verdict(p.tables, p.current, p.to, q.address, q.w, q.x) == Verdict(q.tables, q.root, 4, q.address, q.w, q.x)
    && SplitsNeeded(p.tables, p.current, p.to, q.address) + |p.created| == SplitsNeeded(q.tables, q.root, 4, q.address)
  }

  function EntryAt(p: Progress, address: nat): Entry
    requires 1 <= p.to <= 4 && p.current in p.tables
  {
    p.tables[p.current][Index(address, p.to)]
  }

  lemma Begin(q: Request)
    requires Tree(q.tables, q.root, 4) && LeavesOk(q.tables, q.root, 4)
    ensures var p := Progress(q.tables, q.owned, q.free, 4, q.root, [], [q.tables]);
            Undoable(q, p) && Intact(q, p) && Pending(q, p)
  {
    hide Deep, LeavesOk, TreeSet;
  }

  lemma Descend(q: Request, p: Progress)
    requires Intact(q, p) && Pending(q, p) && 1 < p.to
    requires var e := EntryAt(p, q.address); e.present && Permits(e, q.w, q.x) && !e.huge
    ensures var p1 := p.(to := p.to - 1, current := EntryAt(p, q.address).address);
            Intact(q, p1) && Pending(q, p1) && (Undoable(q, p) ==> Undoable(q, p1))
  {
    hide TreeSet, Tree, LeavesOk, SameViews, Structure;
    var s := Index(q.address, p.to);
    TreeMapped(p.tables, p.current, p.to);
    TreeMapped(p.tables, q.root, 4);
    TreeParts(p.tables, p.current, p.to, s, s);
    PathExtends(p.tables, q.root, 4, q.address, p.to, p.current, q.w, q.x);
  }

  /** The progress record after splitting the huge leaf at `current`. */
  ghost function AfterSplit(q: Request, p: Progress, child: nat): Progress
    requires 2 <= p.to <= 3 && p.current in p.tables
  {
    var slot := Index(q.address, p.to);
    var tables := Split(p.tables, p.current, slot, p.to, child);
    Progress(tables, p.owned + {child}, p.free - {child}, p.to - 1, child,
             p.created + [Created(p.current, slot, p.tables[p.current][slot], child)], p.states + [tables])
  }

  lemma SplitIsStep(t: Tables, table: nat, slot: nat, level: nat, child: nat)
    requires table in t && slot < ENTRIES && 2 <= level <= 3 && child !in t
    ensures SplitStep(t, Split(t, table, slot, level, child), Created(table, slot, t[table][slot], child))
  {
    var u := Split(t, table, slot, level, child);
    assert u[table][slot := t[table][slot]] == t[table];
  }

  lemma ChainSnoc(states: seq<Tables>, created: seq<Created>, u: Tables, c: Created)
    requires Chain(states, created) && SplitStep(states[|created|], u, c)
    ensures Chain(states + [u], created + [c])
  {
    hide SplitStep;
    var ss, cs := states + [u], created + [c];
    forall j | 0 <= j < |cs| ensures SplitStep(ss[j], ss[j + 1], cs[j]) {
      if j < |created| { assert cs[j] == created[j]; }
    }
  }

  lemma SplitUndoable(q: Request, p: Progress, child: nat)
    requires Undoable(q, p) && 2 <= p.to <= 3 && p.current in p.tables
    requires child in p.free && child !in p.tables
    ensures Undoable(q, AfterSplit(q, p, child))
  {
    hide Chain, SplitStep, Split;
    var p1 := AfterSplit(q, p, child);
    var n := |p.created|;
    ChainLength(p.states, p.created);
    SplitIsStep(p.tables, p.current, Index(q.address, p.to), p.to, child);
    ChainSnoc(p.states, p.created, p1.tables, p1.created[n]);
    ChildrenPrefix(p.created, p1.created, n);
    assert ChildrenOf(p1.created, n + 1) == ChildrenOf(p.created, n) + {child};
  }

  lemma {:induction false} ChildrenPrefix(a: seq<Created>, b: seq<Created>, j: nat)
    requires a <= b && j <= |a|
    ensures ChildrenOf(a, j) == ChildrenOf(b, j)
  {
    if j > 0 { ChildrenPrefix(a, b, j - 1); }
  }

  lemma SplitIntact(q: Request, p: Progress, child: nat)
    requires Intact(q, p) && 2 <= p.to <= 3 && child !in p.tables
    requires HugeLeaf(EntryAt(p, q.address), p.to) && Permits(EntryAt(p, q.address), q.w, q.x)
    ensures Intact(q, AfterSplit(q, p, child))
  {
    hide TreeSet, Tree, LeavesOk, PageView, Structure;
    var slot := Index(q.address, p.to);
    var p1 := AfterSplit(q, p, child);
    SplitStructure(p.tables, q.root, q.address, p.to, p.current, q.w, q.x, child);
    StructureTransitive(q.tables, p.tables, p1.tables, q.root);
    SplitDeep(p.tables, q.root, 4, q.address, p.to, p.current, q.w, q.x, child);
    TreeMapped(p1.tables, q.root, 4);
    PathExtends(p1.tables, q.root, 4, q.address, p.to, p.current, q.w, q.x);
    PiecesTree(p1.tables, p.tables[p.current][slot], p.to, child);
    forall va ensures PageView(p1.tables, q.root, 4, va) == PageView(q.tables, q.root, 4, va) {
      SplitDeepView(p.tables, q.root, 4, q.address, p.to, p.current, q.w, q.x, child, va);
    }
  }

  lemma SplitPending(q: Request, p: Progress, child: nat)
    requires Intact(q, p) && Pending(q, p) && 2 <= p.to <= 3 && child !in p.tables
    requires HugeLeaf(EntryAt(p, q.address), p.to) && Permits(EntryAt(p, q.address), q.w, q.x)
    ensures Pending(q, AfterSplit(q, p, child))
    ensures Verdict(q.tables, q.root, 4, q.address, q.w, q.x).None?
  {
    hide TreeSet, Tree, LeavesOk;
    var slot := Index(q.address, p.to);
    var p1 := AfterSplit(q, p, child);
    PiecesTree(p1.tables, p.tables[p.current][slot], p.to, child);
    TreeMapped(p1.tables, child, p.to - 1);
  }

  /** A non-branch entry on the way is a well-formed huge leaf. */
  lemma {:induction false} HugeOnPath(t: Tables, root: nat, level: nat, address: nat, to: nat, table: nat, w: bool, x: bool)
    requires Mapped(t, root, level) && LeavesOk(t, root, level) && Path(t, root, level, address, to, table, w, x)
    requires 1 <= to <= level && table in t
    requires var e := t[table][Index(address, to)]; e.present && e.huge && 2 <= to <= 3
    ensures HugeLeaf(t[table][Index(address, to)], to)
    decreases level
  {
    if level > to { HugeOnPath(t, t[root][Index(address, level)].address, level - 1, address, to, table, w, x); }
  }

  lemma Finish(q: Request, p: Progress)
    requires Intact(q, p) && p.to == 1
    requires EntryAt(p, q.address).present && Permits(EntryAt(p, q.address), q.w, q.x)
    ensures var u := Tighten(p.tables, p.current, Index(q.address, 1), q.w, q.x);
            && Tree(u, q.root, 4) && LeavesOk(u, q.root, 4) && OnlyTightened(q.tables, u, q.root, q.address, q.w, q.x)
            && Deepened(q.tables, u, q.root, q.address)
  {
    hide TreeSet, Tree, LeavesOk, PageView, SameSlots, Structure, Deep;
    PathDeep(p.tables, q.root, 4, q.address, p.current, q.w, q.x);
    TightenDeepStays(p.tables, q.root, 4, q.address, p.current, q.w, q.x, q.address);
    TightenStructure(p.tables, q.root, q.address, p.current, q.w, q.x);
    StructureTransitive(q.tables, p.tables, Tighten(p.tables, p.current, Index(q.address, 1), q.w, q.x), q.root);
    var u := Tighten(p.tables, p.current, Index(q.address, 1), q.w, q.x);
    TightenDeep(p.tables, q.root, 4, q.address, p.current, q.w, q.x);
    TreeMapped(u, q.root, 4);
    forall va ensures PageView(u, q.root, 4, va) ==
      if SameSlots(va, q.address, 4) then Tightened(PageView(q.tables, q.root, 4, va), q.w, q.x) else PageView(q.tables, q.root, 4, va)
    {
      TightenDeepView(p.tables, q.root, 4, q.address, p.current, q.w, q.x, va);
    }
  }

  // ----- the operation -----

  ghost function OutcomeOf(q: Request): Option<PagingError>
    requires Mapped(q.tables, q.root, 4)
  {
    Outcome(q.tables, q.free, q.root, q.address, q.w, q.x, true)
  }

  ghost predicate Running(memory: TableMemory, q: Request, p: Progress, current: nat, created: seq<Created>)
    reads memory
  {
    && memory.Valid() && Undoable(q, p) && Intact(q, p) && Pending(q, p)
    && p.tables == memory.tables && p.owned == memory.owned && p.free == memory.free
    && p.current == current && p.created == created
    && q.owned <= q.tables.Keys && q.free !! q.tables.Keys && Admissible(q.address, q.w, q.x)
  }

  ghost predicate Untouched(memory: TableMemory, q: Request)
    reads memory
  {
    memory.Valid() && memory.tables == q.tables && memory.owned == q.owned && memory.free == q.free
  }

  /** Leave with an error: everything goes back. */
  method Abandon(memory: TableMemory, created: seq<Created>, ghost q: Request, ghost p: Progress)
    requires Running(memory, q, p, p.current, created)
    modifies memory
    ensures Untouched(memory, q)
  {
    hide Tree, TreeSet, LeavesOk, Path, Intact, Pending, Chain, Admissible, ChildrenOf;
    ChainLength(p.states, p.created);
    ChainKeys(p.states, p.created, |p.created|);
    ghost var children := ChildrenOf(p.created, |p.created|);
    SetsBack(q.owned, q.free, children);
    Rollback(memory, created, p.states);
  }

  lemma SetsBack(owned: set<nat>, free: set<nat>, children: set<nat>)
    requires children <= free
    ensures children !! owned ==> owned + children - children == owned
    ensures free - children + children == free
  {
  }

  /** The checks every entry on the way must pass. */
  method CheckEntry(e: Entry, writable: bool, executable: bool) returns (error: Option<PagingError>)
    ensures error == if !e.present || e.user then Some(MissingMapping)
                     else if !Permits(e, writable, executable) then Some(InvalidAddress) else None
  {
    if !e.present || e.user { return Some(MissingMapping); }
    if (writable && !e.writable) || (executable && e.nx) { return Some(InvalidAddress); }
    return None;
  }

  /** An error found at `current` is the outcome of the whole call. */
  lemma ErrorIsOutcome(q: Request, p: Progress, error: PagingError)
    requires Intact(q, p) && Pending(q, p) && Admissible(q.address, q.w, q.x)
    requires Verdict(p.tables, p.current, p.to, q.address, q.w, q.x) == Some(error)
    ensures OutcomeOf(q) == Some(error)
  {
  }

  lemma NoRoom(q: Request, p: Progress)
    requires Undoable(q, p) && Intact(q, p) && Pending(q, p) && Admissible(q.address, q.w, q.x) && p.free == {}
    requires 2 <= p.to <= 3
    requires var e := EntryAt(p, q.address); e.present && e.huge && Permits(e, q.w, q.x)
    ensures OutcomeOf(q) == Some(OutOfMemory)
  {
  }

  lemma IntactParts(q: Request, p: Progress)
    requires Intact(q, p)
    ensures Mapped(p.tables, q.root, 4) && LeavesOk(p.tables, q.root, 4) && Mapped(q.tables, q.root, 4)
    ensures 1 <= p.to <= 4 && p.current in p.tables
    ensures Path(p.tables, q.root, 4, q.address, p.to, p.current, q.w, q.x)
    ensures Mapped(p.tables, p.current, p.to)
  {
    TreeMapped(p.tables, p.current, p.to);
  }

  /** Replace the huge leaf at `current` by a table of its pieces. */
  method SplitHere(memory: TableMemory, address: nat, level: nat, current: nat, created: seq<Created>, ghost q: Request, ghost p: Progress)
    returns (error: Option<PagingError>, next: nat, created': seq<Created>, ghost p': Progress)
    requires Running(memory, q, p, current, created) && p.to == level && 2 <= level <= 3 && q.address == address
    requires current in memory.tables
    requires var e := memory.tables[current][Index(address, level)]; e.present && e.huge && Permits(e, q.w, q.x)
    modifies memory
    ensures error.Some? ==> Untouched(memory, q) && Mapped(q.tables, q.root, 4) && error == OutcomeOf(q)
    ensures error.None? ==> Running(memory, q, p', next, created') && p'.to == level - 1
  {
    hide Tree, TreeSet, LeavesOk, Path, SameViews, Chain, Undoable, Intact, Pending, Admissible, Verdict;
    next, created', p' := current, created, p;
    IntactParts(q, p);
    HugeOnPath(p.tables, q.root, 4, q.address, level, current, q.w, q.x);
    var child := memory.Allocate();
    if child.None? {
      NoRoom(q, p);
      Abandon(memory, created, q, p);
      return Some(OutOfMemory), next, created', p';
    }
    SplitUndoable(q, p, child.value);
    SplitIntact(q, p, child.value);
    SplitPending(q, p, child.value);
    p' := AfterSplit(q, p, child.value);
    var slot := Index(address, level);
    var e := memory.tables[current][slot];
    memory.tables := memory.tables[child.value := Pieces(e, level)];
    memory.tables := memory.tables[current := memory.tables[current][slot := Parent(e, child.value)]];
    return None, child.value, created + [Created(current, slot, e, child.value)], p';
  }

  /** One of the three upper levels: check the entry, split it if it is huge, and go down. */
  method StepDown(memory: TableMemory, address: nat, writable: bool, executable: bool, level: nat, current: nat,
                  created: seq<Created>, ghost q: Request, ghost p: Progress)
    returns (error: Option<PagingError>, next: nat, created': seq<Created>, ghost p': Progress)
    requires Running(memory, q, p, current, created) && p.to == level && 2 <= level <= 4
    requires q.address == address && q.w == writable && q.x == executable
    modifies memory
    ensures error.Some? ==> Untouched(memory, q) && Mapped(q.tables, q.root, 4) && error == OutcomeOf(q)
    ensures error.None? ==> Running(memory, q, p', next, created') && p'.to == level - 1
  {
    hide Tree, TreeSet, LeavesOk, Path, SameViews, Chain, Undoable, Intact, Pending, Admissible;
    next, created', p' := current, created, p;
    IntactParts(q, p);
    var e := memory.tables[current][Index(address, level)];
    error := CheckEntry(e, writable, executable);
    if error.None? && e.huge && level == 4 { error := Some(InvalidAddress); }
    if error.Some? {
      ErrorIsOutcome(q, p, error.value);
      Abandon(memory, created, q, p);
      return;
    }
    if e.huge {
      error, next, created', p' := SplitHere(memory, address, level, current, created, q, p);
    } else {
      Descend(q, p);
      next, p' := e.address, p.(to := p.to - 1, current := e.address);
    }
  }

  /** The 4 KiB leaf. */
  method TightenLeaf(memory: TableMemory, address: nat, writable: bool, executable: bool, current: nat,
                     created: seq<Created>, ghost q: Request, ghost p: Progress)
    returns (error: Option<PagingError>)
    requires Running(memory, q, p, current, created) && p.to == 1
    requires q.address == address && q.w == writable && q.x == executable
    modifies memory
    ensures Mapped(q.tables, q.root, 4) && error == OutcomeOf(q)
    ensures error.Some? ==> Untouched(memory, q)
    ensures error.None? ==>
              && memory.Valid() && Tree(memory.tables, q.root, 4) && LeavesOk(memory.tables, q.root, 4)
              && OnlyTightened(q.tables, memory.tables, q.root, address, writable, executable)
              && Deepened(q.tables, memory.tables, q.root, address)
              && |memory.free| == |q.free| - SplitsNeeded(q.tables, q.root, 4, address)
  {
    hide Tree, TreeSet, LeavesOk, Path, SameViews, Chain, Intact, Admissible, OnlyTightened, Deepened;
    IntactParts(q, p);
    var slot := Index(address, 1);
    var e := memory.tables[current][slot];
    error := CheckEntry(e, writable, executable);
    if error.Some? {
      ErrorIsOutcome(q, p, error.value);
      Abandon(memory, created, q, p);
      return;
    }
    Finish(q, p);
    memory.tables := memory.tables[current := memory.tables[current][slot := e.(writable := writable, nx := !executable)]];
  }

  /** Seal one page. The outcome is decided by the old tables and the pool; a failure leaves no trace, and
      a success changes the rights of that one page to exactly the requested ones and leaves it mapped by a 4 KiB leaf. */
  method ProtectKernelPage(memory: TableMemory, root: nat, address: nat, writable: bool, executable: bool, ready: bool)
    returns (error: Option<PagingError>)
    requires memory.Valid() && Tree(memory.tables, root, 4) && LeavesOk(memory.tables, root, 4)
    modifies memory
    ensures memory.Valid()
    ensures error == Outcome(old(memory.tables), old(memory.free), root, address, writable, executable, ready)
    ensures error.Some? ==>
              memory.tables == old(memory.tables) && memory.owned == old(memory.owned) && memory.free == old(memory.free)
    ensures error.None? ==>
              && Tree(memory.tables, root, 4) && LeavesOk(memory.tables, root, 4)
              && OnlyTightened(old(memory.tables), memory.tables, root, address, writable, executable)
              && Deepened(old(memory.tables), memory.tables, root, address)
              && |memory.free| == |old(memory.free)| - SplitsNeeded(old(memory.tables), root, 4, address)
  {
    hide Tree, TreeSet, LeavesOk, Path, SameViews, OnlyTightened, Deepened, Chain, Undoable, Intact, Pending, Verdict, SplitsNeeded;
    TreeMapped(memory.tables, root, 4);
    if !ready || !Admissible(address, writable, executable) { return Some(InvalidAddress); }
    ghost var q := Request(memory.tables, memory.owned, memory.free, root, address, writable, executable);
    ghost var p := Progress(memory.tables, memory.owned, memory.free, 4, root, [], [memory.tables]);
    Begin(q);
    var current, created := root, [];
    for level := 5 downto 2
      invariant Running(memory, q, p, current, created) && p.to == level - 1
    {
      error, current, created, p := StepDown(memory, address, writable, executable, level, current, created, q, p);
      if error.Some? { return; }
    }
    error := TightenLeaf(memory, address, writable, executable, current, created, q, p);
  }
}
