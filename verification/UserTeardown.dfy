/** Validating and releasing the tables of a user space, in place. */
module UserTeardown {
  import opened PageTable
  import opened UserPlaces
  import opened UserWorld
  import opened UserSteps
  import opened UserLifecycle
  import opened UserViews
  import opened UserTrees
  import A = Authority

  /** The first address a table covers. */
  function BaseOf(p: Place): nat
    requires 1 <= p.level <= 3
  {
    USER_BASE + p.number * (ENTRIES * Span(p.level))
  }

  lemma BaseChild(p: Place, s: nat)
    requires 1 <= p.level <= 3
    ensures BaseOf(p) + s * Span(p.level) == if p.level == 1 then Va(Child(p, s).number) else BaseOf(Child(p, s))
  {
  }

  /** Every frame of the kernel's way to an alias is a row that no user edge touches. */
  ghost predicate KernelRows(w: World, tables: Tables) {
    forall t :: KernelTable(w, t) ==> t in tables && tables[t] == w.tables[t]
  }

  /** The page-table frames and the memory authority, as the paging code changes them. */
  class Store {
    var tables: Tables
    var authority: A.Authority
    const kernel: nat

    /** The memory holds the state `w`, with the edges in `cut` already cleared. */
    ghost predicate Holds(w: World, cut: set<(nat, nat)>)
      reads this
    {
      Inv(w) && w.authority == authority && w.kernel == kernel && Masked(w.tables, cut, tables)
    }

    constructor (kernel: nat, tables: Tables, authority: A.Authority)
      ensures this.kernel == kernel && this.tables == tables && this.authority == authority
    {
      this.kernel, this.tables, this.authority := kernel, tables, authority;
    }

    /** Follow the kernel's tables to the 4 KiB alias of `frame` and set its write right. The refusals of the original
        cannot happen: the assertions are the tests it makes. */
    method SetUserAliasWritable(frame: nat, writable: bool, ghost w: World)
      requires w.kernel == kernel && AliasOk(w, frame) && KernelRows(w, tables)
      modifies this`tables
      ensures AliasHome(w, frame) in old(tables) && KernelTable(w, AliasHome(w, frame))
      ensures tables == old(tables)[AliasHome(w, frame) :=
                old(tables)[AliasHome(w, frame)][Index(frame, 1) := old(tables)[AliasHome(w, frame)][Index(frame, 1)].(writable := writable)]]
    {
      var current := kernel;
      for level := 5 downto 2
        invariant AliasPath(w, current, level - 1, frame)
        invariant AliasTable(w, current, level - 1, frame) == AliasTable(w, kernel, 4, frame)
      {
        var entry := tables[current][Index(frame, level)];
        assert entry.present && !entry.user && !entry.huge;
        current := entry.address;
      }
      var leaf := tables[current][Index(frame, 1)];
      assert leaf.present && !leaf.user && leaf.nx && leaf.address == frame;
      tables := tables[current := tables[current][Index(frame, 1) := leaf.(writable := writable)]];
    }

    /** Count the frames of a subtree. Every test of the original is an assertion: none can fail. */
    method ValidateUserTable(owner: nat, physical: nat, level: nat, base: nat, ghost w: World, ghost p: Place) returns (frames: nat)
      requires p in w.at && p.owner == owner && p.level == level && 1 <= level <= 3
      requires physical == w.at[p] && base == BaseOf(p) && Holds(w, {})
      ensures frames == 1 + |Below(w, p)|
      decreases level
    {
      hide Inv, Below, BelowTo, Span, Masked, Child, A.Find, A.MappingMatches;
      TableFound(w, p);
      MaskedRow(w.tables, {}, tables, physical);
      assert A.Find(authority, owner, physical, A.Table).Some?;
      frames := 1;
      BelowNothing(w, p);
      for slot := 0 to ENTRIES
        invariant frames == 1 + |BelowTo(w, p, slot)|
      {
        SlotCounts(w, p, slot);
        BaseChild(p, slot);
        var entry := tables[physical][slot];
        if entry.present {
          assert entry.user && !(level > 1 && entry.huge);
          var frame, address := entry.address, base + slot * Span(level);
          if level == 1 {
            assert A.MappingMatches(authority, owner, frame, address);
            frames := frames + 1;
          } else {
            var below := ValidateUserTable(owner, frame, level - 1, address, w, Child(p, slot));
            frames := frames + below;
          }
        }
      }
      BelowAll(w, p);
    }

    /** One page: unlink it, restore its alias, retire its pin and free it. */
    method ReleaseLeaf(owner: nat, physical: nat, slot: nat, address: nat, ghost v: World, ghost cut: set<(nat, nat)>, ghost c: Place)
      returns (ghost u: World)
      requires c in v.at && c.level == 0 && c.owner == owner && Up(c) in v.at && physical == v.at[Up(c)]
      requires slot == SlotOf(c) && address == Va(c.number) && CutAbove(v, cut, 1) && physical in tables
      requires tables[physical][slot].address == v.at[c] && physical in v.tables && Holds(v, cut)
      modifies this
      ensures Holds(u, cut) && Lost(v, u, {c}, Up(c))
    {
      hide Inv, AliasPath, AliasTable, A.Retire, A.Release, Masked, AliasOk, Unpublished, AliasHome, Lost, Wrote, Frames, Places, Entries, KernelOk, Aliases;
      LeafReady(v, c);
      UnpublishKeeps(v, c);
      UnpublishLoses(v, c);
      UnpublishTables(v, c);
      LeafReleased(v, c);
      Parts(v);
      CutRows(v, cut, tables, Up(c));
      u := Unpublished(v, c);
      var frame := tables[physical][slot].address;
      ghost var before := tables;
      tables := tables[physical := tables[physical][slot := ZERO]];
      SetUserAliasWritable(frame, true, v);
      var (retired, grant) := A.Retire(authority, owner, frame, address);
      assert grant.Some?;
      var (freed, ok) := A.Release(retired, grant.value);
      assert ok;
      authority := freed;
      MaskedUnpublish(v, u, cut, before, tables, frame, physical, slot);
    }

    /** An emptied table: free it. */
    method ReleaseTable(owner: nat, frame: nat, ghost v: World, ghost cut: set<(nat, nat)>, ghost c: Place) returns (ghost u: World)
      requires c in v.at && 1 <= c.level <= 3 && c.owner == owner && Up(c) in v.at && frame == v.at[c]
      requires Childless(v, c) && (v.at[Up(c)], SlotOf(c)) !in cut && CutAbove(v, cut, c.level)
      requires Holds(v, cut + {(v.at[Up(c)], SlotOf(c))})
      modifies this
      ensures Holds(u, cut) && Lost(v, u, {c}, Up(c))
    {
      hide Inv, Frames, Places, Entries, KernelOk, Aliases, A.Release, KernelWritten, Childless;
      Parts(v);
      PlaceFacts(v, c);
      PlaceFacts(v, Up(c));
      Released(v, frame);
      u := Ungrafted(v, c);
      UngraftKeeps(v, c);
      UngraftLoses(v, c);
      var grant := A.Find(authority, owner, frame, A.Table);
      assert grant.Some?;
      var (freed, ok) := A.Release(authority, grant.value);
      assert ok;
      authority := freed;
      tables := tables - {frame};
      MaskedUngraft(v.tables, cut, old(tables), v.at[Up(c)], SlotOf(c), frame);
    }

    /** One slot of a table being released: unlink what it points to, then release that. */
    method ReleaseSlot(owner: nat, physical: nat, level: nat, base: nat, slot: nat, ghost v: World, ghost cut: set<(nat, nat)>, ghost p: Place)
      returns (released: nat, ghost u: World)
      requires p in v.at && p.owner == owner && p.level == level && 1 <= level <= 3 && slot < ENTRIES
      requires physical == v.at[p] && base == BaseOf(p) && CutAbove(v, cut, level) && Holds(v, cut)
      modifies this
      ensures Holds(u, cut) && CutAbove(u, cut, level)
      ensures Lost(v, u, Hanging(v, p, slot), p) && released == |Hanging(v, p, slot)|
      decreases level, 0
    {
      hide Inv, Frames, Places, Entries, KernelOk, Aliases, Below, BelowTo, Masked, Lost, Span, KernelRows, CutAbove;
      Parts(v);
      TableFound(v, p);
      SlotCounts(v, p, slot);
      BaseChild(p, slot);
      CutRows(v, cut, tables, p);
      ghost var c := Child(p, slot);
      ChildUp(p, slot);
      BranchSize(v, p, slot);
      u := v;
      var entry := tables[physical][slot];
      if !entry.present {
        LostNothing(v, p);
        return 0, u;
      }
      var frame, address := entry.address, base + slot * Span(level);
      if level == 1 {
        u := ReleaseLeaf(owner, physical, slot, address, v, cut, c);
        released := 1;
      } else {
        tables := tables[physical := tables[physical][slot := ZERO]];
        ghost var cut' := cut + {(physical, slot)};
        CutEdge(v, cut, old(tables), tables, p, slot);
        var below;
        ghost var v2;
        below, v2 := ReleaseUserTable(owner, frame, level - 1, address, v, cut', c);
        Parts(v2);
        Emptied(v, v2, cut, p, slot);
        CutBelow(v2, cut, level);
        u := ReleaseTable(owner, frame, v2, cut, c);
        released := below + 1;
        EmptiedThenFreed(v, v2, u, p, slot);
      }
      Parts(u);
      LostAt(v, u, Hanging(v, p, slot), p);
      CutStays(v, u, Hanging(v, p, slot), p, cut);
    }

    /** Release everything below a table, slot by slot. */
    method ReleaseUserTable(owner: nat, physical: nat, level: nat, base: nat, ghost w: World, ghost cut: set<(nat, nat)>, ghost p: Place)
      returns (released: nat, ghost v: World)
      requires p in w.at && p.owner == owner && p.level == level && 1 <= level <= 3
      requires physical == w.at[p] && base == BaseOf(p) && CutAbove(w, cut, level) && Holds(w, cut)
      modifies this
      ensures Holds(v, cut) && CutAbove(v, cut, level)
      ensures Lost(w, v, Below(w, p), p) && released == |Below(w, p)|
      decreases level, 1
    {
      hide Inv, Frames, Places, Entries, KernelOk, Aliases, Below, BelowTo, Masked, Lost, CutAbove, Hanging;
      Parts(w);
      released, v := 0, w;
      LostNothing(w, p);
      BelowNothing(w, p);
      for slot := 0 to ENTRIES
        invariant Holds(v, cut) && CutAbove(v, cut, level)
        invariant Lost(w, v, BelowTo(w, p, slot), p) && released == |BelowTo(w, p, slot)|
      {
        Untouched(w, v, p, slot);
        var more;
        ghost var u;
        more, u := ReleaseSlot(owner, physical, level, base, slot, v, cut, p);
        Merged(w, v, u, p, slot);
        released, v := released + more, u;
      }
      BelowAll(w, p);
    }
  }

  /** What hangs at slot `s` of the table at `p`. */
  ghost function Hanging(w: World, p: Place, s: nat): set<Place>
    requires 1 <= p.level <= 4
  {
    if Child(p, s) in w.at then {Child(p, s)} + Below(w, Child(p, s)) else {}
  }

  lemma BranchSize(w: World, p: Place, s: nat)
    requires Frames(w) && Places(w) && p in w.at && 1 <= p.level <= 3 && s < ENTRIES
    ensures |Hanging(w, p, s)| == if Child(p, s) !in w.at then 0 else 1 + |Below(w, Child(p, s))|
    ensures p.level == 1 && Child(p, s) in w.at ==> Hanging(w, p, s) == {Child(p, s)}
    ensures Child(p, s) !in w.at ==> Hanging(w, p, s) == {}
    ensures Hanging(w, p, s) <= w.at.Keys && forall q :: q in Hanging(w, p, s) ==> q.level < p.level
  {
    hide Frames, Places;
    BelowStep(w, p, s);
  }

  /** The first slots gone, the next branch is still as it was. */
  lemma Untouched(w: World, v: World, p: Place, s: nat)
    requires Frames(w) && Places(w) && p in w.at && 1 <= p.level <= 3 && s < ENTRIES && Lost(w, v, BelowTo(w, p, s), p)
    ensures p in v.at && v.at[p] == w.at[p] && Hanging(v, p, s) == Hanging(w, p, s)
  {
    hide Frames, Places, KernelWritten;
    BelowStep(w, p, s);
    var c := Child(p, s);
    if c.level > 0 { assert Below(v, c) == Below(w, c); }
  }

  lemma Merged(w: World, v: World, u: World, p: Place, s: nat)
    requires Frames(w) && Places(w) && p in w.at && 1 <= p.level <= 3 && s < ENTRIES
    requires Lost(w, v, BelowTo(w, p, s), p) && Hanging(v, p, s) == Hanging(w, p, s) && Lost(v, u, Hanging(v, p, s), p)
    ensures Lost(w, u, BelowTo(w, p, s + 1), p)
    ensures |BelowTo(w, p, s + 1)| == |BelowTo(w, p, s)| + |Hanging(w, p, s)|
  {
    hide Frames, Places, Lost, BelowTo, Below;
    BelowStep(w, p, s);
    assert BelowTo(w, p, s + 1) == BelowTo(w, p, s) + Hanging(w, p, s);
    assert BelowTo(w, p, s) !! Hanging(w, p, s);
    TablesHeld(w);
    LostTwice(w, v, u, BelowTo(w, p, s), Hanging(w, p, s), p, p);
  }

  lemma TablesHeld(w: World)
    requires Frames(w) && Places(w)
    ensures forall q :: q in w.at && 1 <= q.level ==> w.at[q] in w.tables
  {
    hide Frames, Places;
    forall q | q in w.at && 1 <= q.level ensures w.at[q] in w.tables { PlaceFacts(w, q); }
  }

  /** Clearing one edge of an uncut table. */
  lemma CutEdge(v: World, cut: set<(nat, nat)>, before: Tables, tables: Tables, p: Place, s: nat)
    requires Frames(v) && Places(v) && p in v.at && 1 <= p.level && s < ENTRIES && v.at[p] in before
    requires Masked(v.tables, cut, before) && tables == before[v.at[p] := before[v.at[p]][s := ZERO]] && CutAbove(v, cut, p.level)
    ensures Masked(v.tables, cut + {(v.at[p], s)}, tables) && CutAbove(v, cut + {(v.at[p], s)}, p.level - 1)
  {
    hide Frames, Places;
    PlaceFacts(v, p);
  }

  /** After everything below `Child(p, s)` is released, that table is empty and still in its place. */
  lemma Emptied(v: World, v2: World, cut: set<(nat, nat)>, p: Place, s: nat)
    requires Frames(v) && Places(v) && Places(v2) && p in v.at && 2 <= p.level <= 3 && s < ENTRIES && Child(p, s) in v.at
    requires Lost(v, v2, Below(v, Child(p, s)), Child(p, s)) && CutAbove(v, cut, p.level)
    ensures Child(p, s) in v2.at && v2.at[Child(p, s)] == v.at[Child(p, s)] && p in v2.at && v2.at[p] == v.at[p]
    ensures Childless(v2, Child(p, s)) && CutAbove(v2, cut, p.level)
  {
    hide Frames, Places, KernelWritten, Within, Ancestor;
    PlaceFacts(v, p);
    var c := Child(p, s);
    PlaceFacts(v, c);
    forall r | 0 <= r < ENTRIES ensures Child(c, r) !in v2.at {
      if Child(c, r) in v.at { ChildBelow(v, c, r); }
    }
    CutStays(v, v2, Below(v, c), p, cut);
  }

  lemma EmptiedThenFreed(v: World, v2: World, u: World, p: Place, s: nat)
    requires Frames(v) && Places(v) && p in v.at && 2 <= p.level <= 3 && s < ENTRIES && Child(p, s) in v.at
    requires Lost(v, v2, Below(v, Child(p, s)), Child(p, s)) && Lost(v2, u, {Child(p, s)}, p)
    ensures Lost(v, u, Hanging(v, p, s), p)
  {
    hide Frames, Places, Lost, Below;
    TablesHeld(v);
    LostTwice(v, v2, u, Below(v, Child(p, s)), {Child(p, s)}, Child(p, s), p);
    assert Below(v, Child(p, s)) + {Child(p, s)} == Hanging(v, p, s);
  }

  /** Removing places up to the level of `p` does not move the tables above it. */
  lemma CutStays(w: World, v: World, lost: set<Place>, p: Place, cut: set<(nat, nat)>)
    requires Places(w) && Places(v) && lost <= w.at.Keys && v.at == w.at - lost && (forall q :: q in lost ==> q.level <= p.level)
    requires CutAbove(w, cut, p.level)
    ensures CutAbove(v, cut, p.level)
  {
    forall x: nat, s: nat | (x, s) in cut ensures x in v.place && v.place[x].level > p.level {
      assert x in w.place && PlaceOk(w, x);
      assert w.place[x] in v.at;
    }
  }

  lemma CutBelow(w: World, cut: set<(nat, nat)>, level: nat)
    requires CutAbove(w, cut, level) && 1 <= level
    ensures CutAbove(w, cut, level - 1)
  {
  }

  lemma LostAt(w: World, v: World, lost: set<Place>, p: Place)
    requires Lost(w, v, lost, p)
    ensures lost <= w.at.Keys && v.at == w.at - lost
  {
  }

  lemma TableFound(w: World, p: Place)
    requires Inv(w) && p in w.at && 1 <= p.level <= 4
    ensures Shaped(p) && w.at[p] in w.tables && A.Find(w.authority, p.owner, w.at[p], A.Table).Some?
  {
    hide Frames, Places, Entries, KernelOk, Aliases;
    PlaceFacts(w, p);
  }

  lemma BelowAll(w: World, p: Place)
    requires 1 <= p.level <= 4
    ensures Below(w, p) == BelowTo(w, p, ENTRIES)
  {
  }

  /** What slot `s` adds to the count, and that its entry passes every test. */
  ghost predicate SlotReport(w: World, p: Place, s: nat) {
    && 1 <= p.level <= 3 && s < ENTRIES && p in w.at && w.at[p] in w.tables
    && var e, c := w.tables[w.at[p]][s], Child(p, s);
       && (e.present <==> c in w.at)
       && (e.present ==> e.user && !(p.level > 1 && e.huge) && e.address == w.at[c] && c.owner == p.owner && c.level == p.level - 1)
       && (e.present && p.level == 1 ==> A.MappingMatches(w.authority, p.owner, e.address, Va(c.number)))
       && |BelowTo(w, p, s + 1)| == |BelowTo(w, p, s)| + if !e.present then 0 else if p.level == 1 then 1 else 1 + |Below(w, c)|
  }

  lemma SlotCounts(w: World, p: Place, s: nat)
    requires p in w.at && 1 <= p.level <= 3 && s < ENTRIES && w.at[p] in w.tables && Inv(w)
    ensures SlotReport(w, p, s)
  {
    hide Frames, Places, Entries, KernelOk, Aliases, BelowTo;
    SlotFact(w, p, s);
    BelowStep(w, p, s);
    var c := Child(p, s);
    if c in w.at { PlaceFacts(w, c); }
  }

  /** A mapped page can be unmapped. */
  lemma LeafReady(v: World, c: Place)
    requires Inv(v) && c in v.at && c.level == 0
    ensures CanUnpublish(v, c) && AliasOk(v, v.at[c])
  {
    hide Frames, Places, Entries, KernelOk, Aliases, AliasPath, AliasTable, AliasOk;
    PlaceFacts(v, c);
    PlaceFacts(v, Up(c));
    ManagedAlias(v, v.at[c]);
  }

  lemma LeafReleased(v: World, c: Place)
    requires CanUnpublish(v, c)
    ensures A.MappingMatches(v.authority, c.owner, v.at[c], Va(c.number))
    ensures A.Retire(v.authority, c.owner, v.at[c], Va(c.number)).1.Some?
    ensures A.Release(A.Retire(v.authority, c.owner, v.at[c], Va(c.number)).0,
                      A.Retire(v.authority, c.owner, v.at[c], Va(c.number)).1.value) == (Unpublished(v, c).authority, true)
    ensures Unpublished(v, c).kernel == v.kernel && !KernelTable(v, v.at[Up(c)])
  {
    hide Frames, Places, Entries, KernelOk, Aliases, AliasPath, AliasTable, A.Retire, A.Release;
    PlaceFacts(v, Up(c));
    RetiredAndReleased(v, c);
  }

  lemma ManagedAlias(w: World, f: nat)
    requires Aliases(w) && f in w.authority.managed
    ensures AliasOk(w, f) && AliasPath(w, w.kernel, 4, f)
  {
  }

  /** The table `t` in memory is as in `w`. */
  ghost predicate Intact(w: World, cut: set<(nat, nat)>, tables: Tables, t: nat) {
    t in tables && t in w.tables && tables[t] == w.tables[t] && Uncut(cut, t)
  }

  /** The table at hand and the kernel's tables are not cut. */
  lemma CutRows(w: World, cut: set<(nat, nat)>, tables: Tables, p: Place)
    requires Frames(w) && Places(w) && p in w.at && 1 <= p.level <= 4 && CutAbove(w, cut, p.level) && Masked(w.tables, cut, tables)
    ensures Intact(w, cut, tables, w.at[p]) && KernelRows(w, tables)
    ensures forall t :: KernelTable(w, t) ==> Intact(w, cut, tables, t)
  {
    hide Frames, Places, Masked;
    PlaceFacts(w, p);
    assert Uncut(cut, w.at[p]);
    MaskedRow(w.tables, cut, tables, w.at[p]);
    KernelUncut(w, cut, p.level);
    forall t | KernelTable(w, t) ensures Intact(w, cut, tables, t) {
      MaskedRow(w.tables, cut, tables, t);
    }
  }

  lemma KernelUncut(w: World, cut: set<(nat, nat)>, level: nat)
    requires Places(w) && CutAbove(w, cut, level)
    ensures forall t :: KernelTable(w, t) ==> Uncut(cut, t)
  {
    forall t | t in w.place ensures !KernelTable(w, t) { assert PlaceOk(w, t); }
  }

  lemma MaskedUnpublish(v: World, u: World, cut: set<(nat, nat)>, before: Tables, tables: Tables, f: nat, x: nat, slot: nat)
    requires slot < ENTRIES && Wrote(v, u, AliasHome(v, f), f, true, x, slot, ZERO) && Masked(v.tables, cut, before)
    requires x in before && AliasHome(v, f) in before && before[AliasHome(v, f)] == v.tables[AliasHome(v, f)]
    requires Uncut(cut, AliasHome(v, f))
    requires var t := AliasHome(v, f);
             var zeroed := before[x := before[x][slot := ZERO]];
             t in zeroed && tables == zeroed[t := zeroed[t][Index(f, 1) := zeroed[t][Index(f, 1)].(writable := true)]]
    ensures Masked(u.tables, cut, tables)
  {
    hide AliasHome;
    var t := AliasHome(v, f);
    forall y, s | y in u.tables && 0 <= s < ENTRIES ensures tables[y][s] == if (y, s) in cut then ZERO else u.tables[y][s] {
      assert before[y][s] == if (y, s) in cut then ZERO else v.tables[y][s];
    }
  }

  lemma MaskedUngraft(t: Tables, cut: set<(nat, nat)>, tables: Tables, x: nat, slot: nat, frame: nat)
    requires slot < ENTRIES && x in t && Masked(t, cut + {(x, slot)}, tables) && x != frame
    ensures Masked(Linked(t, x, slot, ZERO) - {frame}, cut, tables - {frame})
  {
  }
}
