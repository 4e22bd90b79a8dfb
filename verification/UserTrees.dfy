/** Everything below a table of a user space: counting it, removing it branch by branch, and the edges already cut
    while it is being removed. */
module UserTrees {
  import opened PageTable
  import opened UserPlaces
  import opened UserWorld
  import opened UserSteps
  import opened UserLifecycle
  import opened UserViews
  import A = Authority

  // ----- the places below a table -----

  /** Places strictly below `p`, through its first `k` slots. */
  ghost function BelowTo(w: World, p: Place, k: nat): set<Place>
    requires 1 <= p.level <= 4
  {
    set q | q in w.at && q.level < p.level && Within(q, p) && SlotOf(Ancestor(q, p.level - 1)) < k
  }

  ghost function Below(w: World, p: Place): set<Place>
    requires p.level <= 4
  {
    if p.level == 0 then {} else BelowTo(w, p, ENTRIES)
  }

  lemma BelowNothing(w: World, p: Place)
    requires 1 <= p.level <= 4
    ensures BelowTo(w, p, 0) == {}
  {
  }

  /** What lies below slot `s` is what lies at or below its child; there is nothing if the child is missing. */
  lemma BelowStep(w: World, p: Place, s: nat)
    requires Frames(w) && Places(w) && p in w.at && 1 <= p.level <= 3 && s < ENTRIES
    ensures var c := Child(p, s);
            && c !in BelowTo(w, p, s) && BelowTo(w, p, s) !! Below(w, c) && c !in Below(w, c)
            && BelowTo(w, p, s + 1) == BelowTo(w, p, s) + if c in w.at then {c} + Below(w, c) else {}
  {
    hide Frames, Places;
    PlaceFacts(w, p);
    var c := Child(p, s);
    ChildUp(p, s);
    forall q | q in w.at && q.level < p.level
      ensures Within(q, c) <==> Within(q, p) && SlotOf(Ancestor(q, p.level - 1)) == s
      ensures Within(q, c) ==> c in w.at
      ensures q.level == c.level && Within(q, c) ==> q == c
    {
      WithinSlot(w, q, p, s);
    }
    assert c in w.at ==> Within(c, c);
  }

  lemma WithinSlot(w: World, q: Place, p: Place, s: nat)
    requires Frames(w) && Places(w) && p in w.at && 1 <= p.level <= 3 && s < ENTRIES && q in w.at && q.level < p.level
    ensures Within(q, Child(p, s)) <==> Within(q, p) && SlotOf(Ancestor(q, p.level - 1)) == s
    ensures Within(q, Child(p, s)) ==> Child(p, s) in w.at
  {
    hide Frames, Places;
    PlaceFacts(w, p);
    var a := Ancestor(q, p.level - 1);
    AncestorUp(q, p.level - 1);
    AncestorIn(w, q, p.level - 1);
    PlaceFacts(w, a);
    ChildUp(p, s);
    UpChild(a);
    WithinChild(q, p, s);
  }

  lemma ChildBelow(w: World, c: Place, s: nat)
    requires 1 <= c.level <= 3 && Shaped(c) && s < ENTRIES && Child(c, s) in w.at
    ensures Child(c, s) in Below(w, c)
  {
    ChildUp(c, s);
    var q := Child(c, s);
    assert Ancestor(q, c.level - 1) == q;
    AncestorUp(q, c.level - 1);
  }

  // ----- removing places -----

  ghost function FramesAt(w: World, lost: set<Place>): set<nat>
    requires lost <= w.at.Keys
  {
    set q | q in lost :: w.at[q]
  }

  /** The frames of the pages among these places. */
  ghost function PagesAt(w: World, lost: set<Place>): set<nat>
    requires lost <= w.at.Keys
  {
    set q | q in lost && q.level == 0 :: w.at[q]
  }

  /** From `w` to `v` exactly the places `lost` and their frames are gone, no user table but the one at `except` was
      written, and in the kernel's tables only the aliases of the lost pages. */
  ghost predicate Lost(w: World, v: World, lost: set<Place>, except: Place) {
    && lost <= w.at.Keys && v.at == w.at - lost
    && v.authority == w.authority.(frames := w.authority.frames - FramesAt(w, lost))
    && KernelWritten(w, v, PagesAt(w, lost))
    && (forall q :: q in v.at && 1 <= q.level && q != except && v.at[q] in w.tables ==>
          v.at[q] in v.tables && v.tables[v.at[q]] == w.tables[v.at[q]])
  }

  /** Lost pages were no tables. */
  lemma LostPages(w: World, lost: set<Place>)
    requires Frames(w) && Places(w) && lost <= w.at.Keys
    ensures NoTables(w, PagesAt(w, lost))
  {
    hide Frames, Places;
    forall f | f in PagesAt(w, lost) ensures f !in w.tables && f in w.authority.managed {
      var q :| q in lost && q.level == 0 && w.at[q] == f;
      PlaceFacts(w, q);
      NotATable(w, f);
    }
  }

  lemma WrittenSelf(w: World)
    requires KernelOk(w)
    ensures KernelWritten(w, w, {})
  {
    hide TreeSet;
  }

  lemma PagesTwice(w: World, v: World, a: set<Place>, b: set<Place>)
    requires a <= w.at.Keys && v.at == w.at - a && b <= v.at.Keys
    ensures PagesAt(w, a + b) == PagesAt(w, a) + PagesAt(v, b)
  {
    forall f | f in PagesAt(w, a + b) ensures f in PagesAt(w, a) + PagesAt(v, b) {
      var q :| q in a + b && q.level == 0 && w.at[q] == f;
      if q !in a { assert v.at[q] == f; }
    }
  }

  /** Two removals in a row; a table written in the first may be gone after the second. */
  lemma LostTwice(w: World, v: World, u: World, a: set<Place>, b: set<Place>, inner: Place, outer: Place)
    requires Lost(w, v, a, inner) && Lost(v, u, b, outer) && (inner == outer || inner in b)
    requires forall q :: q in w.at && 1 <= q.level ==> w.at[q] in w.tables
    ensures Lost(w, u, a + b, outer)
  {
    hide KernelWritten;
    WrittenTransitive(w, v, u, PagesAt(w, a), PagesAt(v, b));
    PagesTwice(w, v, a, b);
    assert FramesAt(w, a + b) == FramesAt(w, a) + FramesAt(v, b) by {
      forall f | f in FramesAt(w, a + b) ensures f in FramesAt(w, a) + FramesAt(v, b) {
        var q :| q in a + b && w.at[q] == f;
        if q !in a { assert v.at[q] == f; }
      }
    }
    assert u.at == w.at - (a + b);
    assert w.authority.frames - FramesAt(w, a) - FramesAt(v, b) == w.authority.frames - FramesAt(w, a + b);
  }

  lemma LostNothing(w: World, p: Place)
    requires KernelOk(w)
    ensures Lost(w, w, {}, p)
  {
    hide KernelOk, KernelWritten;
    WrittenSelf(w);
    assert FramesAt(w, {}) == {} && PagesAt(w, {}) == {};
  }

  lemma UngraftLoses(w: World, c: Place)
    requires CanUngraft(w, c)
    ensures Lost(w, Ungrafted(w, c), {c}, Up(c))
  {
    hide Aliases, KernelOk, Entries, A.Ok, Frames, Places, A.Release, KernelSame, KernelWritten;
    PlaceFacts(w, c);
    PlaceFacts(w, Up(c));
    Released(w, w.at[c]);
    UngraftFrames(w, c);
    KernelRoot(w);
    var v := Ungrafted(w, c);
    SameIsWritten(w, v);
    assert FramesAt(w, {c}) == {w.at[c]} && PagesAt(w, {c}) == {};
    forall q | q in v.at && 1 <= q.level && q != Up(c) && v.at[q] in w.tables
      ensures v.at[q] in v.tables && v.tables[v.at[q]] == w.tables[v.at[q]]
    {
      PlaceFacts(w, q);
    }
  }

  lemma UnpublishLoses(w: World, c: Place)
    requires CanUnpublish(w, c)
    ensures Lost(w, Unpublished(w, c), {c}, Up(c))
  {
    hide Aliases, KernelOk, Entries, A.Ok, Frames, Places, AliasPath, AliasTable, Linked, AliasSet, KernelAlike, KernelWritten, AliasOk;
    PlaceFacts(w, c);
    PlaceFacts(w, Up(c));
    UnpublishTables(w, c);
    var v := Unpublished(w, c);
    AliasHolds(w, w.at[c]);
    WroteIsWritten(w, v, w.at[c], true, w.at[Up(c)], SlotOf(c), ZERO);
    assert FramesAt(w, {c}) == {w.at[c]} && PagesAt(w, {c}) == {w.at[c]};
    forall q | q in v.at && 1 <= q.level && q != Up(c) && v.at[q] in w.tables
      ensures v.at[q] in v.tables && v.tables[v.at[q]] == w.tables[v.at[q]]
    {
      PlaceFacts(w, q);
    }
  }

  // ----- edges cut before what they led to is gone -----

  /** The tables in memory are those of `w` with the slots in `cut` already cleared. */
  ghost predicate Masked(t: Tables, cut: set<(nat, nat)>, tables: Tables) {
    && tables.Keys == t.Keys
    && forall x, s :: x in t && 0 <= s < ENTRIES ==> tables[x][s] == if (x, s) in cut then ZERO else t[x][s]
  }

  /** Only tables above `level` have cut edges. */
  ghost predicate CutAbove(w: World, cut: set<(nat, nat)>, level: nat) {
    forall x: nat, s: nat :: (x, s) in cut ==> x in w.place && w.place[x].level > level
  }

  /** No edge of table `x` is cut. */
  ghost predicate Uncut(cut: set<(nat, nat)>, x: nat) { forall s: nat :: (x, s) !in cut }

  lemma MaskedRow(t: Tables, cut: set<(nat, nat)>, tables: Tables, x: nat)
    requires Masked(t, cut, tables) && x in t && Uncut(cut, x)
    ensures x in tables && tables[x] == t[x]
  {
    forall s | 0 <= s < ENTRIES ensures tables[x][s] == t[x][s] { }
  }
}
