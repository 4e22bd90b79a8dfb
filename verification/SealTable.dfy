/** The final pass over the supervisor map: every leaf outside the kernel text becomes non-executable,
    and a text leaf must be a read-only 4 KiB page. Afterwards nothing is writable and executable. */
module SealTable {
  import opened Wrappers
  import opened PageTable
  import opened CloneTable
  import opened SplitTable

  /** Physical bounds of the linked kernel text. */
  datatype Text = Text(start: nat, end: nat)

  /** The sealed form of a leaf, or `None` if the leaf breaks the policy. */
  function SealLeaf(e: Entry, level: nat, text: Text): Option<Entry>
    requires 1 <= level <= 4
  {
    var frame := e.address - e.address % Span(level);
    var end := frame + Span(level);
    if frame < text.end && text.start < end then
      if level != 1 || frame < text.start || end > text.end || e.writable then None else Some(e)
    else Some(e.(nx := true))
  }

  /** Slot `s` of `u` is the sealed form of slot `s` of `t`. */
  ghost predicate SlotSealed(t: Tables, u: Tables, root: nat, level: nat, s: nat, text: Text)
    requires Mapped(t, root, level) && Mapped(u, root, level) && s < ENTRIES
    decreases level, 0
  {
    var e := t[root][s];
    if !e.present then u[root][s] == e
    else if !Branch(level, e) then SealLeaf(e, level, text) == Some(u[root][s])
    else u[root][s] == e && Sealed(t, u, e.address, level - 1, text)
  }

  ghost predicate Sealed(t: Tables, u: Tables, root: nat, level: nat, text: Text)
    requires Mapped(t, root, level) && Mapped(u, root, level)
    decreases level, 1
  {
    forall s :: 0 <= s < ENTRIES ==> SlotSealed(t, u, root, level, s, text)
  }

  /** What lies behind slot `s` meets the policy. */
  ghost predicate SlotSealable(t: Tables, root: nat, level: nat, s: nat, text: Text)
    requires Mapped(t, root, level) && s < ENTRIES
    decreases level, 0
  {
    var e := t[root][s];
    e.present ==> if Branch(level, e) then Sealable(t, e.address, level - 1, text) else SealLeaf(e, level, text).Some?
  }

  /** Every leaf of the tree meets the policy: it lies outside the text, or is a read-only 4 KiB page inside it. */
  ghost predicate Sealable(t: Tables, root: nat, level: nat, text: Text)
    requires Mapped(t, root, level)
    decreases level, 1
  {
    forall s :: 0 <= s < ENTRIES ==> SlotSealable(t, root, level, s, text)
  }

  /** Only a tree that meets the policy has a sealed form. */
  lemma {:induction false} SealedSealable(t: Tables, u: Tables, root: nat, level: nat, text: Text)
    requires Mapped(t, root, level) && Mapped(u, root, level) && Sealed(t, u, root, level, text)
    ensures Sealable(t, root, level, text)
    decreases level
  {
    forall s | 0 <= s < ENTRIES ensures SlotSealable(t, root, level, s, text) {
      assert SlotSealed(t, u, root, level, s, text);
      if Branch(level, t[root][s]) { SealedSealable(t, u, t[root][s].address, level - 1, text); }
    }
  }

  lemma {:induction false} SealableFrame(t: Tables, T: Tables, root: nat, level: nat, text: Text)
    requires Mapped(t, root, level) && Mapped(T, root, level) && Sealable(T, root, level, text)
    requires Agree(t, T, TreeSet(t, root, level))
    ensures Sealable(t, root, level, text)
    decreases level
  {
    hide TreeSet;
    TreeSetInTables(t, root, level);
    forall s | 0 <= s < ENTRIES ensures SlotSealable(t, root, level, s, text) {
      assert SlotSealable(T, root, level, s, text);
      if Branch(level, t[root][s]) {
        ChildInTree(t, root, level, s);
        SealableFrame(t, T, t[root][s].address, level - 1, text);
      }
    }
  }

  /** In a sealed map no address is writable and executable, every address still goes where it went with
      the same write right, and nothing became executable. */
  lemma {:induction false} SealedWalk(t: Tables, u: Tables, root: nat, level: nat, text: Text, va: nat)
    requires Mapped(t, root, level) && Mapped(u, root, level) && Sealed(t, u, root, level, text)
    ensures var a, b := Walk(t, root, level, va), Walk(u, root, level, va);
            && a.Some? == b.Some?
            && (a.Some? ==>
                  && !(b.value.writable && !b.value.nx) && !(b.value.entry.writable && !b.value.entry.nx)
                  && b.value.level == a.value.level && b.value.entry.address == a.value.entry.address
                  && b.value.writable == a.value.writable && b.value.user == a.value.user
                  && (a.value.nx ==> b.value.nx))
    decreases level
  {
    var s := Index(va, level);
    assert SlotSealed(t, u, root, level, s, text);
    var e := t[root][s];
    if Branch(level, e) { SealedWalk(t, u, e.address, level - 1, text, va); }
  }

  lemma {:induction false} SealedFrame(t: Tables, u: Tables, v: Tables, root: nat, level: nat, text: Text)
    requires Mapped(t, root, level) && Mapped(u, root, level) && Sealed(t, u, root, level, text)
    requires Agree(u, v, TreeSet(u, root, level))
    ensures Mapped(v, root, level) && Sealed(t, v, root, level, text)
    decreases level
  {
    hide TreeSet;
    TreeFrame(u, v, root, level);
    TreeSetInTables(u, root, level);
    forall s | 0 <= s < ENTRIES ensures SlotSealed(t, v, root, level, s, text) {
      assert SlotSealed(t, u, root, level, s, text);
      if Branch(level, t[root][s]) {
        ChildInTree(u, root, level, s);
        SealedFrame(t, u, v, t[root][s].address, level - 1, text);
      }
    }
  }

  lemma {:induction false} SealedSource(t: Tables, T: Tables, u: Tables, root: nat, level: nat, text: Text)
    requires Mapped(t, root, level) && Mapped(u, root, level) && Sealed(t, u, root, level, text)
    requires Agree(t, T, TreeSet(t, root, level))
    ensures Mapped(T, root, level) && Sealed(T, u, root, level, text)
    decreases level
  {
    hide TreeSet;
    TreeFrame(t, T, root, level);
    TreeSetInTables(t, root, level);
    forall s | 0 <= s < ENTRIES ensures SlotSealed(T, u, root, level, s, text) {
      assert SlotSealed(t, u, root, level, s, text);
      if Branch(level, t[root][s]) {
        ChildInTree(t, root, level, s);
        SealedSource(t, T, u, t[root][s].address, level - 1, text);
      }
    }
  }

  lemma SlotSealedFrame(t: Tables, u: Tables, v: Tables, root: nat, level: nat, s: nat, text: Text)
    requires Mapped(t, root, level) && Mapped(u, root, level) && Mapped(v, root, level) && s < ENTRIES
    requires SlotSealed(t, u, root, level, s, text) && v[root][s] == u[root][s]
    requires Branch(level, u[root][s]) ==> Agree(u, v, TreeSet(u, u[root][s].address, level - 1))
    ensures SlotSealed(t, v, root, level, s, text)
  {
    if Branch(level, t[root][s]) { SealedFrame(t, u, v, t[root][s].address, level - 1, text); }
  }

  /** The shape a pass keeps: same tables, same tree, nothing outside touched. */
  ghost predicate SealShape(T: Tables, t: Tables, root: nat, level: nat) {
    && Tree(T, root, level) && Tree(t, root, level) && t.Keys == T.Keys
    && TreeSet(t, root, level) == TreeSet(T, root, level)
    && Agree(T, t, T.Keys - TreeSet(T, root, level))
    && (forall s :: 0 <= s < ENTRIES ==> ChildSet(t, root, level, s) == ChildSet(T, root, level, s))
  }

  ghost predicate SealedUpTo(T: Tables, t: Tables, root: nat, level: nat, k: nat, text: Text) {
    && k <= ENTRIES && SealShape(T, t, root, level)
    && (forall s :: 0 <= s < k ==> SlotSealed(T, t, root, level, s, text))
    && (forall s :: k <= s < ENTRIES ==> t[root][s] == T[root][s]
                                         && Agree(T, t, ChildSet(T, root, level, s)))
  }

  lemma SealStart(T: Tables, root: nat, level: nat, text: Text)
    requires Tree(T, root, level)
    ensures SealedUpTo(T, T, root, level, 0, text)
    ensures Mapped(T, root, level)
  {
  }

  lemma SealEnd(T: Tables, t: Tables, root: nat, level: nat, text: Text)
    requires SealedUpTo(T, t, root, level, ENTRIES, text)
    ensures Mapped(T, root, level) && Mapped(t, root, level) && Sealed(T, t, root, level, text)
    ensures Sealable(T, root, level, text)
  {
    SealedSealable(T, t, root, level, text);
  }

  lemma SealSlotFacts(T: Tables, t: Tables, root: nat, level: nat, k: nat, text: Text)
    requires SealedUpTo(T, t, root, level, k, text) && k < ENTRIES
    ensures Mapped(T, root, level) && Mapped(t, root, level) && root in t && root in T && t[root][k] == T[root][k]
    ensures Branch(level, t[root][k]) ==> Tree(t, t[root][k].address, level - 1) && Mapped(T, t[root][k].address, level - 1)
    ensures Branch(level, t[root][k]) ==> TreeSet(t, t[root][k].address, level - 1) == ChildSet(T, root, level, k)
  {
    TreeParts(t, root, level, k, k);
    TreeParts(T, root, level, k, k);
  }

  /** A leaf that breaks the policy. */
  lemma SealRefused(T: Tables, root: nat, level: nat, k: nat, text: Text)
    requires Mapped(T, root, level) && k < ENTRIES && T[root][k].present && !Branch(level, T[root][k])
    requires SealLeaf(T[root][k], level, text).None?
    ensures !Sealable(T, root, level, text)
  {
    assert !SlotSealable(T, root, level, k, text);
  }

  /** A leaf that breaks the policy somewhere below slot `k`. */
  lemma ChildRefused(T: Tables, t: Tables, root: nat, level: nat, k: nat, text: Text)
    requires SealedUpTo(T, t, root, level, k, text) && k < ENTRIES && Branch(level, T[root][k])
    requires Mapped(t, T[root][k].address, level - 1) && !Sealable(t, T[root][k].address, level - 1, text)
    ensures !Sealable(T, root, level, text)
  {
    hide TreeSet, Tree, SlotSealed, Sealable;
    SealSlotFacts(T, t, root, level, k, text);
    var c := T[root][k].address;
    if Sealable(T, root, level, text) {
      SealableChild(T, root, level, k, text);
      SealableFrame(t, T, c, level - 1, text);
    }
  }

  lemma SealableChild(T: Tables, root: nat, level: nat, k: nat, text: Text)
    requires Mapped(T, root, level) && k < ENTRIES && Branch(level, T[root][k]) && Sealable(T, root, level, text)
    ensures Sealable(T, T[root][k].address, level - 1, text)
  {
    assert SlotSealable(T, root, level, k, text);
  }

  lemma SealSkip(T: Tables, t: Tables, root: nat, level: nat, k: nat, text: Text)
    requires SealedUpTo(T, t, root, level, k, text) && k < ENTRIES && !T[root][k].present
    ensures SealedUpTo(T, t, root, level, k + 1, text)
  {
  }

  /** Sealing one leaf entry. */
  lemma SealWrite(T: Tables, t: Tables, root: nat, level: nat, k: nat, text: Text)
    requires SealedUpTo(T, t, root, level, k, text) && k < ENTRIES
    requires T[root][k].present && !Branch(level, T[root][k]) && SealLeaf(T[root][k], level, text).Some?
    ensures SealedUpTo(T, t[root := t[root][k := SealLeaf(T[root][k], level, text).value]], root, level, k + 1, text)
  {
    hide TreeSet, Tree;
    SealSlotFacts(T, t, root, level, k, text);
    var e := SealLeaf(T[root][k], level, text).value;
    var u := t[root := t[root][k := e]];
    WriteSlot(t, root, level, k, e);
    TreeMapped(u, root, level);
    TreeSetInTables(T, root, level);
    forall s | 0 <= s < ENTRIES && s != k && Branch(level, t[root][s])
      ensures Mapped(t, t[root][s].address, level - 1) && Agree(t, u, TreeSet(t, t[root][s].address, level - 1))
    {
      assert u[root][s] == t[root][s];
    }
    WriteChildren(t, root, level, k, e);
    forall s | 0 <= s < k ensures SlotSealed(T, u, root, level, s, text) {
      SlotSealedFrame(T, t, u, root, level, s, text);
    }
    forall s | k < s < ENTRIES ensures Agree(T, u, ChildSet(T, root, level, s)) {
      TreeParts(T, root, level, s, s);
    }
  }

  lemma WriteChildren(t: Tables, root: nat, level: nat, k: nat, e: Entry)
    requires Tree(t, root, level) && k < ENTRIES && !Branch(level, t[root][k]) && !Branch(level, e)
    requires Tree(t[root := t[root][k := e]], root, level)
    ensures var u := t[root := t[root][k := e]];
            forall s :: 0 <= s < ENTRIES ==> ChildSet(u, root, level, s) == ChildSet(t, root, level, s)
  {
    var u := t[root := t[root][k := e]];
    forall s | 0 <= s < ENTRIES ensures ChildSet(u, root, level, s) == ChildSet(t, root, level, s) {
      if s != k && Branch(level, t[root][s]) {
        WriteSlotChild(t, root, level, k, e, s);
      }
    }
  }

  /** Sealing the tree below one slot. */
  lemma SealChild(T: Tables, t: Tables, u: Tables, root: nat, level: nat, k: nat, text: Text, done: bool)
    requires SealedUpTo(T, t, root, level, k, text) && k < ENTRIES && Branch(level, T[root][k])
    requires var c := T[root][k].address;
             && Mapped(t, c, level - 1) && Tree(u, c, level - 1) && u.Keys == t.Keys
             && TreeSet(u, c, level - 1) == TreeSet(t, c, level - 1)
             && Agree(t, u, t.Keys - TreeSet(t, c, level - 1))
             && (done ==> Sealed(t, u, c, level - 1, text))
    ensures SealShape(T, u, root, level)
    ensures done ==> SealedUpTo(T, u, root, level, k + 1, text)
  {
    hide TreeSet, Tree, Sealed, SlotSealed;
    SealSlotFacts(T, t, root, level, k, text);
    var c := T[root][k].address;
    TreeParts(t, root, level, k, k);
    assert ChangedBelow(t, u, root, level, k, {});
    ChangedTree(t, u, root, level, k, {});
    ChangedRoot(t, u, root, level, k, {});
    TreeMapped(u, c, level - 1);
    SealOutside(T, t, u, root, level, k);
    if done {
      SealedSource(t, T, u, c, level - 1, text);
      forall s | 0 <= s < k ensures SlotSealed(T, u, root, level, s, text) {
        if Branch(level, t[root][s]) { OthersAgree(t, u, root, level, k, {}, s); }
        SlotSealedFrame(T, t, u, root, level, s, text);
      }
      SealedSlot(T, u, root, level, k, text);
      forall s | k < s < ENTRIES ensures Agree(T, u, ChildSet(T, root, level, s)) {
        TreeParts(T, root, level, s, k);
      }
    }
  }

  lemma SealedSlot(T: Tables, u: Tables, root: nat, level: nat, k: nat, text: Text)
    requires Mapped(T, root, level) && Mapped(u, root, level) && k < ENTRIES && Branch(level, T[root][k])
    requires u[root][k] == T[root][k] && Sealed(T, u, T[root][k].address, level - 1, text)
    ensures SlotSealed(T, u, root, level, k, text)
  {
  }

  lemma SealOutside(T: Tables, t: Tables, u: Tables, root: nat, level: nat, k: nat)
    requires SealShape(T, t, root, level) && k < ENTRIES && u.Keys == t.Keys
    requires Agree(t, u, t.Keys - ChildSet(t, root, level, k))
    ensures Agree(T, u, T.Keys - TreeSet(T, root, level))
  {
    ChildInTree(t, root, level, k);
  }

  /** Seal a tree in place. It succeeds exactly when every leaf meets the policy; a success has sealed every leaf of the
      tree, and nothing outside the tree is touched. */
  method SealTable(memory: TableMemory, root: nat, level: nat, text: Text) returns (ok: bool)
    requires Tree(memory.tables, root, level)
    requires level == 4 ==> forall s :: 0 <= s < ENTRIES ==> !memory.tables[root][s].huge
    modifies memory`tables
    ensures memory.tables.Keys == old(memory.tables).Keys
    ensures Agree(old(memory.tables), memory.tables, old(memory.tables).Keys - TreeSet(old(memory.tables), root, level))
    ensures Tree(memory.tables, root, level)
            && TreeSet(memory.tables, root, level) == TreeSet(old(memory.tables), root, level)
    ensures ok ==> Sealed(old(memory.tables), memory.tables, root, level, text)
    ensures ok <==> Sealable(old(memory.tables), root, level, text)
    decreases level
  {
    hide Tree, TreeSet, Mapped, SlotSealed, Sealed, Sealable;
    ghost var T := memory.tables;
    SealStart(T, root, level, text);
    for slot := 0 to ENTRIES
      invariant SealedUpTo(T, memory.tables, root, level, slot, text)
    {
      ghost var t := memory.tables;
      SealSlotFacts(T, t, root, level, slot, text);
      var e := memory.tables[root][slot];
      if !e.present {
        SealSkip(T, t, root, level, slot, text);
      } else if level == 1 || e.huge {
        var sealed := SealLeaf(e, level, text);
        if sealed.None? {
          SealRefused(T, root, level, slot, text);
          return false;
        }
        SealWrite(T, t, root, level, slot, text);
        memory.tables := memory.tables[root := memory.tables[root][slot := sealed.value]];
      } else {
        var below := SealTable(memory, e.address, level - 1, text);
        SealChild(T, t, memory.tables, root, level, slot, text, below);
        if !below {
          ChildRefused(T, t, root, level, slot, text);
          return false;
        }
      }
    }
    SealEnd(T, memory.tables, root, level, text);
    return true;
  }
}
