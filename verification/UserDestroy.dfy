/** Destroying a user address space: what it owns, and what remains of everyone else's. */
module UserDestroy {
  import opened PageTable
  import opened UserPlaces
  import opened UserWorld
  import opened UserSteps
  import opened UserLifecycle
  import opened UserViews
  import opened UserTrees
  import opened UserTeardown
  import A = Authority

  /** All places of one space. */
  ghost function OfOwner(w: World, owner: nat): set<Place> { set q | q in w.at && q.owner == owner }

  function Top(owner: nat): Place { Place(owner, 3, 0) }

  /** A space is its root, the table below the user slot, and what lies below that. */
  lemma OwnerPlaces(w: World, owner: nat)
    requires Frames(w) && Places(w) && Root(owner) in w.at
    ensures OfOwner(w, owner) == {Root(owner)} + if Top(owner) in w.at then {Top(owner)} + Below(w, Top(owner)) else {}
    ensures Root(owner) !in Below(w, Top(owner)) && Top(owner) !in Below(w, Top(owner))
  {
    hide Frames, Places;
    forall q | q in OfOwner(w, owner)
      ensures q == Root(owner) || (Top(owner) in w.at && (q == Top(owner) || q in Below(w, Top(owner))))
    {
      PlaceFacts(w, q);
      if q.level < 4 {
        AncestorIn(w, q, 3);
        AncestorOwner(q, 3);
        PlaceFacts(w, Ancestor(q, 3));
      }
    }
    forall q | q in Below(w, Top(owner)) ensures q in OfOwner(w, owner) {
      AncestorOwner(q, 3);
    }
  }

  lemma AncestorOwner(q: Place, level: nat)
    requires q.level <= level <= 3
    ensures Ancestor(q, level).owner == q.owner && Ancestor(q, level).level == level
  {
    AncestorUp(q, level);
  }

  /** Every frame of the space is one of its tables or one of its mapped pages. */
  ghost predicate AllPlaced(w: World, owner: nat) { A.Owned(w.authority, owner) <= w.place.Keys }

  lemma {:induction false} FramesSize(w: World, lost: set<Place>)
    requires Places(w) && lost <= w.at.Keys
    ensures |FramesAt(w, lost)| == |lost|
  {
    hide Places;
    if lost == {} {
      assert FramesAt(w, lost) == {};
    } else {
      var q :| q in lost;
      FramesSize(w, lost - {q});
      forall r | r in lost - {q} ensures w.at[r] != w.at[q] {
        if w.at[r] == w.at[q] { AtInjective(w, r, q); }
      }
      assert FramesAt(w, lost) == FramesAt(w, lost - {q}) + {w.at[q]};
    }
  }

  /** The owner's frame count equals the number of its places exactly when every frame is placed. */
  lemma OwnerCount(w: World, owner: nat)
    requires Frames(w) && Places(w)
    ensures FramesAt(w, OfOwner(w, owner)) <= A.Owned(w.authority, owner)
    ensures |A.Owned(w.authority, owner)| == |OfOwner(w, owner)| <==> AllPlaced(w, owner)
    ensures AllPlaced(w, owner) ==> A.Owned(w.authority, owner) == FramesAt(w, OfOwner(w, owner))
  {
    hide Frames, Places;
    var owned, placed := A.Owned(w.authority, owner), FramesAt(w, OfOwner(w, owner));
    forall q | q in OfOwner(w, owner) ensures w.at[q] in owned && w.at[q] in w.place { PlaceFacts(w, q); }
    FramesSize(w, OfOwner(w, owner));
    if AllPlaced(w, owner) {
      forall f | f in owned ensures f in placed { PlaceOwner(w, f); }
      assert owned == placed;
    } else {
      var f :| f in owned && f !in w.place;
      assert f !in placed;
      A.SubsetSize(placed + {f}, owned);
    }
  }

  lemma PlaceOwner(w: World, f: nat)
    requires Places(w) && f in w.place
    ensures w.place[f] in w.at && w.at[w.place[f]] == f && f in w.authority.frames
    ensures w.place[f].owner == w.authority.frames[f].grant.owner
  {
    assert PlaceOk(w, f);
  }

  lemma UnrootLoses(w: World, owner: nat)
    requires CanUnroot(w, owner)
    ensures Lost(w, Unrooted(w, owner), {Root(owner)}, Root(owner))
  {
    hide Aliases, KernelOk, Entries, A.Ok, Frames, Places, A.Release, Childless, KernelSame, KernelWritten;
    PlaceFacts(w, Root(owner));
    Released(w, w.at[Root(owner)]);
    UnrootFrames(w, owner);
    KernelRoot(w);
    var v := Unrooted(w, owner);
    SameIsWritten(w, v);
    assert FramesAt(w, {Root(owner)}) == {w.at[Root(owner)]} && PagesAt(w, {Root(owner)}) == {};
    forall q | q in v.at && 1 <= q.level && q != Root(owner) && v.at[q] in w.tables
      ensures v.at[q] in v.tables && v.tables[v.at[q]] == w.tables[v.at[q]]
    {
      PlaceFacts(w, q);
    }
  }

  /** Every other space keeps its root, all its pages and all its rights; the kernel's own right to write comes back for
      the pages of the destroyed space, and for nothing else. */
  lemma OthersKeep(w: World, v: World, owner: nat, other: nat, va: nat)
    requires Inv(w) && Inv(v) && Lost(w, v, OfOwner(w, owner), Root(owner)) && other != owner && Root(other) in w.at
    ensures OfOwner(w, owner) <= w.at.Keys && SameTranslation(w, v, other, va, PagesAt(w, OfOwner(w, owner)))
  {
    hide Frames, Places, Entries, KernelOk, Aliases, KernelWritten;
    var c := Place(other, 0, PageOf(va));
    assert SameLeaf(w, v, c) by {
      if c in w.at {
        PlaceFacts(w, c);
        PlaceFacts(w, Up(c));
        PlaceFacts(v, c);
        PlaceFacts(v, Up(c));
      }
    }
    LostPages(w, OfOwner(w, owner));
    Undisturbed(w, v, other, va, PagesAt(w, OfOwner(w, owner)));
  }
}
