/** Where a table or a page of a user address space belongs: the owner, the level and the position among the
    512-way branches below the one user slot of the root. A page is a place of level 0. */
module UserPlaces {
  import opened PageTable

  const USER_SLOT: nat := 128

  datatype Place = Place(owner: nat, level: nat, number: nat)

  function Root(owner: nat): Place { Place(owner, 4, 0) }

  /** The place whose table points here. */
  function Up(p: Place): Place
    requires p.level < 4
  {
    Place(p.owner, p.level + 1, if p.level == 3 then 0 else p.number / ENTRIES)
  }

  /** The slot of that table which does. */
  function SlotOf(p: Place): (s: nat)
    ensures s < ENTRIES
  {
    if p.level == 3 then USER_SLOT else p.number % ENTRIES
  }

  /** What slot `s` of the table at `p` points to; a root has only one user slot. */
  function Child(p: Place, s: nat): Place
    requires 1 <= p.level <= 4
  {
    Place(p.owner, p.level - 1, if p.level == 4 then 0 else ENTRIES * p.number + s)
  }

  predicate UserSlot(p: Place, s: nat) { s < ENTRIES && (p.level == 4 ==> s == USER_SLOT) }

  /** Numbers above the user slot carry no information. */
  predicate Shaped(p: Place) { p.level <= 4 && (p.level >= 3 ==> p.number == 0) }

  lemma ChildUp(p: Place, s: nat)
    requires 1 <= p.level <= 4 && Shaped(p) && UserSlot(p, s)
    ensures Up(Child(p, s)) == p && SlotOf(Child(p, s)) == s
  {
  }

  lemma UpChild(c: Place)
    requires c.level < 4 && Shaped(c)
    ensures Child(Up(c), SlotOf(c)) == c && UserSlot(Up(c), SlotOf(c))
  {
  }

  // ----- ancestors -----

  function Ancestor(q: Place, level: nat): Place
    requires q.level <= level <= 4
    decreases level - q.level
  {
    if q.level == level then q else Ancestor(Up(q), level)
  }

  /** `q` lies at or below `p`. */
  predicate Within(q: Place, p: Place) { q.level <= p.level <= 4 && Ancestor(q, p.level) == p }

  lemma {:induction false} AncestorUp(q: Place, level: nat)
    requires q.level <= level < 4
    ensures Ancestor(q, level).level == level && Ancestor(q, level).owner == q.owner
    ensures Ancestor(q, level + 1) == Up(Ancestor(q, level))
    decreases level - q.level
  {
    if q.level < level { AncestorUp(Up(q), level); }
  }

  /** Below a table means below exactly one of its slots. */
  lemma WithinChild(q: Place, p: Place, s: nat)
    requires q.level < p.level <= 4 && Shaped(p) && UserSlot(p, s)
    ensures Within(q, Child(p, s)) <==> Ancestor(q, p.level - 1) == Child(p, s)
    ensures Within(q, Child(p, s)) ==> Within(q, p)
  {
    AncestorUp(q, p.level - 1);
    ChildUp(p, s);
  }

  // ----- virtual addresses -----

  /** The page number inside the user slot. */
  function PageOf(va: nat): nat {
    (Index(va, 3) * ENTRIES + Index(va, 2)) * ENTRIES + Index(va, 1)
  }

  function Va(page: nat): nat { USER_BASE + PAGE * page }

  predicate InUserRange(va: nat) { USER_BASE <= va < USER_BASE + Span(4) }

  /** The slots a page number goes through are the slots its address goes through. */
  lemma PageSlots(va: nat)
    ensures PageOf(va) % ENTRIES == Index(va, 1)
    ensures PageOf(va) / ENTRIES % ENTRIES == Index(va, 2)
    ensures PageOf(va) / ENTRIES / ENTRIES == Index(va, 3)
  {
    var a := Index(va, 3) * ENTRIES + Index(va, 2);
    assert PageOf(va) == a * ENTRIES + Index(va, 1);
    assert PageOf(va) / ENTRIES == a;
  }

  lemma PageLimit(va: nat)
    ensures PageOf(va) < ENTRIES * ENTRIES * ENTRIES
  {
    assert Index(va, 3) <= 511 && Index(va, 2) <= 511 && Index(va, 1) <= 511;
  }

  /** A page-aligned user address is the address of its page. */
  lemma PageAddress(va: nat)
    requires InUserRange(va)
    ensures Index(va, 4) == USER_SLOT
    ensures va % PAGE == 0 ==> Va(PageOf(va)) == va
  {
    var x := va - USER_BASE;
    assert va / 0x80_0000_0000 == 128;
    var a, b := va / 0x1000, va / 0x20_0000;
    assert a / 512 == b;
    var c := va / 0x4000_0000;
    assert b / 512 == c;
    assert c / 512 == 128;
    assert a == 512 * b + Index(va, 1);
    assert b == 512 * c + Index(va, 2);
    assert c == 512 * 128 + Index(va, 3);
    assert 0x1000 * (512 * 512 * 512 * 128) == USER_BASE;
    assert a == 512 * 512 * 512 * 128 + PageOf(va);
  }
}
