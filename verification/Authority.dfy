/** Who holds which physical frame, as a value: the meaning of the grant ledger and the frame
    bitmap together. `MemoryState` keeps both and is proved to follow these steps exactly. */
module Authority {
  import opened Wrappers
  import opened FrameRegions

  const USER_FRAME_LIMIT: nat := 64
  const KERNEL_FRAME_RESERVE: nat := 256
  const U64_MAX: nat := 0xFFFF_FFFF_FFFF_FFFF

  type Owner = nat
  const KERNEL: Owner := 0

  datatype Kind = Table | User

  /** The right to one allocation. Generations are never reused, so a copy of a released grant stays stale. */
  datatype Grant = Grant(address: nat, generation: nat, owner: Owner, kind: Kind)

  /** `mappedAt` is the virtual address the frame is pinned at, or 0. */
  datatype Holding = Holding(grant: Grant, mappedAt: nat)

  datatype Authority = Authority(frames: map<nat, Holding>, managed: set<nat>,
                                 nextGeneration: nat, nextOwner: nat, capacity: nat)

  function Owned(a: Authority, owner: Owner): set<nat> {
    set f | f in a.frames && a.frames[f].grant.owner == owner
  }

  ghost function UserOwned(a: Authority): set<nat> {
    set f | f in a.frames && a.frames[f].grant.owner != KERNEL
  }

  function UserShare(capacity: nat): nat {
    capacity - if KERNEL_FRAME_RESERVE < capacity / 4 then KERNEL_FRAME_RESERVE else capacity / 4
  }

  /** One grant per frame, generations never shared, pins on user frames only. */
  ghost predicate FramesOk(a: Authority) {
    && a.frames.Keys <= a.managed
    && (forall f :: f in a.managed ==> PAGE_SIZE <= f && f % PAGE_SIZE == 0)
    && (forall f :: f in a.frames ==>
          && a.frames[f].grant.address == f
          && 0 < a.frames[f].grant.generation < a.nextGeneration
          && (a.frames[f].mappedAt != 0 ==> a.frames[f].grant.kind == User))
    && (forall f, g :: f in a.frames && g in a.frames && f != g ==>
          a.frames[f].grant.generation != a.frames[g].grant.generation)
    && 0 < a.nextGeneration && 0 < a.nextOwner
  }

  /** No user owner above its limit, all users together below the kernel reserve. */
  ghost predicate QuotasOk(a: Authority) {
    && |a.frames| <= a.capacity
    && (forall owner :: owner != KERNEL ==> |Owned(a, owner)| <= USER_FRAME_LIMIT)
    && |UserOwned(a)| <= UserShare(a.capacity)
  }

  /** The invariant. */
  ghost predicate Ok(a: Authority) { FramesOk(a) && QuotasOk(a) }

  predicate IsLive(a: Authority, g: Grant) {
    g.address in a.frames && a.frames[g.address].grant == g
  }

  function Find(a: Authority, owner: Owner, frame: nat, kind: Kind): Option<Grant> {
    if frame in a.frames && a.frames[frame].grant.owner == owner && a.frames[frame].grant.kind == kind
    then Some(a.frames[frame].grant) else None
  }

  predicate CanBind(a: Authority, g: Grant, owner: Owner) {
    IsLive(a, g) && g.owner == owner && g.kind == User && a.frames[g.address].mappedAt == 0
  }

  predicate MappingMatches(a: Authority, owner: Owner, frame: nat, va: nat) {
    Find(a, owner, frame, User).Some? && va != 0 && a.frames[frame].mappedAt == va
  }

  // ----- operations -----

  function NewOwner(a: Authority): (Authority, Option<Owner>) {
    if a.nextOwner < U64_MAX then (a.(nextOwner := a.nextOwner + 1), Some(a.nextOwner)) else (a, None)
  }

  /** The quota test that precedes every allocation. */
  predicate WithinQuota(a: Authority, owner: Owner) {
    owner == KERNEL || (|Owned(a, owner)| < USER_FRAME_LIMIT && |a.frames| < UserShare(a.capacity))
  }

  predicate CanAlloc(a: Authority, owner: Owner) {
    WithinQuota(a, owner) && |a.frames| < a.capacity && a.nextGeneration < U64_MAX && a.managed - a.frames.Keys != {}
  }

  predicate IsLeast(s: set<nat>, f: nat) { f in s && forall g :: g in s ==> f <= g }

  lemma {:induction false} LeastExists(s: set<nat>)
    requires s != {}
    ensures exists f :: IsLeast(s, f)
  {
    var x :| x in s;
    if s == {x} {
      assert IsLeast(s, x);
    } else {
      LeastExists(s - {x});
      var y :| IsLeast(s - {x}, y);
      assert forall g :: g in s ==> g == x || g in s - {x};
      assert IsLeast(s, if x < y then x else y);
    }
  }

  function Least(s: set<nat>): (f: nat)
    requires s != {}
    ensures IsLeast(s, f)
  {
    LeastExists(s);
    var f :| f in s && IsLeast(s, f);
    f
  }

  /** The least free managed frame under a fresh generation, or nothing. */
  function Alloc(a: Authority, owner: Owner, kind: Kind): (Authority, Option<Grant>) {
    if !CanAlloc(a, owner) then (a, None)
    else
      var f := Least(a.managed - a.frames.Keys);
      var g := Grant(f, a.nextGeneration, owner, kind);
      (a.(frames := a.frames[f := Holding(g, 0)], nextGeneration := a.nextGeneration + 1), Some(g))
  }

  function Bind(a: Authority, g: Grant, owner: Owner, va: nat): (Authority, bool) {
    if CanBind(a, g, owner) && va != 0 && va % PAGE_SIZE == 0
    then (a.(frames := a.frames[g.address := Holding(g, va)]), true)
    else (a, false)
  }

  function Retire(a: Authority, owner: Owner, frame: nat, va: nat): (Authority, Option<Grant>) {
    if MappingMatches(a, owner, frame, va)
    then (a.(frames := a.frames[frame := a.frames[frame].(mappedAt := 0)]), Some(a.frames[frame].grant))
    else (a, None)
  }

  function Release(a: Authority, g: Grant): (Authority, bool) {
    if IsLive(a, g) && a.frames[g.address].mappedAt == 0
    then (a.(frames := a.frames - {g.address}), true)
    else (a, false)
  }

  // ----- every operation keeps the invariant -----

  lemma SubsetSize<T>(s: set<T>, t: set<T>)
    requires s <= t
    ensures |s| <= |t|
  {
    if s != {} {
      var x :| x in s;
      SubsetSize(s - {x}, t - {x});
    }
  }

  lemma AllocOwned(a: Authority, owner: Owner, kind: Kind)
    requires CanAlloc(a, owner)
    ensures var (b, g) := Alloc(a, owner, kind);
            && g.value.address !in a.frames && b.frames.Keys == a.frames.Keys + {g.value.address}
            && (forall o :: Owned(b, o) == if o == owner then Owned(a, o) + {g.value.address} else Owned(a, o))
            && UserOwned(b) == if owner == KERNEL then UserOwned(a) else UserOwned(a) + {g.value.address}
  {
    hide Alloc, CanAlloc;
    AllocCounters(a, owner, kind);
  }

  lemma AllocQuotas(a: Authority, owner: Owner, kind: Kind)
    requires QuotasOk(a) && CanAlloc(a, owner)
    ensures QuotasOk(Alloc(a, owner, kind).0)
  {
    hide Owned, UserOwned, Alloc;
    AllocOwned(a, owner, kind);
    AllocCounters(a, owner, kind);
    var (b, g) := Alloc(a, owner, kind);
    var f := g.value.address;
    assert |b.frames.Keys| == |a.frames.Keys| + 1;
    forall o | o != KERNEL ensures |Owned(b, o)| <= USER_FRAME_LIMIT { }
    UserOwnedSize(a);
  }

  lemma UserOwnedSize(a: Authority)
    ensures |UserOwned(a)| <= |a.frames|
  {
    SubsetSize(UserOwned(a), a.frames.Keys);
  }

  lemma AllocCounters(a: Authority, owner: Owner, kind: Kind)
    requires CanAlloc(a, owner)
    ensures var (b, g) := Alloc(a, owner, kind);
            && g.Some? && b.capacity == a.capacity && b.managed == a.managed && b.nextOwner == a.nextOwner
            && b.nextGeneration == a.nextGeneration + 1
            && b.frames == a.frames[g.value.address := Holding(g.value, 0)]
            && g.value == Grant(g.value.address, a.nextGeneration, owner, kind)
            && g.value.address in a.managed - a.frames.Keys
  {
  }

  lemma AllocFrames(a: Authority, owner: Owner, kind: Kind)
    requires FramesOk(a) && CanAlloc(a, owner)
    ensures FramesOk(Alloc(a, owner, kind).0)
  {
    hide CanAlloc, Alloc;
    AllocCounters(a, owner, kind);
  }

  lemma AllocKeeps(a: Authority, owner: Owner, kind: Kind)
    requires Ok(a)
    ensures var (b, g) := Alloc(a, owner, kind);
            && Ok(b)
            && (g.Some? ==> IsLive(b, g.value) && g.value.address !in a.frames && g.value.owner == owner && g.value.kind == kind
                            && Owned(b, owner) == Owned(a, owner) + {g.value.address})
            && (g.None? ==> b == a)
  {
    hide FramesOk, QuotasOk, Owned, UserOwned, CanAlloc;
    if CanAlloc(a, owner) {
      AllocOwned(a, owner, kind);
      AllocCounters(a, owner, kind);
      AllocQuotas(a, owner, kind);
      AllocFrames(a, owner, kind);
    }
  }

  /** Changing only the pin of a user frame keeps everything else. */
  lemma PinKeeps(a: Authority, frame: nat, va: nat)
    requires Ok(a) && frame in a.frames && a.frames[frame].grant.kind == User
    ensures Ok(a.(frames := a.frames[frame := a.frames[frame].(mappedAt := va)]))
  {
    var b := a.(frames := a.frames[frame := a.frames[frame].(mappedAt := va)]);
    SameHolders(a, b);
  }

  lemma SameHolders(a: Authority, b: Authority)
    requires b.frames.Keys == a.frames.Keys && forall f :: f in a.frames ==> b.frames[f].grant == a.frames[f].grant
    ensures forall o :: Owned(b, o) == Owned(a, o)
    ensures UserOwned(b) == UserOwned(a)
    ensures |b.frames| == |a.frames|
  {
    assert |b.frames| == |b.frames.Keys| && |a.frames| == |a.frames.Keys|;
  }

  lemma ReleaseKeeps(a: Authority, g: Grant)
    requires Ok(a)
    ensures Ok(Release(a, g).0)
    ensures Release(a, g).1 ==> Owned(Release(a, g).0, g.owner) == Owned(a, g.owner) - {g.address}
  {
    if Release(a, g).1 {
      var b := Release(a, g).0;
      assert b.frames.Keys == a.frames.Keys - {g.address};
      forall o ensures Owned(b, o) == Owned(a, o) - {g.address} && |Owned(b, o)| <= |Owned(a, o)| {
        SubsetSize(Owned(b, o), Owned(a, o));
      }
      SubsetSize(UserOwned(b), UserOwned(a));
      SubsetSize(b.frames.Keys, a.frames.Keys);
    }
  }

  datatype Op =
    | OpNewOwner
    | OpAlloc(owner: Owner, kind: Kind)
    | OpBind(grant: Grant, owner: Owner, va: nat)
    | OpRetire(owner: Owner, frame: nat, va: nat)
    | OpRelease(grant: Grant)

  ghost function Apply(a: Authority, op: Op): Authority {
    match op
    case OpNewOwner => NewOwner(a).0
    case OpAlloc(owner, kind) => Alloc(a, owner, kind).0
    case OpBind(g, owner, va) => Bind(a, g, owner, va).0
    case OpRetire(owner, frame, va) => Retire(a, owner, frame, va).0
    case OpRelease(g) => Release(a, g).0
  }

  lemma ApplyKeeps(a: Authority, op: Op)
    requires Ok(a)
    ensures Ok(Apply(a, op))
  {
    match op
    case OpNewOwner =>
      SameHolders(a, NewOwner(a).0);
    case OpAlloc(owner, kind) => AllocKeeps(a, owner, kind);
    case OpBind(g, owner, va) =>
      if Bind(a, g, owner, va).1 { PinKeeps(a, g.address, va); }
    case OpRetire(owner, frame, va) =>
      if Retire(a, owner, frame, va).1.Some? { PinKeeps(a, frame, 0); }
    case OpRelease(g) => ReleaseKeeps(a, g);
  }

  // ----- stale grants -----

  /** A grant whose generation was handed out and which is not live. */
  ghost predicate Stale(a: Authority, g: Grant) {
    g.generation < a.nextGeneration && !IsLive(a, g)
  }

  lemma ReleaseMakesStale(a: Authority, g: Grant)
    requires Ok(a) && Release(a, g).1
    ensures Stale(Release(a, g).0, g)
  {
  }

  lemma StaleStays(a: Authority, op: Op, g: Grant)
    requires Ok(a) && Stale(a, g)
    ensures Stale(Apply(a, op), g)
  {
  }

  ghost function Run(a: Authority, ops: seq<Op>): Authority
    decreases |ops|
  {
    if ops == [] then a else Run(Apply(a, ops[0]), ops[1..])
  }

  /** Over every run: a released grant never becomes live again, however its frame is reused, and
      the invariant (quotas, one grant per frame, pins on user frames only) holds throughout. */
  lemma {:induction false} StaleForever(a: Authority, ops: seq<Op>, g: Grant)
    requires Ok(a) && Stale(a, g)
    ensures Ok(Run(a, ops)) && Stale(Run(a, ops), g)
    decreases |ops|
  {
    if ops != [] {
      ApplyKeeps(a, ops[0]);
      StaleStays(a, ops[0], g);
      StaleForever(Apply(a, ops[0]), ops[1..], g);
    }
  }

  /** A pinned frame survives every operation except the retirement of exactly that pin. */
  lemma PinnedStays(a: Authority, op: Op, f: nat)
    requires Ok(a) && f in a.frames && a.frames[f].mappedAt != 0
    requires op != OpRetire(a.frames[f].grant.owner, f, a.frames[f].mappedAt)
    ensures f in Apply(a, op).frames && Apply(a, op).frames[f] == a.frames[f]
  {
  }
}
