/** A smallest machine on which spaces can be created: the invariant is not empty. */
module UserBoot {
  import opened PageTable
  import opened UserPlaces
  import opened UserWorld
  import opened UserSteps
  import opened UserViews
  import opened UserSpace
  import A = Authority

  /** Seven managed frames; the first four hold the kernel's tables. */
  function Managed(): set<nat> { {0x1000, 0x2000, 0x3000, 0x4000, 0x5000, 0x6000, 0x7000} }

  function KernelLink(child: nat): Entry { Entry(true, true, false, 0, 0, false, child, 0, false) }

  function KernelPage(frame: nat): Entry { Entry(true, true, false, 0, 0, false, frame, 0, true) }

  /** A table whose first slot leads on. */
  function LinkRow(child: nat): (row: Table)
    ensures row[0] == KernelLink(child) && forall s :: 1 <= s < ENTRIES ==> row[s] == ZERO
  {
    seq(512, i => if i == 0 then KernelLink(child) else ZERO)
  }

  /** The leaf table: the identity map of the managed frames. */
  function LeafRow(): (row: Table)
    ensures forall s :: 0 <= s < ENTRIES ==> row[s] == if 1 <= s <= 7 then KernelPage(0x1000 * s) else ZERO
  {
    seq(512, i => if 1 <= i <= 7 then KernelPage(0x1000 * i) else ZERO)
  }

  /** The frames that hold the kernel's tables, root first. */
  function TableFrames(): set<nat> { {0x1000, 0x2000, 0x3000, 0x4000} }

  function Row(f: nat): Table { if f == 0x4000 then LeafRow() else LinkRow(f + 0x1000) }

  function KernelTables(): Tables { map f | f in TableFrames() :: Row(f) }

  function Held(f: nat): A.Holding { A.Holding(A.Grant(f, f / 0x1000, A.KERNEL, A.Table), 0) }

  function BootAuthority(): A.Authority {
    A.Authority(map f | f in TableFrames() :: Held(f), Managed(), 5, 1, 2048)
  }

  function Boot(): World { World(KernelTables(), BootAuthority(), map[], map[], 0x1000) }

  lemma BootKeys()
    ensures BootAuthority().frames.Keys == TableFrames() && |BootAuthority().frames| == 4
  {
    var a := BootAuthority();
    assert a.frames.Keys == TableFrames();
    assert |a.frames| == |a.frames.Keys|;
  }

  lemma BootQuotas()
    ensures A.QuotasOk(BootAuthority()) && A.CanAlloc(A.NewOwner(BootAuthority()).0, 1)
  {
    hide A.IsLeast;
    var a := BootAuthority();
    BootKeys();
    forall o | o != A.KERNEL ensures A.Owned(a, o) == {} && A.Owned(A.NewOwner(a).0, o) == {} { }
    assert A.UserOwned(a) == {};
    assert 0x5000 in a.managed - a.frames.Keys;
  }

  lemma FrameNumbers(f: nat)
    requires f in Managed()
    ensures f % 0x1000 == 0 && 1 <= f / 0x1000 <= 7 && f == 0x1000 * (f / 0x1000)
    ensures f in TableFrames() ==> f / 0x1000 <= 4
  {
  }

  lemma BootFramesOk()
    ensures A.FramesOk(BootAuthority())
  {
    hide TableFrames, Managed;
    BootKeys();
    var a := BootAuthority();
    assert TableFrames() <= Managed() by { Nested(); }
    forall f | f in Managed() ensures f % 0x1000 == 0 && 1 <= f / 0x1000 && f == 0x1000 * (f / 0x1000) && (f in TableFrames() ==> f / 0x1000 <= 4) {
      FrameNumbers(f);
    }
  }

  lemma Nested()
    ensures TableFrames() <= Managed()
  {
  }

  lemma BootFrames()
    ensures Frames(Boot())
  {
    hide LinkRow, LeafRow, A.QuotasOk, A.FramesOk, TableFrames, Managed;
    BootKeys();
    BootQuotas();
    BootFramesOk();
  }

  lemma BootMapped()
    ensures Mapped(KernelTables(), 0x1000, 4)
  {
    var t := KernelTables();
    assert forall s :: 0 <= s < ENTRIES ==> !Branch(1, t[0x4000][s]);
    assert Mapped(t, 0x4000, 1);
    assert Mapped(t, 0x3000, 2);
    assert Mapped(t, 0x2000, 3);
  }

  lemma BootKernel()
    ensures KernelOk(Boot())
  {
    hide TreeSet, Mapped;
    var w := Boot();
    BootMapped();
    TreeSetInTables(w.tables, w.kernel, 4);
    assert forall t :: t in w.tables ==> KernelTable(w, t);
  }

  lemma BootAlias(f: nat)
    requires f in Managed()
    ensures AliasOk(Boot(), f)
  {
    var w := Boot();
    assert Index(f, 4) == 0 && Index(f, 3) == 0 && Index(f, 2) == 0 && 1 <= Index(f, 1) == f / 0x1000 <= 7;
    assert AliasPath(w, 0x4000, 1, f);
    assert AliasPath(w, 0x3000, 2, f) && AliasTable(w, 0x3000, 2, f) == 0x4000;
    assert AliasPath(w, 0x2000, 3, f) && AliasTable(w, 0x2000, 3, f) == 0x4000;
    assert AliasPath(w, 0x1000, 4, f) && AliasTable(w, 0x1000, 4, f) == 0x4000;
    assert w.tables[0x4000][f / 0x1000] == KernelPage(f);
  }

  /** Every leaf of a mapped tree whose leaf entries are not executable is not executable. */
  lemma {:induction false} BootWalk(t: nat, level: nat, va: nat)
    requires 1 <= level <= 4 && t == 0x5000 - 0x1000 * level && Mapped(KernelTables(), t, level)
    ensures var leaf := Walk(KernelTables(), t, level, va);
            leaf.Some? ==> leaf.value.nx
    decreases level
  {
    var e := KernelTables()[t][Index(va, level)];
    if Branch(level, e) { BootWalk(e.address, level - 1, va); }
  }

  lemma BootSealed()
    ensures KernelSealed(Boot())
  {
    hide KernelTables;
    BootMapped();
    forall va: nat ensures NotBoth(Walk(Boot().tables, Boot().kernel, 4, va)) { BootWalk(0x1000, 4, va); }
  }

  /** The invariant holds of this machine, and its first space can be opened. */
  lemma BootIsSafe()
    ensures Inv(Boot()) && KernelSealed(Boot()) && CanOpen(Boot(), true)
  {
    hide LeafRow, Frames, KernelOk, AliasOk, A.CanAlloc, KernelSealed;
    BootSealed();
    BootFrames();
    BootQuotas();
    BootKernel();
    forall f | f in Boot().authority.managed ensures AliasOk(Boot(), f) { BootAlias(f); }
  }
}
