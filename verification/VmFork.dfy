/** Freeing and copying whole address spaces, protecting and writing user pages, on values
    (freevm, copyuvm, copyout of p2b/kernel/vm.c; copyuvm and mprotect of p3a). */
module VmFork {
  import opened VmSpace
  import opened VmMap
  import opened VmKernel
  import opened VmUser

  // ------------------------------------------------------------------ other address spaces

  /** Whatever happens to one address space leaves the others alone. */
  lemma SpaceKept(m: Mem, own: set<nat>, m1: Mem, own1: set<nat>, other: Space, end: nat)
    requires Ok(m, other, end) && Balanced(m, own, m1, own1) && FreeOk(m1.free, m1.lost, end) && own !! Owned(other)
    ensures Ok(m1, other, end) && PagesKept(m, m1, other)
  {
    OwnedNotIdle(m, other, end);
    hide Owned, Balanced;
    forall f | f in Owned(other) ensures f < |m.frames| == |m1.frames| && m1.frames[f] == m.frames[f] && !Idle(m1, f) {
      Untouched(m, own, m1, own1, f);
    }
    SameFrames(m, m1, other, end);
  }

  lemma Untouched(m: Mem, own: set<nat>, m1: Mem, own1: set<nat>, f: nat)
    requires Balanced(m, own, m1, own1) && f < |m.frames| && !Idle(m, f) && f !in own
    ensures |m1.frames| == |m.frames| && m1.frames[f] == m.frames[f] && !Idle(m1, f)
  {
    assert f !in IdleSet(m) + own;
    assert f !in IdleSet(m1) + own1;
  }

  lemma SameFrames(m: Mem, m1: Mem, sp: Space, end: nat)
    requires Ok(m, sp, end) && FreeOk(m1.free, m1.lost, end) && |m1.frames| == |m.frames|
    requires forall f :: f in Owned(sp) ==> f < |m.frames| && m1.frames[f] == m.frames[f] && !Idle(m1, f)
    ensures Ok(m1, sp, end) && PagesKept(m, m1, sp)
  {
    hide FreeOk, DirOk, TableOk, Distinct;
    forall use | Used(sp, use) ensures FrameOf(sp, use) in Owned(sp) {
    }
    assert Used(sp, Directory) && FrameOf(sp, Directory) == sp.dir;
    forall i | i in sp.tables ensures sp.tables[i] in Owned(sp) {
      assert Used(sp, PageTable(i)) && FrameOf(sp, PageTable(i)) == sp.tables[i];
    }
    forall v | UserPage(sp, v) && sp.leaves[v].Present? ensures sp.leaves[v].frame in Owned(sp) {
      assert Used(sp, User(v)) && FrameOf(sp, User(v)) == sp.leaves[v].frame;
    }
    hide Owned;
  }

  // ------------------------------------------------------------------ freevm

  ghost function TablesBelow(sp: Space, i: nat): set<nat> {
    set k | k in sp.tables && k < i :: sp.tables[k]
  }

  /** After the tables below directory index i have been freed. */
  ghost predicate Freeing(m: Mem, sp: Space, m1: Mem, end: nat, i: nat) {
    && |m1.frames| == |m.frames| == PHYSTOP && FreeOk(m1.free, m1.lost, end)
    && Loses(m, m1) && IdleSet(m1) == IdleSet(m) + TablesBelow(sp, i)
    && forall f :: 0 <= f < PHYSTOP && f !in TablesBelow(sp, i) ==> m1.frames[f] == m.frames[f]
  }

  lemma FreeingNone(m: Mem, sp: Space, end: nat)
    requires Ok(m, sp, end)
    ensures Freeing(m, sp, m, end, 0)
  {
    OkFree(m, sp, end);
    hide Ok;
    assert TablesBelow(sp, 0) == {};
  }

  lemma FreeingNext(m: Mem, sp: Space, m1: Mem, end: nat, i: nat)
    requires Ok(m, sp, end) && Freeing(m, sp, m1, end, i) && i < NENTRIES
    ensures sp.dir < |m1.frames| && m1.frames[sp.dir].Table? && |m1.frames[sp.dir].ptes| == NENTRIES
    ensures m1.frames[sp.dir].ptes[i] == if i in sp.tables then Present(sp.tables[i], true, true) else Absent
    ensures i in sp.tables ==> end <= sp.tables[i] < PHYSTOP && !Idle(m1, sp.tables[i])
    ensures i in sp.tables ==> Freeing(m, sp, Push(m1, sp.tables[i]), end, i + 1)
    ensures i !in sp.tables ==> Freeing(m, sp, m1, end, i + 1)
  {
    hide Ok;
    DirectoryOf(m, sp, end);
    assert sp.dir !in TablesBelow(sp, i);
    if i in sp.tables {
      var f := sp.tables[i];
      TablesBelowNext(sp, i);
      assert f !in TablesBelow(sp, i) && f !in IdleSet(m);
      assert f !in IdleSet(m1);
      PushOk(m1, end, f);
      assert IdleSet(Push(m1, f)) == IdleSet(m1) + {f};
    } else {
      TablesBelowNext(sp, i);
    }
  }

  lemma TablesBelowNext(sp: Space, i: nat)
    ensures TablesBelow(sp, i + 1) == TablesBelow(sp, i) + if i in sp.tables then {sp.tables[i]} else {}
  {
  }

  /** Once the tables and the directory of a space without user pages are free, all its frames are. */
  lemma FreeingDone(m: Mem, sp: Space, m1: Mem, end: nat)
    requires Ok(m, sp, end) && Freeing(m, sp, m1, end, NENTRIES) && forall v: nat :: v < USERTOP ==> v !in sp.leaves
    ensures end <= sp.dir < PHYSTOP == |m1.frames| && !Idle(m1, sp.dir)
    ensures Balanced(m, Owned(sp), Push(m1, sp.dir), {})
  {
    OwnedTables(m, sp, end);
    DirectoryOf(m, sp, end);
    hide Ok, Owned;
    assert sp.dir !in TablesBelow(sp, NENTRIES) && sp.dir !in IdleSet(m);
    assert sp.dir !in IdleSet(m1);
    assert IdleSet(Push(m1, sp.dir)) == IdleSet(m1) + {sp.dir};
  }

  lemma OwnedTables(m: Mem, sp: Space, end: nat)
    requires Ok(m, sp, end) && forall v: nat :: v < USERTOP ==> v !in sp.leaves
    ensures Owned(sp) == TablesBelow(sp, NENTRIES) + {sp.dir}
  {
    hide Ok;
    DirectoryOf(m, sp, end);
    assert forall i :: i in sp.tables ==> i < NENTRIES by { TablesInRange(m, sp, end); }
    forall f ensures f in Owned(sp) <==> f in TablesBelow(sp, NENTRIES) + {sp.dir} {
      TableOrDirectory(sp, f);
    }
  }

  // Without user pages, what a space owns are its directory and its tables.
  lemma TableOrDirectory(sp: Space, f: nat)
    requires forall v: nat :: v < USERTOP ==> v !in sp.leaves
    requires sp.dir < PHYSTOP && forall i :: i in sp.tables ==> i < NENTRIES && sp.tables[i] < PHYSTOP
    ensures f in Owned(sp) <==> f in TablesBelow(sp, NENTRIES) + {sp.dir}
  {
    if f in Owned(sp) {
      var use :| Used(sp, use) && FrameOf(sp, use) == f;
      assert !use.User?;
    }
    if f == sp.dir {
      assert Used(sp, Directory) && FrameOf(sp, Directory) == f;
    }
    if f in TablesBelow(sp, NENTRIES) {
      var k :| k in sp.tables && k < NENTRIES && sp.tables[k] == f;
      assert Used(sp, PageTable(k)) && FrameOf(sp, PageTable(k)) == f;
    }
  }

  lemma TablesInRange(m: Mem, sp: Space, end: nat)
    requires Ok(m, sp, end)
    ensures forall i :: i in sp.tables ==> i < NENTRIES
  {
  }

  // ------------------------------------------------------------------ copyuvm

  /** The child's mapping of a page: a frame that was free in m, with the parent's bytes.  p3a (guard) passes the
      parent's write bit on, p2b makes every page writable. */
  ghost predicate CopiedPage(m: Mem, parent: Pte, m1: Mem, pte: Pte) {
    && parent.Present? && pte.Present? && pte.u && pte.w == (!m.guard || parent.w)
    && pte.frame in m.free && pte.frame < |m1.frames| && parent.frame < |m.frames|
    && m1.frames[pte.frame] == m.frames[parent.frame]
  }

  ghost predicate CopiedPages(m: Mem, sp: Space, m1: Mem, child: Space, n: nat) {
    && (forall v: nat :: v < USERTOP ==> (v in child.leaves <==> v < n))
    && (forall v: nat :: v < n ==>
          v in sp.leaves && v in child.leaves && CopiedPage(m, sp.leaves[v], m1, child.leaves[v]))
  }

  /** After n pages of copyuvm. */
  ghost predicate Copied(m: Mem, sp: Space, m1: Mem, child: Space, data: nat, n: nat) {
    && Complete(child, data) && |m1.free| + Price(m.guard, 13 + n) == |m.free|
    && CopiedPages(m, sp, m1, child, n) && Balanced(m, {}, m1, Owned(child))
  }

  lemma CopiedNone(m: Mem, sp: Space, m1: Mem, child: Space, data: nat)
    requires Complete(child, data) && |m1.free| + Price(m.guard, 13) == |m.free| && Balanced(m, {}, m1, Owned(child))
    requires forall v: nat :: v < USERTOP ==> v !in child.leaves
    ensures Copied(m, sp, m1, child, data, 0)
  {
    hide Balanced, Complete, Owned;
  }

  lemma CopiedFacts(m: Mem, sp: Space, m1: Mem, child: Space, data: nat, end: nat, n: nat)
    requires Ok(m, sp, end) && Ok(m1, child, end) && Copied(m, sp, m1, child, data, n) && n < USERTOP
    ensures Ok(m1, sp, end) && PagesKept(m, m1, sp) && 0 in child.tables && n !in child.leaves
    ensures n in sp.leaves ==>
              && sp.leaves[n].Present? && sp.leaves[n].frame < |m.frames| == |m1.frames|
              && m1.frames[sp.leaves[n].frame] == m.frames[sp.leaves[n].frame]
              && m1.frames[sp.leaves[n].frame].Data? && |m1.frames[sp.leaves[n].frame].bytes| == PGSIZE
  {
    hide Ok, Balanced, CopiedPage, KernelPte, Owned;
    OkFree(m1, child, end);
    OkFree(m, sp, end);
    SpaceKept(m, {}, m1, Owned(child), sp, end);
    assert 0 in KernelTables();
    if n in sp.leaves {
      UserOf(m, sp, end, n);
      UserBytes(m1, sp, end, n);
    }
  }

  lemma {:induction false} CopiedNext(m: Mem, sp: Space, m1: Mem, c1: Space, fr: Frame, m2: Mem, c2: Space,
                                      data: nat, end: nat, n: nat, w: bool)
    requires Ok(m, sp, end) && Ok(m1, c1, end) && Copied(m, sp, m1, c1, data, n) && n < USERTOP && n in sp.leaves
    requires Ready(m1) && fr.Data? && |fr.bytes| == PGSIZE
    requires sp.leaves[n].Present? && sp.leaves[n].frame < |m.frames| && fr == m.frames[sp.leaves[n].frame]
    requires w == (!m.guard || sp.leaves[n].w)
    requires var f := m1.free[0];
             f < |m1.frames| && MappedAll(Spared(m1, fr), c1, m2, c2, n, 1, f, w, true, true)
    requires Ok(m2, c2, end)
    ensures Copied(m, sp, m2, c2, data, n + 1)
  {
    hide Ok, CopiedPages, DataKept, Balanced, Owned, Tables, Kept, KernelPte, KernelTables, Spared, Cost;
    var f := m1.free[0];
    var m3 := Spared(m1, fr);
    assert 0 in c1.tables by { assert 0 in KernelTables() by { ZeroTable(); } }
    CopiedCost(m, sp, m1, c1, fr, m2, c2, data, n);
    SparePage(m1, c1, end, fr);
    KeptUser(m3, c1, m2, c2, n, f);
    BalancedTrans(m, {}, m1, Owned(c1), m3, Owned(c1) + {f});
    BalancedTrans(m, {}, m3, Owned(c1) + {f}, m2, Owned(c2));
    ExtendOne(c1.leaves, n, f, w);
    hide Extend;
    ChildHead(m, m1, c1, end);
    CopiedPagesNext(m, sp, m1, c1, fr, m2, c2, end, n, w);
  }

  lemma CopiedCost(m: Mem, sp: Space, m1: Mem, c1: Space, fr: Frame, m2: Mem, c2: Space, data: nat, n: nat)
    requires Copied(m, sp, m1, c1, data, n) && Ready(m1) && m1.free[0] < |m1.frames|
    requires Cost(Spared(m1, fr), c1, m2, c2) && c2.tables == c1.tables
    ensures |m2.free| + Price(m.guard, 13 + n + 1) == |m.free| && m2.guard == m.guard
  {
    BalancedLoses(m, {}, m1, Owned(c1));
    hide Balanced, Owned, CopiedPages, Complete;
  }

  lemma ChildHead(m: Mem, m1: Mem, child: Space, end: nat)
    requires Ok(m1, child, end) && Balanced(m, {}, m1, Owned(child)) && Ready(m1)
    ensures m1.free[0] in m.free
  {
    OkFree(m1, child, end);
    hide Ok, Owned, FreeOk;
    assert m1.free[0] in IdleSet(m1) + Owned(child);
    HeadWasFree(m, m1, end);
  }

  lemma ZeroTable()
    ensures 0 in KernelTables()
  {
  }

  lemma SparedKeeps(m: Mem, fr: Frame, m2: Mem, end: nat, g: nat)
    requires FreeOk(m.free, m.lost, end) && Ready(m) && m.free[0] < |m.frames| && fr.Data?
    requires DataKept(Spared(m, fr), m2) && g < |m.frames|
    requires g == m.free[0] || (m.frames[g].Data? && !Idle(m, g))
    ensures |m2.frames| == |m.frames| && (g == m.free[0] ==> m2.frames[g] == fr)
    ensures !Idle(m, g) ==> m2.frames[g] == m.frames[g]
  {
    hide FreeOk;
    PopOk(m, end);
    assert !Idle(Spared(m, fr), g) by { assert !Idle(Pop(m), g); }
  }

  // A copied page of the child is still one after the next frame has been taken and filled.
  lemma CopiedStays(m: Mem, parent: Pte, m1: Mem, c1: Space, fr: Frame, m2: Mem, end: nat, v: nat)
    requires Ok(m1, c1, end) && UserPage(c1, v) && CopiedPage(m, parent, m1, c1.leaves[v])
    requires Ready(m1) && m1.free[0] < |m1.frames| && fr.Data? && DataKept(Spared(m1, fr), m2)
    ensures CopiedPage(m, parent, m2, c1.leaves[v])
  {
    hide Ok, FreeOk, DataKept, Spared, Idle, Pop;
    OkFree(m1, c1, end);
    UserOf(m1, c1, end, v);
    UserBytes(m1, c1, end, v);
    SparedKeeps(m1, fr, m2, end, c1.leaves[v].frame);
  }

  lemma CopiedPagesNext(m: Mem, sp: Space, m1: Mem, c1: Space, fr: Frame, m2: Mem, c2: Space, end: nat, n: nat, w: bool)
    requires Ok(m1, c1, end) && CopiedPages(m, sp, m1, c1, n) && n < USERTOP && n in sp.leaves
    requires Ready(m1) && fr.Data? && m1.free[0] in m.free
    requires sp.leaves[n].Present? && sp.leaves[n].frame < |m.frames| && fr == m.frames[sp.leaves[n].frame]
    requires w == (!m.guard || sp.leaves[n].w)
    requires var f := m1.free[0];
             f < |m1.frames| && DataKept(Spared(m1, fr), m2) && c2.leaves == c1.leaves[n := Present(f, w, true)]
    ensures CopiedPages(m, sp, m2, c2, n + 1)
  {
    hide Ok, FreeOk, DataKept, Spared, Idle, Pop;
    var f := m1.free[0];
    OkFree(m1, c1, end);
    SparedKeeps(m1, fr, m2, end, f);
    assert CopiedPage(m, sp.leaves[n], m2, Present(f, w, true));
    forall v: nat | v < n
      ensures v in sp.leaves && v in c2.leaves && CopiedPage(m, sp.leaves[v], m2, c2.leaves[v])
    {
      CopiedStays(m, sp.leaves[v], m1, c1, fr, m2, end, v);
    }
  }

  lemma CopiedCount(m: Mem, sp: Space, m1: Mem, child: Space, data: nat, n: nat)
    requires Copied(m, sp, m1, child, data, n)
    ensures |m1.free| + Price(m.guard, 13 + n) == |m.free| && m1.guard == m.guard && Balanced(m, {}, m1, Owned(child))
  {
    BalancedLoses(m, {}, m1, Owned(child));
    hide Balanced, Owned;
  }

  lemma CopiedKeeps(m: Mem, sp: Space, m1: Mem, child: Space, data: nat, end: nat, n: nat)
    requires Ok(m, sp, end) && Ok(m1, child, end) && Copied(m, sp, m1, child, data, n)
    ensures Ok(m1, sp, end) && PagesKept(m, m1, sp) && |m1.free| + Price(m.guard, 13 + n) == |m.free|
  {
    hide Ok, Owned, Balanced;
    OkFree(m1, child, end);
    SpaceKept(m, {}, m1, Owned(child), sp, end);
  }

  lemma CopyUndone(m: Mem, sp: Space, m1: Mem, data: nat, end: nat)
    requires Ok(m, sp, end) && Balanced(m, {}, m1, {}) && FreeOk(m1.free, m1.lost, end)
    ensures Ok(m1, sp, end) && PagesKept(m, m1, sp) && Restored(m, m1)
    ensures Balanced(m, {}, m1, Gone(m, m1)) && Gone(m, m1) == {}
  {
    OkFree(m, sp, end);
    hide Ok, Owned, FreeOk;
    SpaceKept(m, {}, m1, {}, sp, end);
    IdleRestored(m, m1, {}, end);
    assert Gone(m, m1) == {};
  }

  lemma ShrunkAll(m: Mem, sp: Space, m1: Mem, sp1: Space)
    requires Shrunk(m, sp, m1, sp1, 0, USERTOP)
    ensures Balanced(m, Owned(sp), m1, Owned(sp1)) && forall v: nat :: v < USERTOP ==> v !in sp1.leaves
  {
    hide Balanced, Owned, PagesKept;
  }
}
