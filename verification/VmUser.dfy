/** Growing and shrinking the user part of an address space, on values (allocuvm and deallocuvm of p2b/kernel/vm.c). */
module VmUser {
  import opened VmSpace
  import opened VmMap
  import opened VmKernel

  /** PGROUNDUP, in pages. */
  function Up(sz: nat): nat {
    (sz + PGSIZE - 1) / PGSIZE
  }

  /** A frame after memset(mem, 0, PGSIZE). */
  function Zero(): Frame {
    Data(seq(PGSIZE, _ => 0))
  }

  /** The mapping of a page that was allocated since m: a frame that was free then, full of zeros. */
  ghost predicate ZeroPage(m: Mem, m1: Mem, pte: Pte) {
    pte.Present? && pte.w && pte.u && pte.frame in m.free && pte.frame < |m1.frames| && m1.frames[pte.frame] == Zero()
  }

  /** The pages from lo to hi are new, and all others are as they were. */
  ghost predicate NewPages(m: Mem, sp: Space, m1: Mem, sp1: Space, lo: nat, hi: nat) {
    && (forall v :: lo <= v < hi ==> v in sp1.leaves && ZeroPage(m, m1, sp1.leaves[v]))
    && (forall v: nat :: !(lo <= v < hi) ==> Leaf(sp1.leaves, v) == Leaf(sp.leaves, v))
    && (forall v :: v in sp1.leaves ==> v in sp.leaves || lo <= v < hi)
  }

  /** What allocuvm achieves. */
  ghost predicate Grown(m: Mem, sp: Space, m1: Mem, sp1: Space, lo: nat, hi: nat) {
    && sp1.dir == sp.dir && sp1.tables == sp.tables && lo <= hi && |m1.free| + Price(m.guard, hi - lo) == |m.free|
    && NewPages(m, sp, m1, sp1, lo, hi) && DataKept(m, m1) && Balanced(m, Owned(sp), m1, Owned(sp1))
  }

  lemma GrownNone(m: Mem, sp: Space, lo: nat)
    ensures Grown(m, sp, m, sp, lo, lo)
  {
  }

  /** kalloc, and the frame filled with bytes: a spare page, while the space stays as it is. */
  lemma SparePage(m: Mem, sp: Space, end: nat, fr: Frame)
    requires Ok(m, sp, end) && Ready(m) && fr.Data? && |fr.bytes| == PGSIZE
    ensures var f := m.free[0];
            && f < |m.frames| && Ok(Spared(m, fr), sp, end) && Spare(Spared(m, fr), sp, f, end)
                  && DataKept(m, Spared(m, fr))
            && Balanced(m, Owned(sp), Spared(m, fr), Owned(sp) + {f})
  {
    PopOk(m, end);
    FreeUnused(m, sp, end);
    hide Used, FrameOf, Uses, Represents, UserOk, Distinct, FreeOk;
    UnusedWrite(m, sp, m.free[0], fr);
  }

  /** After kalloc, with the new frame filled. */
  function Spared(m: Mem, fr: Frame): Mem
    requires Ready(m) && m.free[0] < |m.frames|
  {
    Pop(m).(frames := m.frames[m.free[0] := fr])
  }

  lemma {:induction false} GrownNext(m: Mem, sp: Space, m1: Mem, sp1: Space, m2: Mem, sp2: Space, end: nat, lo: nat,
                                     a: nat)
    requires Ok(m1, sp1, end) && Grown(m, sp, m1, sp1, lo, a) && Ready(m1) && a < USERTOP && 0 in sp.tables
    requires var f := m1.free[0];
             f < |m1.frames| && MappedAll(Spared(m1, Zero()), sp1, m2, sp2, a, 1, f, true, true, true)
    requires Ok(m2, sp2, end) && sp2.dir == sp1.dir
    ensures Grown(m, sp, m2, sp2, lo, a + 1)
  {
    hide Ok, NewPages, DataKept, Balanced, Owned, Tables, Kept, Spared, Cost;
    var f := m1.free[0];
    var m3 := Spared(m1, Zero());
    GrownCost(m, sp, m1, sp1, m2, sp2, lo, a);
    SparePage(m1, sp1, end, Zero());
    DataKeptTrans(m, m1, m3);
    DataKeptTrans(m, m3, m2);
    KeptUser(m3, sp1, m2, sp2, a, f);
    BalancedTrans(m, Owned(sp), m1, Owned(sp1), m3, Owned(sp1) + {f});
    BalancedTrans(m, Owned(sp), m3, Owned(sp1) + {f}, m2, Owned(sp2));
    assert sp2.leaves == sp1.leaves[a := Present(f, true, true)] by { ExtendOne(sp1.leaves, a, f, true); }
    BalancedLoses(m, Owned(sp), m1, Owned(sp1));
    NewPagesNext(m, sp, m1, sp1, m2, sp2, end, lo, a);
  }

  lemma GrownCost(m: Mem, sp: Space, m1: Mem, sp1: Space, m2: Mem, sp2: Space, lo: nat, a: nat)
    requires Grown(m, sp, m1, sp1, lo, a) && Ready(m1) && m1.free[0] < |m1.frames|
    requires Cost(Spared(m1, Zero()), sp1, m2, sp2) && sp2.tables == sp1.tables
    ensures |m2.free| + Price(m.guard, a + 1 - lo) == |m.free|
  {
    hide NewPages, DataKept, Owned;
  }

  lemma {:induction false} ExtendOne(l: map<nat, Pte>, a: nat, f: nat, w: bool)
    ensures Extend(l, a, 1, f, w, true) == l[a := Present(f, w, true)]
  {
  }

  lemma KeptUser(m: Mem, sp: Space, m1: Mem, sp1: Space, v: nat, f: nat)
    requires Kept(m, sp, m1, sp1, v, f, true) && v < USERTOP
    ensures Balanced(m, Owned(sp) + {f}, m1, Owned(sp1))
  {
    hide Owned, Balanced;
    assert Owned(sp1) + {} == Owned(sp1);
  }

  lemma NewPagesNext(m: Mem, sp: Space, m1: Mem, sp1: Space, m2: Mem, sp2: Space, end: nat, lo: nat, a: nat)
    requires Ok(m1, sp1, end) && NewPages(m, sp, m1, sp1, lo, a) && Ready(m1) && lo <= a < USERTOP
    requires var f := m1.free[0];
             && f < |m1.frames| && DataKept(Spared(m1, Zero()), m2)
             && sp2.leaves == sp1.leaves[a := Present(f, true, true)]
    requires DataKept(m, m1) && Loses(m, m1)
    ensures NewPages(m, sp, m2, sp2, lo, a + 1)
  {
    hide Ok;
    var f := m1.free[0];
    OkFree(m1, sp1, end);
    PopOk(m1, end);
    HeadWasFree(m, m1, end);
    hide FreeOk;
    forall v | lo <= v < a ensures v in sp2.leaves && ZeroPage(m, m2, sp2.leaves[v]) {
      assert ZeroPage(m, m1, sp1.leaves[v]) && UserPage(sp1, v);
      UserOf(m1, sp1, end, v);
    }
  }

  /** A frame that is free now and was idle before was free. */
  lemma HeadWasFree(m: Mem, m1: Mem, end: nat)
    requires FreeOk(m1.free, m1.lost, end) && Ready(m1) && Loses(m, m1) && Idle(m, m1.free[0])
    ensures m1.free[0] in m.free
  {
  }

  // ------------------------------------------------------------------ shrinking

  /** User pages of sp have the bytes that they had in m. */
  ghost predicate PagesKept(m: Mem, m1: Mem, sp: Space) {
    && |m1.frames| == |m.frames|
    && forall v :: UserPage(sp, v) && sp.leaves[v].Present? && sp.leaves[v].frame < |m.frames| ==>
         m1.frames[sp.leaves[v].frame] == m.frames[sp.leaves[v].frame]
  }

  /** What deallocuvm achieves: the pages from lo to hi are gone, and the others are as they were. */
  ghost predicate Shrunk(m: Mem, sp: Space, m1: Mem, sp1: Space, lo: nat, hi: nat) {
    && sp1.dir == sp.dir && sp1.tables == sp.tables
    && (forall v: nat :: Leaf(sp1.leaves, v) == if lo <= v < hi then Absent else Leaf(sp.leaves, v))
    && (forall v :: v in sp1.leaves <==> v in sp.leaves && !(lo <= v < hi))
    && PagesKept(m, m1, sp1) && Balanced(m, Owned(sp), m1, Owned(sp1))
  }

  lemma ShrunkNone(m: Mem, sp: Space, lo: nat)
    ensures Shrunk(m, sp, m, sp, lo, lo)
  {
  }

  lemma ShrunkSkip(m: Mem, sp: Space, m1: Mem, sp1: Space, lo: nat, a: nat)
    requires Shrunk(m, sp, m1, sp1, lo, a) && lo <= a && a !in sp1.leaves
    ensures Shrunk(m, sp, m1, sp1, lo, a + 1)
  {
    hide PagesKept, Balanced;
    assert Leaf(sp1.leaves, a) == Absent;
    assert a !in sp.leaves;
  }

  lemma ShrunkNext(m: Mem, sp: Space, m1: Mem, sp1: Space, end: nat, lo: nat, a: nat)
    requires Ok(m1, sp1, end) && Shrunk(m, sp, m1, sp1, lo, a) && lo <= a && UserPage(sp1, a)
    ensures HasEntry(m1, sp1, a) && sp1.leaves[a].Present? && sp1.leaves[a].frame < |m1.frames|
    ensures Ok(DropMem(m1, sp1, a), sp1.(leaves := sp1.leaves - {a}), end)
    ensures Shrunk(m, sp, DropMem(m1, sp1, a), sp1.(leaves := sp1.leaves - {a}), lo, a + 1)
  {
    hide Ok, Owned, Uses, LeafMem, DropMem;
    DropLeaf(m1, sp1, end, a);
    var m2, sp2, f := DropMem(m1, sp1, a), sp1.(leaves := sp1.leaves - {a}), sp1.leaves[a].frame;
    DropBalanced(m1, sp1, end, a);
    BalancedTrans(m, Owned(sp), m1, Owned(sp1), m2, Owned(sp2));
    hide Balanced;
    DropPagesKept(m, m1, sp1, end, a);
    hide PagesKept;
  }

  lemma DropBalanced(m: Mem, sp: Space, end: nat, a: nat)
    requires Ok(m, sp, end) && UserPage(sp, a)
    requires HasEntry(m, sp, a) && sp.leaves[a].Present? && sp.leaves[a].frame < |m.frames|
    requires Owned(sp) == Owned(sp.(leaves := sp.leaves - {a})) + {sp.leaves[a].frame}
    ensures Balanced(m, Owned(sp), DropMem(m, sp, a), Owned(sp.(leaves := sp.leaves - {a})))
  {
    hide Ok, Owned;
    TableOwned(m, sp, end, a / NENTRIES);
    assert IdleSet(DropMem(m, sp, a)) == IdleSet(m) + {sp.leaves[a].frame};
  }

  lemma DropPagesKept(m: Mem, m1: Mem, sp: Space, end: nat, a: nat)
    requires Ok(m1, sp, end) && UserPage(sp, a) && PagesKept(m, m1, sp)
    requires HasEntry(m1, sp, a) && sp.leaves[a].Present? && sp.leaves[a].frame < |m1.frames|
    ensures PagesKept(m, DropMem(m1, sp, a), sp.(leaves := sp.leaves - {a}))
  {
    hide Ok;
    forall v | UserPage(sp, v) && v != a
      ensures sp.leaves[v].Present? && sp.leaves[v].frame != sp.leaves[a].frame
      ensures sp.leaves[v].frame != sp.tables[a / NENTRIES]
    {
      UserOf(m1, sp, end, v);
    }
  }

  lemma ShrunkBalanced(m: Mem, sp: Space, m1: Mem, sp1: Space, lo: nat, hi: nat)
    requires Shrunk(m, sp, m1, sp1, lo, hi)
    ensures Balanced(m, Owned(sp), m1, Owned(sp1))
  {
    hide Balanced, Owned, PagesKept;
  }

  /** The same directory, tables and mappings. */
  ghost predicate SameSpace(sp: Space, sp1: Space) {
    sp1.dir == sp.dir && sp1.tables == sp.tables && forall v :: Leaf(sp1.leaves, v) == Leaf(sp.leaves, v)
  }

  lemma SameOwned(sp: Space, sp1: Space)
    requires SameSpace(sp, sp1)
    ensures Owned(sp1) == Owned(sp)
  {
    forall u ensures (Used(sp1, u) <==> Used(sp, u)) && (Used(sp, u) ==> FrameOf(sp1, u) == FrameOf(sp, u)) {
      if u.User? {
        assert Leaf(sp1.leaves, u.v) == Leaf(sp.leaves, u.v);
      }
    }
    hide Used, FrameOf;
  }

  /** The idle frames are those of before.  Without guard frames they are the free ones; with them, some that were
      free have been skipped. */
  ghost predicate Restored(m: Mem, m1: Mem) {
    IdleSet(m1) == IdleSet(m) && Loses(m, m1) && (!m.guard ==> FreeSet(m1) == FreeSet(m))
  }

  /** Growing and then shrinking again restores the space and the idle frames. */
  lemma GrownShrunk(m: Mem, sp: Space, m1: Mem, sp1: Space, m2: Mem, sp2: Space, end: nat, lo: nat, a: nat, hi: nat)
    requires Ok(m, sp, end) && Ok(m2, sp2, end)
    requires Grown(m, sp, m1, sp1, lo, a) && Shrunk(m1, sp1, m2, sp2, lo, hi) && a <= hi <= USERTOP
    requires forall v :: lo <= v < hi ==> v !in sp.leaves
    ensures SameSpace(sp, sp2) && Restored(m, m2) && PagesKept(m, m2, sp)
  {
    hide Ok, Balanced, Owned, DataKept;
    assert SameSpace(sp, sp2);
    SameOwned(sp, sp2);
    BalancedTrans(m, Owned(sp), m1, Owned(sp1), m2, Owned(sp2));
    BalancedFree(m, sp, m2, sp2, end);
    forall v | UserPage(sp, v) && sp.leaves[v].Present? && sp.leaves[v].frame < |m.frames|
      ensures m2.frames[sp.leaves[v].frame] == m.frames[sp.leaves[v].frame]
    {
      GrownKeeps(m, sp, m1, end, v);
      assert Leaf(sp2.leaves, v) == Leaf(sp.leaves, v);
      assert UserPage(sp2, v);
    }
    SameSize(m, Owned(sp), m2, Owned(sp2));
  }

  lemma SameSize(m: Mem, own: set<nat>, m1: Mem, own1: set<nat>)
    requires Balanced(m, own, m1, own1)
    ensures |m1.frames| == |m.frames|
  {
  }

  lemma GrownKeeps(m: Mem, sp: Space, m1: Mem, end: nat, v: nat)
    requires Ok(m, sp, end) && DataKept(m, m1) && UserPage(sp, v)
    ensures sp.leaves[v].Present? && sp.leaves[v].frame < |m.frames| == |m1.frames|
    ensures m1.frames[sp.leaves[v].frame] == m.frames[sp.leaves[v].frame]
  {
    UserOf(m, sp, end, v);
  }

  lemma BalancedFree(m: Mem, sp: Space, m1: Mem, sp1: Space, end: nat)
    requires Ok(m, sp, end) && Ok(m1, sp1, end) && Owned(sp1) == Owned(sp) && Balanced(m, Owned(sp), m1, Owned(sp1))
    ensures Restored(m, m1)
  {
    OwnedNotIdle(m, sp, end);
    OwnedNotIdle(m1, sp1, end);
    OkFree(m, sp, end);
    OkFree(m1, sp1, end);
    hide Owned, Ok;
    IdleRestored(m, m1, Owned(sp), end);
  }

  lemma IdleRestored(m: Mem, m1: Mem, own: set<nat>, end: nat)
    requires FreeOk(m.free, m.lost, end) && FreeOk(m1.free, m1.lost, end) && Balanced(m, own, m1, own)
    requires own !! IdleSet(m) && own !! IdleSet(m1)
    ensures Restored(m, m1)
  {
    assert forall f :: f in IdleSet(m1) <==> f in IdleSet(m1) + own && f !in own;
    assert forall f :: f in IdleSet(m) <==> f in IdleSet(m) + own && f !in own;
    assert IdleSet(m1) == IdleSet(m);
    FreeOfIdle(m, m1, end);
  }

  /** Without guard frames the idle frames are the free ones and what was skipped before. */
  lemma FreeOfIdle(m: Mem, m1: Mem, end: nat)
    requires FreeOk(m.free, m.lost, end) && FreeOk(m1.free, m1.lost, end) && Loses(m, m1) && IdleSet(m1) == IdleSet(m)
    ensures Restored(m, m1)
  {
    assert forall f :: f in m.free ==> f !in m.lost;
    assert forall f :: f in m1.free ==> f !in m1.lost;
    assert FreeSet(m) == IdleSet(m) - m.lost;
    assert FreeSet(m1) == IdleSet(m1) - m1.lost;
  }

  lemma GrownFacts(m: Mem, sp: Space, m1: Mem, sp1: Space, data: nat, lo: nat, a: nat)
    requires Complete(sp, data) && Grown(m, sp, m1, sp1, lo, a) && a <= USERTOP
    ensures Complete(sp1, data) && 0 in sp1.tables && sp1.tables == sp.tables && m1.guard == m.guard && lo <= a
    ensures |m1.free| + Price(m.guard, a - lo) == |m.free|
    ensures forall v :: v in sp1.leaves ==> v in sp.leaves || lo <= v < a
    ensures Balanced(m, Owned(sp), m1, Owned(sp1))
  {
    hide DataKept, Balanced, KernelPte, Owned;
    BalancedLoses(m, Owned(sp), m1, Owned(sp1));
    assert 0 in KernelTables();
  }

  /** A list that is long enough, or even, for all pages is so for the next one. */
  lemma GrownFed(guard: bool, f: nat, f1: nat, n: nat, all: nat)
    requires f1 + Price(guard, n) == f && n < all && (guard ==> f % 2 == 0 || f >= 2 * all)
    ensures guard ==> f1 % 2 == 0 || f1 >= 2 * (all - n)
  {
  }

  lemma SameComplete(sp: Space, sp1: Space, data: nat)
    requires Complete(sp, data) && SameSpace(sp, sp1)
    ensures Complete(sp1, data)
  {
  }

  /** The table of a user page is there, so mapping it takes no frame and cannot fail. */
  lemma {:induction false} MappagesSucceeds(m: Mem, sp: Space, m1: Mem, sp1: Space, a: nat, f: nat, w: bool, ok: bool)
    requires MappedAll(m, sp, m1, sp1, a, 1, f, w, true, ok) && 0 in sp.tables && a < USERTOP
    ensures ok
  {
    hide Kept, DataKept, Extend;
    TablesMeaning(a, 1);
    hide Tables;
    assert sp.tables.Keys + Tables(a, 1) == sp.tables.Keys;
    assert sp1.tables.Keys == sp.tables.Keys;
  }

  /** The entry of a user page, as deallocuvm finds it. */
  lemma UserEntry(m: Mem, sp: Space, end: nat, a: nat)
    requires Ok(m, sp, end) && a < USERTOP
    ensures a in sp.leaves ==> a / NENTRIES in sp.tables
    ensures a / NENTRIES in sp.tables ==>
              HasEntry(m, sp, a) && m.frames[sp.tables[a / NENTRIES]].ptes[a % NENTRIES] == Leaf(sp.leaves, a)
    ensures a in sp.leaves ==> sp.leaves[a].Present? && sp.leaves[a].frame != sp.tables[a / NENTRIES]
  {
    if a in sp.leaves {
      UserOf(m, sp, end, a);
    }
    if a / NENTRIES in sp.tables {
      EntryOf(m, sp, end, a);
    }
  }
}
