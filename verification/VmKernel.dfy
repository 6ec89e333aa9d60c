/** The kernel's part of every address space (kmap and setupkvm of p2b/kernel/vm.c:121-152). */
module VmKernel {
  import opened Basics
  import opened VmSpace
  import opened VmMap

  /** A range of addresses that is mapped to itself. */
  datatype KMap = KMap(p: nat, e: nat, w: bool)

  /** kmap: I/O space, kernel text, kernel data and memory, devices.  The last range ends where addresses wrap. */
  function Kmap(data: nat): seq<KMap> {
    [KMap(USERTOP * PGSIZE, EXTMEM * PGSIZE, true), KMap(EXTMEM * PGSIZE, data * PGSIZE, false),
     KMap(data * PGSIZE, PHYSTOP * PGSIZE, true), KMap(DEVSPACE * PGSIZE, 0, true)]
  }

  /** e - p in 32 bits */
  function Size(km: KMap): nat
    requires km.p < UINT && km.e < UINT
  {
    (km.e - km.p + UINT) % UINT
  }

  /** The page mapped by entry k first, and the number of its pages. */
  function First(data: nat, k: nat): nat {
    if k == 0 then USERTOP else if k == 1 then EXTMEM else if k == 2 then data else DEVSPACE
  }

  function Pages(data: nat, k: nat): nat
    requires EXTMEM < data < PHYSTOP
  {
    if k == 0 then EXTMEM - USERTOP else if k == 1 then data - EXTMEM
    else if k == 2 then PHYSTOP - data else ENDSPACE - DEVSPACE
  }

  lemma KmapPages(data: nat, k: nat)
    requires EXTMEM < data < PHYSTOP && k < 4
    ensures k < |Kmap(data)|
    ensures var km := Kmap(data)[k];
            && km.p < UINT && km.e < UINT && 0 < Size(km) && km.p + Size(km) <= UINT
            && km.p / PGSIZE == First(data, k) && (km.p + Size(km) - 1) / PGSIZE - First(data, k) + 1 == Pages(data, k)
            && km.w == (k != 1) && First(data, k) >= USERTOP
  {
  }

  /** The kernel mappings after k entries, and the tables that they need. */
  function KLeaves(data: nat, k: nat): map<nat, Pte>
    requires EXTMEM < data < PHYSTOP && k <= 4
  {
    if k == 0 then map[]
    else Extend(KLeaves(data, k - 1), First(data, k - 1), Pages(data, k - 1), First(data, k - 1), k != 2, false)
  }

  function KTables(data: nat, k: nat): set<nat>
    requires EXTMEM < data < PHYSTOP && k <= 4
  {
    if k == 0 then {} else KTables(data, k - 1) + Tables(First(data, k - 1), Pages(data, k - 1))
  }

  /** The entry of a page of the kernel. */
  function KernelPte(v: nat, data: nat): Pte {
    if USERTOP <= v < PHYSTOP || DEVSPACE <= v < ENDSPACE then Present(v, !(EXTMEM <= v < data), false) else Absent
  }

  function KernelTables(): set<nat> {
    {0, 1, 2, 3, 1016, 1017, 1018, 1019, 1020, 1021, 1022, 1023}
  }

  /** The kernel is mapped, and the tables are the ones it needs.  Table 0 is among them, because the I/O space
      lies in the same 4 MB as all user pages. */
  ghost predicate Complete(sp: Space, data: nat) {
    && sp.tables.Keys == KernelTables()
    && forall v: nat :: v >= USERTOP ==> Leaf(sp.leaves, v) == KernelPte(v, data)
  }

  lemma {:induction false} KLeavesMeaning(data: nat, k: nat)
    requires EXTMEM < data < PHYSTOP && k <= 4
    ensures forall v :: v in KLeaves(data, k) ==>
              exists j :: 0 <= j < k && First(data, j) <= v < First(data, j) + Pages(data, j)
    ensures forall v :: v in KLeaves(data, k) ==> KLeaves(data, k)[v] == KernelPte(v, data)
    ensures forall v, j :: 0 <= j < k && First(data, j) <= v < First(data, j) + Pages(data, j) ==> v in KLeaves(data, k)
  {
    if k > 0 {
      KLeavesMeaning(data, k - 1);
      ExtendMeaning(KLeaves(data, k - 1), First(data, k - 1), Pages(data, k - 1), First(data, k - 1), k != 2, false);
    }
  }

  /** The entries of kmap do not overlap, so mapping the next one does not panic with "remap". */
  lemma {:induction false} NextUnmapped(data: nat, k: nat)
    requires EXTMEM < data < PHYSTOP && k < 4
    ensures forall v :: First(data, k) <= v < First(data, k) + Pages(data, k) ==> v !in KLeaves(data, k)
  {
    KLeavesMeaning(data, k);
  }

  lemma {:induction false} KernelEntry(data: nat, v: nat)
    requires EXTMEM < data < PHYSTOP
    ensures if v < USERTOP then v !in KLeaves(data, 4) else Leaf(KLeaves(data, 4), v) == KernelPte(v, data)
  {
    KLeavesMeaning(data, 4);
    hide KLeaves;
    if v >= USERTOP && KernelPte(v, data).Present? {
      var j := if v < EXTMEM then 0 else if v < data then 1 else if v < PHYSTOP then 2 else 3;
      assert First(data, j) <= v < First(data, j) + Pages(data, j);
    }
  }

  lemma {:induction false} KernelDone(data: nat, sp: Space)
    requires EXTMEM < data < PHYSTOP && sp.leaves == KLeaves(data, 4) && sp.tables.Keys == KTables(data, 4)
    ensures Complete(sp, data) && |sp.tables| == 12 && forall v: nat :: v < USERTOP ==> v !in sp.leaves
  {
    hide KLeaves, KTables, Tables, Leaf, KernelPte, KernelTables;
    KTablesMeaning(data);
    forall v: nat ensures if v < USERTOP then v !in sp.leaves else Leaf(sp.leaves, v) == KernelPte(v, data) {
      KernelEntry(data, v);
    }
    TwelveTables();
  }

  lemma TwelveTables()
    ensures |KernelTables()| == 12
  {
  }

  lemma {:induction false} LowTables(data: nat)
    requires EXTMEM < data < PHYSTOP
    ensures Tables(USERTOP, EXTMEM - USERTOP) == {0}
    ensures Tables(EXTMEM, data - EXTMEM) + Tables(data, PHYSTOP - data) == {0, 1, 2, 3}
  {
    TablesMeaning(USERTOP, EXTMEM - USERTOP);
    TablesMeaning(EXTMEM, data - EXTMEM);
    TablesMeaning(data, PHYSTOP - data);
    hide Tables;
    var r, q := (data - 1) / NENTRIES, data / NENTRIES;
    assert 0 <= r <= q <= r + 1 && q <= 3;
  }

  lemma {:induction false} HighTables()
    ensures Tables(DEVSPACE, ENDSPACE - DEVSPACE) == {1016, 1017, 1018, 1019, 1020, 1021, 1022, 1023}
  {
    TablesMeaning(DEVSPACE, ENDSPACE - DEVSPACE);
    hide Tables;
  }

  lemma {:induction false} KTablesMeaning(data: nat)
    requires EXTMEM < data < PHYSTOP
    ensures KTables(data, 4) == KernelTables()
  {
    LowTables(data);
    HighTables();
    KTablesUnfold(data);
    hide Tables, KTables;
    var t1, t2 := Tables(EXTMEM, data - EXTMEM), Tables(data, PHYSTOP - data);
    assert {} + {0} + t1 + t2 == {0} + (t1 + t2);
  }

  lemma {:induction false} KTablesUnfold(data: nat)
    requires EXTMEM < data < PHYSTOP
    ensures KTables(data, 4)
         == {} + Tables(USERTOP, EXTMEM - USERTOP) + Tables(EXTMEM, data - EXTMEM) + Tables(data, PHYSTOP - data)
            + Tables(DEVSPACE, ENDSPACE - DEVSPACE)
  {
    hide Tables;
    assert KTables(data, 2) == KTables(data, 1) + Tables(First(data, 1), Pages(data, 1));
    assert KTables(data, 3) == KTables(data, 2) + Tables(First(data, 2), Pages(data, 2));
  }

  // ------------------------------------------------------------------ setupkvm, after k entries

  ghost predicate Building(m: Mem, m1: Mem, sp: Space, data: nat, k: nat)
    requires EXTMEM < data < PHYSTOP && k <= 4
  {
    && sp.leaves == KLeaves(data, k) && sp.tables.Keys == KTables(data, k)
    && m1.guard == m.guard && |m1.free| + Price(m.guard, |sp.tables| + 1) == |m.free|
    && Balanced(m, {}, m1, Owned(sp))
  }

  lemma BuildingFirst(m: Mem, end: nat, data: nat)
    requires EXTMEM < data < end <= PHYSTOP == |m.frames| && FreeOk(m.free, m.lost, end) && Ready(m)
    ensures var f := m.free[0];
            && f < PHYSTOP && Ok(Pop(m).(frames := m.frames[f := Empty()]), Space(f, map[], map[]), end)
            && Building(m, Pop(m).(frames := m.frames[f := Empty()]), Space(f, map[], map[]), data, 0)
  {
    hide Ok, Owned, FreeOk, Pages, First, KLeaves, KTables;
    NewSpace(m, end);
    PopBalanced(m, end, Empty());
    NoKernel(data);
  }

  lemma PopBalanced(m: Mem, end: nat, fr: Frame)
    requires FreeOk(m.free, m.lost, end) && Ready(m) && m.free[0] < |m.frames|
    ensures Balanced(m, {}, Pop(m).(frames := m.frames[m.free[0] := fr]), {m.free[0]})
  {
    PopOk(m, end);
  }

  lemma NoKernel(data: nat)
    requires EXTMEM < data < PHYSTOP
    ensures KLeaves(data, 0) == map[] && KTables(data, 0) == {}
  {
  }

  /** With thirteen calls of kalloc provided for, the tables that entry k needs are. */
  lemma {:induction false} BuildingFed(m: Mem, m1: Mem, sp: Space, data: nat, k: nat)
    requires EXTMEM < data < PHYSTOP && k < 4 && Building(m, m1, sp, data, k) && Fed(m, 13)
    ensures Missing(sp, First(data, k), Pages(data, k)) >= 0
    ensures Fed(m1, Missing(sp, First(data, k), Pages(data, k)))
  {
    hide Tables, KTables, KLeaves, Balanced, KernelTables, Pages, First;
    KTablesGrow(data, k);
    MissingSome(sp, First(data, k), Pages(data, k));
    assert sp.tables.Keys + Tables(First(data, k), Pages(data, k)) <= KernelTables();
    AtMostTwelve(sp.tables.Keys + Tables(First(data, k), Pages(data, k)));
    assert |sp.tables.Keys| == |sp.tables|;
    TakenEven(m.guard, |m.free|, |m1.free|, |sp.tables|);
  }

  lemma TakenEven(guard: bool, f: nat, f1: nat, n: nat)
    requires f1 + Price(guard, n + 1) == f && (guard ==> f % 2 == 0 || f >= 26)
    ensures guard ==> f1 % 2 == 0 || f1 >= 2 * (12 - n)
  {
  }

  lemma AtMostTwelve(a: set<nat>)
    requires a <= KernelTables()
    ensures |a| <= 12
  {
    hide KernelTables;
    TwelveTables();
    if a != KernelTables() {
      Fewer(a, KernelTables());
    }
  }

  lemma BuildingUnmapped(m: Mem, m1: Mem, sp: Space, data: nat, k: nat)
    requires EXTMEM < data < PHYSTOP && k < 4 && Building(m, m1, sp, data, k)
    ensures |m1.frames| == |m.frames|
    ensures forall v :: First(data, k) <= v < First(data, k) + Pages(data, k) ==> v !in sp.leaves
  {
    hide KLeaves, KTables, Owned;
    NextUnmapped(data, k);
  }

  lemma {:induction false} BuildingNext(m: Mem, m1: Mem, sp1: Space, m2: Mem, sp2: Space, data: nat, k: nat)
    requires EXTMEM < data < PHYSTOP && k < 4 && Building(m, m1, sp1, data, k)
    requires MappedAll(m1, sp1, m2, sp2, First(data, k), Pages(data, k), First(data, k), k != 1, false, true)
    ensures Building(m, m2, sp2, data, k + 1)
  {
    hide Balanced, Owned, Extend, Tables, DataKept, Kept, Pages, Cost, KLeaves, KTables;
    KeptKernel(m1, sp1, m2, sp2, First(data, k), First(data, k), true);
    BalancedTrans(m, {}, m1, Owned(sp1), m2, Owned(sp2));
    KernelNext(data, k);
    CostSum(m, m1, sp1, m2, sp2);
  }

  lemma {:induction false} KernelNext(data: nat, k: nat)
    requires EXTMEM < data < PHYSTOP && k < 4
    ensures KLeaves(data, k + 1)
              == Extend(KLeaves(data, k), First(data, k), Pages(data, k), First(data, k), k != 1, false)
    ensures KTables(data, k + 1) == KTables(data, k) + Tables(First(data, k), Pages(data, k))
  {
    hide Extend, Tables;
  }

  lemma CostSum(m: Mem, m1: Mem, sp1: Space, m2: Mem, sp2: Space)
    requires Cost(m1, sp1, m2, sp2) && m1.guard == m.guard && |m1.free| + Price(m.guard, |sp1.tables| + 1) == |m.free|
    ensures |m2.free| + Price(m.guard, |sp2.tables| + 1) == |m.free| && m2.guard == m.guard
  {
  }

  lemma KeptKernel(m1: Mem, sp1: Space, m2: Mem, sp2: Space, v: nat, pa: nat, ok: bool)
    requires Kept(m1, sp1, m2, sp2, v, pa, ok) && v >= USERTOP
    ensures Balanced(m1, Owned(sp1), m2, Owned(sp2))
  {
    hide Balanced, Owned;
    assert Owned(sp1) + {} == Owned(sp1) && Owned(sp2) + {} == Owned(sp2);
  }

  /** Out of frames with fewer than twelve tables: the free frames did not suffice for thirteen calls of kalloc. */
  lemma {:induction false} BuildingFailed(m: Mem, m1: Mem, sp1: Space, m2: Mem, sp2: Space, data: nat, k: nat)
    requires EXTMEM < data < PHYSTOP && k < 4 && Building(m, m1, sp1, data, k)
    requires MappedAll(m1, sp1, m2, sp2, First(data, k), Pages(data, k), First(data, k), k != 1, false, false)
    ensures |m.free| < Price(m.guard, 13) && m2.free == [] && Balanced(m, {}, m2, Owned(sp2))
  {
    hide Balanced, Owned, Extend, Tables, KTables, KLeaves, KernelTables, Pages, Kept, DataKept, Cost;
    KeptKernel(m1, sp1, m2, sp2, First(data, k), First(data, k), false);
    BalancedTrans(m, {}, m1, Owned(sp1), m2, Owned(sp2));
    CostSum(m, m1, sp1, m2, sp2);
    KTablesGrow(data, k);
    ProperPart(sp2.tables.Keys, sp1.tables.Keys, Tables(First(data, k), Pages(data, k)));
  }

  /** The frames that were idle and are not any more. */
  ghost function Gone(m: Mem, m1: Mem): set<nat> {
    IdleSet(m) - IdleSet(m1)
  }

  /** The frames of a space that nobody keeps are gone. */
  lemma SpaceGone(m: Mem, m1: Mem, sp: Space, end: nat)
    requires Ok(m1, sp, end) && Balanced(m, {}, m1, Owned(sp))
    ensures Balanced(m, {}, m1, Gone(m, m1)) && FreeOk(m1.free, m1.lost, end) && Gone(m, m1) != {}
  {
    assert sp.dir in Owned(sp) by { DirectoryOwned(sp, m1, end); }
    OwnedNotIdle(m1, sp, end);
    OkFree(m1, sp, end);
    hide Ok, Owned, FreeOk;
    assert Owned(sp) == Gone(m, m1);
  }

  lemma NothingGone(m: Mem)
    ensures Balanced(m, {}, m, Gone(m, m)) && Gone(m, m) == {}
  {
  }

  lemma OwnedNotIdle(m: Mem, sp: Space, end: nat)
    requires Ok(m, sp, end)
    ensures Owned(sp) !! IdleSet(m)
    ensures forall f :: f in Owned(sp) ==> end <= f < PHYSTOP
  {
    hide Used, FrameOf, Represents, UserOk, Distinct;
  }

  lemma ProperPart(a: set<nat>, b: set<nat>, t: set<nat>)
    requires a < b + t && b + t <= KernelTables()
    ensures |a| < 12
  {
    hide KernelTables;
    TwelveTables();
    assert a < KernelTables();
    Fewer(a, KernelTables());
  }

  lemma {:induction false} KTablesGrow(data: nat, k: nat)
    requires EXTMEM < data < PHYSTOP && k < 4
    ensures KTables(data, k) + Tables(First(data, k), Pages(data, k)) <= KernelTables()
  {
    hide Tables;
    KTablesMeaning(data);
    assert KTables(data, 2) == KTables(data, 1) + Tables(First(data, 1), Pages(data, 1));
    assert KTables(data, 3) == KTables(data, 2) + Tables(First(data, 2), Pages(data, 2));
  }

  lemma BuildingDone(m: Mem, m1: Mem, sp: Space, data: nat)
    requires EXTMEM < data < PHYSTOP && Building(m, m1, sp, data, 4)
    ensures Complete(sp, data) && |m1.free| + Price(m.guard, 13) == |m.free| && Balanced(m, {}, m1, Owned(sp))
    ensures forall v: nat :: v < USERTOP ==> v !in sp.leaves
  {
    hide Balanced, Owned, KLeaves, KTables, Complete;
    KernelDone(data, sp);
  }
}
