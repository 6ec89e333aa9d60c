/** Mapping pages one by one: what mappages of p2b/kernel/vm.c does, on values. */
module VmMap {
  import opened VmSpace

  const PGSIZE := 4096

  ghost function FreeSet(m: Mem): set<nat> {
    set f | f in m.free
  }

  ghost function IdleSet(m: Mem): (s: set<nat>)
    ensures forall f :: f in s <==> Idle(m, f)
  {
    FreeSet(m) + m.lost
  }

  /** Frames stay skipped, and without guard frames none is. */
  ghost predicate Loses(m: Mem, m': Mem) {
    m'.guard == m.guard && m.lost <= m'.lost && (!m.guard ==> m'.lost == m.lost)
  }

  /** From m to m', frames moved between the idle ones and the owners, and no other frame was written. */
  ghost predicate Balanced(m: Mem, own: set<nat>, m': Mem, own': set<nat>) {
    && |m'.frames| == |m.frames| && Loses(m, m') && IdleSet(m') + own' == IdleSet(m) + own
    && forall f :: 0 <= f < |m.frames| && f !in IdleSet(m) + own ==> m'.frames[f] == m.frames[f]
  }

  lemma BalancedRefl(m: Mem, own: set<nat>)
    ensures Balanced(m, own, m, own)
  {
  }

  lemma BalancedTrans(m: Mem, own: set<nat>, m1: Mem, own1: set<nat>, m2: Mem, own2: set<nat>)
    requires Balanced(m, own, m1, own1) && Balanced(m1, own1, m2, own2)
    ensures Balanced(m, own, m2, own2)
  {
  }

  lemma BalancedLoses(m: Mem, own: set<nat>, m1: Mem, own1: set<nat>)
    requires Balanced(m, own, m1, own1)
    ensures Loses(m, m1)
  {
  }

  /** From m to m', frames holding data were not written unless they were idle. */
  ghost predicate DataKept(m: Mem, m': Mem) {
    && |m'.frames| == |m.frames| && (forall f :: Idle(m', f) ==> Idle(m, f))
    && forall f :: 0 <= f < |m.frames| && m.frames[f].Data? && !Idle(m, f) ==> m'.frames[f] == m.frames[f]
  }

  lemma DataKeptTrans(m: Mem, m1: Mem, m2: Mem)
    requires DataKept(m, m1) && DataKept(m1, m2)
    ensures DataKept(m, m2)
  {
  }

  /** The mappings l, with n pages from v on mapped to the frames from pa on. */
  function Extend(l: map<nat, Pte>, v: nat, n: nat, pa: nat, w: bool, u: bool): map<nat, Pte> {
    if n == 0 then l else Extend(l, v, n - 1, pa, w, u)[v + n - 1 := Present(pa + n - 1, w, u)]
  }

  lemma {:induction false} ExtendMeaning(l: map<nat, Pte>, v: nat, n: nat, pa: nat, w: bool, u: bool)
    ensures forall x :: x in Extend(l, v, n, pa, w, u) <==> x in l || v <= x < v + n
    ensures forall x :: x in Extend(l, v, n, pa, w, u) ==>
              Extend(l, v, n, pa, w, u)[x] == if v <= x < v + n then Present(pa + (x - v), w, u) else l[x]
  {
    if n > 0 {
      ExtendMeaning(l, v, n - 1, pa, w, u);
    }
  }

  /** The directory indices of n pages from v on. */
  function Tables(v: nat, n: nat): set<nat> {
    if n == 0 then {} else Tables(v, n - 1) + {(v + n - 1) / NENTRIES}
  }

  lemma {:induction false} TablesMeaning(v: nat, n: nat)
    ensures forall p :: p in Tables(v, n) <==> n > 0 && v / NENTRIES <= p <= (v + n - 1) / NENTRIES
  {
    if n > 0 {
      TablesMeaning(v, n - 1);
    }
  }

  /** The balance of mapping frame pa at page v: the frame belongs to nobody until it is mapped. */
  ghost predicate Kept(m: Mem, sp: Space, m1: Mem, sp1: Space, v: nat, pa: nat, ok: bool) {
    Balanced(m, Owned(sp) + Limbo(v, pa), m1, Owned(sp1) + if ok then {} else Limbo(v, pa))
  }

  lemma KeptFailed(m: Mem, sp: Space, m1: Mem, sp1: Space, v: nat, pa: nat)
    requires Balanced(m, Owned(sp) + Limbo(v, pa), m1, Owned(sp1) + Limbo(v, pa))
    ensures Kept(m, sp, m1, sp1, v, pa, false)
  {
  }

  lemma KeptDone(m: Mem, sp: Space, m1: Mem, sp1: Space, m2: Mem, sp2: Space, v: nat, pa: nat)
    requires Balanced(m, Owned(sp) + Limbo(v, pa), m1, Owned(sp1) + Limbo(v, pa))
    requires Balanced(m1, Owned(sp1) + Limbo(v, pa), m2, Owned(sp2))
    ensures Kept(m, sp, m2, sp2, v, pa, true)
  {
    hide Owned, Limbo;
    assert Owned(sp2) + {} == Owned(sp2);
  }

  lemma KeptTrans(m: Mem, sp: Space, m1: Mem, sp1: Space, m2: Mem, sp2: Space, v: nat, pa: nat, x: nat, f: nat,
                  ok: bool)
    requires Kept(m, sp, m1, sp1, v, pa, true) && Kept(m1, sp1, m2, sp2, x, f, ok) && v >= USERTOP && x >= USERTOP
    ensures Kept(m, sp, m2, sp2, v, pa, ok)
  {
    hide Owned, Balanced;
    assert Owned(sp) + {} == Owned(sp) && Owned(sp1) + {} == Owned(sp1) && Owned(sp2) + {} == Owned(sp2);
    BalancedTrans(m, Owned(sp), m1, Owned(sp1), m2, Owned(sp2));
  }

  /** Each new table has cost one call of kalloc. */
  ghost predicate Cost(m: Mem, sp: Space, m1: Mem, sp1: Space) {
    && m1.guard == m.guard
    && |m1.free| + Price(m.guard, |sp1.tables|) == |m.free| + Price(m.guard, |sp.tables|)
  }

  lemma CostTrans(m: Mem, sp: Space, m1: Mem, sp1: Space, m2: Mem, sp2: Space)
    requires Cost(m, sp, m1, sp1) && Cost(m1, sp1, m2, sp2)
    ensures Cost(m, sp, m2, sp2)
  {
  }

  /** The tables that mapping n pages from v on has to make. */
  ghost function Missing(sp: Space, v: nat, n: nat): int {
    |sp.tables.Keys + Tables(v, n)| - |sp.tables.Keys|
  }

  /** A list that is long enough, or even, for all missing tables is so for the next one. */
  lemma {:induction false} StillFed(m: Mem, sp: Space, m1: Mem, sp1: Space, v: nat, n: nat, all: nat)
    requires Cost(m, sp, m1, sp1) && sp1.tables.Keys == sp.tables.Keys + Tables(v, n) && n < all
    requires Missing(sp, v, all) >= 0 && Fed(m, Missing(sp, v, all)) && (v + n) / NENTRIES !in sp1.tables
    ensures Fed(m1, 1)
  {
    hide Tables;
    TablesPart(v, n, all);
    assert sp1.tables.Keys < sp.tables.Keys + Tables(v, all);
    Fewer(sp1.tables.Keys, sp.tables.Keys + Tables(v, all));
    StillEven(m.guard, |m.free|, |sp.tables|, |m1.free|, |sp1.tables|, |sp.tables.Keys + Tables(v, all)|);
  }

  lemma {:induction false} TablesPart(v: nat, n: nat, all: nat)
    requires n < all
    ensures Tables(v, n) <= Tables(v, all) && (v + n) / NENTRIES in Tables(v, all)
  {
    TablesMeaning(v, n);
    TablesMeaning(v, all);
    hide Tables;
  }

  // Of a list of f entries, f1 are left when b - a tables have been made; c - b more than none are to be made.
  lemma StillEven(guard: bool, f: nat, a: nat, f1: nat, b: nat, c: nat)
    requires f1 + Price(guard, b) == f + Price(guard, a) && b < c
    requires guard ==> f % 2 == 0 || f >= 2 * (c - a)
    ensures guard ==> f1 % 2 == 0 || f1 >= 2
  {
  }

  lemma {:induction false} Fewer(a: set<nat>, b: set<nat>)
    requires a < b
    ensures |a| < |b|
  {
    var x :| x in b - a;
    assert a + (b - a) == b;
  }

  /** Nothing is missing where the table is there. */
  lemma {:induction false} MissingNone(sp: Space, v: nat)
    requires v / NENTRIES in sp.tables
    ensures Missing(sp, v, 1) == 0
  {
    TablesMeaning(v, 1);
    hide Tables;
    assert sp.tables.Keys + Tables(v, 1) == sp.tables.Keys;
  }

  lemma {:induction false} MissingSome(sp: Space, v: nat, n: nat)
    ensures Missing(sp, v, n) >= 0
  {
    hide Tables;
    assert sp.tables.Keys + (Tables(v, n) - sp.tables.Keys) == sp.tables.Keys + Tables(v, n);
  }

  /** After n pages, of which the last one failed if !ok. */
  ghost predicate Mapping(m: Mem, sp: Space, m1: Mem, sp1: Space, v: nat, n: nat, pa: nat, w: bool, u: bool, ok: bool) {
    && Cost(m, sp, m1, sp1)
    && (ok ==> sp1.leaves == Extend(sp.leaves, v, n, pa, w, u) && sp1.tables.Keys == sp.tables.Keys + Tables(v, n))
    && (!ok ==> n > 0 && m1.free == [] && Stuck(sp.tables.Keys, sp1.tables.Keys, v, n))
    && (n == 1 && v / NENTRIES in sp.tables ==> sp1.tables == sp.tables) && DataKept(m, m1)
    && Kept(m, sp, m1, sp1, v, pa, ok)
  }

  /** The table of the last page of n is missing. */
  ghost predicate Stuck(k: set<nat>, k1: set<nat>, v: nat, n: nat)
    requires n > 0
  {
    (v + n - 1) / NENTRIES !in k1 && k1 <= k + Tables(v, n)
  }

  lemma {:induction false} StuckNext(k: set<nat>, k1: set<nat>, v: nat, n: nat)
    requires k1 == k + Tables(v, n) && (v + n) / NENTRIES !in k1
    ensures Stuck(k, k1, v, n + 1)
  {
  }

  lemma {:induction false} StuckFirst(k: set<nat>, v: nat)
    requires v / NENTRIES !in k
    ensures Stuck(k, k, v, 1)
  {
  }

  lemma {:induction false} StuckPart(k: set<nat>, k1: set<nat>, v: nat, n: nat, all: nat)
    requires 0 < n <= all && Stuck(k, k1, v, n)
    ensures k1 < k + Tables(v, all)
  {
    TablesMeaning(v, n);
    TablesMeaning(v, all);
    assert (v + n - 1) / NENTRIES in Tables(v, n) && Tables(v, n) <= Tables(v, all);
  }

  /** What mappages achieves: n pages mapped, and the tables for them; or a proper part of the tables, and no
      frame left for the next one. */
  ghost predicate MappedAll(m: Mem, sp: Space, m1: Mem, sp1: Space, v: nat, n: nat, pa: nat, w: bool, u: bool,
                            ok: bool) {
    && Cost(m, sp, m1, sp1)
    && (ok ==> sp1.leaves == Extend(sp.leaves, v, n, pa, w, u) && sp1.tables.Keys == sp.tables.Keys + Tables(v, n))
    && (!ok ==> m1.free == [] && sp1.tables.Keys < sp.tables.Keys + Tables(v, n))
    && (n == 1 && v / NENTRIES in sp.tables ==> sp1.tables == sp.tables) && DataKept(m, m1)
    && Kept(m, sp, m1, sp1, v, pa, ok)
  }

  /** The list is long enough, or even, for the tables that n pages from v on need. */
  ghost predicate Feeds(m: Mem, sp: Space, v: nat, n: nat) {
    Missing(sp, v, n) >= 0 && Fed(m, Missing(sp, v, n))
  }

  lemma {:induction false} FirstFed(m: Mem, sp: Space, v: nat, all: nat)
    requires Feeds(m, sp, v, all) && 0 < all
    ensures v / NENTRIES !in sp.tables ==> Fed(m, 1)
  {
    assert sp.tables.Keys == sp.tables.Keys + Tables(v, 0);
    if v / NENTRIES !in sp.tables {
      StillFed(m, sp, m, sp, v, 0, all);
    }
  }

  lemma {:induction false} MappingFed(m: Mem, sp: Space, m1: Mem, sp1: Space, v: nat, n: nat, all: nat,
                                      pa: nat, w: bool, u: bool)
    requires Mapping(m, sp, m1, sp1, v, n, pa, w, u, true) && Feeds(m, sp, v, all) && n < all
    ensures (v + n) / NENTRIES !in sp1.tables ==> Fed(m1, 1)
  {
    hide Kept, DataKept, Extend, Tables, Stuck, Cost, Missing, Fed;
    if (v + n) / NENTRIES !in sp1.tables {
      StillFed(m, sp, m1, sp1, v, n, all);
    }
  }

  /** What `MapPage` achieves. */
  ghost predicate MappedOne(m: Mem, sp: Space, m1: Mem, sp1: Space, v: nat, pa: nat, w: bool, u: bool, ok: bool) {
    && Cost(m, sp, m1, sp1)
    && (ok ==> sp1.leaves == sp.leaves[v := Present(pa, w, u)] && sp1.tables.Keys == sp.tables.Keys + {v / NENTRIES})
    && (!ok ==> sp1 == sp && m1.free == [] && v / NENTRIES !in sp.tables)
    && (v / NENTRIES in sp.tables ==> sp1.tables == sp.tables) && DataKept(m, m1)
    && Kept(m, sp, m1, sp1, v, pa, ok)
  }

  lemma {:induction false} MappingFirst(m: Mem, sp: Space, m1: Mem, sp1: Space, v: nat, pa: nat, w: bool, u: bool,
                                        ok: bool)
    requires MappedOne(m, sp, m1, sp1, v, pa, w, u, ok)
    ensures Mapping(m, sp, m1, sp1, v, 1, pa, w, u, ok)
  {
    hide Kept, DataKept, Cost;
    assert Extend(sp.leaves, v, 0, pa, w, u) == sp.leaves;
    assert Tables(v, 1) == {v / NENTRIES};
    if !ok {
      StuckFirst(sp.tables.Keys, v);
    }
  }

  lemma {:induction false} MappingLeaves(m: Mem, sp: Space, m1: Mem, sp1: Space, v: nat, n: nat, pa: nat, w: bool,
                                         u: bool)
    requires Mapping(m, sp, m1, sp1, v, n, pa, w, u, true)
    ensures forall x :: x in sp1.leaves <==> x in sp.leaves || v <= x < v + n
  {
    hide Kept, DataKept;
    ExtendMeaning(sp.leaves, v, n, pa, w, u);
  }

  lemma {:induction false} ExtendNext(l: map<nat, Pte>, v: nat, n: nat, pa: nat, w: bool, u: bool)
    ensures Extend(l, v, n, pa, w, u)[v + n := Present(pa + n, w, u)] == Extend(l, v, n + 1, pa, w, u)
  {
  }

  lemma {:induction false} TablesNext(v: nat, n: nat)
    ensures Tables(v, n) + {(v + n) / NENTRIES} == Tables(v, n + 1)
  {
  }

  lemma {:induction false} MappingNext(m: Mem, sp: Space, m1: Mem, sp1: Space, m2: Mem, sp2: Space,
                                       v: nat, n: nat, pa: nat, w: bool, u: bool, ok: bool)
    requires Mapping(m, sp, m1, sp1, v, n, pa, w, u, true) && MappedOne(m1, sp1, m2, sp2, v + n, pa + n, w, u, ok)
    requires v >= USERTOP && n > 0
    ensures Mapping(m, sp, m2, sp2, v, n + 1, pa, w, u, ok)
  {
    hide Mapping, MappedOne;
    if ok {
      MappingMore(m, sp, m1, sp1, m2, sp2, v, n, pa, w, u);
    } else {
      MappingStops(m, sp, m1, sp1, m2, sp2, v, n, pa, w, u);
    }
  }

  lemma {:induction false} MappingMore(m: Mem, sp: Space, m1: Mem, sp1: Space, m2: Mem, sp2: Space,
                                       v: nat, n: nat, pa: nat, w: bool, u: bool)
    requires Mapping(m, sp, m1, sp1, v, n, pa, w, u, true) && MappedOne(m1, sp1, m2, sp2, v + n, pa + n, w, u, true)
    requires v >= USERTOP && n > 0
    ensures Mapping(m, sp, m2, sp2, v, n + 1, pa, w, u, true)
  {
    hide Kept, Extend, Tables, DataKept, Stuck, Cost;
    var x := v + n;
    CostTrans(m, sp, m1, sp1, m2, sp2);
    DataKeptTrans(m, m1, m2);
    KeptTrans(m, sp, m1, sp1, m2, sp2, v, pa, x, pa + n, true);
    MappedMore(sp, sp1, sp2, v, n, pa, w, u);
  }

  lemma {:induction false} MappedMore(sp: Space, sp1: Space, sp2: Space, v: nat, n: nat, pa: nat, w: bool, u: bool)
    requires sp1.leaves == Extend(sp.leaves, v, n, pa, w, u) && sp1.tables.Keys == sp.tables.Keys + Tables(v, n)
    requires sp2.leaves == sp1.leaves[v + n := Present(pa + n, w, u)]
    requires sp2.tables.Keys == sp1.tables.Keys + {(v + n) / NENTRIES}
    ensures sp2.leaves == Extend(sp.leaves, v, n + 1, pa, w, u) && sp2.tables.Keys == sp.tables.Keys + Tables(v, n + 1)
  {
    hide Extend, Tables;
    ExtendNext(sp.leaves, v, n, pa, w, u);
    TablesNext(v, n);
    UnionStep(sp.tables.Keys, Tables(v, n), Tables(v, n + 1), sp1.tables.Keys, sp2.tables.Keys, (v + n) / NENTRIES);
  }

  lemma UnionStep(k: set<nat>, t: set<nat>, t1: set<nat>, s: set<nat>, s1: set<nat>, p: nat)
    requires s == k + t && s1 == s + {p} && t1 == t + {p}
    ensures s1 == k + t1
  {
  }

  lemma {:induction false} MappingStops(m: Mem, sp: Space, m1: Mem, sp1: Space, m2: Mem, sp2: Space,
                                        v: nat, n: nat, pa: nat, w: bool, u: bool)
    requires Mapping(m, sp, m1, sp1, v, n, pa, w, u, true) && MappedOne(m1, sp1, m2, sp2, v + n, pa + n, w, u, false)
    requires v >= USERTOP && n > 0
    ensures Mapping(m, sp, m2, sp2, v, n + 1, pa, w, u, false)
  {
    hide Kept, Extend, Tables, DataKept, Stuck, Cost;
    var x := v + n;
    CostTrans(m, sp, m1, sp1, m2, sp2);
    DataKeptTrans(m, m1, m2);
    StuckNext(sp.tables.Keys, sp1.tables.Keys, v, n);
    KeptTrans(m, sp, m1, sp1, m2, sp2, v, pa, x, pa + n, false);
  }

  lemma {:induction false} MappingResult(m: Mem, sp: Space, m1: Mem, sp1: Space, v: nat, n: nat, all: nat,
                                         pa: nat, w: bool, u: bool, ok: bool)
    requires Mapping(m, sp, m1, sp1, v, n, pa, w, u, ok) && n <= all && (ok ==> n == all)
    ensures MappedAll(m, sp, m1, sp1, v, all, pa, w, u, ok)
  {
    hide Kept, Extend, DataKept, Stuck, Tables, Cost;
    if !ok {
      StuckPart(sp.tables.Keys, sp1.tables.Keys, v, n, all);
    }
  }

  /** A frame that kalloc has handed out and the space does not use yet, cleared for a user page. */
  ghost predicate Spare(m: Mem, sp: Space, f: nat, end: nat) {
    && end <= f < PHYSTOP && !Uses(sp, f) && !Idle(m, f)
    && f < |m.frames| && m.frames[f].Data? && |m.frames[f].bytes| == PGSIZE
  }

  /** The frame that is neither free nor in use while it is being mapped. */
  ghost function Limbo(v: nat, f: nat): set<nat> {
    if v < USERTOP then {f} else {}
  }

  lemma StillSpare(m: Mem, sp: Space, m1: Mem, sp1: Space, end: nat, v: nat, f: nat)
    requires Balanced(m, Owned(sp), m1, Owned(sp1)) && (v < USERTOP ==> Spare(m, sp, f, end))
    ensures v < USERTOP ==> Spare(m1, sp1, f, end)
    ensures Balanced(m, Owned(sp) + Limbo(v, f), m1, Owned(sp1) + Limbo(v, f))
  {
    hide Uses;
    if v < USERTOP {
      assert f !in IdleSet(m) + Owned(sp);
      assert f !in IdleSet(m1) + Owned(sp1);
    }
  }

  lemma LeafSet(m: Mem, sp: Space, end: nat, v: nat, pte: Pte)
    requires Ok(m, sp, end) && v / NENTRIES in sp.tables && v !in sp.leaves && pte.Present?
    requires v < USERTOP ==> pte.u && Spare(m, sp, pte.frame, end)
    ensures HasEntry(m, sp, v)
    ensures var m', sp' := LeafMem(m, sp, v, pte), sp.(leaves := sp.leaves[v := pte]);
            Ok(m', sp', end) && Balanced(m, Owned(sp) + Limbo(v, pte.frame), m', Owned(sp')) && DataKept(m, m')
  {
    hide Ok, Owned;
    if v < USERTOP {
      UserLeaf(m, sp, end, v, pte.frame, pte.w);
    } else {
      KernelLeaf(m, sp, end, v, pte);
    }
    TableOwned(m, sp, end, v / NENTRIES);
  }

  lemma TableOwned(m: Mem, sp: Space, end: nat, i: nat)
    requires Ok(m, sp, end) && i in sp.tables
    ensures sp.tables[i] in Owned(sp) && sp.dir in Owned(sp)
  {
    assert Used(sp, PageTable(i)) && FrameOf(sp, PageTable(i)) == sp.tables[i];
    assert Used(sp, Directory) && FrameOf(sp, Directory) == sp.dir;
  }

  lemma DirectoryEntry(m: Mem, sp: Space, end: nat, p: nat)
    requires Ok(m, sp, end) && p < NENTRIES
    ensures sp.dir < |m.frames| && m.frames[sp.dir].Table? && |m.frames[sp.dir].ptes| == NENTRIES
    ensures m.frames[sp.dir].ptes[p] == if p in sp.tables then Present(sp.tables[p], true, true) else Absent
    ensures Ready(m) ==> sp.dir != m.free[0] && m.free[0] < |m.frames|
  {
    DirectoryOf(m, sp, end);
    if Ready(m) {
      PopOk(m, end);
    }
  }

  lemma NewTableBalanced(m: Mem, sp: Space, end: nat, p: nat)
    requires Ok(m, sp, end) && Ready(m) && p < NENTRIES && p !in sp.tables
    requires m.free[0] < |m.frames| && sp.dir < |m.frames| && sp.dir != m.free[0] && DirOk(m.frames[sp.dir], sp.tables)
    ensures Balanced(m, Owned(sp), TableMem(m, sp, p), Owned(sp) + {m.free[0]}) && DataKept(m, TableMem(m, sp, p))
    ensures |sp.tables[p := m.free[0]]| == |sp.tables| + 1
  {
    DirectoryOwned(sp, m, end);
    PopIdle(m, sp, end);
    hide Ok, Owned;
    assert sp.tables[p := m.free[0]].Keys == sp.tables.Keys + {p};
  }

  lemma DirectoryOwned(sp: Space, m: Mem, end: nat)
    requires Ok(m, sp, end)
    ensures sp.dir in Owned(sp)
  {
    assert Used(sp, Directory) && FrameOf(sp, Directory) == sp.dir;
  }

  /** kalloc turns one idle frame into one that is not, and skips at most one more. */
  lemma PopIdle(m: Mem, sp: Space, end: nat)
    requires Ok(m, sp, end) && Ready(m)
    ensures IdleSet(m) == IdleSet(Pop(m)) + {m.free[0]} && Loses(m, Pop(m))
  {
    PopOk(m, end);
  }
}
