/** Page tables in physical frames, and the address space that they represent (p2b/kernel/vm.c), over the frame
    allocators of p2b and p3a (p2b/kernel/kalloc.c, p3a/kernel/kalloc.c).

    Addresses are counted in pages of 4096 bytes: frame f is physical address 4096 f, page v is virtual address
    4096 v.  A frame is typed by its use: memset turns it into a table without entries or into a page of zeros,
    and kfree makes it raw. */
module VmSpace {
  import opened Basics

  const NENTRIES := 1024
  const PHYSTOP := 4096      // frames
  const USERTOP := 160       // pages
  const EXTMEM := 256        // the page at 1 MB
  const DEVSPACE := 1040384  // the page at 0xFE000000
  const ENDSPACE := 1048576

  datatype Pte = Absent | Present(frame: nat, w: bool, u: bool)

  datatype Frame = Raw | Data(bytes: seq<byte>) | Table(ptes: seq<Pte>)

  /** Physical memory and the free list of kalloc.  With guard frames (p3a) kalloc takes two entries of the list,
      hands out the first and loses the second for good. */
  datatype Mem = Mem(frames: seq<Frame>, free: seq<nat>, lost: set<nat>, guard: bool)

  /** The entries that n calls of kalloc take. */
  function Price(guard: bool, n: nat): nat {
    if guard then 2 * n else n
  }

  predicate Ready(m: Mem) {
    |m.free| >= Price(m.guard, 1)
  }

  /** The list is long enough for n calls of kalloc, or even. */
  predicate Fed(m: Mem, n: nat) {
    m.guard ==> |m.free| % 2 == 0 || |m.free| >= 2 * n
  }

  /** The entries that k calls of kalloc leave. */
  function Left(m: Mem, k: nat): int {
    |m.free| - Price(m.guard, k)
  }

  /** This is exactly what n calls of kalloc need: p3a's follows a null pointer on a list with a single entry. */
  lemma FedMeaning(m: Mem, n: nat)
    requires m.guard
    ensures Fed(m, n) <==> forall k: nat :: k < n ==> Left(m, k) != 1
  {
    if !Fed(m, n) {
      assert Left(m, (|m.free| - 1) / 2) == 1;
    }
  }

  /** kalloc, on a list that is not empty. */
  function Pop(m: Mem): Mem
    requires Ready(m)
  {
    if m.guard then m.(free := m.free[2..], lost := m.lost + {m.free[1]}) else m.(free := m.free[1..])
  }

  /** kfree */
  function Push(m: Mem, f: nat): Mem
    requires f < |m.frames|
  {
    m.(frames := m.frames[f := Raw], free := [f] + m.free)
  }

  /** Frames that nobody uses: free ones, and ones that p3a's kalloc has skipped. */
  ghost predicate Idle(m: Mem, f: nat) {
    f in m.free || f in m.lost
  }

  /** An address space: its page directory, its page tables by directory index, and its mappings by page. */
  datatype Space = Space(dir: nat, tables: map<nat, nat>, leaves: map<nat, Pte>)

  /** The free list holds frames behind the kernel, each once, and none that was skipped. */
  ghost predicate FreeOk(free: seq<nat>, lost: set<nat>, end: nat) {
    && (forall i :: 0 <= i < |free| ==> end <= free[i] < PHYSTOP && free[i] !in lost)
    && (forall i, j :: 0 <= i < j < |free| ==> free[i] != free[j])
    && (forall f :: f in lost ==> end <= f < PHYSTOP)
  }

  function Leaf(leaves: map<nat, Pte>, v: nat): Pte {
    if v in leaves then leaves[v] else Absent
  }

  ghost predicate DirOk(fr: Frame, tables: map<nat, nat>) {
    && fr.Table? && |fr.ptes| == NENTRIES
    && forall i :: 0 <= i < NENTRIES ==> fr.ptes[i] == if i in tables then Present(tables[i], true, true) else Absent
  }

  ghost predicate TableOk(fr: Frame, leaves: map<nat, Pte>, i: nat) {
    && fr.Table? && |fr.ptes| == NENTRIES
    && forall j :: 0 <= j < NENTRIES ==> fr.ptes[j] == Leaf(leaves, NENTRIES * i + j)
  }

  /** The frames hold the directory and the tables of the space. */
  ghost predicate Represents(frames: seq<Frame>, sp: Space) {
    && sp.dir < |frames| && DirOk(frames[sp.dir], sp.tables)
    && (forall i :: i in sp.tables ==>
          i < NENTRIES && sp.tables[i] < |frames| && TableOk(frames[sp.tables[i]], sp.leaves, i))
    && (forall v :: v in sp.leaves ==> v / NENTRIES in sp.tables)
  }

  ghost predicate UserPage(sp: Space, v: nat) {
    v < USERTOP && v in sp.leaves
  }

  /** User pages are present, accessible to the user, and full of bytes. */
  ghost predicate UserOk(frames: seq<Frame>, sp: Space) {
    forall v :: UserPage(sp, v) ==>
      && sp.leaves[v].Present? && sp.leaves[v].u && sp.leaves[v].frame < |frames|
      && frames[sp.leaves[v].frame].Data? && |frames[sp.leaves[v].frame].bytes| == 4096
  }

  /** What a frame of the space is used for. */
  datatype Use = Directory | PageTable(i: nat) | User(v: nat)

  ghost predicate Used(sp: Space, use: Use) {
    match use
    case Directory => true
    case PageTable(i) => i in sp.tables
    case User(v) => UserPage(sp, v) && sp.leaves[v].Present?
  }

  ghost function FrameOf(sp: Space, use: Use): nat
    requires Used(sp, use)
  {
    match use
    case Directory => sp.dir
    case PageTable(i) => sp.tables[i]
    case User(v) => sp.leaves[v].frame
  }

  ghost predicate Uses(sp: Space, f: nat) {
    exists use :: Used(sp, use) && FrameOf(sp, use) == f
  }

  /** The frames that the space owns.  The frames of its kernel mappings are not among them. */
  ghost function Owned(sp: Space): set<nat> {
    set f: nat | f < PHYSTOP && Uses(sp, f)
  }

  /** No frame serves two purposes, none is below the kernel's end, and none is free. */
  ghost predicate Distinct(sp: Space) {
    forall a, b :: Used(sp, a) && Used(sp, b) && FrameOf(sp, a) == FrameOf(sp, b) ==> a == b
  }

  ghost predicate Clear(m: Mem, sp: Space, end: nat) {
    forall use :: Used(sp, use) ==> end <= FrameOf(sp, use) < PHYSTOP && !Idle(m, FrameOf(sp, use))
  }

  /** The invariant of one address space. */
  ghost predicate Ok(m: Mem, sp: Space, end: nat) {
    && 0 < end <= PHYSTOP == |m.frames| && FreeOk(m.free, m.lost, end)
    && Represents(m.frames, sp) && UserOk(m.frames, sp) && Distinct(sp) && Clear(m, sp, end)
  }

  // ------------------------------------------------------------------ the steps

  function Empty(): Frame {
    Table(seq(NENTRIES, _ => Absent))
  }

  function Write(fr: Frame, j: nat, p: Pte): Frame
    requires fr.Table? && j < |fr.ptes|
  {
    Table(fr.ptes[j := p])
  }

  /** From sp to sp', frame f was put to the new use. */
  ghost predicate Adds(sp: Space, sp': Space, use: Use, f: nat) {
    && Used(sp', use) && FrameOf(sp', use) == f && !Used(sp, use)
    && forall u :: u != use ==> (Used(sp', u) <==> Used(sp, u)) && (Used(sp, u) ==> FrameOf(sp', u) == FrameOf(sp, u))
  }

  lemma AddsUse(m: Mem, m': Mem, sp: Space, sp': Space, use: Use, f: nat, end: nat)
    requires Distinct(sp) && Clear(m, sp, end) && Adds(sp, sp', use, f)
    requires end <= f < PHYSTOP && !Uses(sp, f) && !Idle(m', f) && forall g :: Idle(m', g) ==> Idle(m, g)
    ensures Distinct(sp') && Clear(m', sp', end) && Owned(sp') == Owned(sp) + {f}
  {
    hide Used, FrameOf;
    forall a, b | Used(sp', a) && Used(sp', b) && FrameOf(sp', a) == FrameOf(sp', b) ensures a == b {
      assert a != use ==> Used(sp, a) && FrameOf(sp, a) == FrameOf(sp', a);
      assert b != use ==> Used(sp, b) && FrameOf(sp, b) == FrameOf(sp', b);
    }
    forall g: nat ensures Uses(sp', g) <==> Uses(sp, g) || g == f {
      if Uses(sp, g) {
        var u :| Used(sp, u) && FrameOf(sp, u) == g;
        assert Used(sp', u) && FrameOf(sp', u) == g;
      }
    }
  }

  /** A frame in use is not free, so writing a free frame disturbs no use. */
  lemma FreeUnused(m: Mem, sp: Space, end: nat)
    requires Clear(m, sp, end) && Ready(m)
    ensures !Uses(sp, m.free[0])
  {
    hide Used, FrameOf;
  }

  /** kalloc hands out a frame that is not idle any more, and makes no other frame idle or busy. */
  lemma PopOk(m: Mem, end: nat)
    requires FreeOk(m.free, m.lost, end) && Ready(m)
    ensures FreeOk(Pop(m).free, Pop(m).lost, end) && end <= m.free[0] < PHYSTOP && Idle(m, m.free[0])
    ensures forall g :: Idle(Pop(m), g) <==> Idle(m, g) && g != m.free[0]
  {
    var m1 := Pop(m);
    forall g ensures Idle(m1, g) <==> Idle(m, g) && g != m.free[0] {
      if g in m.free {
        var i :| 0 <= i < |m.free| && m.free[i] == g;
        assert i >= Price(m.guard, 1) ==> m1.free[i - Price(m.guard, 1)] == g;
      }
    }
  }

  /** A new directory. */
  lemma NewSpace(m: Mem, end: nat)
    requires 0 < end <= PHYSTOP == |m.frames| && FreeOk(m.free, m.lost, end) && Ready(m)
    ensures var f := m.free[0];
            && f < PHYSTOP && Ok(Pop(m).(frames := m.frames[f := Empty()]), Space(f, map[], map[]), end)
            && Owned(Space(f, map[], map[])) == {f}
  {
    var f := m.free[0];
    var sp := Space(f, map[], map[]);
    PopOk(m, end);
    forall g: nat ensures Uses(sp, g) <==> g == f {
      assert g == f ==> Used(sp, Directory) && FrameOf(sp, Directory) == g;
    }
  }

  lemma OkFree(m: Mem, sp: Space, end: nat)
    requires Ok(m, sp, end)
    ensures 0 < end <= PHYSTOP == |m.frames| && FreeOk(m.free, m.lost, end)
  {
  }

  // ------------------------------------------------------------------ walkpgdir with create

  function TableMem(m: Mem, sp: Space, p: nat): Mem
    requires Ready(m) && m.free[0] < |m.frames| && sp.dir < |m.frames| && sp.dir != m.free[0]
    requires m.frames[sp.dir].Table? && p < |m.frames[sp.dir].ptes|
  {
    var f := m.free[0];
    Pop(m).(frames := m.frames[f := Empty()][sp.dir := Write(m.frames[sp.dir], p, Present(f, true, true))])
  }

  lemma DirectoryOf(m: Mem, sp: Space, end: nat)
    requires Ok(m, sp, end)
    ensures sp.dir < |m.frames| && DirOk(m.frames[sp.dir], sp.tables) && end <= sp.dir < PHYSTOP && !Idle(m, sp.dir)
    ensures forall i :: i in sp.tables ==>
              end <= sp.tables[i] < PHYSTOP && !Idle(m, sp.tables[i]) && sp.tables[i] != sp.dir
    ensures forall i, j :: i in sp.tables && j in sp.tables && i != j ==> sp.tables[i] != sp.tables[j]
  {
    assert Used(sp, Directory) && FrameOf(sp, Directory) == sp.dir;
    forall i | i in sp.tables
      ensures end <= sp.tables[i] < PHYSTOP && !Idle(m, sp.tables[i]) && sp.tables[i] != sp.dir
      ensures forall j :: j in sp.tables && i != j ==> sp.tables[i] != sp.tables[j]
    {
      assert Used(sp, PageTable(i)) && FrameOf(sp, PageTable(i)) == sp.tables[i];
      forall j | j in sp.tables && i != j ensures sp.tables[i] != sp.tables[j] {
        assert Used(sp, PageTable(j)) && FrameOf(sp, PageTable(j)) == sp.tables[j];
      }
    }
  }

  lemma UserOf(m: Mem, sp: Space, end: nat, v: nat)
    requires Ok(m, sp, end) && UserPage(sp, v)
    ensures sp.leaves[v].Present? && end <= sp.leaves[v].frame < PHYSTOP && !Idle(m, sp.leaves[v].frame)
    ensures sp.leaves[v].frame != sp.dir
    ensures forall i :: i in sp.tables ==> sp.leaves[v].frame != sp.tables[i]
    ensures forall x :: UserPage(sp, x) && x != v ==> sp.leaves[x].Present? && sp.leaves[x].frame != sp.leaves[v].frame
  {
    assert Used(sp, User(v)) && FrameOf(sp, User(v)) == sp.leaves[v].frame;
    assert Used(sp, Directory) && FrameOf(sp, Directory) == sp.dir;
    forall i | i in sp.tables ensures sp.leaves[v].frame != sp.tables[i] {
      assert Used(sp, PageTable(i)) && FrameOf(sp, PageTable(i)) == sp.tables[i];
    }
    forall x | UserPage(sp, x) && x != v ensures sp.leaves[x].Present? && sp.leaves[x].frame != sp.leaves[v].frame {
      assert Used(sp, User(x)) && FrameOf(sp, User(x)) == sp.leaves[x].frame;
    }
  }

  lemma UserBytes(m: Mem, sp: Space, end: nat, v: nat)
    requires Ok(m, sp, end) && UserPage(sp, v)
    ensures sp.leaves[v].Present? && sp.leaves[v].u && sp.leaves[v].frame < |m.frames|
    ensures m.frames[sp.leaves[v].frame].Data? && |m.frames[sp.leaves[v].frame].bytes| == 4096
  {
  }

  /** A cleared frame becomes the table of directory index p. */
  lemma NewTable(m: Mem, sp: Space, end: nat, p: nat)
    requires Ok(m, sp, end) && Ready(m) && p < NENTRIES && p !in sp.tables
    ensures m.free[0] < |m.frames| && sp.dir < |m.frames| && sp.dir != m.free[0] && DirOk(m.frames[sp.dir], sp.tables)
    ensures var f := m.free[0];
            var sp' := sp.(tables := sp.tables[p := f]);
            Ok(TableMem(m, sp, p), sp', end) && Owned(sp') == Owned(sp) + {f}
  {
    hide Distinct, Clear, Used, FrameOf;
    DirectoryOf(m, sp, end);
    PopOk(m, end);
    FreeUnused(m, sp, end);
    var m', sp' := TableMem(m, sp, p), sp.(tables := sp.tables[p := m.free[0]]);
    NewTableAdds(sp, p, m.free[0]);
    AddsUse(m, m', sp, sp', PageTable(p), m.free[0], end);
    NewTableRepresents(m, sp, end, p);
    NewTableUser(m, sp, end, p);
  }

  lemma NewTableAdds(sp: Space, p: nat, f: nat)
    requires p !in sp.tables
    ensures Adds(sp, sp.(tables := sp.tables[p := f]), PageTable(p), f)
  {
  }

  lemma NewTableRepresents(m: Mem, sp: Space, end: nat, p: nat)
    requires Ok(m, sp, end) && Ready(m) && p < NENTRIES && p !in sp.tables
    requires m.free[0] < |m.frames| && sp.dir < |m.frames| && sp.dir != m.free[0] && DirOk(m.frames[sp.dir], sp.tables)
    ensures Represents(TableMem(m, sp, p).frames, sp.(tables := sp.tables[p := m.free[0]]))
  {
    hide Distinct, Clear, Used, FrameOf, UserOk, FreeOk;
    DirectoryOf(m, sp, end);
    var f, sp' := m.free[0], sp.(tables := sp.tables[p := m.free[0]]);
    forall j | 0 <= j < NENTRIES ensures Empty().ptes[j] == Leaf(sp.leaves, NENTRIES * p + j) {
      assert (NENTRIES * p + j) / NENTRIES == p;
    }
    assert TableOk(Empty(), sp.leaves, p);
  }

  lemma NewTableUser(m: Mem, sp: Space, end: nat, p: nat)
    requires Ok(m, sp, end) && Ready(m) && p < NENTRIES && p !in sp.tables
    requires m.free[0] < |m.frames| && sp.dir < |m.frames| && sp.dir != m.free[0] && DirOk(m.frames[sp.dir], sp.tables)
    ensures UserOk(TableMem(m, sp, p).frames, sp.(tables := sp.tables[p := m.free[0]]))
  {
    hide Distinct, Clear, Used, FrameOf, Represents, FreeOk, DirOk;
    forall v | UserPage(sp, v)
        ensures sp.leaves[v].Present? && sp.leaves[v].frame != sp.dir && sp.leaves[v].frame != m.free[0] {
      UserOf(m, sp, end, v);
    }
  }

  // ------------------------------------------------------------------ writing a page-table entry

  ghost predicate HasEntry(m: Mem, sp: Space, v: nat) {
    && v / NENTRIES in sp.tables && sp.tables[v / NENTRIES] < |m.frames|
    && m.frames[sp.tables[v / NENTRIES]].Table? && |m.frames[sp.tables[v / NENTRIES]].ptes| == NENTRIES
  }

  ghost function LeafMem(m: Mem, sp: Space, v: nat, pte: Pte): Mem
    requires HasEntry(m, sp, v)
  {
    var t := sp.tables[v / NENTRIES];
    m.(frames := m.frames[t := Write(m.frames[t], v % NENTRIES, pte)])
  }

  lemma EntryOf(m: Mem, sp: Space, end: nat, v: nat)
    requires Ok(m, sp, end) && v / NENTRIES in sp.tables
    ensures HasEntry(m, sp, v) && m.frames[sp.tables[v / NENTRIES]].ptes[v % NENTRIES] == Leaf(sp.leaves, v)
  {
  }

  /** Only entry v changes. */
  ghost predicate OnlyLeaf(leaves: map<nat, Pte>, leaves': map<nat, Pte>, v: nat, pte: Pte) {
    && (forall x :: Leaf(leaves', x) == if x == v then pte else Leaf(leaves, x))
    && (forall x :: x in leaves' ==> x == v || x in leaves)
  }

  lemma LeafRepresents(m: Mem, sp: Space, end: nat, v: nat, pte: Pte, leaves': map<nat, Pte>)
    requires Ok(m, sp, end) && HasEntry(m, sp, v) && OnlyLeaf(sp.leaves, leaves', v, pte)
    ensures Represents(LeafMem(m, sp, v, pte).frames, sp.(leaves := leaves'))
  {
    hide Distinct, Clear, Used, FrameOf, UserOk, FreeOk, OnlyLeaf, Leaf, DirOk;
    DirectoryOf(m, sp, end);
    var m', t := LeafMem(m, sp, v, pte), sp.tables[v / NENTRIES];
    assert forall x :: x in leaves' ==> x / NENTRIES in sp.tables by {
      LeafDomain(sp.leaves, leaves', v, pte);
    }
    forall i | i in sp.tables ensures TableOk(m'.frames[sp.tables[i]], leaves', i) {
      forall j | 0 <= j < NENTRIES ensures m'.frames[sp.tables[i]].ptes[j] == Leaf(leaves', NENTRIES * i + j) {
        assert NENTRIES * i + j == v <==> i == v / NENTRIES && j == v % NENTRIES;
        LeafElsewhere(sp.leaves, leaves', v, pte, NENTRIES * i + j);
      }
    }
  }

  lemma LeafElsewhere(leaves: map<nat, Pte>, leaves': map<nat, Pte>, v: nat, pte: Pte, x: nat)
    requires OnlyLeaf(leaves, leaves', v, pte)
    ensures Leaf(leaves', x) == if x == v then pte else Leaf(leaves, x)
  {
  }

  lemma LeafDomain(leaves: map<nat, Pte>, leaves': map<nat, Pte>, v: nat, pte: Pte)
    requires OnlyLeaf(leaves, leaves', v, pte)
    ensures forall x :: x in leaves' ==> x == v || x in leaves
  {
  }

  /** A kernel mapping. */
  lemma KernelLeaf(m: Mem, sp: Space, end: nat, v: nat, pte: Pte)
    requires Ok(m, sp, end) && v / NENTRIES in sp.tables && v >= USERTOP
    ensures HasEntry(m, sp, v)
    ensures var sp' := sp.(leaves := sp.leaves[v := pte]);
            Ok(LeafMem(m, sp, v, pte), sp', end) && Owned(sp') == Owned(sp)
  {
    hide Distinct, Clear, UserOk, Used, FrameOf, FreeOk, Represents;
    EntryOf(m, sp, end, v);
    var m', sp' := LeafMem(m, sp, v, pte), sp.(leaves := sp.leaves[v := pte]);
    LeafRepresents(m, sp, end, v, pte, sp'.leaves);
    KernelUses(sp, v, pte);
    SameUses(m, m', sp, sp', end);
    LeafUserOk(m, sp, v, pte, sp'.leaves);
  }

  lemma LeafUserOk(m: Mem, sp: Space, v: nat, pte: Pte, leaves': map<nat, Pte>)
    requires UserOk(m.frames, sp) && HasEntry(m, sp, v)
    requires forall x :: x in leaves' && x < USERTOP && x != v ==> x in sp.leaves && leaves'[x] == sp.leaves[x]
    requires v in leaves' && v < USERTOP ==> 
               && leaves'[v].Present? && leaves'[v].u && leaves'[v].frame < |m.frames|
               && m.frames[leaves'[v].frame].Data? && |m.frames[leaves'[v].frame].bytes| == 4096
    ensures UserOk(LeafMem(m, sp, v, pte).frames, sp.(leaves := leaves'))
  {
  }

  ghost predicate UsesSame(sp: Space, sp': Space) {
    forall u :: (Used(sp', u) <==> Used(sp, u)) && (Used(sp, u) ==> FrameOf(sp', u) == FrameOf(sp, u))
  }

  lemma KernelUses(sp: Space, v: nat, pte: Pte)
    requires v >= USERTOP
    ensures UsesSame(sp, sp.(leaves := sp.leaves[v := pte]))
  {
  }

  lemma SameUses(m: Mem, m': Mem, sp: Space, sp': Space, end: nat)
    requires Distinct(sp) && Clear(m, sp, end) && UsesSame(sp, sp') && m'.free == m.free && m'.lost == m.lost
    ensures Distinct(sp') && Clear(m', sp', end) && Owned(sp') == Owned(sp)
  {
    hide Used, FrameOf;
    forall g: nat ensures Uses(sp', g) <==> Uses(sp, g) {
      if Uses(sp, g) {
        var u :| Used(sp, u) && FrameOf(sp, u) == g;
        assert Used(sp', u) && FrameOf(sp', u) == g;
      }
    }
  }

  /** A user page, in a frame that is neither free nor in use. */
  lemma UserLeaf(m: Mem, sp: Space, end: nat, v: nat, f: nat, w: bool)
    requires Ok(m, sp, end) && v / NENTRIES in sp.tables && v < USERTOP && v !in sp.leaves
    requires end <= f < PHYSTOP && !Uses(sp, f) && !Idle(m, f)
    requires m.frames[f].Data? && |m.frames[f].bytes| == 4096
    ensures HasEntry(m, sp, v)
    ensures var sp' := sp.(leaves := sp.leaves[v := Present(f, w, true)]);
            Ok(LeafMem(m, sp, v, Present(f, w, true)), sp', end) && Owned(sp') == Owned(sp) + {f}
  {
    hide Distinct, Clear, UserOk, Used, FrameOf, FreeOk, Represents, Uses;
    EntryOf(m, sp, end, v);
    var pte := Present(f, w, true);
    var m', sp' := LeafMem(m, sp, v, pte), sp.(leaves := sp.leaves[v := pte]);
    LeafRepresents(m, sp, end, v, pte, sp'.leaves);
    UserAdds(sp, v, pte);
    AddsUse(m, m', sp, sp', User(v), f, end);
    LeafUserOk(m, sp, v, pte, sp'.leaves);
  }

  lemma UserAdds(sp: Space, v: nat, pte: Pte)
    requires v < USERTOP && v !in sp.leaves && pte.Present?
    ensures Adds(sp, sp.(leaves := sp.leaves[v := pte]), User(v), pte.frame)
  {
  }

  /** Changing the write bit of a user page. */
  lemma ProtectLeaf(m: Mem, sp: Space, end: nat, v: nat, w: bool)
    requires Ok(m, sp, end) && UserPage(sp, v)
    ensures HasEntry(m, sp, v) && sp.leaves[v].Present?
    ensures var pte := sp.leaves[v].(w := w);
            var sp' := sp.(leaves := sp.leaves[v := pte]);
            Ok(LeafMem(m, sp, v, pte), sp', end) && Owned(sp') == Owned(sp)
  {
    hide Distinct, Clear, Used, FrameOf, FreeOk, Represents, UserOk;
    PageHasTable(m.frames, sp, v);
    UserBytes(m, sp, end, v);
    EntryOf(m, sp, end, v);
    UserOf(m, sp, end, v);
    var pte := sp.leaves[v].(w := w);
    var m', sp' := LeafMem(m, sp, v, pte), sp.(leaves := sp.leaves[v := pte]);
    LeafRepresents(m, sp, end, v, pte, sp'.leaves);
    ProtectUses(sp, v, w);
    SameUses(m, m', sp, sp', end);
    LeafUserOk(m, sp, v, pte, sp'.leaves);
  }

  lemma ProtectUses(sp: Space, v: nat, w: bool)
    requires UserPage(sp, v) && sp.leaves[v].Present?
    ensures UsesSame(sp, sp.(leaves := sp.leaves[v := sp.leaves[v].(w := w)]))
  {
  }

  /** One turn of deallocuvm: the frame of a user page goes back to the free list. */
  ghost function DropMem(m: Mem, sp: Space, v: nat): Mem
    requires HasEntry(m, sp, v) && v in sp.leaves && sp.leaves[v].Present? && sp.leaves[v].frame < |m.frames|
  {
    var f, m1 := sp.leaves[v].frame, LeafMem(m, sp, v, Absent);
    Push(m1, f)
  }

  lemma DropLeaf(m: Mem, sp: Space, end: nat, v: nat)
    requires Ok(m, sp, end) && UserPage(sp, v)
    ensures HasEntry(m, sp, v) && sp.leaves[v].Present? && sp.leaves[v].frame < |m.frames|
    ensures Ok(DropMem(m, sp, v), sp.(leaves := sp.leaves - {v}), end)
    ensures Owned(sp) == Owned(sp.(leaves := sp.leaves - {v})) + {sp.leaves[v].frame}
    ensures !Uses(sp.(leaves := sp.leaves - {v}), sp.leaves[v].frame)
  {
    hide Distinct, Clear, Used, FrameOf, FreeOk, Represents, UserOk;
    UserOf(m, sp, end, v);
    assert v / NENTRIES in sp.tables by { PageHasTable(m.frames, sp, v); }
    EntryOf(m, sp, end, v);
    var f, m1, sp' := sp.leaves[v].frame, LeafMem(m, sp, v, Absent), sp.(leaves := sp.leaves - {v});
    LeafRepresents(m, sp, end, v, Absent, sp'.leaves);
    PushOk(m1, end, f);
    DropUses(m, DropMem(m, sp, v), sp, end, v);
    LeafUserOk(m, sp, v, Absent, sp'.leaves);
    UnusedWrite(m1, sp', f, Raw);
    hide LeafMem;
  }

  lemma PageHasTable(frames: seq<Frame>, sp: Space, v: nat)
    requires Represents(frames, sp) && v in sp.leaves
    ensures v / NENTRIES in sp.tables
  {
  }

  lemma PushOk(m: Mem, end: nat, f: nat)
    requires FreeOk(m.free, m.lost, end) && end <= f < PHYSTOP && !Idle(m, f) && f < |m.frames|
    ensures FreeOk(Push(m, f).free, Push(m, f).lost, end) && forall g :: Idle(Push(m, f), g) <==> Idle(m, g) || g == f
  {
  }

  lemma DropUses(m: Mem, m': Mem, sp: Space, end: nat, v: nat)
    requires Distinct(sp) && Clear(m, sp, end) && UserPage(sp, v) && sp.leaves[v].Present?
    requires forall g :: Idle(m', g) <==> Idle(m, g) || g == sp.leaves[v].frame
    ensures var sp' := sp.(leaves := sp.leaves - {v});
            && Distinct(sp') && Clear(m', sp', end) && !Uses(sp', sp.leaves[v].frame)
            && Owned(sp) == Owned(sp') + {sp.leaves[v].frame}
  {
    var sp', f := sp.(leaves := sp.leaves - {v}), sp.leaves[v].frame;
    assert Used(sp, User(v)) && FrameOf(sp, User(v)) == f;
    assert Adds(sp', sp, User(v), f);
    hide Used, FrameOf;
    forall g: nat ensures Uses(sp, g) <==> Uses(sp', g) || g == f {
      if Uses(sp', g) {
        var u :| Used(sp', u) && FrameOf(sp', u) == g;
        assert Used(sp, u) && FrameOf(sp, u) == g;
      }
    }
  }

  /** Writing a frame that the space does not use. */
  lemma UnusedWrite(m: Mem, sp: Space, f: nat, fr: Frame)
    requires Represents(m.frames, sp) && UserOk(m.frames, sp) && !Uses(sp, f) && f < |m.frames|
    ensures Represents(m.frames[f := fr], sp) && UserOk(m.frames[f := fr], sp)
  {
    assert Used(sp, Directory) && FrameOf(sp, Directory) == sp.dir;
    forall i | i in sp.tables ensures sp.tables[i] != f {
      assert Used(sp, PageTable(i)) && FrameOf(sp, PageTable(i)) == sp.tables[i];
    }
    forall v | UserPage(sp, v) ensures sp.leaves[v].frame != f {
      assert Used(sp, User(v)) && FrameOf(sp, User(v)) == sp.leaves[v].frame;
    }
    hide DirOk, TableOk, Uses, Used;
  }
}
