/** Write protection and writing into user pages, on values (mprotect of p3a/kernel/proc.c and p3a/kernel/vm.c,
    copyout of p2b/kernel/vm.c). */
module VmProtect {
  import opened Basics
  import opened VmSpace
  import opened VmMap
  import opened VmKernel
  import opened VmUser
  import opened VmFork

  // ------------------------------------------------------------------ mprotect

  /** An entry without its write bit. */
  function ReadOnly(p: Pte): Pte {
    if p.Present? then p.(w := false) else Absent
  }

  /** The space with the write bit of page v cleared. */
  function Cleared(sp: Space, v: nat): Space {
    if v in sp.leaves then sp.(leaves := sp.leaves[v := ReadOnly(sp.leaves[v])]) else sp
  }

  /** mprotect_helper: one entry, of a page that has a table. */
  lemma ClearKeepsOk(m: Mem, sp: Space, end: nat, v: nat)
    requires Ok(m, sp, end) && v / NENTRIES in sp.tables
    ensures HasEntry(m, sp, v) && m.frames[sp.tables[v / NENTRIES]].ptes[v % NENTRIES] == Leaf(sp.leaves, v)
    ensures var m1 := LeafMem(m, sp, v, ReadOnly(Leaf(sp.leaves, v)));
            Ok(m1, Cleared(sp, v), end) && Owned(Cleared(sp, v)) == Owned(sp) && m1 == m.(frames := m1.frames)
                && DataKept(m, m1)
            && Balanced(m, Owned(sp), m1, Owned(sp))
  {
    hide Ok, Owned;
    EntryOf(m, sp, end, v);
    TableOwned(m, sp, end, v / NENTRIES);
    var t := sp.tables[v / NENTRIES];
    if v !in sp.leaves {
      assert Write(m.frames[t], v % NENTRIES, Absent) == m.frames[t];
      assert m.frames[t := m.frames[t]] == m.frames;
    } else if v < USERTOP {
      UserOf(m, sp, end, v);
      UserBytes(m, sp, end, v);
      ProtectLeaf(m, sp, end, v, false);
    } else {
      KernelLeaf(m, sp, end, v, ReadOnly(sp.leaves[v]));
    }
  }

  /** The write bits of the pages from lo to hi are clear, and nothing else about the mappings has changed. */
  ghost predicate ClearedRange(sp: Space, sp1: Space, lo: nat, hi: nat) {
    && sp1.dir == sp.dir && sp1.tables == sp.tables
    && forall v: nat :: Leaf(sp1.leaves, v) == if lo <= v < hi then ReadOnly(Leaf(sp.leaves, v)) else Leaf(sp.leaves, v)
  }

  ghost predicate Protected(m: Mem, sp: Space, m1: Mem, sp1: Space, lo: nat, hi: nat) {
    && ClearedRange(sp, sp1, lo, hi) && m1 == m.(frames := m1.frames) && DataKept(m, m1)
    && Owned(sp1) == Owned(sp) && Balanced(m, Owned(sp), m1, Owned(sp1))
  }

  /** The pages in the range keep everything but their write bit, and the others keep everything. */
  lemma ProtectedPages(m: Mem, sp: Space, m1: Mem, sp1: Space, lo: nat, hi: nat)
    requires Protected(m, sp, m1, sp1, lo, hi)
    ensures forall v: nat :: v in sp.leaves && sp.leaves[v].Present? ==>
              v in sp1.leaves && sp1.leaves[v] ==
                if lo * 4096 <= v * 4096 < hi * 4096 then sp.leaves[v].(w := false) else sp.leaves[v]
  {
    forall v: nat | v in sp.leaves && sp.leaves[v].Present?
      ensures v in sp1.leaves && sp1.leaves[v] ==
                if lo <= v < hi then sp.leaves[v].(w := false) else sp.leaves[v]
    {
      assert Leaf(sp1.leaves, v) == if lo <= v < hi then ReadOnly(sp.leaves[v]) else sp.leaves[v];
    }
  }

  lemma ProtectedNone(m: Mem, sp: Space, lo: nat)
    ensures Protected(m, sp, m, sp, lo, lo)
  {
  }

  /** Clearing a page again changes nothing, so the loop over bytes clears each page once. */
  lemma ProtectedNext(m: Mem, sp: Space, m1: Mem, sp1: Space, end: nat, lo: nat, hi: nat, v: nat)
    requires Ok(m1, sp1, end) && Protected(m, sp, m1, sp1, lo, hi) && v / NENTRIES in sp1.tables && lo <= v <= hi
    ensures HasEntry(m1, sp1, v)
    ensures var m2 := LeafMem(m1, sp1, v, ReadOnly(Leaf(sp1.leaves, v)));
            Ok(m2, Cleared(sp1, v), end) && Protected(m, sp, m2, Cleared(sp1, v), lo, if v == hi then hi + 1 else hi)
  {
    hide Ok, Owned, DataKept, Balanced, LeafMem;
    ClearKeepsOk(m1, sp1, end, v);
    var m2 := LeafMem(m1, sp1, v, ReadOnly(Leaf(sp1.leaves, v)));
    DataKeptTrans(m, m1, m2);
    BalancedTrans(m, Owned(sp), m1, Owned(sp1), m2, Owned(Cleared(sp1, v)));
    ClearedNext(sp, sp1, lo, hi, v);
    hide ClearedRange;
  }

  lemma ProtectedTables(m: Mem, sp: Space, m1: Mem, sp1: Space, lo: nat, hi: nat)
    requires Protected(m, sp, m1, sp1, lo, hi)
    ensures sp1.tables == sp.tables
  {
  }

  /** Byte i from the page boundary addr on lies in page i / 4096, and i bytes reach into Up(i) pages. */
  lemma PageOfByte(addr: nat, lo: nat, i: nat)
    requires addr == lo * PGSIZE
    ensures lo <= (addr + i) / PGSIZE <= lo + Up(i)
    ensures Up(i + 1) == (if (addr + i) / PGSIZE == lo + Up(i) then Up(i) + 1 else Up(i))
    ensures (addr + i) / PGSIZE == lo + i / PGSIZE
  {
  }

  lemma ClearedNext(sp: Space, sp1: Space, lo: nat, hi: nat, v: nat)
    requires ClearedRange(sp, sp1, lo, hi) && lo <= v <= hi
    ensures ClearedRange(sp, Cleared(sp1, v), lo, if v == hi then hi + 1 else hi)
  {
    assert forall x: nat :: Leaf(Cleared(sp1, v).leaves, x) == if x == v then ReadOnly(Leaf(sp1.leaves, v))
             else Leaf(sp1.leaves, x);
  }

  /** The kernel keeps its own mappings exactly when no writable kernel page lies in the range: mprotect compares
      only the length of the range with the size of the process. */
  lemma ProtectKeepsKernel(sp: Space, sp1: Space, data: nat, lo: nat, hi: nat)
    requires Complete(sp, data) && ClearedRange(sp, sp1, lo, hi)
    ensures Complete(sp1, data)
            <==> forall v: nat :: USERTOP <= v && lo <= v < hi ==> KernelPte(v, data) == ReadOnly(KernelPte(v, data))
  {
    if Complete(sp1, data) {
      forall v: nat | USERTOP <= v && lo <= v < hi ensures KernelPte(v, data) == ReadOnly(KernelPte(v, data)) {
        assert Leaf(sp1.leaves, v) == ReadOnly(Leaf(sp.leaves, v));
      }
    }
  }

  /** The last page of a full process and the one behind it, which mprotect accepts: the length fits, and the kernel
      loses the write bit of its first page. */
  lemma ProtectPastEnd(sp: Space, sp1: Space, data: nat)
    requires EXTMEM < data && Complete(sp, data) && ClearedRange(sp, sp1, USERTOP - 1, USERTOP + 1)
    ensures (USERTOP - 1) * PGSIZE % 4096 == 0 && 2 * 4096 <= USERTOP * PGSIZE   // mprotect accepts 2 pages here
    ensures !Complete(sp1, data)
  {
    assert KernelPte(USERTOP, data) != ReadOnly(KernelPte(USERTOP, data));
    ProtectKeepsKernel(sp, sp1, data, USERTOP - 1, USERTOP + 1);
  }

  /** A page protected before fork is protected in the child of p3a, and writable again in the child of p2b. */
  lemma ProtectionAndFork(m: Mem, sp: Space, m1: Mem, sp1: Space, m2: Mem, child: Space, data: nat, end: nat,
                          lo: nat, hi: nat, n: nat, v: nat)
    requires Ok(m, sp, end) && Protected(m, sp, m1, sp1, lo, hi) && lo <= v < hi && v < n <= USERTOP && v in sp.leaves
    requires Copied(m1, sp1, m2, child, data, n)
    ensures v in child.leaves && child.leaves[v].Present? && child.leaves[v].w == !m.guard
    ensures sp.leaves[v].Present? && sp.leaves[v].frame < |m.frames| && child.leaves[v].frame < |m2.frames|
    ensures m2.frames[child.leaves[v].frame] == m.frames[sp.leaves[v].frame]
  {
    hide Ok, Owned, Balanced, Complete;
    UserOf(m, sp, end, v);
    UserBytes(m, sp, end, v);
    assert Leaf(sp1.leaves, v) == ReadOnly(Leaf(sp.leaves, v));
    assert CopiedPage(m1, sp1.leaves[v], m2, child.leaves[v]);
  }

  // ------------------------------------------------------------------ copyout

  /** The bytes of the page at virtual address `base`, with w stored from virtual address va on. */
  function Patched(b: seq<byte>, base: nat, va: nat, w: seq<byte>): (r: seq<byte>)
    ensures |r| == |b|
    ensures forall o :: 0 <= o < |b| ==> r[o] == if va <= base + o < va + |w| then w[base + o - va] else b[o]
  {
    seq(|b|, (o: nat) requires o < |b| => if va <= base + o < va + |w| then w[base + o - va] else b[o])
  }

  /** The pages of the n bytes from va on have tables; they are user pages. */
  ghost predicate HasTables(sp: Space, va: nat, n: nat) {
    n > 0 ==> forall v: nat :: va / PGSIZE <= v <= (va + n - 1) / PGSIZE ==> v / NENTRIES in sp.tables
  }

  ghost predicate UserPages(sp: Space, va: nat, n: nat) {
    n > 0 ==> forall v: nat :: va / PGSIZE <= v <= (va + n - 1) / PGSIZE ==> UserPage(sp, v)
  }

  lemma NoPages(sp: Space, va: nat)
    ensures UserPages(sp, va, 0)
  {
  }

  lemma TableOfByte(sp: Space, va: nat, n: nat, k: nat)
    requires HasTables(sp, va, n) && k < n
    ensures (va + k) / PGSIZE / NENTRIES in sp.tables
  {
  }

  lemma UserPagesNext(sp: Space, va: nat, k: nat, n: nat)
    requires UserPages(sp, va, k) && 0 < n && UserPage(sp, (va + k) / PGSIZE) && (va + k) % PGSIZE + n <= PGSIZE
    ensures UserPages(sp, va, k + n)
  {
    var p := (va + k) / PGSIZE;
    assert (va + k + n - 1) / PGSIZE == p;
    forall v: nat | va / PGSIZE <= v <= p ensures UserPage(sp, v) {
      if v < p {
        assert k > 0 && v <= (va + k - 1) / PGSIZE;
      }
    }
  }

  /** w has been stored at virtual address va: every user page has the bytes that this gives it, and no other
      frame has changed. */
  ghost predicate Written(m: Mem, sp: Space, m1: Mem, va: nat, w: seq<byte>) {
    && m1 == m.(frames := m1.frames) && |m1.frames| == |m.frames|
    && (forall v :: UserPage(sp, v) ==> PageWritten(m, sp, m1, v, va, w))
    && (forall f :: 0 <= f < |m.frames| &&
                    (forall v :: UserPage(sp, v) ==> sp.leaves[v].Present? && sp.leaves[v].frame != f) ==>
          m1.frames[f] == m.frames[f])
  }

  ghost predicate PageWritten(m: Mem, sp: Space, m1: Mem, v: nat, va: nat, w: seq<byte>)
    requires v in sp.leaves && |m1.frames| == |m.frames|
  {
    var pte := sp.leaves[v];
    && pte.Present? && pte.frame < |m.frames| && m.frames[pte.frame].Data?
    && m1.frames[pte.frame] == Data(Patched(m.frames[pte.frame].bytes, v * PGSIZE, va, w))
  }

  lemma WrittenNone(m: Mem, sp: Space, end: nat, va: nat)
    requires Ok(m, sp, end)
    ensures Written(m, sp, m, va, [])
  {
    hide Ok;
    forall v: nat | UserPage(sp, v) ensures PageWritten(m, sp, m, v, va, []) {
      UserOf(m, sp, end, v);
      UserBytes(m, sp, end, v);
      assert Patched(m.frames[sp.leaves[v].frame].bytes, v * PGSIZE, va, []) == m.frames[sp.leaves[v].frame].bytes;
    }
  }

  /** The frame of page v with x stored at offset o. */
  ghost function Stored(m: Mem, f: nat, o: nat, x: seq<byte>): Mem
    requires f < |m.frames| && m.frames[f].Data? && o + |x| <= |m.frames[f].bytes|
  {
    var b := m.frames[f].bytes;
    m.(frames := m.frames[f := Data(b[..o] + x + b[o + |x|..])])
  }

  lemma StoredIs(m: Mem, f: nat, o: nat, x: seq<byte>)
    requires f < |m.frames| && m.frames[f].Data? && o + |x| <= |m.frames[f].bytes|
    ensures var b := m.frames[f].bytes;
            Stored(m, f, o, x) == m.(frames := m.frames[f := Data(b[..o] + x + b[o + |x|..])])
  {
  }

  lemma StoredKeepsOk(m: Mem, sp: Space, end: nat, v: nat, o: nat, x: seq<byte>)
    requires Ok(m, sp, end) && UserPage(sp, v) && o + |x| <= PGSIZE
    ensures sp.leaves[v].Present? && sp.leaves[v].frame < |m.frames|
    ensures m.frames[sp.leaves[v].frame].Data? && |m.frames[sp.leaves[v].frame].bytes| == PGSIZE
    ensures Ok(Stored(m, sp.leaves[v].frame, o, x), sp, end)
  {
    UserOf(m, sp, end, v);
    DirectoryOf(m, sp, end);
    hide DirOk, TableOk, Distinct, Used, FreeOk;
  }

  lemma WrittenNext(m: Mem, sp: Space, m1: Mem, end: nat, va: nat, w: seq<byte>, x: seq<byte>, v: nat)
    requires Ok(m1, sp, end) && Written(m, sp, m1, va, w) && UserPage(sp, v)
    requires v * PGSIZE <= va + |w| && va + |w| + |x| <= (v + 1) * PGSIZE
    ensures sp.leaves[v].Present? && sp.leaves[v].frame < |m1.frames|
    ensures m1.frames[sp.leaves[v].frame].Data? && |m1.frames[sp.leaves[v].frame].bytes| == PGSIZE
    ensures Written(m, sp, Stored(m1, sp.leaves[v].frame, va + |w| - v * PGSIZE, x), va, w + x)
  {
    hide Ok;
    var f := sp.leaves[v].frame;
    UserOf(m1, sp, end, v);
    UserBytes(m1, sp, end, v);
    OkFree(m1, sp, end);
    var m2 := Stored(m1, f, va + |w| - v * PGSIZE, x);
    forall p: nat | UserPage(sp, p) ensures PageWritten(m, sp, m2, p, va, w + x) {
      assert PageWritten(m, sp, m1, p, va, w);
      UserOf(m1, sp, end, p);
      UserBytes(m1, sp, end, p);
      PageNext(m, sp, m1, va, w, x, v, p);
    }
  }

  lemma PageNext(m: Mem, sp: Space, m1: Mem, va: nat, w: seq<byte>, x: seq<byte>, v: nat, p: nat)
    requires p in sp.leaves && v in sp.leaves && |m1.frames| == |m.frames|
    requires PageWritten(m, sp, m1, p, va, w)
    requires sp.leaves[v].Present? && sp.leaves[v].frame < |m1.frames|
    requires (p != v ==> sp.leaves[p].frame != sp.leaves[v].frame)
    requires m1.frames[sp.leaves[v].frame].Data? && |m1.frames[sp.leaves[v].frame].bytes| == PGSIZE
    requires m1.frames[sp.leaves[p].frame].Data? && |m1.frames[sp.leaves[p].frame].bytes| == PGSIZE
    requires v * PGSIZE <= va + |w| && va + |w| + |x| <= (v + 1) * PGSIZE
    ensures PageWritten(m, sp, Stored(m1, sp.leaves[v].frame, va + |w| - v * PGSIZE, x), p, va, w + x)
  {
    var m2 := Stored(m1, sp.leaves[v].frame, va + |w| - v * PGSIZE, x);
    var b := m.frames[sp.leaves[p].frame].bytes;
    assert m2.frames[sp.leaves[p].frame].bytes == Patched(b, p * PGSIZE, va, w + x);
  }

  lemma WrittenBalanced(m: Mem, sp: Space, m1: Mem, end: nat, va: nat, w: seq<byte>)
    requires Ok(m1, sp, end) && Written(m, sp, m1, va, w)
    ensures Balanced(m, Owned(sp), m1, Owned(sp))
  {
    forall f | 0 <= f < |m.frames| && f !in IdleSet(m) + Owned(sp) ensures m1.frames[f] == m.frames[f] {
      forall v: nat | UserPage(sp, v) ensures sp.leaves[v].Present? && sp.leaves[v].frame != f {
        UserOf(m1, sp, end, v);
        assert Used(sp, User(v)) && FrameOf(sp, User(v)) == sp.leaves[v].frame;
        assert sp.leaves[v].frame in Owned(sp);
      }
    }
  }
}
