/** Address spaces as the processor sees them: what the user of a page directory reads at every address before and
    after each operation of p2b/kernel/vm.c and p3a/kernel/vm.c. */
module VmMeaning {
  import opened Basics
  import opened VmSpace
  import opened VmMap
  import opened VmKernel
  import opened VmUser
  import opened VmFork
  import opened VmProtect

  /** Entry i of the table in frame t. */
  function EntryAt(frames: seq<Frame>, t: nat, i: nat): Pte {
    if t < |frames| && frames[t].Table? && i < |frames[t].ptes| then frames[t].ptes[i] else Absent
  }

  /** The walk of the processor: the upper ten bits of the page number index the directory, the lower ten the table.
      A right must be given at both levels. */
  function Walk(frames: seq<Frame>, dir: nat, v: nat): Pte {
    match EntryAt(frames, dir, v / 1024)
    case Absent => Absent
    case Present(t, w, u) =>
      match EntryAt(frames, t, v % 1024)
      case Absent => Absent
      case Present(f, w', u') => Present(f, w && w', u && u')
  }

  /** The byte that the user reads at address a, if the page may be read. */
  function Read(m: Mem, dir: nat, a: nat): Option<byte> {
    var p := Walk(m.frames, dir, a / 4096);
    if p.Present? && p.u && p.frame < |m.frames| && m.frames[p.frame].Data? && |m.frames[p.frame].bytes| == 4096
    then Some(m.frames[p.frame].bytes[a % 4096]) else None
  }

  /** The user may write at address a. */
  predicate MayWrite(m: Mem, dir: nat, a: nat) {
    Read(m, dir, a).Some? && Walk(m.frames, dir, a / 4096).w
  }

  /** The first address of the page of a. */
  function Base(a: nat): nat {
    a / 4096 * 4096
  }

  // ------------------------------------------------------------------ the walk and the space

  /** The processor finds the mappings of the space. */
  lemma WalkIs(m: Mem, sp: Space, end: nat, v: nat)
    requires Ok(m, sp, end)
    ensures Walk(m.frames, sp.dir, v) == Leaf(sp.leaves, v)
  {
    hide Ok, Leaf, EntryAt;
    DirectoryAt(m, sp, end, v / 1024);
    if v / 1024 in sp.tables {
      TableAt(m, sp, end, v);
    } else {
      Unmapped(m, sp, end, v);
    }
  }

  lemma DirectoryAt(m: Mem, sp: Space, end: nat, i: nat)
    requires Ok(m, sp, end)
    ensures EntryAt(m.frames, sp.dir, i) == if i in sp.tables then Present(sp.tables[i], true, true) else Absent
  {
    if i < NENTRIES {
      DirectoryEntry(m, sp, end, i);
    } else {
      assert i !in sp.tables;
      DirectoryEntry(m, sp, end, 0);
    }
    hide Ok;
  }

  lemma TableAt(m: Mem, sp: Space, end: nat, v: nat)
    requires Ok(m, sp, end) && v / 1024 in sp.tables
    ensures EntryAt(m.frames, sp.tables[v / 1024], v % 1024) == Leaf(sp.leaves, v)
  {
    hide Ok;
    EntryOf(m, sp, end, v);
  }

  lemma Unmapped(m: Mem, sp: Space, end: nat, v: nat)
    requires Ok(m, sp, end) && v / 1024 !in sp.tables
    ensures Leaf(sp.leaves, v) == Absent
  {
  }

  /** The user reads the bytes of his pages and nothing else. */
  lemma ReadIs(m: Mem, sp: Space, end: nat, a: nat)
    requires Ok(m, sp, end)
    ensures UserPage(sp, a / 4096) ==>
              && sp.leaves[a / 4096].Present? && sp.leaves[a / 4096].frame < |m.frames|
              && m.frames[sp.leaves[a / 4096].frame].Data? && |m.frames[sp.leaves[a / 4096].frame].bytes| == 4096
              && Read(m, sp.dir, a) == Some(m.frames[sp.leaves[a / 4096].frame].bytes[a % 4096])
    ensures Leaf(sp.leaves, a / 4096).Absent? ==> Read(m, sp.dir, a) == None
    ensures Leaf(sp.leaves, a / 4096).Present? && !Leaf(sp.leaves, a / 4096).u ==> Read(m, sp.dir, a) == None
    ensures MayWrite(m, sp.dir, a) <==> Read(m, sp.dir, a).Some? && Leaf(sp.leaves, a / 4096).w
  {
    hide Ok, Walk;
    WalkIs(m, sp, end, a / 4096);
    if UserPage(sp, a / 4096) {
      UserBytes(m, sp, end, a / 4096);
    }
  }

  /** Outside the user pages of a complete space nothing can be read. */
  lemma ReadNothing(m: Mem, sp: Space, end: nat, data: nat, a: nat)
    requires Ok(m, sp, end) && Complete(sp, data) && !UserPage(sp, a / 4096)
    ensures Read(m, sp.dir, a) == None
  {
    ReadIs(m, sp, end, a);
    hide Ok, Read;
  }

  /** The kernel is mapped at its own addresses, out of the user's reach: below 1 MB and from its data to PHYSTOP
      for writing, its text and constants for reading, devices for writing, and nothing else. */
  lemma KernelMeaning(m: Mem, sp: Space, end: nat, data: nat, v: nat)
    requires Ok(m, sp, end) && Complete(sp, data) && EXTMEM < data < PHYSTOP && v >= 0xA0000 / 4096
    ensures var a, p := v * 4096, Walk(m.frames, sp.dir, v);
            if 0xA0000 <= a < 0x100000 then p == Present(v, true, false)
            else if 0x100000 <= a < data * 4096 then p == Present(v, false, false)
            else if data * 4096 <= a < 0x1000000 then p == Present(v, true, false)
            else if 0xFE000000 <= a < 0x1_0000_0000 then p == Present(v, true, false)
            else p == Absent
  {
    WalkIs(m, sp, end, v);
    hide Ok, Walk;
  }

  /** PGROUNDUP: the fewest pages that hold sz bytes. */
  lemma UpMeaning(sz: nat)
    ensures (Up(sz) - 1) * 4096 < sz <= Up(sz) * 4096
  {
  }

  /** A page lies between the rounded sizes exactly when it starts between the sizes. */
  lemma PageBetween(lo: nat, hi: nat, a: nat)
    ensures Up(lo) <= a / 4096 < Up(hi) <==> lo <= Base(a) < hi
  {
  }

  // ------------------------------------------------------------------ allocuvm and deallocuvm

  /** allocuvm from oldsz to newsz: every new page reads as zeros and may be written; at all other addresses the
      user reads what he read before. */
  lemma AllocReads(m: Mem, sp: Space, m1: Mem, sp1: Space, end: nat, data: nat, oldsz: nat, newsz: nat, a: nat)
    requires Ok(m, sp, end) && Complete(sp, data) && Ok(m1, sp1, end) && Complete(sp1, data)
    requires oldsz <= newsz <= USERTOP * PGSIZE && Grown(m, sp, m1, sp1, Up(oldsz), Up(newsz))
    ensures sp1.dir == sp.dir
    ensures Read(m1, sp.dir, a) == if oldsz <= Base(a) < newsz then Some(0) else Read(m, sp.dir, a)
    ensures MayWrite(m1, sp.dir, a) <==> oldsz <= Base(a) < newsz || MayWrite(m, sp.dir, a)
  {
    var v := a / 4096;
    hide Ok, Complete, Read, MayWrite, Balanced, DataKept, Owned;
    PageBetween(oldsz, newsz, a);
    ReadIs(m1, sp1, end, a);
    ReadIs(m, sp, end, a);
    if oldsz <= Base(a) < newsz {
      assert ZeroPage(m, m1, sp1.leaves[v]);
    } else if UserPage(sp, v) {
      GrownKeeps(m, sp, m1, end, v);
      assert Leaf(sp1.leaves, v) == Leaf(sp.leaves, v);
    } else {
      ReadNothing(m, sp, end, data, a);
      ReadNothing(m1, sp1, end, data, a);
    }
  }

  /** deallocuvm from oldsz to newsz: the pages that start between them cannot be read any more; at all other
      addresses the user reads what he read before. */
  lemma DeallocReads(m: Mem, sp: Space, m1: Mem, sp1: Space, end: nat, data: nat, oldsz: nat, newsz: nat, a: nat)
    requires Ok(m, sp, end) && Complete(sp, data) && Ok(m1, sp1, end)
    requires newsz < oldsz <= USERTOP * PGSIZE && Shrunk(m, sp, m1, sp1, Up(newsz), Up(oldsz))
    ensures sp1.dir == sp.dir
    ensures Read(m1, sp.dir, a) == if newsz <= Base(a) < oldsz then None else Read(m, sp.dir, a)
    ensures MayWrite(m1, sp.dir, a) <==> MayWrite(m, sp.dir, a) && !(newsz <= Base(a) < oldsz)
  {
    var v := a / 4096;
    hide Ok, Complete, Read, Balanced, Owned;
    PageBetween(newsz, oldsz, a);
    assert Leaf(sp1.leaves, v) == if Up(newsz) <= v < Up(oldsz) then Absent else Leaf(sp.leaves, v);
    ReadIs(m1, sp1, end, a);
    ReadIs(m, sp, end, a);
    if !UserPage(sp, v) {
      ReadNothing(m, sp, end, data, a);
      OtherNothing(m, sp, m1, sp1, end, data, a);
    }
  }

  /** A page that is mapped as before and was not the user's is still not the user's. */
  lemma OtherNothing(m: Mem, sp: Space, m1: Mem, sp1: Space, end: nat, data: nat, a: nat)
    requires Ok(m, sp, end) && Complete(sp, data) && !UserPage(sp, a / 4096) && Ok(m1, sp1, end)
    requires Leaf(sp1.leaves, a / 4096) in {Absent, Leaf(sp.leaves, a / 4096), ReadOnly(Leaf(sp.leaves, a / 4096))}
    ensures Read(m1, sp1.dir, a) == None
  {
    ReadIs(m1, sp1, end, a);
    hide Ok, Read;
  }

  // ------------------------------------------------------------------ copyuvm

  /** copyuvm: below sz the child reads what the parent reads, and above it nothing.  It may write what it reads;
      with p3a's copyuvm only where the parent may. */
  lemma CopyReads(m: Mem, sp: Space, m1: Mem, child: Space, end: nat, data: nat, sz: nat, a: nat)
    requires Ok(m, sp, end) && Ok(m1, child, end) && sz <= USERTOP * PGSIZE && Copied(m, sp, m1, child, data, Up(sz))
    ensures Base(a) < sz ==> Read(m, sp.dir, a).Some?
    ensures Read(m1, child.dir, a) == if Base(a) < sz then Read(m, sp.dir, a) else None
    ensures MayWrite(m1, child.dir, a) <==> Base(a) < sz && (m.guard ==> MayWrite(m, sp.dir, a))
  {
    var v := a / 4096;
    hide Ok, Complete, Copied, CopiedPage, Read, Walk, MayWrite;
    CopiedParts(m, sp, m1, child, data, Up(sz), v);
    PageBetween(0, sz, a);
    ReadIs(m1, child, end, a);
    if Base(a) < sz {
      ReadIs(m, sp, end, a);
      CopiedByte(m, sp.leaves[v], m1, child.leaves[v]);
    } else {
      ReadNothing(m1, child, end, data, a);
    }
  }

  /** The parent reads and may write what it did before. */
  lemma ParentReads(m: Mem, sp: Space, m1: Mem, end: nat, data: nat, a: nat)
    requires Ok(m, sp, end) && Complete(sp, data) && Ok(m1, sp, end) && PagesKept(m, m1, sp)
    ensures Read(m1, sp.dir, a) == Read(m, sp.dir, a) && (MayWrite(m1, sp.dir, a) <==> MayWrite(m, sp.dir, a))
  {
    hide Ok, Complete, Read, Walk, MayWrite;
    ReadIs(m, sp, end, a);
    ReadIs(m1, sp, end, a);
    if !UserPage(sp, a / 4096) {
      ReadNothing(m, sp, end, data, a);
      ReadNothing(m1, sp, end, data, a);
    }
  }

  lemma CopiedByte(m: Mem, parent: Pte, m1: Mem, pte: Pte)
    requires CopiedPage(m, parent, m1, pte)
    ensures parent.Present? && pte.Present? && pte.w == (!m.guard || parent.w)
    ensures pte.frame < |m1.frames| && parent.frame < |m.frames| && m1.frames[pte.frame] == m.frames[parent.frame]
  {
  }

  lemma CopiedParts(m: Mem, sp: Space, m1: Mem, child: Space, data: nat, n: nat, v: nat)
    requires Copied(m, sp, m1, child, data, n) && n <= USERTOP
    ensures Complete(child, data)
    ensures v < n ==> UserPage(sp, v) && UserPage(child, v) && CopiedPage(m, sp.leaves[v], m1, child.leaves[v])
    ensures v >= n ==> !UserPage(child, v)
  {
    hide Complete, Balanced, CopiedPage, Owned;
  }

  /** No page of the child lies in a frame of the parent, so neither sees what the other writes. */
  lemma CopyIsPrivate(m: Mem, sp: Space, m1: Mem, child: Space, end: nat, data: nat, n: nat, v: nat, x: nat)
    requires Ok(m, sp, end) && Ok(m1, child, end) && Ok(m1, sp, end)
    requires n <= USERTOP && Copied(m, sp, m1, child, data, n) && v < n && UserPage(sp, x)
    ensures Walk(m1.frames, child.dir, v).Present? && Walk(m1.frames, sp.dir, x).Present?
    ensures Walk(m1.frames, child.dir, v).frame != Walk(m1.frames, sp.dir, x).frame
  {
    CopiedParts(m, sp, m1, child, data, n, v);
    hide Ok, Copied, Walk;
    WalkIs(m1, child, end, v);
    WalkIs(m1, sp, end, x);
    UserOf(m, sp, end, x);
  }

  // ------------------------------------------------------------------ mprotect and copyout

  /** mprotect: the user reads what he read before, and may write what he might outside the range. */
  lemma ProtectReads(m: Mem, sp: Space, m1: Mem, sp1: Space, end: nat, data: nat, addr: nat, len: nat, a: nat)
    requires Ok(m, sp, end) && Complete(sp, data) && Ok(m1, sp1, end) && addr % 4096 == 0
    requires Protected(m, sp, m1, sp1, addr / PGSIZE, addr / PGSIZE + len)
    ensures sp1.dir == sp.dir && Read(m1, sp.dir, a) == Read(m, sp.dir, a)
    ensures MayWrite(m1, sp.dir, a) <==> MayWrite(m, sp.dir, a) && !(addr <= a < addr + len * 4096)
  {
    var v := a / 4096;
    ProtectedFacts(m, sp, m1, sp1, addr / PGSIZE, addr / PGSIZE + len, v);
    hide Ok, Complete, Protected, Read;
    ReadIs(m, sp, end, a);
    ReadIs(m1, sp1, end, a);
    if UserPage(sp, v) {
      GrownKeeps(m, sp, m1, end, v);
    } else {
      ReadNothing(m, sp, end, data, a);
      OtherNothing(m, sp, m1, sp1, end, data, a);
    }
  }

  lemma ProtectedFacts(m: Mem, sp: Space, m1: Mem, sp1: Space, lo: nat, hi: nat, v: nat)
    requires Protected(m, sp, m1, sp1, lo, hi)
    ensures sp1.dir == sp.dir && DataKept(m, m1)
    ensures Leaf(sp1.leaves, v) == if lo <= v < hi then ReadOnly(Leaf(sp.leaves, v)) else Leaf(sp.leaves, v)
  {
    hide DataKept, Balanced, Owned;
  }

  /** copyout: the user reads w from va on, and at all other addresses what he read before. */
  lemma CopyoutReads(m: Mem, sp: Space, m1: Mem, end: nat, data: nat, va: nat, w: seq<byte>, a: nat)
    requires Ok(m, sp, end) && Complete(sp, data) && Ok(m1, sp, end)
    requires Written(m, sp, m1, va, w) && UserPages(sp, va, |w|)
    ensures Read(m1, sp.dir, a) == if va <= a < va + |w| then Some(w[a - va]) else Read(m, sp.dir, a)
    ensures MayWrite(m1, sp.dir, a) <==> MayWrite(m, sp.dir, a)
  {
    var v := a / 4096;
    hide Ok, Complete, Written, Read, PageWritten, Patched;
    ReadIs(m, sp, end, a);
    ReadIs(m1, sp, end, a);
    if UserPage(sp, v) {
      WrittenByte(m, sp, m1, va, w, a);
    } else {
      ReadNothing(m, sp, end, data, a);
      ReadNothing(m1, sp, end, data, a);
      OutsideWrite(sp, va, |w|, a);
    }
  }

  /** The bytes that are stored lie in user pages. */
  lemma OutsideWrite(sp: Space, va: nat, n: nat, a: nat)
    requires UserPages(sp, va, n) && !UserPage(sp, a / 4096)
    ensures !(va <= a < va + n)
  {
  }

  lemma WrittenByte(m: Mem, sp: Space, m1: Mem, va: nat, w: seq<byte>, a: nat)
    requires Written(m, sp, m1, va, w) && UserPage(sp, a / 4096)
    requires sp.leaves[a / 4096].Present? && sp.leaves[a / 4096].frame < |m.frames|
    requires m.frames[sp.leaves[a / 4096].frame].Data? && |m.frames[sp.leaves[a / 4096].frame].bytes| == 4096
    ensures var f := sp.leaves[a / 4096].frame;
            && |m1.frames| == |m.frames| && m1.frames[f].Data? && |m1.frames[f].bytes| == 4096
            && m1.frames[f].bytes[a % 4096]
                 == if va <= a < va + |w| then w[a - va] else m.frames[f].bytes[a % 4096]
  {
    WrittenPage(m, sp, m1, va, w, a / 4096);
    hide Written;
    assert a / 4096 * PGSIZE + a % 4096 == a;
  }

  lemma WrittenPage(m: Mem, sp: Space, m1: Mem, va: nat, w: seq<byte>, v: nat)
    requires Written(m, sp, m1, va, w)
    ensures |m1.frames| == |m.frames| && (UserPage(sp, v) ==> PageWritten(m, sp, m1, v, va, w))
  {
    hide PageWritten;
  }

  // ------------------------------------------------------------------ the free list

  /** The frame freed last is handed out first, and what follows it in the list stays. */
  lemma FreedFirst(m: Mem, f: nat)
    requires f < |m.frames| && !m.guard
    ensures Ready(Push(m, f)) && Push(m, f).free[0] == f && Pop(Push(m, f)).free == m.free
    ensures Pop(Push(m, f)).lost == m.lost
  {
  }
}
