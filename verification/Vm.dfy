/** Address spaces (p2b/kernel/vm.c, p3a/kernel/vm.c) over the frame allocators (p2b/kernel/kalloc.c,
    p3a/kernel/kalloc.c). */
module Vm {
  import opened Basics
  import opened VmSpace
  import opened VmMap
  import opened VmKernel
  import opened VmUser
  import opened VmFork
  import opened VmProtect

  /** A pte_t pointer: a word of a page table, or null. */
  datatype Slot = Null | Slot(table: nat, index: nat)

  class Memory {
    const end: nat    // the first frame behind the kernel
    const data: nat   // the first page of the kernel's data
    const guard: bool // p3a, with its allocator and its copyuvm
    var frames: seq<Frame>
    var freelist: seq<nat>
    ghost var lost: set<nat>

    ghost function Value(): Mem
      reads this
    {
      Mem(frames, freelist, lost, guard)
    }

    // ------------------------------------------------------------------ kalloc

    /** kinit: every frame behind the kernel is free. */
    constructor (end: nat, data: nat, guard: bool)
      requires EXTMEM < data < end <= PHYSTOP
      ensures this.end == end && this.data == data && this.guard == guard && |frames| == PHYSTOP
      ensures FreeOk(freelist, lost, end) && lost == {}
      ensures forall f :: f in freelist <==> end <= f < PHYSTOP
    {
      this.end, this.data, this.guard := end, data, guard;
      frames := seq(PHYSTOP, _ => Raw);
      freelist := [];
      lost := {};
      new;
      var p := end;
      while p + 1 <= PHYSTOP
        invariant end <= p <= PHYSTOP == |frames| && FreeOk(freelist, lost, end) && lost == {}
        invariant forall f :: f in freelist <==> end <= f < p
      {
        Kfree(p);
        p := p + 1;
      }
    }

    /** kfree of a frame that kalloc handed out. */
    method Kfree(f: nat)
      requires |frames| == PHYSTOP && FreeOk(freelist, lost, end) && end <= f < PHYSTOP && !Idle(Value(), f)
      modifies this
      ensures Value() == Push(old(Value()), f) && FreeOk(freelist, lost, end)
    {
      frames := frames[f := Raw];
      freelist := [f] + freelist;
    }

    /** kalloc.  With guard frames it follows the link of the second entry, which must be there if the first is. */
    method Kalloc() returns (r: Option<nat>)
      requires Fed(Value(), 1)
      modifies this`freelist, this`lost
      ensures if old(freelist) == [] then r == None && Value() == old(Value())
              else Ready(old(Value())) && r == Some(old(freelist)[0]) && Value() == Pop(old(Value()))
    {
      if freelist == [] {
        return None;
      }
      r := Some(freelist[0]);
      if guard {
        lost := lost + {freelist[1]};
        freelist := freelist[2..];
      } else {
        freelist := freelist[1..];
      }
    }

    // ------------------------------------------------------------------ walkpgdir, mappages

    /** walkpgdir: the entry of page v, in a table that is created if need be and asked for. */
    method Walkpgdir(dir: nat, v: nat, create: bool, ghost sp: Space) returns (r: Slot, ghost sp2: Space)
      requires Ok(Value(), sp, end) && dir == sp.dir && v < ENDSPACE
      requires create && v / NENTRIES !in sp.tables ==> Fed(Value(), 1)
      modifies this
      ensures Ok(Value(), sp2, end) && sp2.dir == dir && sp2.leaves == sp.leaves
      ensures Balanced(old(Value()), Owned(sp), Value(), Owned(sp2))
      ensures Cost(old(Value()), sp, Value(), sp2) && DataKept(old(Value()), Value())
      ensures r.Slot? ==> v / NENTRIES in sp2.tables && r == Slot(sp2.tables[v / NENTRIES], v % NENTRIES)
      ensures if v / NENTRIES in sp.tables || !create || old(freelist) == []
              then sp2 == sp && Value() == old(Value()) && (r.Slot? <==> v / NENTRIES in sp.tables)
              else r.Slot? && sp2.tables.Keys == sp.tables.Keys + {v / NENTRIES}
    {
      hide Ok, Owned, Balanced, DirOk;
      ghost var m := Value();
      DirectoryEntry(m, sp, end, v / NENTRIES);
      sp2 := sp;
      BalancedRefl(m, Owned(sp));
      var pde := frames[dir].ptes[v / NENTRIES];
      if pde.Present? {
        return Slot(pde.frame, v % NENTRIES), sp;
      }
      if !create {
        return Null, sp;
      }
      var pgtab := Kalloc();
      if pgtab.None? {
        return Null, sp;
      }
      NewTable(m, sp, end, v / NENTRIES);
      NewTableBalanced(m, sp, end, v / NENTRIES);
      frames := frames[pgtab.value := Empty()];
      frames := frames[dir := Write(frames[dir], v / NENTRIES, Present(pgtab.value, true, true))];
      sp2 := sp.(tables := sp.tables[v / NENTRIES := pgtab.value]);
      assert Value() == TableMem(m, sp, v / NENTRIES);
      return Slot(pgtab.value, v % NENTRIES), sp2;
    }

    // One turn of mappages' loop; the entry is not in use, or the original panics with "remap".
    method MapPage(dir: nat, v: nat, pa: nat, w: bool, u: bool, ghost sp: Space) returns (ok: bool, ghost sp2: Space)
      requires Ok(Value(), sp, end) && dir == sp.dir && v < ENDSPACE && v !in sp.leaves
      requires v < USERTOP ==> u && Spare(Value(), sp, pa, end)
      requires v / NENTRIES !in sp.tables ==> Fed(Value(), 1)
      modifies this
      ensures Ok(Value(), sp2, end) && sp2.dir == dir && MappedOne(old(Value()), sp, Value(), sp2, v, pa, w, u, ok)
    {
      hide Ok, Owned, Balanced, Spare, Limbo, Kept, DataKept;
      ghost var m := Value();
      var pte;
      ghost var sp1;
      pte, sp1 := Walkpgdir(dir, v, true, sp);
      ghost var m1 := Value();
      StillSpare(m, sp, m1, sp1, end, v, pa);
      sp2 := sp1;
      if pte.Null? {
        KeptFailed(m, sp, m1, sp1, v, pa);
        return false, sp2;
      }
      EntryOf(m1, sp1, end, v);
      LeafSet(m1, sp1, end, v, Present(pa, w, u));
      frames := frames[pte.table := Write(frames[pte.table], pte.index, Present(pa, w, u))];
      assert Value() == LeafMem(m1, sp1, v, Present(pa, w, u));
      sp2 := sp1.(leaves := sp1.leaves[v := Present(pa, w, u)]);
      DataKeptTrans(m, m1, Value());
      KeptDone(m, sp, m1, sp1, Value(), sp2, v, pa);
      ok := true;
    }

    /** mappages: the pages of [la, la + size) are mapped to consecutive frames from pa on.  It fails exactly
        when the tables that are missing outnumber the free frames. */
    method Mappages(dir: nat, la: nat, size: nat, pa: nat, w: bool, u: bool, ghost sp: Space)
      returns (ok: bool, ghost sp2: Space)
      requires Ok(Value(), sp, end) && dir == sp.dir && 0 < size && la + size <= UINT
      requires forall v :: la / PGSIZE <= v <= (la + size - 1) / PGSIZE ==> v !in sp.leaves
      requires var v := la / PGSIZE; Feeds(Value(), sp, v, (la + size - 1) / PGSIZE - v + 1)
      requires la / PGSIZE < USERTOP ==> size <= PGSIZE && la % PGSIZE == 0 && u && Spare(Value(), sp, pa, end)
      modifies this
      ensures Ok(Value(), sp2, end) && sp2.dir == dir
      ensures var v := la / PGSIZE;
              MappedAll(old(Value()), sp, Value(), sp2, v, (la + size - 1) / PGSIZE - v + 1, pa, w, u, ok)
    {
      hide Ok, Owned, Balanced, Spare, Limbo, Mapping, MappedAll, MappedOne, Kept, Extend, Tables, Fed, Feeds;
      var a, last, frame := la / PGSIZE, (la + size - 1) / PGSIZE, pa;
      ghost var v, m := a, Value();
      FirstFed(m, sp, v, last - v + 1);
      ok, sp2 := MapPage(dir, a, frame, w, u, sp);
      MappingFirst(m, sp, Value(), sp2, v, pa, w, u, ok);
      while ok && a != last
        invariant v <= a <= last && frame == pa + (a - v) && sp2.dir == dir && (a > v ==> v >= USERTOP)
        invariant Ok(Value(), sp2, end)
        invariant Mapping(m, sp, Value(), sp2, v, a - v + 1, pa, w, u, ok)
        decreases last - a, ok
      {
        a, frame := a + 1, frame + 1;
        ghost var m1, sp1 := Value(), sp2;
        MappingLeaves(m, sp, m1, sp1, v, a - v, pa, w, u);
        MappingFed(m, sp, m1, sp1, v, a - v, last - v + 1, pa, w, u);
        ok, sp2 := MapPage(dir, a, frame, w, u, sp2);
        MappingNext(m, sp, m1, sp1, Value(), sp2, v, a - v, pa, w, u, ok);
      }
      MappingResult(m, sp, Value(), sp2, v, a - v + 1, last - v + 1, pa, w, u, ok);
    }

    // ------------------------------------------------------------------ setupkvm

    /** setupkvm: a directory and twelve tables.  With frames for fewer than thirteen calls of kalloc it fails, and
        then every frame that it was given is gone: none of them is idle or belongs to an address space any more. */
    method Setupkvm() returns (r: Option<nat>, ghost sp: Space)
      requires EXTMEM < data < end <= PHYSTOP == |frames| && FreeOk(freelist, lost, end) && Fed(Value(), 13)
      modifies this
      ensures r.None? <==> |old(freelist)| < Price(guard, 13)
      ensures r.None? ==>
                && freelist == [] && FreeOk([], lost, end)
                      && Balanced(old(Value()), {}, Value(), Gone(old(Value()), Value()))
                && (Gone(old(Value()), Value()) == {} <==> old(freelist) == [])
      ensures r.Some? ==>
                && Ok(Value(), sp, end) && sp.dir == r.value && Complete(sp, data)
                && |freelist| + Price(guard, 13) == |old(freelist)|
                && (forall v: nat :: v < USERTOP ==> v !in sp.leaves)
                && Balanced(old(Value()), {}, Value(), Owned(sp))
    {
      hide Ok, Owned, Balanced, KLeaves, KTables, Complete, Building, MappedAll, Kmap, Size, First, Pages, FreeOk,
        Missing;
      ghost var m := Value();
      sp := Space(0, map[], map[]);
      NothingGone(m);
      var pgdir := Kalloc();
      if pgdir.None? {
        return None, sp;
      }
      BuildingFirst(m, end, data);
      frames := frames[pgdir.value := Empty()];
      sp := Space(pgdir.value, map[], map[]);
      var k := 0;
      while k < 4
        invariant 0 <= k <= 4
        invariant Ok(Value(), sp, end) && sp.dir == pgdir.value
        invariant Building(m, Value(), sp, data, k)
      {
        KmapPages(data, k);
        var km := Kmap(data)[k];
        BuildingUnmapped(m, Value(), sp, data, k);
        BuildingFed(m, Value(), sp, data, k);
        ghost var m1, sp1 := Value(), sp;
        var ok;
        ok, sp := Mappages(pgdir.value, km.p, Size(km), km.p / PGSIZE, km.w, false, sp);
        if !ok {
          BuildingFailed(m, m1, sp1, Value(), sp, data, k);
          SpaceGone(m, Value(), sp, end);
          return None, sp;
        }
        BuildingNext(m, m1, sp1, Value(), sp, data, k);
        k := k + 1;
      }
      BuildingDone(m, Value(), sp, data);
      r := Some(pgdir.value);
    }

    // ------------------------------------------------------------------ allocuvm, deallocuvm, freevm

    /** allocuvm: pages of zeros up to newsz.  The result of mappages is not looked at: it cannot fail, because
        the kernel's I/O space has brought the table of all user pages.  When the frames run out, the space and
        the idle frames are what they were. */
    method Allocuvm(dir: nat, oldsz: nat, newsz: nat, ghost sp: Space) returns (r: nat, ghost sp2: Space)
      requires Ok(Value(), sp, end) && Complete(sp, data) && dir == sp.dir && oldsz < UINT && newsz < UINT
      requires forall v :: Up(oldsz) <= v < Up(newsz) ==> v !in sp.leaves
      requires oldsz <= newsz <= USERTOP * PGSIZE ==> Fed(Value(), Up(newsz) - Up(oldsz))
      modifies this
      ensures Ok(Value(), sp2, end) && Complete(sp2, data) && Balanced(old(Value()), Owned(sp), Value(), Owned(sp2))
      ensures newsz > USERTOP * PGSIZE ==> r == 0 && sp2 == sp && Value() == old(Value())
      ensures newsz <= USERTOP * PGSIZE && newsz < oldsz ==> r == oldsz && sp2 == sp && Value() == old(Value())
      ensures oldsz <= newsz <= USERTOP * PGSIZE ==>
                if Price(guard, Up(newsz) - Up(oldsz)) <= |old(freelist)|
                then r == newsz && Grown(old(Value()), sp, Value(), sp2, Up(oldsz), Up(newsz))
                else
                  && r == 0 && SameSpace(sp, sp2)
                  && Restored(old(Value()), Value()) && PagesKept(old(Value()), Value(), sp)
    {
      hide Ok, Complete, Grown, MappedAll, SameSpace, PagesKept, Shrunk, Owned, Restored, Balanced, Missing;
      ghost var m := Value();
      sp2 := sp;
      BalancedRefl(m, Owned(sp));
      if newsz > USERTOP * PGSIZE {
        return 0, sp;
      }
      if newsz < oldsz {
        return oldsz, sp;
      }
      var a := Up(oldsz);
      GrownNone(m, sp, a);
      while a * PGSIZE < newsz
        invariant Up(oldsz) <= a <= Up(newsz) <= USERTOP && dir == sp2.dir
        invariant Ok(Value(), sp2, end) && Grown(m, sp, Value(), sp2, Up(oldsz), a)
      {
        ghost var m1, sp1 := Value(), sp2;
        GrownFacts(m, sp, m1, sp1, data, Up(oldsz), a);
        GrownFed(guard, |m.free|, |m1.free|, a - Up(oldsz), Up(newsz) - Up(oldsz));
        MissingNone(sp1, a);
        var mem := Kalloc();
        if mem.None? {
          var back;
          back, sp2 := Deallocuvm(dir, newsz, oldsz, sp2);
          GrownShrunk(m, sp, m1, sp1, Value(), sp2, end, Up(oldsz), a, Up(newsz));
          SameComplete(sp, sp2, data);
          ShrunkBalanced(m1, sp1, Value(), sp2, Up(oldsz), Up(newsz));
          BalancedTrans(m, Owned(sp), m1, Owned(sp1), Value(), Owned(sp2));
          return 0, sp2;
        }
        SparePage(m1, sp1, end, Zero());
        frames := frames[mem.value := Zero()];
        ghost var m3 := Value();
        var mapped;
        mapped, sp2 := Mappages(dir, a * PGSIZE, PGSIZE, mem.value, true, true, sp2);
        MappagesSucceeds(m3, sp1, Value(), sp2, a, mem.value, true, mapped);
        GrownNext(m, sp, m1, sp1, Value(), sp2, end, Up(oldsz), a);
        a := a + 1;
      }
      GrownFacts(m, sp, Value(), sp2, data, Up(oldsz), a);
      r := newsz;
    }

    /** deallocuvm: the pages behind newsz go back to the free list. */
    method Deallocuvm(dir: nat, oldsz: nat, newsz: nat, ghost sp: Space) returns (r: nat, ghost sp2: Space)
      requires Ok(Value(), sp, end) && dir == sp.dir && oldsz <= USERTOP * PGSIZE
      modifies this
      ensures Ok(Value(), sp2, end) && sp2.dir == dir && r == if newsz >= oldsz then oldsz else newsz
      ensures newsz >= oldsz ==> sp2 == sp && Value() == old(Value())
      ensures newsz < oldsz ==> Shrunk(old(Value()), sp, Value(), sp2, Up(newsz), Up(oldsz))
    {
      hide Ok, Shrunk, Owned;
      sp2 := sp;
      if newsz >= oldsz {
        return oldsz, sp;
      }
      ghost var m := Value();
      var a := Up(newsz);
      ShrunkNone(m, sp, a);
      while a * PGSIZE < oldsz
        invariant Up(newsz) <= a <= Up(oldsz) <= USERTOP && dir == sp2.dir
        invariant Ok(Value(), sp2, end) && Shrunk(m, sp, Value(), sp2, Up(newsz), a)
      {
        sp2 := DropPage(dir, a, m, sp, sp2, Up(newsz));
        a := a + 1;
      }
      r := newsz;
    }

    // One turn of deallocuvm.
    method DropPage(dir: nat, a: nat, ghost m: Mem, ghost sp: Space, ghost sp1: Space, ghost lo: nat)
      returns (ghost sp2: Space)
      requires Ok(Value(), sp1, end) && dir == sp1.dir && lo <= a < USERTOP && Shrunk(m, sp, Value(), sp1, lo, a)
      modifies this
      ensures Ok(Value(), sp2, end) && dir == sp2.dir && Shrunk(m, sp, Value(), sp2, lo, a + 1)
    {
      hide Ok, Shrunk, Owned;
      ghost var m1 := Value();
      var pte;
      pte, sp2 := Walkpgdir(dir, a, false, sp1);
      UserEntry(m1, sp1, end, a);
      if pte.Slot? {
        var e := frames[pte.table].ptes[pte.index];
        if e.Present? {
          ShrunkNext(m, sp, m1, sp1, end, lo, a);
          UserOf(m1, sp1, end, a);
          OkFree(m1, sp1, end);
          Kfree(e.frame);
          frames := frames[pte.table := Write(frames[pte.table], pte.index, Absent)];
          sp2 := sp1.(leaves := sp1.leaves - {a});
          assert Value() == DropMem(m1, sp1, a);
          return;
        }
      }
      ShrunkSkip(m, sp, m1, sp1, lo, a);
    }

    /** freevm: every frame of the address space goes back to the free list. */
    method Freevm(dir: nat, ghost sp: Space)
      requires Ok(Value(), sp, end) && dir == sp.dir
      modifies this
      ensures |frames| == PHYSTOP && FreeOk(freelist, lost, end)
      ensures Balanced(old(Value()), Owned(sp), Value(), {})
    {
      hide Ok, Shrunk, Owned, Balanced, Freeing, FreeOk;
      ghost var m := Value();
      var sz;
      ghost var sp1;
      sz, sp1 := Deallocuvm(dir, USERTOP * PGSIZE, 0, sp);
      ghost var m1 := Value();
      ShrunkAll(m, sp, m1, sp1);
      FreeingNone(m1, sp1, end);
      OkFree(m1, sp1, end);
      var i := 0;
      while i < NENTRIES
        invariant 0 <= i <= NENTRIES && |frames| == PHYSTOP && FreeOk(freelist, lost, end)
        invariant Freeing(m1, sp1, Value(), end, i)
      {
        FreeingNext(m1, sp1, Value(), end, i);
        var pde := frames[dir].ptes[i];
        if pde.Present? {
          Kfree(pde.frame);
        }
        i := i + 1;
      }
      FreeingDone(m1, sp1, Value(), end);
      Kfree(dir);
      BalancedTrans(m, Owned(sp), m1, Owned(sp1), Value(), {});
    }

    /** copyuvm: the child gets a copy of every page below sz in a frame of its own.  It fails exactly when there
        are too few frames; unless they run out in setupkvm, the idle frames are then what they were. */
    method Copyuvm(dir: nat, sz: nat, ghost sp: Space) returns (r: Option<nat>, ghost child: Space)
      requires EXTMEM < data < end && Ok(Value(), sp, end) && dir == sp.dir && sz <= USERTOP * PGSIZE
      requires (forall v: nat :: v < Up(sz) ==> v in sp.leaves) && Fed(Value(), 13 + Up(sz))
      modifies this
      ensures r.Some? <==> |old(freelist)| >= Price(guard, 13 + Up(sz))
      ensures r.Some? ==>
                r == Some(child.dir) && Ok(Value(), child, end)
                && Copied(old(Value()), sp, Value(), child, data, Up(sz))
      ensures Ok(Value(), sp, end) && PagesKept(old(Value()), Value(), sp)
      ensures r.None? ==> Balanced(old(Value()), {}, Value(), Gone(old(Value()), Value()))
      ensures r.None? ==>
                (Gone(old(Value()), Value()) == {} <==> old(freelist) == [] || |old(freelist)| >= Price(guard, 13))
      ensures r.None? && |old(freelist)| >= Price(guard, 13) ==> Restored(old(Value()), Value())
    {
      hide Ok, Owned, Balanced, Copied, PagesKept, MappedAll, Complete, FreeOk, Restored;
      ghost var m := Value();
      OkFree(m, sp, end);
      var d;
      d, child := Setupkvm();
      if d.None? {
        SpaceKept(m, {}, Value(), Gone(m, Value()), sp, end);
        return None, child;
      }
      CopiedNone(m, sp, Value(), child, data);
      var i := 0;
      while i * PGSIZE < sz
        invariant 0 <= i <= Up(sz) <= USERTOP
        invariant child.dir == d.value && Ok(Value(), child, end) && Copied(m, sp, Value(), child, data, i)
      {
        CopiedFacts(m, sp, Value(), child, data, end, i);
        var ok;
        ok, child := CopyPage(dir, d.value, i, Up(sz), m, sp, child);
        if !ok {
          CopyUndone(m, sp, Value(), data, end);
          return None, child;
        }
        i := i + 1;
      }
      CopiedKeeps(m, sp, Value(), child, data, end, i);
      r := d;
    }

    // One turn of copyuvm; when the frames run out, the child is freed.
    method CopyPage(dir: nat, d: nat, i: nat, ghost n: nat, ghost m: Mem, ghost sp: Space, ghost c1: Space)
      returns (ok: bool, ghost c2: Space)
      requires Ok(m, sp, end) && dir == sp.dir && i < n <= USERTOP && i in sp.leaves && Fed(m, 13 + n)
      requires c1.dir == d && Ok(Value(), c1, end) && Copied(m, sp, Value(), c1, data, i)
      modifies this
      ensures ok ==> c2.dir == d && Ok(Value(), c2, end) && Copied(m, sp, Value(), c2, data, i + 1)
      ensures !ok ==> |m.free| == Price(guard, 13 + i) && FreeOk(freelist, lost, end) && Balanced(m, {}, Value(), {})
    {
      hide Ok, Owned, Balanced, Copied, PagesKept, MappedAll, Complete, FreeOk, Spare, Missing;
      ghost var m1 := Value();
      c2 := c1;
      CopiedFacts(m, sp, m1, c1, data, end, i);
      CopiedCount(m, sp, m1, c1, data, i);
      GrownFed(guard, |m.free|, |m1.free|, 13 + i, 13 + n);
      MissingNone(c1, i);
      var pte;
      ghost var sp1;
      pte, sp1 := Walkpgdir(dir, i, false, sp);
      UserEntry(m1, sp, end, i);
      var e := frames[pte.table].ptes[pte.index];
      var mem := Kalloc();
      if mem.None? {
        Freevm(d, c1);
        BalancedTrans(m, {}, m1, Owned(c1), Value(), {});
        return false, c1;
      }
      SparePage(m1, c1, end, frames[e.frame]);
      frames := frames[mem.value := frames[e.frame]];
      ghost var m3 := Value();
      var w := !guard || e.w;
      ok, c2 := Mappages(d, i * PGSIZE, PGSIZE, mem.value, w, true, c1);
      MappagesSucceeds(m3, c1, Value(), c2, i, mem.value, w, ok);
      CopiedNext(m, sp, m1, c1, m1.frames[e.frame], Value(), c2, data, end, i, w);
    }

    // ------------------------------------------------------------------ mprotect, copyout

    /** mprotect of p3a: len pages from addr on, byte by byte.  The original compares len pages, but not their
        end, with the size sz; a page without a table would make it follow a null pointer. */
    method Mprotect(dir: nat, addr: nat, len: int, sz: nat, ghost sp: Space) returns (ok: bool, ghost sp2: Space)
      requires Ok(Value(), sp, end) && dir == sp.dir && addr < UINT && len * PGSIZE < UINT / 2
      requires addr + len * PGSIZE <= UINT
      requires forall v: nat :: addr / PGSIZE <= v < addr / PGSIZE + len ==> v / NENTRIES in sp.tables
      modifies this`frames
      ensures ok <==> addr % 4096 == 0 && len >= 1 && len * 4096 <= sz
      ensures !ok ==> sp2 == sp && Value() == old(Value())
      ensures ok ==> forall v: nat :: v in sp.leaves && sp.leaves[v].Present? ==>
                v in sp2.leaves && sp2.leaves[v] ==
                  if addr <= v * 4096 < addr + len * 4096 then sp.leaves[v].(w := false) else sp.leaves[v]
      ensures ok ==>
                Ok(Value(), sp2, end) && Protected(old(Value()), sp, Value(), sp2, addr / PGSIZE, addr / PGSIZE + len)
    {
      hide Ok, Protected;
      sp2 := sp;
      if addr % PGSIZE != 0 {
        return false, sp;
      }
      if len <= 0 {
        return false, sp;
      }
      if len * PGSIZE > sz {
        return false, sp;
      }
      ghost var m, lo := Value(), addr / PGSIZE;
      ProtectedNone(m, sp, lo);
      var i := 0;
      while i < len * PGSIZE
        invariant 0 <= i <= len * PGSIZE && dir == sp2.dir
        invariant Ok(Value(), sp2, end) && Protected(m, sp, Value(), sp2, lo, lo + Up(i))
      {
        ProtectedTables(m, sp, Value(), sp2, lo, lo + Up(i));
        PageOfByte(addr, lo, i);
        sp2 := MprotectHelper(dir, addr + i, m, sp, sp2, lo, lo + Up(i));
        i := i + 1;
      }
      assert Up(i) == len;
      ProtectedPages(m, sp, Value(), sp2, lo, lo + len);
      ok := true;
    }

    // mprotect_helper, within the loop of mprotect.
    method MprotectHelper(dir: nat, addr: nat, ghost m: Mem, ghost sp: Space, ghost sp1: Space, ghost lo: nat,
                          ghost hi: nat)
      returns (ghost sp2: Space)
      requires Ok(Value(), sp1, end) && dir == sp1.dir && addr < UINT && Protected(m, sp, Value(), sp1, lo, hi)
      requires lo <= addr / PGSIZE <= hi && addr / PGSIZE / NENTRIES in sp1.tables
      modifies this`frames
      ensures Ok(Value(), sp2, end) && sp2.dir == dir
      ensures Protected(m, sp, Value(), sp2, lo, if addr / PGSIZE == hi then hi + 1 else hi)
    {
      hide Ok, Protected;
      ghost var m1 := Value();
      var v := addr / PGSIZE;
      DirectoryEntry(m1, sp1, end, v / NENTRIES);
      ClearKeepsOk(m1, sp1, end, v);
      ProtectedNext(m, sp, m1, sp1, end, lo, hi, v);
      var t := frames[dir].ptes[v / NENTRIES].frame;
      var p := frames[t].ptes[v % NENTRIES];
      frames := frames[t := Write(frames[t], v % NENTRIES, ReadOnly(p))];
      sp2 := Cleared(sp1, v);
      assert Value() == LeafMem(m1, sp1, v, ReadOnly(Leaf(sp1.leaves, v)));
    }

    /** uva2ka: the frame of a page that the user may access. */
    method Uva2ka(dir: nat, v: nat, ghost sp: Space) returns (r: Option<nat>)
      requires Ok(Value(), sp, end) && Complete(sp, data) && dir == sp.dir && v < ENDSPACE && v / NENTRIES in sp.tables
      ensures r.Some? <==> UserPage(sp, v)
      ensures r.Some? ==> r == Some(sp.leaves[v].frame)
    {
      hide Ok;
      DirectoryEntry(Value(), sp, end, v / NENTRIES);
      EntryOf(Value(), sp, end, v);
      if v in sp.leaves && v < USERTOP {
        UserOf(Value(), sp, end, v);
        UserBytes(Value(), sp, end, v);
      }
      var p := frames[frames[dir].ptes[v / NENTRIES].frame].ptes[v % NENTRIES];
      if !p.Present? || !p.u {
        return None;
      }
      return Some(p.frame);
    }

    /** copyout: src is stored at virtual address va, up to the first page that is not the user's.  The write
        bit of a page is not looked at. */
    method Copyout(dir: nat, va: nat, src: seq<byte>, ghost sp: Space) returns (ok: bool, ghost k: nat)
      requires Ok(Value(), sp, end) && Complete(sp, data) && dir == sp.dir && va + |src| <= UINT
      requires HasTables(sp, va, |src|)
      modifies this`frames
      ensures Ok(Value(), sp, end) && k <= |src| && Written(old(Value()), sp, Value(), va, src[..k])
      ensures Balanced(old(Value()), Owned(sp), Value(), Owned(sp))
      ensures ok <==> k == |src|
      ensures UserPages(sp, va, k)
      ensures !ok ==> !UserPage(sp, (va + k) / PGSIZE)
    {
      hide Ok, Written, Complete, Balanced, Owned, HasTables, UserPages, Stored;
      ghost var m := Value();
      k := 0;
      var done := 0;
      WrittenNone(m, sp, end, va);
      NoPages(sp, va);
      assert src[..0] == [];
      while done < |src|
        invariant 0 <= done <= |src| && k == done
        invariant Ok(Value(), sp, end) && Complete(sp, data) && Written(m, sp, Value(), va, src[..done])
        invariant done == 0 || done == |src| || (va + done) % PGSIZE == 0
        invariant UserPages(sp, va, done)
      {
        var a := va + done;
        var v := a / PGSIZE;
        TableOfByte(sp, va, |src|, done);
        var pa := Uva2ka(dir, v, sp);
        if pa.None? {
          WrittenBalanced(m, sp, Value(), end, va, src[..k]);
          return false, k;
        }
        var n := PGSIZE - (a - v * PGSIZE);
        if n > |src| - done {
          n := |src| - done;
        }
        var x := src[done..done + n];
        WrittenNext(m, sp, Value(), end, va, src[..done], x, v);
        StoredKeepsOk(Value(), sp, end, v, a - v * PGSIZE, x);
        var b := frames[pa.value].bytes;
        StoredIs(Value(), pa.value, a - v * PGSIZE, x);
        frames := frames[pa.value := Data(b[..a - v * PGSIZE] + x + b[a - v * PGSIZE + n..])];
        assert src[..done] + x == src[..done + n];
        UserPagesNext(sp, va, done, n);
        done := done + n;
        k := done;
      }
      assert src[..|src|] == src;
      WrittenBalanced(m, sp, Value(), end, va, src);
      ok := true;
    }
  }
}
