/** A machine with any number of address spaces: every call of `Vm.Memory`, on any space, extends a run of `VmRuns`. */
module VmMachine {
  import opened Basics
  import opened VmSpace
  import opened VmMap
  import opened VmKernel
  import opened VmUser
  import opened VmFork
  import opened VmProtect
  import opened Vm
  import opened VmRuns
  import GuardAlloc

  class Machine {
    const mem: Memory
    ghost var spaces: set<Space>
    ghost var gone: set<nat>
    ghost var states: seq<System>
    ghost var calls: seq<Call>

    ghost function Now(): System
      reads this, mem
    {
      System(mem.Value(), spaces, gone)
    }

    /** The calls so far are a run from kinit to the present state. */
    ghost predicate Valid()
      reads this, mem
    {
      && EXTMEM < mem.data < mem.end <= PHYSTOP == |mem.frames|
      && Run(states, calls, mem.end) && states[|calls|] == Now() && Booted(states[0], mem.end)
    }

    /** kinit */
    constructor (end: nat, data: nat, guard: bool)
      requires EXTMEM < data < end <= PHYSTOP
      ensures Valid() && fresh(mem) && spaces == {} && gone == {} && calls == []
      ensures mem.end == end && mem.data == data && mem.guard == guard
    {
      var m := new Memory(end, data, guard);
      mem, spaces, gone, calls := m, {}, {}, [];
      states := [System(m.Value(), {}, {})];
    }

    // The call c has led from the state was to the present one.
    ghost method Extend(was: System, c: Call)
      requires Run(states, calls, mem.end) && states[|calls|] == was && Booted(states[0], mem.end)
      requires EXTMEM < mem.data < mem.end <= PHYSTOP == |was.mem.frames| && Step(was, c, Now(), mem.end)
      modifies this`states, this`calls
      ensures Valid() && calls == old(calls) + [c]
    {
      hide Step;
      StepSize(was, c, Now(), mem.end);
      states, calls := states + [Now()], calls + [c];
      forall i | 0 <= i < |calls| ensures Step(states[i], calls[i], states[i + 1], mem.end) {
        if i < |old(calls)| {
          assert Step(old(states)[i], old(calls)[i], old(states)[i + 1], mem.end);
        }
      }
    }

    // The space sp of the state was has become sp2.
    ghost method Change(was: System, sp: Space, sp2: Space)
      requires Run(states, calls, mem.end) && states[|calls|] == was && Booted(states[0], mem.end)
      requires EXTMEM < mem.data < mem.end <= PHYSTOP == |was.mem.frames| && spaces == was.spaces && sp in spaces
      requires gone == was.gone
      requires Ok(mem.Value(), sp2, mem.end) && Balanced(was.mem, Owned(sp), mem.Value(), Owned(sp2))
      modifies this`spaces, this`states, this`calls
      ensures Valid() && spaces == old(spaces) - {sp} + {sp2} && calls == old(calls) + [Changes(sp, sp2)]
    {
      hide Ok, Balanced, Owned, Run;
      OkFree(mem.Value(), sp2, mem.end);
      spaces := spaces - {sp} + {sp2};
      Extend(was, Changes(sp, sp2));
    }

    /** In every state that calls can lead to, all address spaces are in order and share no frame, and every frame
        behind the kernel is idle, in one of them, or left behind by a setupkvm that failed. */
    lemma Reached()
      requires Valid()
      ensures Sound(Now(), mem.end) && forall f: nat :: Held(Now(), f) <==> mem.end <= f < PHYSTOP
    {
      BootSound(states[0], mem.end);
      RunConserves(states, calls, mem.end, |calls|);
    }

    /** Once all address spaces have been freed, all frames behind the kernel are idle again, if and only if no
        setupkvm has failed midway; and without guard frames they are all on the free list. */
    lemma AllFreed()
      requires Valid() && spaces == {}
      ensures (forall f: nat :: Idle(mem.Value(), f) <==> mem.end <= f < PHYSTOP) <==> gone == {}
      ensures !mem.guard && gone == {} ==> forall f :: f in mem.freelist <==> mem.end <= f < PHYSTOP
    {
      BootRestores(states, calls, mem.end);
      RunConserves(states, calls, mem.end, 0);
      StartGuard();
    }

    lemma StartGuard()
      requires Valid()
      ensures states[0].mem.guard == mem.guard
    {
      BootSound(states[0], mem.end);
      RunConserves(states, calls, mem.end, |calls|);
    }

    /** setupkvm */
    method Setupkvm() returns (r: Option<nat>, ghost sp: Space)
      requires Valid() && Fed(mem.Value(), 13)
      modifies this, mem
      ensures Valid() && calls == old(calls) + [if r.Some? then Creates(sp) else Fails]
      ensures r.Some? <==> |old(mem.freelist)| >= Price(mem.guard, 13)
      ensures r.Some? ==>
                spaces == old(spaces) + {sp} && gone == old(gone) && sp.dir == r.value && Complete(sp, mem.data)
      ensures r.None? ==> spaces == old(spaces) && (gone == old(gone) <==> old(mem.freelist) == [])
    {
      hide Ok, Balanced, Owned, Complete, Run, Sound, Gone;
      ghost var was := Now();
      Reached();
      SoundParts(was, mem.end);
      r, sp := mem.Setupkvm();
      if r.Some? {
        OkFree(mem.Value(), sp, mem.end);
        spaces := spaces + {sp};
        Extend(was, Creates(sp));
      } else {
        GoneGrows(was, mem.Value(), mem.end);
        gone := gone + Gone(was.mem, mem.Value());
        Extend(was, Fails);
      }
    }

    /** allocuvm */
    method Allocuvm(dir: nat, oldsz: nat, newsz: nat, ghost sp: Space) returns (r: nat, ghost sp2: Space)
      requires Valid() && sp in spaces && dir == sp.dir && Complete(sp, mem.data) && oldsz < UINT && newsz < UINT
      requires forall v :: Up(oldsz) <= v < Up(newsz) ==> v !in sp.leaves
      requires oldsz <= newsz <= USERTOP * PGSIZE ==> Fed(mem.Value(), Up(newsz) - Up(oldsz))
      modifies this, mem
      ensures Valid() && calls == old(calls) + [Changes(sp, sp2)]
      ensures spaces == old(spaces) - {sp} + {sp2} && gone == old(gone) && Complete(sp2, mem.data)
    {
      hide Ok, Balanced, Owned, Complete, Run, Sound, Grown, Restored, PagesKept, SameSpace;
      ghost var was := Now();
      Reached();
      SoundParts(was, mem.end);
      r, sp2 := mem.Allocuvm(dir, oldsz, newsz, sp);
      Change(was, sp, sp2);
    }

    /** deallocuvm */
    method Deallocuvm(dir: nat, oldsz: nat, newsz: nat, ghost sp: Space) returns (r: nat, ghost sp2: Space)
      requires Valid() && sp in spaces && dir == sp.dir && oldsz <= USERTOP * PGSIZE
      modifies this, mem
      ensures Valid() && calls == old(calls) + [Changes(sp, sp2)]
      ensures spaces == old(spaces) - {sp} + {sp2} && gone == old(gone)
      ensures Complete(sp, mem.data) ==> Complete(sp2, mem.data)
    {
      hide Ok, Balanced, Owned, Complete, Run, Sound, Shrunk;
      ghost var was := Now();
      Reached();
      SoundParts(was, mem.end);
      r, sp2 := mem.Deallocuvm(dir, oldsz, newsz, sp);
      if newsz >= oldsz {
        BalancedRefl(was.mem, Owned(sp));
      } else {
        ShrunkBalanced(was.mem, sp, mem.Value(), sp2, Up(newsz), Up(oldsz));
        ShrunkComplete(was.mem, sp, mem.Value(), sp2, mem.data, Up(newsz), Up(oldsz));
      }
      Change(was, sp, sp2);
    }

    /** copyuvm */
    method Copyuvm(dir: nat, sz: nat, ghost sp: Space) returns (r: Option<nat>, ghost child: Space)
      requires Valid() && sp in spaces && dir == sp.dir && sz <= USERTOP * PGSIZE
      requires (forall v: nat :: v < Up(sz) ==> v in sp.leaves) && Fed(mem.Value(), 13 + Up(sz))
      modifies this, mem
      ensures Valid() && calls == old(calls) + [if r.Some? then Creates(child) else Fails]
      ensures r.Some? ==> spaces == old(spaces) + {child} && gone == old(gone) && Complete(child, mem.data)
      ensures r.None? ==> spaces == old(spaces)
      ensures r.None? ==>
                (gone == old(gone) <==> old(mem.freelist) == [] || |old(mem.freelist)| >= Price(mem.guard, 13))
    {
      hide Ok, Balanced, Owned, Complete, Run, Sound, Copied, Gone, Restored, PagesKept;
      ghost var was := Now();
      Reached();
      SoundParts(was, mem.end);
      r, child := mem.Copyuvm(dir, sz, sp);
      OkFree(mem.Value(), sp, mem.end);
      if r.Some? {
        CopiedComplete(was.mem, sp, mem.Value(), child, mem.data, Up(sz));
        spaces := spaces + {child};
        Extend(was, Creates(child));
      } else {
        GoneGrows(was, mem.Value(), mem.end);
        gone := gone + Gone(was.mem, mem.Value());
        Extend(was, Fails);
      }
    }

    /** freevm */
    method Freevm(dir: nat, ghost sp: Space)
      requires Valid() && sp in spaces && dir == sp.dir
      modifies this, mem
      ensures Valid() && calls == old(calls) + [Destroys(sp)]
      ensures spaces == old(spaces) - {sp} && gone == old(gone)
    {
      hide Ok, Balanced, Owned, Run, Sound;
      ghost var was := Now();
      Reached();
      SoundParts(was, mem.end);
      mem.Freevm(dir, sp);
      spaces := spaces - {sp};
      Extend(was, Destroys(sp));
    }

    /** mprotect */
    method Mprotect(dir: nat, addr: nat, len: int, sz: nat, ghost sp: Space) returns (ok: bool, ghost sp2: Space)
      requires Valid() && sp in spaces && dir == sp.dir && addr < UINT && len * PGSIZE < UINT / 2
      requires addr + len * PGSIZE <= UINT
      requires forall v: nat :: addr / PGSIZE <= v < addr / PGSIZE + len ==> v / NENTRIES in sp.tables
      modifies this, mem
      ensures Valid() && calls == old(calls) + [Changes(sp, sp2)]
      ensures spaces == old(spaces) - {sp} + {sp2} && gone == old(gone)
      ensures Complete(sp, mem.data) && addr / PGSIZE + len <= USERTOP ==> Complete(sp2, mem.data)
    {
      hide Ok, Balanced, Owned, Run, Sound, ClearedRange, Complete;
      ghost var was := Now();
      Reached();
      SoundParts(was, mem.end);
      ok, sp2 := mem.Mprotect(dir, addr, len, sz, sp);
      BalancedRefl(was.mem, Owned(sp));
      if ok && Complete(sp, mem.data) {
        ProtectKeepsKernel(sp, sp2, mem.data, addr / PGSIZE, addr / PGSIZE + len);
      }
      Change(was, sp, sp2);
    }

    /** copyout */
    method Copyout(dir: nat, va: nat, src: seq<byte>, ghost sp: Space) returns (ok: bool)
      requires Valid() && sp in spaces && dir == sp.dir && Complete(sp, mem.data) && va + |src| <= UINT
      requires HasTables(sp, va, |src|)
      modifies this, mem
      ensures Valid() && calls == old(calls) + [Changes(sp, sp)]
      ensures spaces == old(spaces) && gone == old(gone)
    {
      hide Ok, Balanced, Owned, Run, Sound, Complete, Written, UserPages, UserPage, HasTables;
      ghost var was := Now();
      Reached();
      SoundParts(was, mem.end);
      ghost var k;
      ok, k := mem.Copyout(dir, va, src, sp);
      Change(was, sp, sp);
    }
  }

  /** kalloc of p3a, as `GuardAlloc` has it. */
  lemma PopIsAlloc(m: Mem, s: GuardAlloc.Kmem)
    requires m.guard && Ready(m) && s.list == m.free && s.lost == m.lost
    ensures GuardAlloc.Enabled(s, GuardAlloc.Alloc)
    ensures var t := GuardAlloc.Step(s, GuardAlloc.Alloc); Pop(m) == m.(free := t.list, lost := t.lost)
    ensures GuardAlloc.Step(s, GuardAlloc.Alloc).live == s.live + {m.free[0]}
  {
  }

  lemma SoundParts(s: System, end: nat)
    requires Sound(s, end)
    ensures FreeOk(s.mem.free, s.mem.lost, end)
    ensures forall sp :: sp in s.spaces ==> Ok(s.mem, sp, end)
  {
  }

  lemma StepSize(s: System, c: Call, s': System, end: nat)
    requires Step(s, c, s', end)
    ensures |s'.mem.frames| == |s.mem.frames|
  {
  }

  lemma GoneGrows(s: System, m: Mem, end: nat)
    requires Sound(s, end)
    ensures s.gone + Gone(s.mem, m) == s.gone <==> Gone(s.mem, m) == {}
  {
    hide Ok, Owned;
    assert s.gone !! IdleSet(s.mem);
    if f :| f in Gone(s.mem, m) {
      assert f in s.gone + Gone(s.mem, m);
    }
  }

  lemma CopiedComplete(m: Mem, sp: Space, m1: Mem, child: Space, data: nat, n: nat)
    requires Copied(m, sp, m1, child, data, n)
    ensures Complete(child, data) && Balanced(m, {}, m1, Owned(child))
  {
    hide Complete, Balanced, Owned, CopiedPages;
  }

  lemma ShrunkComplete(m: Mem, sp: Space, m1: Mem, sp1: Space, data: nat, lo: nat, hi: nat)
    requires Shrunk(m, sp, m1, sp1, lo, hi) && hi <= USERTOP
    ensures Complete(sp, data) ==> Complete(sp1, data)
  {
    hide Balanced, Owned, PagesKept, KernelPte, KernelTables;
  }
}
