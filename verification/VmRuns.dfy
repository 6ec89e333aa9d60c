/** Any mix of creating, changing, copying and freeing address spaces: no frame is lost, duplicated or shared. */
module VmRuns {
  import opened VmSpace
  import opened VmMap
  import opened VmKernel
  import opened VmUser
  import opened VmFork

  /** Physical memory, the address spaces in it, and the frames that failed calls of setupkvm have left behind. */
  datatype System = System(mem: Mem, spaces: set<Space>, gone: set<nat>)

  /** What one call does: setupkvm or copyuvm creates, allocuvm, deallocuvm, mprotect and copyout change, freevm
      destroys, and a setupkvm or copyuvm that runs out of frames leaves the address spaces as they were. */
  datatype Call = Creates(sp: Space) | Changes(was: Space, sp: Space) | Destroys(was: Space) | Fails

  /** The frames that the call gives up, and those that it takes. */
  ghost function Before(c: Call): set<nat> {
    if c.Changes? || c.Destroys? then Owned(c.was) else {}
  }

  ghost function After(s: System, c: Call, s': System): set<nat> {
    match c
    case Creates(sp) => Owned(sp)
    case Changes(_, sp) => Owned(sp)
    case Destroys(_) => {}
    case Fails => Gone(s.mem, s'.mem)
  }

  ghost predicate Step(s: System, c: Call, s': System, end: nat) {
    && Balanced(s.mem, Before(c), s'.mem, After(s, c, s')) && FreeOk(s'.mem.free, s'.mem.lost, end)
    && (c.Creates? || c.Changes? ==> Ok(s'.mem, c.sp, end))
    && (c.Changes? || c.Destroys? ==> c.was in s.spaces)
    && s'.spaces == (if c.Changes? || c.Destroys? then s.spaces - {c.was} else s.spaces)
                    + (if c.Creates? || c.Changes? then {c.sp} else {})
    && s'.gone == s.gone + if c.Fails? then Gone(s.mem, s'.mem) else {}
  }

  /** Every address space is in order, and no frame serves two of: being idle, being left behind, one space. */
  ghost predicate Sound(s: System, end: nat) {
    && FreeOk(s.mem.free, s.mem.lost, end) && s.gone !! IdleSet(s.mem)
    && (forall sp :: sp in s.spaces ==> Ok(s.mem, sp, end) && s.gone !! Owned(sp))
    && (forall a, b :: a in s.spaces && b in s.spaces && a != b ==> Owned(a) !! Owned(b))
  }

  /** The frames that are idle, left behind, or belong to an address space. */
  ghost predicate Held(s: System, f: nat) {
    Idle(s.mem, f) || f in s.gone || exists sp :: sp in s.spaces && f in Owned(sp)
  }

  /** After kinit. */
  ghost predicate Booted(s: System, end: nat) {
    && FreeOk(s.mem.free, s.mem.lost, end) && s.mem.lost == s.gone == {} && s.spaces == {}
    && forall f :: f in s.mem.free <==> end <= f < PHYSTOP
  }

  lemma BootSound(s: System, end: nat)
    requires Booted(s, end)
    ensures Sound(s, end) && forall f: nat :: Held(s, f) <==> end <= f < PHYSTOP
  {
  }

  /** Frames that are neither idle nor given up are not taken. */
  lemma OthersApart(m: Mem, own: set<nat>, m1: Mem, own1: set<nat>, other: set<nat>)
    requires Balanced(m, own, m1, own1) && other !! own && other !! IdleSet(m)
    ensures other !! own1 && other !! IdleSet(m1)
  {
    forall f | f in own1 + IdleSet(m1) ensures f !in other {
      assert f in IdleSet(m1) + own1;
      assert f in IdleSet(m) + own;
    }
  }

  /** The other spaces of a step. */
  lemma Bystander(s: System, c: Call, s': System, end: nat, other: Space)
    requires Sound(s, end) && Step(s, c, s', end) && other in s.spaces
    requires c.Changes? || c.Destroys? ==> other != c.was
    ensures Ok(s'.mem, other, end) && PagesKept(s.mem, s'.mem, other) && After(s, c, s') !! Owned(other)
    ensures s'.gone !! Owned(other)
  {
    hide Ok, Balanced, Owned, PagesKept, Gone, FreeOk;
    SpaceKept(s.mem, Before(c), s'.mem, After(s, c, s'), other, end);
    OwnedNotIdle(s.mem, other, end);
    OthersApart(s.mem, Before(c), s'.mem, After(s, c, s'), Owned(other));
  }

  /** What a failed setupkvm has left behind stays so. */
  lemma GoneApart(s: System, c: Call, s': System, end: nat)
    requires Sound(s, end) && Step(s, c, s', end)
    ensures s'.gone !! IdleSet(s'.mem) && s.gone !! After(s, c, s')
  {
    hide Ok, Balanced, Owned, FreeOk;
    OthersApart(s.mem, Before(c), s'.mem, After(s, c, s'), s.gone);
  }

  /** One call keeps the invariant, the pages of every other address space, and the frames held. */
  lemma StepSound(s: System, c: Call, s': System, end: nat)
    requires Sound(s, end) && Step(s, c, s', end)
    ensures Sound(s', end)
    ensures forall f :: Held(s', f) <==> Held(s, f)
    ensures forall other :: other in s.spaces && other in s'.spaces &&
                            !(c.Changes? && other == c.sp) && !(c.Creates? && other == c.sp) ==>
              PagesKept(s.mem, s'.mem, other)
  {
    hide Ok, Balanced, Owned, PagesKept, Gone, FreeOk;
    GoneApart(s, c, s', end);
    forall other | other in s.spaces && (c.Changes? || c.Destroys? ==> other != c.was)
      ensures Ok(s'.mem, other, end) && PagesKept(s.mem, s'.mem, other) && After(s, c, s') !! Owned(other)
      ensures s'.gone !! Owned(other)
    {
      Bystander(s, c, s', end, other);
    }
    forall f ensures Held(s', f) <==> Held(s, f) {
      StepHeld(s, c, s', end, f);
    }
  }

  lemma StepHeld(s: System, c: Call, s': System, end: nat, f: nat)
    requires Step(s, c, s', end)
    ensures Held(s', f) <==> Held(s, f)
  {
    BalancedFrame(s.mem, Before(c), s'.mem, After(s, c, s'), f);
    hide Ok, Balanced, Owned, Idle, Gone, FreeOk;
    if Held(s, f) && !Idle(s.mem, f) && f !in s.gone {
      var sp :| sp in s.spaces && f in Owned(sp);
      assert sp in s'.spaces || f in Before(c);
    }
    if Held(s', f) && !Idle(s'.mem, f) && f !in s'.gone {
      var sp :| sp in s'.spaces && f in Owned(sp);
      assert sp in s.spaces || f in After(s, c, s');
    }
    if c.Creates? || c.Changes? {
      assert c.sp in s'.spaces;
    }
    if f in Before(c) {
      assert c.was in s.spaces && f in Owned(c.was);
    }
    if f in After(s, c, s') && !c.Fails? {
      assert c.sp in s'.spaces && f in Owned(c.sp);
    }
  }

  lemma BalancedFrame(m: Mem, own: set<nat>, m1: Mem, own1: set<nat>, f: nat)
    requires Balanced(m, own, m1, own1)
    ensures Idle(m, f) || f in own <==> Idle(m1, f) || f in own1
  {
    assert f in IdleSet(m) + own <==> f in IdleSet(m1) + own1;
  }

  /** A run: each call leads from one state to the next. */
  ghost predicate Run(ss: seq<System>, cs: seq<Call>, end: nat) {
    |ss| == |cs| + 1 && forall i :: 0 <= i < |cs| ==> Step(ss[i], cs[i], ss[i + 1], end)
  }

  /** In every run no frame is lost and none appears. */
  lemma {:induction false} RunConserves(ss: seq<System>, cs: seq<Call>, end: nat, n: nat)
    requires Run(ss, cs, end) && Sound(ss[0], end) && n <= |cs|
    ensures Sound(ss[n], end) && forall f :: Held(ss[n], f) <==> Held(ss[0], f)
    ensures Loses(ss[0].mem, ss[n].mem) && ss[0].gone <= ss[n].gone
  {
    if n > 0 {
      RunConserves(ss, cs, end, n - 1);
      assert Step(ss[n - 1], cs[n - 1], ss[n - 1 + 1], end);
      StepGrows(ss[n - 1], cs[n - 1], ss[n], end);
      hide Sound, Held, Step;
      StepSound(ss[n - 1], cs[n - 1], ss[n], end);
    }
  }

  lemma StepGrows(s: System, c: Call, s': System, end: nat)
    requires Step(s, c, s', end)
    ensures Loses(s.mem, s'.mem) && s.gone <= s'.gone
  {
    BalancedLoses(s.mem, Before(c), s'.mem, After(s, c, s'));
  }

  /** A run that ends with the address spaces it began with ends with the same idle frames if and only if no
      setupkvm has failed with frames in its hands; without guard frames it then ends with the same free frames. */
  lemma {:induction false} RunRestores(ss: seq<System>, cs: seq<Call>, end: nat)
    requires Run(ss, cs, end) && Sound(ss[0], end) && ss[|cs|].spaces == ss[0].spaces
    ensures var m, m1 := ss[0].mem, ss[|cs|].mem; Restored(m, m1) <==> ss[|cs|].gone == ss[0].gone
  {
    var s, s' := ss[0], ss[|cs|];
    RunConserves(ss, cs, end, |cs|);
    hide Run, Loses;
    forall f ensures Idle(s.mem, f) || f in s.gone <==> Idle(s'.mem, f) || f in s'.gone {
      IdleIsRest(s, end, f);
      IdleIsRest(s', end, f);
      assert Held(s, f) <==> Held(s', f);
    }
    hide Held;
    IdleWithGone(s, s', end);
  }

  lemma IdleIsRest(s: System, end: nat, f: nat)
    requires Sound(s, end)
    ensures Idle(s.mem, f) || f in s.gone <==> Held(s, f) && forall sp :: sp in s.spaces ==> f !in Owned(sp)
  {
    forall sp | sp in s.spaces ensures Owned(sp) !! IdleSet(s.mem) {
      OwnedNotIdle(s.mem, sp, end);
    }
    hide Ok, Owned, FreeOk;
  }

  lemma IdleWithGone(s: System, s': System, end: nat)
    requires Sound(s, end) && Sound(s', end) && Loses(s.mem, s'.mem)
    requires forall f :: Idle(s.mem, f) || f in s.gone <==> Idle(s'.mem, f) || f in s'.gone
    ensures Restored(s.mem, s'.mem) <==> s'.gone == s.gone
  {
    hide Ok, Owned;
    assert s.gone !! IdleSet(s.mem) && s'.gone !! IdleSet(s'.mem);
    if s'.gone == s.gone {
      assert IdleSet(s'.mem) == IdleSet(s.mem);
      FreeOfIdle(s.mem, s'.mem, end);
    }
    if IdleSet(s'.mem) == IdleSet(s.mem) {
      assert forall f :: f in s'.gone <==> f in s.gone;
    }
  }

  /** From kinit: once all address spaces are gone again, exactly the frames behind the kernel are idle, if and only
      if no setupkvm failed midway; and then the allocator of p2b has them all on its list. */
  lemma {:induction false} BootRestores(ss: seq<System>, cs: seq<Call>, end: nat)
    requires Run(ss, cs, end) && Booted(ss[0], end) && ss[|cs|].spaces == {}
    ensures (forall f: nat :: Idle(ss[|cs|].mem, f) <==> end <= f < PHYSTOP) <==> ss[|cs|].gone == {}
    ensures !ss[0].mem.guard && ss[|cs|].gone == {} ==> forall f :: f in ss[|cs|].mem.free <==> end <= f < PHYSTOP
  {
    BootSound(ss[0], end);
    RunRestores(ss, cs, end);
    RunConserves(ss, cs, end, |cs|);
    hide Run, Sound, Held;
    var m, m1 := ss[0].mem, ss[|cs|].mem;
    assert forall f :: f in m.free <==> f in FreeSet(m);
    assert forall f :: f in m1.free <==> f in FreeSet(m1);
    if forall f: nat :: Idle(m1, f) <==> end <= f < PHYSTOP {
      assert IdleSet(m1) == IdleSet(m);
      FreeOfIdle(m, m1, end);
    } else {
      assert IdleSet(m1) != IdleSet(m);
    }
  }
}
