/** The process table (p3b/kernel/proc.c): the loops that run under ptable.lock, as methods and as functions. */
module Proc {
  import opened Basics

  const NPROC := 64
  const INIT := 0   // the slot of initproc

  datatype PState = UNUSED | EMBRYO | SLEEPING | RUNNABLE | RUNNING | ZOMBIE

  /** What a process sleeps on: the address of a slot of the table (in wait), or any other address. */
  datatype Chan = NoChan | OfProc(p: nat) | Other(n: nat)

  datatype Parent = Nobody | Slot(p: nat)

  datatype Proc = Proc(state: PState, pid: nat, parent: Parent, chan: Chan, killed: bool, kstack: bool, pgdir: bool)

  datatype WaitResult = Reap(z: nat) | GiveUp | MustSleep

  const VACANT := Proc(UNUSED, 0, Nobody, NoChan, false, false, false)

  // ------------------------------------------------------------------ what the loops compute

  function Woke(p: Proc, chan: Chan): Proc {
    if p.state == SLEEPING && p.chan == chan then p.(state := RUNNABLE) else p
  }

  /** wakeup1 */
  function Woken(procs: seq<Proc>, chan: Chan): (r: seq<Proc>)
    ensures |r| == |procs| && forall i :: 0 <= i < |r| ==> r[i] == Woke(procs[i], chan)
  {
    seq(|procs|, (i: nat) requires i < |procs| => Woke(procs[i], chan))
  }

  function ChanOf(parent: Parent): Chan {
    if parent.Slot? then OfProc(parent.p) else NoChan
  }

  /** The children of slot q among the first n processes now belong to init. */
  function Reparented(procs: seq<Proc>, q: nat, n: nat): (r: seq<Proc>)
    ensures |r| == |procs|
    ensures forall i :: 0 <= i < |r| ==>
              r[i] == if i < n && procs[i].parent == Slot(q) then procs[i].(parent := Slot(INIT)) else procs[i]
  {
    seq(|procs|, (i: nat) requires i < |procs| =>
      if i < n && procs[i].parent == Slot(q) then procs[i].(parent := Slot(INIT)) else procs[i])
  }

  ghost predicate ZombieChild(procs: seq<Proc>, q: nat, n: nat)
    requires n <= |procs|
  {
    exists i :: 0 <= i < n && procs[i].parent == Slot(q) && procs[i].state == ZOMBIE
  }

  /** exit, up to the call of sched. */
  ghost function Exited(procs: seq<Proc>, q: nat): (r: seq<Proc>)
    requires q < |procs|
    ensures |r| == |procs|
  {
    var a := Reparented(Woken(procs, ChanOf(procs[q].parent)), q, |procs|);
    var b := if ZombieChild(procs, q, |procs|) then Woken(a, OfProc(INIT)) else a;
    b[q := b[q].(state := ZOMBIE)]
  }

  /** The first slot from k on that satisfies the search of allocproc, wait, or kill; or the length of the table. */
  function FirstUnused(procs: seq<Proc>, k: nat): (i: nat)
    requires k <= |procs|
    ensures k <= i <= |procs| && (i < |procs| ==> procs[i].state == UNUSED) && forall j :: k <= j < i ==>
              procs[j].state != UNUSED
    decreases |procs| - k
  {
    if k == |procs| || procs[k].state == UNUSED then k else FirstUnused(procs, k + 1)
  }

  function FirstZombie(procs: seq<Proc>, q: nat, k: nat): (i: nat)
    requires k <= |procs|
    ensures k <= i <= |procs| && (i < |procs| ==> procs[i].parent == Slot(q) && procs[i].state == ZOMBIE)
    ensures forall j :: k <= j < i ==> procs[j].parent != Slot(q) || procs[j].state != ZOMBIE
    decreases |procs| - k
  {
    if k == |procs| || (procs[k].parent == Slot(q) && procs[k].state == ZOMBIE) then k else FirstZombie(procs, q, k + 1)
  }

  function FirstWithPid(procs: seq<Proc>, pid: nat, k: nat): (i: nat)
    requires k <= |procs|
    ensures k <= i <= |procs| && (i < |procs| ==> procs[i].pid == pid) && forall j :: k <= j < i ==> procs[j].pid != pid
    decreases |procs| - k
  {
    if k == |procs| || procs[k].pid == pid then k else FirstWithPid(procs, pid, k + 1)
  }

  ghost predicate HasKids(procs: seq<Proc>, q: nat) {
    exists i :: 0 <= i < |procs| && procs[i].parent == Slot(q)
  }

  /** What a scan of wait decides. */
  ghost function WaitScan(procs: seq<Proc>, q: nat): WaitResult
    requires q < |procs|
  {
    var z := FirstZombie(procs, q, 0);
    if z < |procs| then Reap(z)
    else if !HasKids(procs, q) || procs[q].killed then GiveUp
    else MustSleep
  }

  function Reaped(p: Proc): Proc {
    p.(kstack := false, pgdir := false, state := UNUSED, pid := 0, parent := Nobody, killed := false)
  }

  function Killed(procs: seq<Proc>, pid: nat): (r: seq<Proc>)
    ensures |r| == |procs|
  {
    var i := FirstWithPid(procs, pid, 0);
    if i == |procs| then procs
    else procs[i := procs[i].(killed := true, state := if procs[i].state == SLEEPING then RUNNABLE else procs[i].state)]
  }

  /** From ps to qs, the process in slot i, the first one with this pid, has been marked, and does not sleep any
      more. */
  ghost predicate Victim(ps: seq<Proc>, qs: seq<Proc>, i: nat, pid: nat)
    requires i < |ps| == |qs|
  {
    && ps[i].pid == pid && (forall j :: 0 <= j < i ==> ps[j].pid != pid) && qs == ps[i := qs[i]]
    && qs[i].killed && qs[i].state != SLEEPING && (ps[i].state == SLEEPING ==> qs[i].state == RUNNABLE)
    && (ps[i].state != SLEEPING ==> qs[i].state == ps[i].state)
    && qs[i] == ps[i].(killed := true, state := qs[i].state)
  }

  /** What kill does to the table. */
  lemma {:induction false} KillMeaning(procs: seq<Proc>, pid: nat)
    ensures var t := Killed(procs, pid);
            && ((forall i :: 0 <= i < |procs| ==> procs[i].pid != pid) ==> t == procs)
            && forall i :: 0 <= i < |procs| && procs[i].pid == pid
                           && (forall j :: 0 <= j < i ==> procs[j].pid != pid) ==>
                 && t[i].killed && t[i].state == (if procs[i].state == SLEEPING then RUNNABLE else procs[i].state)
                 && t == procs[i := procs[i].(killed := true, state := t[i].state)]
  {
  }

  /** What exit of the process in slot q does to the others: its children are init's, whoever waits for it is awake,
      and so is init if it inherits a zombie. */
  lemma {:induction false} ExitMeaning(procs: seq<Proc>, q: nat, i: nat)
    requires q < |procs| && i < |procs|
    ensures |Exited(procs, q)| == |procs|
    ensures var t := Exited(procs, q);
            && (procs[i].parent == Slot(q) ==> t[i].parent == Slot(INIT))
            && (procs[i].parent != Slot(q) ==> t[i].parent == procs[i].parent)
            && t[i] == procs[i].(parent := t[i].parent, state := t[i].state)
            && t[q].state == ZOMBIE
            && (i != q ==>
                  (t[i].state != procs[i].state <==>
                     && procs[i].state == SLEEPING
                     && (|| (procs[q].parent.Slot? && procs[i].chan == OfProc(procs[q].parent.p))
                         || (procs[q].parent.Nobody? && procs[i].chan == NoChan)
                         || (procs[i].chan == OfProc(INIT) && exists z ::
                               0 <= z < |procs| && procs[z].parent == Slot(q) && procs[z].state == ZOMBIE)))
                  && (t[i].state != procs[i].state ==> t[i].state == RUNNABLE))
  {
    hide ZombieChild;
    ZombieChildIs(procs, q);
  }

  lemma ZombieChildIs(procs: seq<Proc>, q: nat)
    ensures ZombieChild(procs, q, |procs|) <==>
            exists z :: 0 <= z < |procs| && procs[z].parent == Slot(q) && procs[z].state == ZOMBIE
  {
  }

  // ------------------------------------------------------------------ the loops

  class Table {
    var procs: seq<Proc>
    var nextpid: nat

    /** The first part of allocproc. */
    method Allocproc() returns (r: Option<nat>)
      modifies this
      ensures var i := FirstUnused(old(procs), 0);
              if i == |old(procs)| then r == None && procs == old(procs) && nextpid == old(nextpid)
              else r == Some(i) && nextpid == old(nextpid) + 1
                   && procs == old(procs)[i := old(procs)[i].(state := EMBRYO, pid := old(nextpid))]
    {
      var p := 0;
      while p < |procs|
        invariant 0 <= p <= |procs| && procs == old(procs) && nextpid == old(nextpid)
        invariant FirstUnused(procs, 0) == FirstUnused(procs, p)
      {
        if procs[p].state == UNUSED {
          procs := procs[p := procs[p].(state := EMBRYO, pid := nextpid)];
          nextpid := nextpid + 1;
          return Some(p);
        }
        p := p + 1;
      }
      r := None;
    }

    method Wakeup1(chan: Chan)
      modifies this`procs
      ensures procs == Woken(old(procs), chan)
      ensures forall i :: 0 <= i < |procs| ==>
                procs[i] == if old(procs)[i].state == SLEEPING && old(procs)[i].chan == chan
                            then old(procs)[i].(state := RUNNABLE) else old(procs)[i]
    {
      var p := 0;
      while p < |procs|
        invariant 0 <= p <= |procs| == |old(procs)|
        invariant forall i :: 0 <= i < |procs| ==>
                    procs[i] == if i < p then Woke(old(procs)[i], chan) else old(procs)[i]
      {
        if procs[p].state == SLEEPING && procs[p].chan == chan {
          procs := procs[p := procs[p].(state := RUNNABLE)];
        }
        p := p + 1;
      }
    }

    /** exit of the process in slot q, up to the call of sched. */
    method ExitSection(q: nat)
      requires q < |procs|
      modifies this`procs
      ensures procs == Exited(old(procs), q)
    {
      hide ZombieChild;
      NoChildYet(Woken(procs, ChanOf(procs[q].parent)), q);
      Wakeup1(ChanOf(procs[q].parent));
      ghost var woken := procs;
      var p := 0;
      while p < |procs|
        invariant 0 <= p <= |procs| == |woken| == |old(procs)|
        invariant woken == Woken(old(procs), ChanOf(old(procs)[q].parent))
        invariant procs == if ZombieChild(woken, q, p) then Woken(Reparented(woken, q, p), OfProc(INIT))
                    else Reparented(woken, q, p)
      {
        ghost var before := procs;
        if procs[p].parent == Slot(q) {
          procs := procs[p := procs[p].(parent := Slot(INIT))];
          if procs[p].state == ZOMBIE {
            Wakeup1(OfProc(INIT));
          }
        }
        ReparentNext(woken, q, p, before, procs);
        p := p + 1;
      }
      WokenZombies(old(procs), q, ChanOf(old(procs)[q].parent));
      procs := procs[q := procs[q].(state := ZOMBIE)];
    }

    /** One scan of wait by the process in slot q; the pid of a child that it reaps. */
    method WaitSection(q: nat) returns (r: WaitResult, pid: nat)
      requires q < |procs|
      modifies this`procs
      ensures r == WaitScan(old(procs), q)
      ensures var ps := old(procs);
              && (r.MustSleep? <==>
                    && (exists i :: 0 <= i < |ps| && ps[i].parent == Slot(q)) && !ps[q].killed
                    && forall i :: 0 <= i < |ps| && ps[i].parent == Slot(q) ==> ps[i].state != ZOMBIE)
              && (r.GiveUp? <==>
                    && ((forall i :: 0 <= i < |ps| ==> ps[i].parent != Slot(q)) || ps[q].killed)
                    && forall i :: 0 <= i < |ps| && ps[i].parent == Slot(q) ==> ps[i].state != ZOMBIE)
              && (r.Reap? ==>
                    && r.z < |ps| && ps[r.z].parent == Slot(q) && ps[r.z].state == ZOMBIE && pid == ps[r.z].pid
                    && (forall i :: 0 <= i < r.z && ps[i].parent == Slot(q) ==> ps[i].state != ZOMBIE)
                    && procs == ps[r.z := Proc(UNUSED, 0, Nobody, ps[r.z].chan, false, false, false)])
              && (!r.Reap? ==> procs == ps)
    {
      var havekids := false;
      var p := 0;
      pid := 0;
      while p < |procs|
        invariant 0 <= p <= |procs| && procs == old(procs)
        invariant FirstZombie(procs, q, 0) == FirstZombie(procs, q, p)
        invariant havekids <==> exists i :: 0 <= i < p && procs[i].parent == Slot(q)
      {
        if procs[p].parent == Slot(q) {
          havekids := true;
          if procs[p].state == ZOMBIE {
            pid := procs[p].pid;
            procs := procs[p := Reaped(procs[p])];
            return Reap(p), pid;
          }
        }
        p := p + 1;
      }
      r := if !havekids || procs[q].killed then GiveUp else MustSleep;
    }

    method Kill(pid: nat) returns (found: bool)
      modifies this`procs
      ensures procs == Killed(old(procs), pid)
      ensures (found <==> exists i :: 0 <= i < |old(procs)| && old(procs)[i].pid == pid)
      ensures !found ==> procs == old(procs)
      ensures found ==> exists i :: 0 <= i < |procs| == |old(procs)| && Victim(old(procs), procs, i, pid)
    {
      var p := 0;
      while p < |procs|
        invariant 0 <= p <= |procs| && procs == old(procs)
        invariant FirstWithPid(procs, pid, 0) == FirstWithPid(procs, pid, p)
        invariant forall i :: 0 <= i < p ==> procs[i].pid != pid
      {
        if procs[p].pid == pid {
          procs := procs[p := procs[p].(killed := true)];
          if procs[p].state == SLEEPING {
            procs := procs[p := procs[p].(state := RUNNABLE)];
          }
          assert Victim(old(procs), procs, p, pid);
          return true;
        }
        p := p + 1;
      }
      found := false;
    }
  }

  // One turn of exit's loop over its children.
  lemma NoChildYet(w: seq<Proc>, q: nat)
    ensures !ZombieChild(w, q, 0) && Reparented(w, q, 0) == w
  {
  }

  lemma ReparentNext(w: seq<Proc>, q: nat, p: nat, before: seq<Proc>, after: seq<Proc>)
    requires p < |w|
    requires before == if ZombieChild(w, q, p) then Woken(Reparented(w, q, p), OfProc(INIT)) else Reparented(w, q, p)
    requires var b := if before[p].parent == Slot(q) then before[p := before[p].(parent := Slot(INIT))] else before;
             after == if before[p].parent == Slot(q) && before[p].state == ZOMBIE then Woken(b, OfProc(INIT)) else b
    ensures after == if ZombieChild(w, q, p + 1) then Woken(Reparented(w, q, p + 1), OfProc(INIT))
              else Reparented(w, q, p + 1)
  {
    assert ZombieChild(w, q, p + 1) <==> ZombieChild(w, q, p) || (w[p].parent == Slot(q) && w[p].state == ZOMBIE);
  }

  // Waking does not turn anybody into a zombie.
  lemma WokenZombies(procs: seq<Proc>, q: nat, chan: Chan)
    ensures ZombieChild(Woken(procs, chan), q, |procs|) <==> ZombieChild(procs, q, |procs|)
  {
    var w := Woken(procs, chan);
    assert forall i :: 0 <= i < |procs| ==>
             w[i].parent == procs[i].parent && (w[i].state == ZOMBIE <==> procs[i].state == ZOMBIE);
  }
}
