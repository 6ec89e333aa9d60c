/** Processes on several CPUs (p3b/kernel/proc.c).

    A step is a stretch under ptable.lock, a hand-over of that lock through swtch, or one of the writes that
    fork makes to its new slot without the lock. */
module ProcRuns {
  import opened Proc

  /** Where a process is: in fork, with the stages of its new slot still to come; in wait; or anywhere else. */
  datatype Pc = Elsewhere | Forking(np: nat, stage: nat) | InWait

  /** What a CPU executes: its scheduler, or a process on that process's kernel stack. */
  datatype Cpu = Idle | On(p: nat)

  datatype Lock = Free | Held(c: nat)

  datatype Machine = Machine(procs: seq<Proc>, pcs: seq<Pc>, cpus: seq<Cpu>, lock: Lock, nextpid: nat, reaped: seq<nat>)

  datatype Action =
    | TakeLock | DropLock | Pick(p: nat) | Leave            // the scheduler's loop, and sched
    | Resume                                                // the end of yield, forkret and sleep
    | Yield | Sleep(n: nat) | Wakeup(n: nat) | Kill(pid: nat)
    | EnterWait | Scan                                      // wait
    | Exit
    | Alloc | Stack | Copy | Adopt | Start | Abandon        // fork

  ghost predicate Shaped(m: Machine) {
    && |m.procs| == |m.pcs| == NPROC
    && forall c :: 0 <= c < |m.cpus| && m.cpus[c].On? ==> m.cpus[c].p < NPROC
  }

  /** Process p runs on CPU c outside every critical section. */
  ghost predicate Runs(m: Machine, c: nat)
    requires Shaped(m)
  {
    c < |m.cpus| && m.cpus[c].On? && m.lock != Held(c) && m.procs[m.cpus[c].p].state == RUNNING
  }

  /** Process p runs on CPU c and holds the lock. */
  ghost predicate Owns(m: Machine, c: nat)
    requires Shaped(m)
  {
    c < |m.cpus| && m.cpus[c].On? && m.lock == Held(c) && m.procs[m.cpus[c].p].state == RUNNING
  }

  /** Action a by CPU c takes m to t. */
  ghost predicate Step(m: Machine, c: nat, a: Action, t: Machine)
    requires Shaped(m)
  {
    c < |m.cpus| &&
    var p := if m.cpus[c].On? then m.cpus[c].p else 0;
    match a
    case TakeLock => m.cpus[c] == Idle && m.lock == Free && t == m.(lock := Held(c))
    case DropLock => m.cpus[c] == Idle && m.lock == Held(c) && t == m.(lock := Free)
    case Pick(x) =>
      && m.cpus[c] == Idle && m.lock == Held(c) && x < NPROC && m.procs[x].state == RUNNABLE
      && t == m.(procs := m.procs[x := m.procs[x].(state := RUNNING)], cpus := m.cpus[c := On(x)])
    case Leave =>
      && m.cpus[c].On? && m.lock == Held(c) && m.procs[p].state != RUNNING
      && t == m.(cpus := m.cpus[c := Idle])
    case Resume =>
      && Owns(m, c) && m.pcs[p] != InWait
      && t == m.(procs := m.procs[p := m.procs[p].(chan := NoChan)], lock := Free)
    case Yield =>
      && Runs(m, c) && m.lock == Free && m.pcs[p] != InWait
      && t == m.(procs := m.procs[p := m.procs[p].(state := RUNNABLE)], lock := Held(c))
    case Sleep(n) =>
      && Runs(m, c) && m.lock == Free && m.pcs[p] == Elsewhere
      && t == m.(procs := m.procs[p := m.procs[p].(chan := Other(n), state := SLEEPING)], lock := Held(c))
    case Wakeup(n) =>
      && m.lock == Free
      && t == m.(procs := Woken(m.procs, Other(n)))
    case Kill(pid) =>
      && Runs(m, c) && m.lock == Free
      && t == m.(procs := Killed(m.procs, pid))
    case EnterWait =>
      && Runs(m, c) && m.lock == Free && m.pcs[p] == Elsewhere
      && t == m.(pcs := m.pcs[p := InWait], lock := Held(c))
    case Scan =>
      && Owns(m, c) && m.pcs[p] == InWait
      && t == Scanned(m.(procs := m.procs[p := m.procs[p].(chan := NoChan)]), p)
    case Exit =>
      && Runs(m, c) && m.lock == Free && m.pcs[p] == Elsewhere && p != INIT
      && t == m.(procs := Exited(m.procs, p), lock := Held(c))
    case Alloc =>
      && Runs(m, c) && m.lock == Free && m.pcs[p] == Elsewhere
      && var i := FirstUnused(m.procs, 0);
         t == if i == NPROC then m
              else m.(procs := m.procs[i := m.procs[i].(state := EMBRYO, pid := m.nextpid)], nextpid := m.nextpid + 1,
                      pcs := m.pcs[p := Forking(i, 0)])
    case Stack => ForkWrite(m, c, p, 0, t) && t.procs[m.pcs[p].np] == m.procs[m.pcs[p].np].(kstack := true)
    case Copy => ForkWrite(m, c, p, 1, t) && t.procs[m.pcs[p].np] == m.procs[m.pcs[p].np].(pgdir := true)
    case Adopt => ForkWrite(m, c, p, 2, t) && t.procs[m.pcs[p].np] == m.procs[m.pcs[p].np].(parent := Slot(p))
    case Start =>
      && Runs(m, c) && m.pcs[p].Forking? && m.pcs[p].np < NPROC && m.pcs[p].stage == 3
      && t == m.(procs := m.procs[m.pcs[p].np := m.procs[m.pcs[p].np].(state := RUNNABLE)],
            pcs := m.pcs[p := Elsewhere])
    case Abandon =>
      // kalloc or copyuvm failed
      && Runs(m, c) && m.pcs[p].Forking? && m.pcs[p].np < NPROC && m.pcs[p].stage < 2
      && t == m.(procs := m.procs[m.pcs[p].np := m.procs[m.pcs[p].np].(state := UNUSED, kstack := false)],
                 pcs := m.pcs[p := Elsewhere])
  }

  /** One of fork's writes to its new slot. */
  ghost predicate ForkWrite(m: Machine, c: nat, p: nat, stage: nat, t: Machine)
    requires Shaped(m) && p < NPROC
  {
    && Runs(m, c) && m.pcs[p].Forking? && m.pcs[p].np < NPROC && m.pcs[p].stage == stage && |t.procs| == NPROC
    && t == m.(procs := m.procs[m.pcs[p].np := t.procs[m.pcs[p].np]],
          pcs := m.pcs[p := Forking(m.pcs[p].np, stage + 1)])
  }

  /** One scan of wait by p, which holds the lock. */
  ghost function Scanned(m: Machine, p: nat): Machine
    requires Shaped(m) && p < NPROC
  {
    match WaitScan(m.procs, p)
    case Reap(z) => m.(procs := m.procs[z := Reaped(m.procs[z])], pcs := m.pcs[p := Elsewhere], lock := Free,
                       reaped := m.reaped + [m.procs[z].pid])
    case GiveUp => m.(pcs := m.pcs[p := Elsewhere], lock := Free)
    case MustSleep => m.(procs := m.procs[p := m.procs[p].(chan := OfProc(p), state := SLEEPING)])
  }

  // ------------------------------------------------------------------ the invariant

  ghost predicate Live(p: Proc) {
    p.state == SLEEPING || p.state == RUNNABLE || p.state == RUNNING
  }

  /** Parents are alive; every process but init has one; a slot that is not in use has none. */
  ghost predicate ParentsOk(procs: seq<Proc>)
    requires |procs| == NPROC
  {
    && Live(procs[INIT]) && procs[INIT].parent == Nobody
    && (forall i :: 0 <= i < NPROC && procs[i].parent.Slot? ==>
          procs[i].parent.p < NPROC && procs[i].parent.p != i && Live(procs[procs[i].parent.p]))
    && (forall i :: 0 <= i < NPROC && i != INIT && (Live(procs[i]) || procs[i].state == ZOMBIE) ==>
          procs[i].parent.Slot?)
    && (forall i :: 0 <= i < NPROC && procs[i].state == UNUSED ==> procs[i].parent == Nobody)
  }

  /** A process that is asleep in wait has no zombie child. */
  ghost predicate WaitersOk(procs: seq<Proc>, pcs: seq<Pc>)
    requires |procs| == |pcs| == NPROC
  {
    && (forall q :: 0 <= q < NPROC && procs[q].state == SLEEPING && pcs[q] == InWait ==> procs[q].chan == OfProc(q))
    && (forall q, z :: 0 <= q < NPROC && 0 <= z < NPROC && procs[q].state == SLEEPING && pcs[q] == InWait ==>
          !(procs[z].parent == Slot(q) && procs[z].state == ZOMBIE))
  }

  /** A process that is asleep in wait has a child, and has not been killed. */
  ghost predicate SleepersOk(procs: seq<Proc>, pcs: seq<Pc>)
    requires |procs| == |pcs| == NPROC
  {
    forall q :: 0 <= q < NPROC && procs[q].state == SLEEPING && pcs[q] == InWait ==>
      !procs[q].killed && HasKids(procs, q)
  }

  /** Process ids in the table are different, and none of them has been reaped. */
  ghost predicate PidsOk(procs: seq<Proc>, nextpid: nat, reaped: seq<nat>)
    requires |procs| == NPROC
  {
    && (forall i :: 0 <= i < NPROC && procs[i].state != UNUSED ==> procs[i].pid < nextpid && procs[i].pid !in reaped)
    && (forall i, j :: 0 <= i < NPROC && 0 <= j < NPROC && i != j &&
                       procs[i].state != UNUSED && procs[j].state != UNUSED ==>
          procs[i].pid != procs[j].pid)
    && (forall k :: 0 <= k < |reaped| ==> reaped[k] < nextpid)
    && (forall k, l :: 0 <= k < l < |reaped| ==> reaped[k] != reaped[l])
  }

  /** The running processes are the ones on CPUs, each on one; a process in any other state is on a CPU only
      while that CPU holds the lock. */
  ghost predicate CpusOk(m: Machine)
    requires Shaped(m)
  {
    && (m.lock.Held? ==> m.lock.c < |m.cpus|)
    && (forall c :: 0 <= c < |m.cpus| && m.cpus[c].On? && m.lock != Held(c) ==> m.procs[m.cpus[c].p].state == RUNNING)
    && (forall c, d :: 0 <= c < |m.cpus| && 0 <= d < |m.cpus| && c != d && m.cpus[c].On? ==> m.cpus[c] != m.cpus[d])
    && (forall c :: 0 <= c < |m.cpus| && m.cpus[c].On? ==>
          m.procs[m.cpus[c].p].state != UNUSED && m.procs[m.cpus[c].p].state != EMBRYO)
  }

  /** A process in fork owns its new slot, which has what the stages so far gave it. */
  ghost predicate ForksOk(procs: seq<Proc>, pcs: seq<Pc>)
    requires |procs| == |pcs| == NPROC
  {
    && (forall i :: 0 <= i < NPROC && !Live(procs[i]) ==> pcs[i] == Elsewhere)
    && (forall p :: 0 <= p < NPROC && pcs[p].Forking? ==>
          pcs[p].np < NPROC && pcs[p].stage <= 3 && Embryo(procs[pcs[p].np], p, pcs[p].stage))
    && (forall p, q :: 0 <= p < NPROC && 0 <= q < NPROC && p != q && pcs[p].Forking? && pcs[q].Forking? ==>
          pcs[p].np != pcs[q].np)
  }

  ghost predicate Embryo(np: Proc, p: nat, stage: nat) {
    && np.state == EMBRYO && np.kstack == (stage >= 1) && np.pgdir == (stage >= 2)
    && np.parent == if stage == 3 then Slot(p) else Nobody
  }

  /** Live processes and zombies have a kernel stack and a page table, and slots that are not in use have none. */
  ghost predicate StacksOk(procs: seq<Proc>)
    requires |procs| == NPROC
  {
    && (forall i :: 0 <= i < NPROC && (Live(procs[i]) || procs[i].state == ZOMBIE) ==>
          procs[i].kstack && procs[i].pgdir)
    && (forall i :: 0 <= i < NPROC && procs[i].state == UNUSED ==> !procs[i].kstack && !procs[i].pgdir)
  }

  ghost predicate Sound(m: Machine) {
    && Shaped(m) && ParentsOk(m.procs) && WaitersOk(m.procs, m.pcs) && PidsOk(m.procs, m.nextpid, m.reaped)
    && CpusOk(m) && ForksOk(m.procs, m.pcs) && StacksOk(m.procs) && SleepersOk(m.procs, m.pcs)
  }

  // ------------------------------------------------------------------ what keeps each part of it

  /** A process changes at most from one live state to another, its channel, or whether it is killed. */
  ghost predicate Like(p: Proc, q: Proc) {
    && q.pid == p.pid && q.parent == p.parent && q.kstack == p.kstack && q.pgdir == p.pgdir
    && (q.state == p.state || (Live(p) && Live(q)))
  }

  ghost predicate Similar(ps: seq<Proc>, qs: seq<Proc>) {
    |ps| == |qs| == NPROC && forall i :: 0 <= i < NPROC ==> Like(ps[i], qs[i])
  }

  lemma SimilarKeeps(ps: seq<Proc>, qs: seq<Proc>, pcs: seq<Pc>, nextpid: nat, reaped: seq<nat>)
    requires Similar(ps, qs) && ParentsOk(ps) && PidsOk(ps, nextpid, reaped) && StacksOk(ps)
    ensures ParentsOk(qs) && PidsOk(qs, nextpid, reaped) && StacksOk(qs)
  {
    SimilarParents(ps, qs);
    hide ParentsOk;
    forall i | 0 <= i < NPROC ensures Like(ps[i], qs[i]) && qs[i].pid == ps[i].pid {
    }
    hide Similar;
  }

  lemma SimilarParents(ps: seq<Proc>, qs: seq<Proc>)
    requires Similar(ps, qs) && ParentsOk(ps)
    ensures ParentsOk(qs)
  {
    assert Like(ps[INIT], qs[INIT]);
    forall i | 0 <= i < NPROC && qs[i].parent.Slot?
      ensures qs[i].parent.p < NPROC && qs[i].parent.p != i && Live(qs[qs[i].parent.p])
    {
      assert Like(ps[i], qs[i]) && Like(ps[ps[i].parent.p], qs[ps[i].parent.p]);
    }
    forall i | 0 <= i < NPROC && i != INIT && (Live(qs[i]) || qs[i].state == ZOMBIE) ensures qs[i].parent.Slot? {
      assert Like(ps[i], qs[i]);
    }
    forall i | 0 <= i < NPROC && qs[i].state == UNUSED ensures qs[i].parent == Nobody {
      assert Like(ps[i], qs[i]);
    }
  }

  lemma SimilarForks(ps: seq<Proc>, qs: seq<Proc>, pcs: seq<Pc>)
    requires Similar(ps, qs) && |pcs| == NPROC && ForksOk(ps, pcs)
    ensures ForksOk(qs, pcs)
  {
    forall i | 0 <= i < NPROC && !Live(qs[i]) ensures pcs[i] == Elsewhere {
      assert Like(ps[i], qs[i]);
    }
    forall p | 0 <= p < NPROC && pcs[p].Forking?
      ensures pcs[p].np < NPROC && pcs[p].stage <= 3 && Embryo(qs[pcs[p].np], p, pcs[p].stage)
    {
      assert Like(ps[pcs[p].np], qs[pcs[p].np]);
    }
  }

  /** Nobody falls asleep. */
  lemma SimilarWaiters(ps: seq<Proc>, qs: seq<Proc>, pcs: seq<Pc>)
    requires Similar(ps, qs) && |pcs| == NPROC && WaitersOk(ps, pcs)
    requires forall q :: 0 <= q < NPROC && qs[q].state == SLEEPING && pcs[q] == InWait ==>
               ps[q].state == SLEEPING && qs[q].chan == ps[q].chan
    ensures WaitersOk(qs, pcs)
  {
    forall q, z | 0 <= q < NPROC && 0 <= z < NPROC && qs[q].state == SLEEPING && pcs[q] == InWait
      ensures !(qs[z].parent == Slot(q) && qs[z].state == ZOMBIE)
    {
      assert Like(ps[z], qs[z]);
    }
  }

  lemma SimilarSleepers(ps: seq<Proc>, qs: seq<Proc>, pcs: seq<Pc>)
    requires Similar(ps, qs) && |pcs| == NPROC && SleepersOk(ps, pcs)
    requires forall q :: 0 <= q < NPROC && qs[q].state == SLEEPING && pcs[q] == InWait ==>
               ps[q].state == SLEEPING && qs[q].killed == ps[q].killed
    ensures SleepersOk(qs, pcs)
  {
    forall q | 0 <= q < NPROC && qs[q].state == SLEEPING && pcs[q] == InWait ensures HasKids(qs, q) {
      var i :| 0 <= i < NPROC && ps[i].parent == Slot(q);
      assert Like(ps[i], qs[i]);
    }
  }

  /** CPU c does something to the processes and perhaps to the lock. */
  lemma CpusKept(m: Machine, c: nat, t: Machine)
    requires Shaped(m) && Shaped(t) && CpusOk(m) && t.cpus == m.cpus && c < |m.cpus|
    requires t.lock == m.lock || (m.lock == Free && t.lock == Held(c)) || (m.lock == Held(c) && t.lock == Free)
    requires forall d :: 0 <= d < |m.cpus| && d != c && m.cpus[d].On? ==>
               t.procs[m.cpus[d].p].state == m.procs[m.cpus[d].p].state
    requires m.cpus[c].On? ==> t.procs[m.cpus[c].p].state != UNUSED && t.procs[m.cpus[c].p].state != EMBRYO
    requires m.cpus[c].On? && t.lock != Held(c) ==> t.procs[m.cpus[c].p].state == RUNNING
    ensures CpusOk(t)
  {
  }

  // ------------------------------------------------------------------ every step keeps it

  lemma LockSound(m: Machine, c: nat, a: Action, t: Machine)
    requires Sound(m) && Step(m, c, a, t) && (a.TakeLock? || a.DropLock? || a.Leave?)
    ensures Sound(t)
  {
    hide ParentsOk, WaitersOk, SleepersOk, PidsOk, ForksOk, StacksOk;
  }

  lemma PickSound(m: Machine, c: nat, x: nat, t: Machine)
    requires Sound(m) && Step(m, c, Pick(x), t)
    ensures Sound(t)
  {
    hide ParentsOk, WaitersOk, SleepersOk, PidsOk, ForksOk, StacksOk;
    SimilarKeeps(m.procs, t.procs, m.pcs, m.nextpid, m.reaped);
    SimilarForks(m.procs, t.procs, m.pcs);
    SimilarWaiters(m.procs, t.procs, m.pcs);
    SimilarSleepers(m.procs, t.procs, m.pcs);
  }

  lemma ResumeSound(m: Machine, c: nat, a: Action, t: Machine)
    requires Sound(m) && Step(m, c, a, t) && (a.Resume? || a.Yield? || a.Sleep?)
    ensures Sound(t)
  {
    hide ParentsOk, WaitersOk, SleepersOk, PidsOk, ForksOk, StacksOk, CpusOk;
    SimilarKeeps(m.procs, t.procs, m.pcs, m.nextpid, m.reaped);
    SimilarForks(m.procs, t.procs, m.pcs);
    SimilarWaiters(m.procs, t.procs, m.pcs);
    SimilarSleepers(m.procs, t.procs, m.pcs);
    CpuAlone(m, c);
    CpusKept(m, c, t);
  }

  /** A process is on one CPU only. */
  lemma CpuAlone(m: Machine, c: nat)
    requires Shaped(m) && CpusOk(m) && c < |m.cpus| && m.cpus[c].On?
    ensures forall d :: 0 <= d < |m.cpus| && d != c && m.cpus[d].On? ==> m.cpus[d].p != m.cpus[c].p
  {
  }

  lemma WakeupSound(m: Machine, c: nat, n: nat, t: Machine)
    requires Sound(m) && Step(m, c, Wakeup(n), t)
    ensures Sound(t)
  {
    hide ParentsOk, WaitersOk, SleepersOk, PidsOk, ForksOk, StacksOk;
    SimilarKeeps(m.procs, t.procs, m.pcs, m.nextpid, m.reaped);
    SimilarForks(m.procs, t.procs, m.pcs);
    SimilarWaiters(m.procs, t.procs, m.pcs);
    SimilarSleepers(m.procs, t.procs, m.pcs);
  }

  lemma KillSound(m: Machine, c: nat, pid: nat, t: Machine)
    requires Sound(m) && Step(m, c, Kill(pid), t)
    ensures Sound(t)
  {
    hide ParentsOk, WaitersOk, SleepersOk, PidsOk, ForksOk, StacksOk;
    SimilarKeeps(m.procs, t.procs, m.pcs, m.nextpid, m.reaped);
    SimilarForks(m.procs, t.procs, m.pcs);
    SimilarWaiters(m.procs, t.procs, m.pcs);
    SimilarSleepers(m.procs, t.procs, m.pcs);
  }

  lemma EnterWaitSound(m: Machine, c: nat, t: Machine)
    requires Sound(m) && Step(m, c, EnterWait, t)
    ensures Sound(t)
  {
    hide ParentsOk, PidsOk, StacksOk, CpusOk;
    CpusKept(m, c, t);
  }

  // ------------------------------------------------------------------ slots that no process lives in

  /** Slot i, where no process lives, gets the value q. */
  lemma NewParents(ps: seq<Proc>, i: nat, q: Proc)
    requires |ps| == NPROC && ParentsOk(ps) && i < NPROC && !Live(ps[i])
    requires q.parent.Slot? ==> q.parent.p < NPROC && Live(ps[q.parent.p])
    requires Live(q) || q.state == ZOMBIE ==> q.parent.Slot?
    requires q.state == UNUSED ==> q.parent == Nobody
    ensures ParentsOk(ps[i := q])
  {
  }

  lemma NewWaiters(ps: seq<Proc>, pcs: seq<Pc>, i: nat, q: Proc, p: nat, pc: Pc)
    requires |ps| == |pcs| == NPROC && WaitersOk(ps, pcs) && i < NPROC && p < NPROC && p != i
    requires q.state != SLEEPING && q.state != ZOMBIE && ps[p].state != SLEEPING
    ensures WaitersOk(ps[i := q], pcs[p := pc])
  {
  }

  lemma NewSleepers(ps: seq<Proc>, pcs: seq<Pc>, i: nat, q: Proc, p: nat, pc: Pc)
    requires |ps| == |pcs| == NPROC && SleepersOk(ps, pcs) && i < NPROC && p < NPROC && p != i
    requires q.state != SLEEPING && ps[p].state != SLEEPING && (ps[i].parent == Nobody || ps[i].parent == Slot(p))
    ensures SleepersOk(ps[i := q], pcs[p := pc])
  {
    forall r | 0 <= r < NPROC && r != i && ps[r].state == SLEEPING && pcs[p := pc][r] == InWait
      ensures HasKids(ps[i := q], r)
    {
      var k :| 0 <= k < NPROC && ps[k].parent == Slot(r);
      assert ps[i := q][k].parent == Slot(r);
    }
  }

  lemma NewPids(ps: seq<Proc>, i: nat, q: Proc, n: nat, reaped: seq<nat>)
    requires |ps| == NPROC && PidsOk(ps, n, reaped) && i < NPROC
    requires q.state == UNUSED || (ps[i].state != UNUSED && q.pid == ps[i].pid)
    ensures PidsOk(ps[i := q], n, reaped)
  {
  }

  lemma FreshPid(ps: seq<Proc>, i: nat, q: Proc, n: nat, reaped: seq<nat>)
    requires |ps| == NPROC && PidsOk(ps, n, reaped) && i < NPROC && q.pid == n
    ensures PidsOk(ps[i := q], n + 1, reaped)
  {
    forall k | 0 <= k < |reaped| ensures reaped[k] != n {
    }
  }

  lemma NewForks(ps: seq<Proc>, pcs: seq<Pc>, i: nat, q: Proc, p: nat, pc: Pc)
    requires |ps| == |pcs| == NPROC && ForksOk(ps, pcs) && i < NPROC && p < NPROC && p != i && Live(ps[p])
    requires !Live(ps[i])
    requires forall x :: 0 <= x < NPROC && x != p && pcs[x].Forking? ==> pcs[x].np != i
    requires pc.Forking? ==> pc.np == i && pc.stage <= 3 && Embryo(q, p, pc.stage)
    requires !pcs[p].Forking? || pcs[p].np == i
    ensures ForksOk(ps[i := q], pcs[p := pc])
  {
  }

  lemma ForkerOf(m: Machine, c: nat, p: nat)
    requires Sound(m) && Runs(m, c) && m.cpus[c] == On(p) && m.pcs[p].Forking?
    ensures var i := m.pcs[p].np;
            && i < NPROC && i != p && i != INIT && !Live(m.procs[i]) && Live(m.procs[p])
                  && Embryo(m.procs[i], p, m.pcs[p].stage)
            && (forall x :: 0 <= x < NPROC && x != p && m.pcs[x].Forking? ==> m.pcs[x].np != i)
            && (forall d :: 0 <= d < |m.cpus| && m.cpus[d].On? ==> m.cpus[d].p != i)
  {
    hide PidsOk, WaitersOk, StacksOk;
  }

  lemma ForkSound(m: Machine, c: nat, a: Action, t: Machine)
    requires Sound(m) && Step(m, c, a, t) && (a.Stack? || a.Copy? || a.Adopt? || a.Start? || a.Abandon?)
    ensures Sound(t)
  {
    hide ParentsOk, WaitersOk, SleepersOk, PidsOk, ForksOk, StacksOk, CpusOk;
    var p := m.cpus[c].p;
    ForkerOf(m, c, p);
    var i := m.pcs[p].np;
    var q := t.procs[i];
    assert t.procs == m.procs[i := q];
    NewParents(m.procs, i, q);
    NewWaiters(m.procs, m.pcs, i, q, p, t.pcs[p]);
    NewSleepers(m.procs, m.pcs, i, q, p, t.pcs[p]);
    NewPids(m.procs, i, q, m.nextpid, m.reaped);
    NewForks(m.procs, m.pcs, i, q, p, t.pcs[p]);
    NewStacks(m.procs, i, q);
    CpusKept(m, c, t);
  }

  lemma NewStacks(ps: seq<Proc>, i: nat, q: Proc)
    requires |ps| == NPROC && StacksOk(ps) && i < NPROC
    requires Live(q) || q.state == ZOMBIE ==> q.kstack && q.pgdir
    requires q.state == UNUSED ==> !q.kstack && !q.pgdir
    ensures StacksOk(ps[i := q])
  {
  }

  lemma AllocSound(m: Machine, c: nat, t: Machine)
    requires Sound(m) && Step(m, c, Alloc, t)
    ensures Sound(t)
  {
    hide ParentsOk, WaitersOk, SleepersOk, PidsOk, ForksOk, StacksOk, CpusOk;
    var i := FirstUnused(m.procs, 0);
    if i < NPROC {
      AllocFacts(m, c, i);
      var p, q := m.cpus[c].p, m.procs[i].(state := EMBRYO, pid := m.nextpid);
      NewParents(m.procs, i, q);
      NewWaiters(m.procs, m.pcs, i, q, p, Forking(i, 0));
      NewSleepers(m.procs, m.pcs, i, q, p, Forking(i, 0));
      FreshPid(m.procs, i, q, m.nextpid, m.reaped);
      NewForks(m.procs, m.pcs, i, q, p, Forking(i, 0));
      NewStacks(m.procs, i, q);
      CpusKept(m, c, t);
    }
  }

  lemma AllocFacts(m: Machine, c: nat, i: nat)
    requires Sound(m) && Runs(m, c) && m.lock == Free && i < NPROC && m.procs[i].state == UNUSED
    ensures var p := m.cpus[c].p;
            && i != p && m.procs[i].parent == Nobody && !m.procs[i].kstack && !m.procs[i].pgdir
            && (forall x :: 0 <= x < NPROC && m.pcs[x].Forking? ==> m.pcs[x].np != i)
            && (forall d :: 0 <= d < |m.cpus| && m.cpus[d].On? ==> m.cpus[d].p != i)
  {
    hide PidsOk, WaitersOk;
  }

  // ------------------------------------------------------------------ wait

  lemma ScanSound(m: Machine, c: nat, t: Machine)
    requires Sound(m) && Step(m, c, Scan, t)
    ensures Sound(t)
  {
    hide ParentsOk, WaitersOk, SleepersOk, PidsOk, ForksOk, StacksOk, CpusOk, WaitScan;
    var p := m.cpus[c].p;
    var m1 := m.(procs := m.procs[p := m.procs[p].(chan := NoChan)]);
    SimilarKeeps(m.procs, m1.procs, m.pcs, m.nextpid, m.reaped);
    SimilarForks(m.procs, m1.procs, m.pcs);
    SimilarWaiters(m.procs, m1.procs, m.pcs);
    SimilarSleepers(m.procs, m1.procs, m.pcs);
    CpuAlone(m, c);
    CpusKept(m, c, m1);
    match WaitScan(m1.procs, p)
    case Reap(z) => ReapSound(m1, c, z, t);
    case GiveUp => GiveUpSound(m1, c, t);
    case MustSleep => WaitSleepSound(m1, c, t);
  }

  /** The child that wait reaps is a zombie that has left its CPU: its stack and page table are not in use. */
  lemma ReapedIsOffCpu(m: Machine, c: nat, z: nat)
    requires Sound(m) && Owns(m, c) && WaitScan(m.procs, m.cpus[c].p) == Reap(z)
    ensures z < NPROC && m.procs[z].state == ZOMBIE && m.procs[z].parent == Slot(m.cpus[c].p) && z != m.cpus[c].p
    ensures forall d :: 0 <= d < |m.cpus| && m.cpus[d].On? ==> m.cpus[d].p != z
    ensures m.procs[z].kstack && m.procs[z].pgdir
  {
    hide ParentsOk, WaitersOk, PidsOk, ForksOk;
  }

  lemma ReapSound(m: Machine, c: nat, z: nat, t: Machine)
    requires Sound(m) && Owns(m, c) && WaitScan(m.procs, m.cpus[c].p) == Reap(z) && t == Scanned(m, m.cpus[c].p)
    requires m.pcs[m.cpus[c].p] == InWait
    ensures Sound(t)
  {
    ReapedIsOffCpu(m, c, z);
    hide ParentsOk, WaitersOk, SleepersOk, PidsOk, ForksOk, StacksOk, CpusOk, WaitScan;
    var p, q := m.cpus[c].p, Reaped(m.procs[z]);
    NewParents(m.procs, z, q);
    NewWaiters(m.procs, m.pcs, z, q, p, Elsewhere);
    NewSleepers(m.procs, m.pcs, z, q, p, Elsewhere);
    ReapPids(m.procs, z, q, m.nextpid, m.reaped);
    NotForked(m.procs, m.pcs, z);
    NewForks(m.procs, m.pcs, z, q, p, Elsewhere);
    NewStacks(m.procs, z, q);
    CpusKept(m, c, t);
  }

  lemma ReapPids(ps: seq<Proc>, z: nat, q: Proc, n: nat, reaped: seq<nat>)
    requires |ps| == NPROC && PidsOk(ps, n, reaped) && z < NPROC && ps[z].state == ZOMBIE && q.state == UNUSED
    ensures PidsOk(ps[z := q], n, reaped + [ps[z].pid])
  {
  }

  lemma NotForked(ps: seq<Proc>, pcs: seq<Pc>, z: nat)
    requires |ps| == |pcs| == NPROC && ForksOk(ps, pcs) && z < NPROC && ps[z].state != EMBRYO
    ensures forall x :: 0 <= x < NPROC && pcs[x].Forking? ==> pcs[x].np != z
  {
  }

  lemma GiveUpSound(m: Machine, c: nat, t: Machine)
    requires Sound(m) && Owns(m, c) && WaitScan(m.procs, m.cpus[c].p) == GiveUp && t == Scanned(m, m.cpus[c].p)
    requires m.pcs[m.cpus[c].p] == InWait
    ensures Sound(t)
  {
    hide ParentsOk, PidsOk, StacksOk, CpusOk, WaitScan;
    CpusKept(m, c, t);
  }

  /** wait goes to sleep only when it has found no zombie. */
  lemma WaitSleepSound(m: Machine, c: nat, t: Machine)
    requires Sound(m) && Owns(m, c) && WaitScan(m.procs, m.cpus[c].p) == MustSleep && t == Scanned(m, m.cpus[c].p)
    ensures Sound(t)
  {
    hide ParentsOk, PidsOk, ForksOk, StacksOk, CpusOk, WaitersOk, SleepersOk, WaitScan;
    WaitSleepWaiters(m.procs, m.pcs, m.cpus[c].p);
    WaitSleepSleepers(m.procs, m.pcs, m.cpus[c].p);
    SimilarKeeps(m.procs, t.procs, m.pcs, m.nextpid, m.reaped);
    SimilarForks(m.procs, t.procs, m.pcs);
    CpuAlone(m, c);
    CpusKept(m, c, t);
  }

  lemma WaitSleepWaiters(ps: seq<Proc>, pcs: seq<Pc>, p: nat)
    requires |ps| == |pcs| == NPROC && p < NPROC && WaitersOk(ps, pcs) && ps[p].state == RUNNING
    requires WaitScan(ps, p) == MustSleep
    ensures WaitersOk(ps[p := ps[p].(chan := OfProc(p), state := SLEEPING)], pcs)
  {
    assert FirstZombie(ps, p, 0) == NPROC;
  }

  /** And only when it has a child and has not been killed. */
  lemma WaitSleepSleepers(ps: seq<Proc>, pcs: seq<Pc>, p: nat)
    requires |ps| == |pcs| == NPROC && p < NPROC && SleepersOk(ps, pcs) && ps[p].state == RUNNING
    requires WaitScan(ps, p) == MustSleep
    ensures SleepersOk(ps[p := ps[p].(chan := OfProc(p), state := SLEEPING)], pcs)
  {
    var qs := ps[p := ps[p].(chan := OfProc(p), state := SLEEPING)];
    forall r | 0 <= r < NPROC && HasKids(ps, r) ensures HasKids(qs, r) {
      var k :| 0 <= k < NPROC && ps[k].parent == Slot(r);
      assert qs[k].parent == Slot(r);
    }
  }

  // ------------------------------------------------------------------ exit

  lemma WokenSimilar(ps: seq<Proc>, chan: Chan)
    requires |ps| == NPROC
    ensures Similar(ps, Woken(ps, chan))
  {
  }

  /** The parent is awake, the orphans are init's, and init is awake if one of them is a zombie. */
  lemma ExitSteps(ps: seq<Proc>, q: nat) returns (a: seq<Proc>, b: seq<Proc>, d: seq<Proc>)
    requires |ps| == NPROC && q < NPROC
    ensures a == Woken(ps, ChanOf(ps[q].parent)) && b == Reparented(a, q, NPROC)
    ensures d == if ZombieChild(ps, q, NPROC) then Woken(b, OfProc(INIT)) else b
    ensures Exited(ps, q) == d[q := d[q].(state := ZOMBIE)]
  {
    a := Woken(ps, ChanOf(ps[q].parent));
    b := Reparented(a, q, NPROC);
    d := if ZombieChild(ps, q, NPROC) then Woken(b, OfProc(INIT)) else b;
  }

  lemma ReparentedKeeps(ps: seq<Proc>, pcs: seq<Pc>, q: nat, n: nat, reaped: seq<nat>)
    requires |ps| == |pcs| == NPROC && q < NPROC && q != INIT && pcs[q] == Elsewhere
    requires ParentsOk(ps) && PidsOk(ps, n, reaped) && StacksOk(ps) && ForksOk(ps, pcs)
    ensures var b := Reparented(ps, q, NPROC);
            && ParentsOk(b) && PidsOk(b, n, reaped) && StacksOk(b) && ForksOk(b, pcs)
            && forall i :: 0 <= i < NPROC ==> b[i].parent != Slot(q)
  {
    hide ParentsOk, ForksOk, PidsOk, StacksOk;
    ReparentedParents(ps, q);
    ReparentedForks(ps, pcs, q);
    ReparentedRest(ps, q, n, reaped);
  }

  lemma ReparentedRest(ps: seq<Proc>, q: nat, n: nat, reaped: seq<nat>)
    requires |ps| == NPROC && PidsOk(ps, n, reaped) && StacksOk(ps)
    ensures PidsOk(Reparented(ps, q, NPROC), n, reaped) && StacksOk(Reparented(ps, q, NPROC))
  {
    var b := Reparented(ps, q, NPROC);
    assert forall i :: 0 <= i < NPROC ==> b[i].(parent := Nobody) == ps[i].(parent := Nobody);
  }

  lemma ReparentedParents(ps: seq<Proc>, q: nat)
    requires |ps| == NPROC && q < NPROC && q != INIT && ParentsOk(ps)
    ensures ParentsOk(Reparented(ps, q, NPROC))
  {
  }

  lemma ReparentedForks(ps: seq<Proc>, pcs: seq<Pc>, q: nat)
    requires |ps| == |pcs| == NPROC && q < NPROC && pcs[q] == Elsewhere && ForksOk(ps, pcs)
    ensures ForksOk(Reparented(ps, q, NPROC), pcs)
  {
    var b := Reparented(ps, q, NPROC);
    forall p | 0 <= p < NPROC && pcs[p].Forking? ensures b[pcs[p].np] == ps[pcs[p].np] {
      assert Embryo(ps[pcs[p].np], p, pcs[p].stage);
    }
  }

  /** A process without children becomes a zombie. */
  lemma DiesKeeps(ps: seq<Proc>, pcs: seq<Pc>, q: nat, n: nat, reaped: seq<nat>)
    requires |ps| == |pcs| == NPROC && q < NPROC && q != INIT && pcs[q] == Elsewhere && Live(ps[q])
    requires ParentsOk(ps) && PidsOk(ps, n, reaped) && StacksOk(ps) && ForksOk(ps, pcs)
    requires forall i :: 0 <= i < NPROC ==> ps[i].parent != Slot(q)
    ensures var d := ps[q := ps[q].(state := ZOMBIE)];
            ParentsOk(d) && PidsOk(d, n, reaped) && StacksOk(d) && ForksOk(d, pcs)
  {
    hide ParentsOk, PidsOk, StacksOk, ForksOk;
    DiesParents(ps, q);
    DiesPids(ps, q, n, reaped);
    DiesForks(ps, pcs, q);
  }

  lemma DiesParents(ps: seq<Proc>, q: nat)
    requires |ps| == NPROC && q < NPROC && q != INIT && Live(ps[q]) && ParentsOk(ps) && StacksOk(ps)
    requires forall i :: 0 <= i < NPROC ==> ps[i].parent != Slot(q)
    ensures var d := ps[q := ps[q].(state := ZOMBIE)]; ParentsOk(d) && StacksOk(d)
  {
  }

  lemma DiesPids(ps: seq<Proc>, q: nat, n: nat, reaped: seq<nat>)
    requires |ps| == NPROC && q < NPROC && Live(ps[q]) && PidsOk(ps, n, reaped)
    ensures PidsOk(ps[q := ps[q].(state := ZOMBIE)], n, reaped)
  {
  }

  lemma DiesForks(ps: seq<Proc>, pcs: seq<Pc>, q: nat)
    requires |ps| == |pcs| == NPROC && q < NPROC && pcs[q] == Elsewhere && Live(ps[q]) && ForksOk(ps, pcs)
    ensures ForksOk(ps[q := ps[q].(state := ZOMBIE)], pcs)
  {
    NotForked(ps, pcs, q);
  }

  /** No waiter misses the zombie q, or the zombies that q leaves to init. */
  lemma ExitWaiters(ps: seq<Proc>, pcs: seq<Pc>, q: nat)
    requires |ps| == |pcs| == NPROC && q < NPROC && q != INIT && WaitersOk(ps, pcs) && ParentsOk(ps) && Live(ps[q])
    ensures |Exited(ps, q)| == NPROC && WaitersOk(Exited(ps, q), pcs)
  {
    hide Exited, WaitersOk, ParentsOk;
    ExitedAt(ps, q, q);
    var e := Exited(ps, q);
    forall r, z | 0 <= r < NPROC && 0 <= z < NPROC && e[r].state == SLEEPING && pcs[r] == InWait
      ensures e[r].chan == OfProc(r) && !(e[z].parent == Slot(r) && e[z].state == ZOMBIE)
    {
      ExitPair(ps, pcs, q, r, z);
    }
    WaitersIntro(e, pcs);
  }

  /** The children of a sleeper stay its children. */
  lemma ExitSleepers(ps: seq<Proc>, pcs: seq<Pc>, q: nat)
    requires |ps| == |pcs| == NPROC && q < NPROC && SleepersOk(ps, pcs)
    ensures |Exited(ps, q)| == NPROC && SleepersOk(Exited(ps, q), pcs)
  {
    hide Exited;
    ExitedAt(ps, q, q);
    var e := Exited(ps, q);
    forall r | 0 <= r < NPROC && e[r].state == SLEEPING && pcs[r] == InWait ensures !e[r].killed && HasKids(e, r) {
      ExitedAt(ps, q, r);
      var k :| 0 <= k < NPROC && ps[k].parent == Slot(r);
      ExitedAt(ps, q, k);
      assert e[k].parent == Slot(r);
    }
  }

  lemma WaitersIntro(ps: seq<Proc>, pcs: seq<Pc>)
    requires |ps| == |pcs| == NPROC
    requires forall r, z :: 0 <= r < NPROC && 0 <= z < NPROC && ps[r].state == SLEEPING && pcs[r] == InWait ==>
               ps[r].chan == OfProc(r) && !(ps[z].parent == Slot(r) && ps[z].state == ZOMBIE)
    ensures WaitersOk(ps, pcs)
  {
    forall r | 0 <= r < NPROC && ps[r].state == SLEEPING && pcs[r] == InWait ensures ps[r].chan == OfProc(r) {
      assert !(ps[r].parent == Slot(r) && ps[r].state == ZOMBIE);
    }
  }

  lemma ExitPair(ps: seq<Proc>, pcs: seq<Pc>, q: nat, r: nat, z: nat)
    requires |ps| == |pcs| == NPROC && q < NPROC && q != INIT && WaitersOk(ps, pcs) && ParentsOk(ps) && Live(ps[q])
    requires r < NPROC && z < NPROC && |Exited(ps, q)| == NPROC && Exited(ps, q)[r].state == SLEEPING
    requires pcs[r] == InWait
    ensures Exited(ps, q)[r].chan == OfProc(r)
    ensures !(Exited(ps, q)[z].parent == Slot(r) && Exited(ps, q)[z].state == ZOMBIE)
  {
    hide Exited;
    ExitedAt(ps, q, r);
    ExitedAt(ps, q, z);
    assert ps[q].parent.Slot? && ps[q].parent.p != q;
    assert ps[r].chan == OfProc(r) && !(ps[z].parent == Slot(r) && ps[z].state == ZOMBIE);
    hide WaitersOk, ParentsOk;
    if ps[z].parent == Slot(q) && ps[z].state == ZOMBIE {
      assert ZombieChild(ps, q, NPROC);
    }
  }

  /** What exit of q does to slot i. */
  lemma ExitedAt(ps: seq<Proc>, q: nat, i: nat)
    requires |ps| == NPROC && q < NPROC && i < NPROC
    ensures |Exited(ps, q)| == NPROC
    ensures var e := Exited(ps, q)[i];
            && e.parent == (if ps[i].parent == Slot(q) then Slot(INIT) else ps[i].parent)
            && (e.state == ZOMBIE <==> i == q || ps[i].state == ZOMBIE)
            && (e.state == SLEEPING ==> ps[i].state == SLEEPING && e.chan == ps[i].chan != ChanOf(ps[q].parent))
            && (e.state == SLEEPING && ZombieChild(ps, q, NPROC) ==> e.chan != OfProc(INIT))
            && (i != q && ps[i].state == RUNNING ==> e.state == RUNNING)
            && e.killed == ps[i].killed && (e.state == SLEEPING ==> i != q)
  {
    hide ZombieChild;
    var a, b, d := ExitSteps(ps, q);
  }

  lemma ExitedRunning(ps: seq<Proc>, q: nat)
    requires |ps| == NPROC && q < NPROC
    ensures |Exited(ps, q)| == NPROC && Exited(ps, q)[q].state == ZOMBIE
    ensures forall i :: 0 <= i < NPROC && i != q && ps[i].state == RUNNING ==> Exited(ps, q)[i].state == RUNNING
  {
    hide Exited;
    ExitedAt(ps, q, q);
    forall i | 0 <= i < NPROC && i != q && ps[i].state == RUNNING ensures Exited(ps, q)[i].state == RUNNING {
      ExitedAt(ps, q, i);
    }
  }

  lemma OnCpuRunning(m: Machine)
    requires Shaped(m) && CpusOk(m) && m.lock == Free
    ensures forall d :: 0 <= d < |m.cpus| && m.cpus[d].On? ==> m.procs[m.cpus[d].p].state == RUNNING
  {
  }

  lemma ExitSound(m: Machine, c: nat, t: Machine)
    requires Sound(m) && Step(m, c, Exit, t)
    ensures Sound(t)
  {
    hide ParentsOk, WaitersOk, SleepersOk, PidsOk, ForksOk, StacksOk, CpusOk, Exited;
    var q := m.cpus[c].p;
    ExitWaiters(m.procs, m.pcs, q);
    ExitSleepers(m.procs, m.pcs, q);
    var a, b, d := ExitSteps(m.procs, q);
    WokenSimilar(m.procs, ChanOf(m.procs[q].parent));
    SimilarKeeps(m.procs, a, m.pcs, m.nextpid, m.reaped);
    SimilarForks(m.procs, a, m.pcs);
    ReparentedKeeps(a, m.pcs, q, m.nextpid, m.reaped);
    if d != b {
      WokenSimilar(b, OfProc(INIT));
      SimilarKeeps(b, d, m.pcs, m.nextpid, m.reaped);
      SimilarForks(b, d, m.pcs);
    }
    DiesKeeps(d, m.pcs, q, m.nextpid, m.reaped);
    ExitCpus(m, c, t);
  }

  lemma ExitCpus(m: Machine, c: nat, t: Machine)
    requires Sound(m) && Step(m, c, Exit, t)
    ensures Shaped(t) && CpusOk(t)
  {
    hide ParentsOk, WaitersOk, SleepersOk, PidsOk, ForksOk, StacksOk, CpusOk, Exited;
    ExitedRunning(m.procs, m.cpus[c].p);
    OnCpuRunning(m);
    CpuAlone(m, c);
    CpusKept(m, c, t);
  }

  // ------------------------------------------------------------------ all runs

  lemma StepSound(m: Machine, c: nat, a: Action, t: Machine)
    requires Sound(m) && Step(m, c, a, t)
    ensures Sound(t)
  {
    hide Sound, Step;
    match a
    case TakeLock => LockSound(m, c, a, t);
    case DropLock => LockSound(m, c, a, t);
    case Leave => LockSound(m, c, a, t);
    case Pick(x) => PickSound(m, c, x, t);
    case Resume => ResumeSound(m, c, a, t);
    case Yield => ResumeSound(m, c, a, t);
    case Sleep(_) => ResumeSound(m, c, a, t);
    case Wakeup(n) => WakeupSound(m, c, n, t);
    case Kill(pid) => KillSound(m, c, pid, t);
    case EnterWait => EnterWaitSound(m, c, t);
    case Scan => ScanSound(m, c, t);
    case Exit => ExitSound(m, c, t);
    case Alloc => AllocSound(m, c, t);
    case _ => ForkSound(m, c, a, t);
  }

  /** After userinit: one process, init, ready to run; all CPUs in their schedulers. */
  function Boot(ncpu: nat): Machine {
    Machine(seq(NPROC, i => if i == INIT then Proc(RUNNABLE, 1, Nobody, NoChan, false, true, true) else VACANT),
            seq(NPROC, _ => Elsewhere), seq(ncpu, _ => Idle), Free, 2, [])
  }

  lemma BootSound(ncpu: nat)
    ensures Sound(Boot(ncpu))
  {
  }

  ghost predicate Run(ms: seq<Machine>, cs: seq<nat>, acts: seq<Action>) {
    |ms| == |acts| + 1 == |cs| + 1 && forall i :: 0 <= i < |acts| ==>
        Shaped(ms[i]) && Step(ms[i], cs[i], acts[i], ms[i + 1])
  }

  lemma {:induction false} RunSound(ms: seq<Machine>, cs: seq<nat>, acts: seq<Action>, ncpu: nat, n: nat)
    requires Run(ms, cs, acts) && ms[0] == Boot(ncpu) && n <= |acts|
    ensures Sound(ms[n])
  {
    hide Sound, Step, Shaped;
    if n == 0 {
      BootSound(ncpu);
    } else {
      RunSound(ms, cs, acts, ncpu, n - 1);
      assert Step(ms[n - 1], cs[n - 1], acts[n - 1], ms[n - 1 + 1]);
      StepSound(ms[n - 1], cs[n - 1], acts[n - 1], ms[n]);
    }
  }

  /** In every run: parents of live processes and zombies are alive; whoever sleeps in wait has a child but no zombie
      child, and has not been killed; no pid is reaped twice; and a zombie is on a CPU only while that CPU holds
      ptable.lock. */
  lemma {:induction false} EveryRun(ms: seq<Machine>, cs: seq<nat>, acts: seq<Action>, ncpu: nat, n: nat)
    requires Run(ms, cs, acts) && ms[0] == Boot(ncpu) && n <= |acts|
    ensures var m := ms[n];
            && Shaped(m)
            && (forall i :: 0 <= i < NPROC && i != INIT && (Live(m.procs[i]) || m.procs[i].state == ZOMBIE) ==>
                  m.procs[i].parent.Slot? && m.procs[i].parent.p < NPROC && Live(m.procs[m.procs[i].parent.p]))
            && (forall q, z :: 0 <= q < NPROC && 0 <= z < NPROC &&
                               m.procs[q].state == SLEEPING && m.pcs[q] == InWait ==>
                  !(m.procs[z].parent == Slot(q) && m.procs[z].state == ZOMBIE))
            && (forall q :: 0 <= q < NPROC && m.procs[q].state == SLEEPING && m.pcs[q] == InWait ==>
                  !m.procs[q].killed && exists z :: 0 <= z < NPROC && m.procs[z].parent == Slot(q))
            && (forall k, l :: 0 <= k < l < |m.reaped| ==> m.reaped[k] != m.reaped[l])
            && (forall c :: 0 <= c < |m.cpus| && m.cpus[c].On? && m.procs[m.cpus[c].p].state == ZOMBIE ==>
                  m.lock == Held(c))
  {
    RunSound(ms, cs, acts, ncpu, n);
  }
}
