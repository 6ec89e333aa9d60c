/** Runs of a pipe (p2b/kernel/pipe.c with sleep and wakeup of p3b/kernel/proc.c): any number of
    readers and writers, one stretch under the pipe's lock at a time.

    Sleeping releases the pipe's lock only once the process is registered on its channel, so a
    stretch that ends in sleep and the registration are one step. */
module PipeProtocol {
  import opened Basics
  import opened Pipe

  /** A process that uses the pipe: inside pipewrite with `rest` still to store, inside piperead for up to n bytes. */
  datatype Proc = Writing(rest: seq<byte>, asleep: bool) | Reading(n: nat, asleep: bool)

  datatype State = State(contents: seq<byte>, readopen: bool, writeopen: bool,
                         procs: map<nat, Proc>, killed: set<nat>,
                         accepted: seq<byte>, delivered: seq<byte>)

  datatype Op = CallWrite(p: nat, bytes: seq<byte>) | CallRead(p: nat, n: nat) | Go(p: nat)
              | CloseRead | CloseWrite | Kill(p: nat)

  const NEW_PIPE := State([], true, true, map[], {}, [], [])

  /** wakeup(&p->nread) makes the readers runnable, wakeup(&p->nwrite) the writers. */
  function WakeReaders(procs: map<nat, Proc>): (r: map<nat, Proc>)
    ensures r.Keys == procs.Keys
  {
    map p | p in procs :: if procs[p].Reading? then Reading(procs[p].n, false) else procs[p]
  }

  function WakeWriters(procs: map<nat, Proc>): (r: map<nat, Proc>)
    ensures r.Keys == procs.Keys
  {
    map p | p in procs :: if procs[p].Writing? then Writing(procs[p].rest, false) else procs[p]
  }

  /** An open descriptor keeps its end open, so an end closes only when nobody is inside a call on it. */
  predicate Enabled(s: State, op: Op) {
    match op
    case CallWrite(p, _) => p !in s.procs && s.writeopen
    case CallRead(p, _) => p !in s.procs && s.readopen
    case Go(p) => p in s.procs && !s.procs[p].asleep && |s.contents| <= PIPESIZE
    case CloseRead => s.readopen && forall p :: p in s.procs ==> !s.procs[p].Reading?
    case CloseWrite => s.writeopen && forall p :: p in s.procs ==> !s.procs[p].Writing?
    case Kill(p) => true
  }

  function GoWriter(s: State, p: nat): State
    requires p in s.procs && s.procs[p].Writing? && |s.contents| <= PIPESIZE
  {
    var rest := s.procs[p].rest;
    var k := Put(s.contents, rest);
    var s' := s.(contents := s.contents + rest[..k], accepted := s.accepted + rest[..k]);
    match WriteExit(s.contents, rest, s.readopen, p in s.killed)
    case Done => s'.(procs := WakeReaders(s.procs) - {p})
    case Asleep => s'.(procs := WakeReaders(s.procs)[p := Writing(rest[k..], true)])
    case Failed => s'.(procs := s.procs - {p})
  }

  function GoReader(s: State, p: nat): State
    requires p in s.procs && s.procs[p].Reading?
  {
    var n := s.procs[p].n;
    var k := Got(s.contents, n);
    match ReadExit(s.contents, s.writeopen, p in s.killed)
    case Done =>
      s.(contents := s.contents[k..], delivered := s.delivered + s.contents[..k], procs := WakeWriters(s.procs) - {p})
    case Asleep => s.(procs := s.procs[p := Reading(n, true)])
    case Failed => s.(procs := s.procs - {p})
  }

  function Step(s: State, op: Op): State
    requires Enabled(s, op)
  {
    match op
    case CallWrite(p, bytes) => s.(procs := s.procs[p := Writing(bytes, false)])
    case CallRead(p, n) => s.(procs := s.procs[p := Reading(n, false)])
    case Go(p) => if s.procs[p].Writing? then GoWriter(s, p) else GoReader(s, p)
    case CloseRead => s.(readopen := false, procs := WakeWriters(s.procs))
    case CloseWrite => s.(writeopen := false, procs := WakeReaders(s.procs))
    case Kill(p) =>
      s.(killed := s.killed + {p},
         procs := if p in s.procs then s.procs[p := s.procs[p].(asleep := false)] else s.procs)
  }

  ghost predicate Runs(s: State, ops: seq<Op>)
    decreases |ops|
  {
    ops == [] || (Enabled(s, ops[0]) && Runs(Step(s, ops[0]), ops[1..]))
  }

  function Run(s: State, ops: seq<Op>): State
    requires Runs(s, ops)
    decreases |ops|
  {
    if ops == [] then s else Run(Step(s, ops[0]), ops[1..])
  }

  // ------------------------------------------------------------------ first in, first out

  /** Bytes delivered, then bytes in the ring, are the bytes accepted, in order. */
  ghost predicate Fifo(s: State) {
    s.delivered + s.contents == s.accepted && |s.contents| <= PIPESIZE
  }

  lemma WriterKeepsFifo(s: State, p: nat)
    requires Fifo(s) && p in s.procs && s.procs[p].Writing?
    ensures Fifo(GoWriter(s, p))
  {
    hide WakeReaders;
    var more := s.procs[p].rest[..Put(s.contents, s.procs[p].rest)];
    assert s.delivered + (s.contents + more) == s.delivered + s.contents + more;
  }

  lemma ReaderKeepsFifo(s: State, p: nat)
    requires Fifo(s) && p in s.procs && s.procs[p].Reading?
    ensures Fifo(GoReader(s, p))
  {
    hide WakeWriters;
    var k := Got(s.contents, s.procs[p].n);
    assert s.contents == s.contents[..k] + s.contents[k..];
  }

  lemma StepKeepsFifo(s: State, op: Op)
    requires Fifo(s) && Enabled(s, op)
    ensures Fifo(Step(s, op))
  {
    hide GoWriter, GoReader, WakeReaders, WakeWriters;
    match op {
      case Go(p) =>
        if s.procs[p].Reading? {
          ReaderKeepsFifo(s, p);
        } else {
          WriterKeepsFifo(s, p);
        }
      case _ =>
    }
  }

  lemma FreshPipe()
    ensures Fifo(NEW_PIPE) && NoLostWakeup(NEW_PIPE) && EndsHeld(NEW_PIPE) && NEW_PIPE.killed == {}
  {
  }

  lemma {:induction false} RunKeepsFifo(s: State, ops: seq<Op>)
    requires Fifo(s) && Runs(s, ops)
    ensures Fifo(Run(s, ops))
    decreases |ops|
  {
    if ops != [] {
      StepKeepsFifo(s, ops[0]);
      RunKeepsFifo(Step(s, ops[0]), ops[1..]);
    }
  }

  /** In every run of a fresh pipe, kills included, the pipe is first in, first out and never overfull. */
  lemma {:induction false} EveryRunIsFifo(ops: seq<Op>)
    requires Runs(NEW_PIPE, ops)
    ensures var s := Run(NEW_PIPE, ops); s.delivered + s.contents == s.accepted && |s.contents| <= PIPESIZE
  {
    FreshPipe();
    RunKeepsFifo(NEW_PIPE, ops);
  }

  // ------------------------------------------------------------------ kills

  /** Nobody who has been killed sleeps on the pipe. */
  ghost predicate KilledAwake(s: State) {
    forall p :: p in s.procs && p in s.killed ==> !s.procs[p].asleep
  }

  /** A killed process that goes on leaves its call: with what it could take or store, or with -1. */
  lemma KilledLeaves(s: State, p: nat)
    requires Enabled(s, Go(p)) && p in s.killed
    ensures p !in Step(s, Go(p)).procs
  {
  }

  lemma StepKeepsAwake(s: State, op: Op)
    requires KilledAwake(s) && Enabled(s, op)
    ensures KilledAwake(Step(s, op))
  {
    if op.Go? && op.p in s.killed {
      KilledLeaves(s, op.p);
    }
  }

  lemma {:induction false} RunKeepsAwake(s: State, ops: seq<Op>)
    requires KilledAwake(s) && Runs(s, ops)
    ensures KilledAwake(Run(s, ops))
    decreases |ops|
  {
    hide KilledAwake, Enabled, Step;
    if ops != [] {
      StepKeepsAwake(s, ops[0]);
      RunKeepsAwake(Step(s, ops[0]), ops[1..]);
    }
  }

  /** In every run, a killed process never sleeps on the pipe, and leaves its call the next time it runs. */
  lemma {:induction false} KilledNeverSleeps(ops: seq<Op>, p: nat)
    requires Runs(NEW_PIPE, ops)
    ensures var s := Run(NEW_PIPE, ops);
            p in s.killed && p in s.procs ==> Enabled(s, Go(p)) && p !in Step(s, Go(p)).procs
  {
    EveryRunIsFifo(ops);
    RunKeepsAwake(NEW_PIPE, ops);
    var s := Run(NEW_PIPE, ops);
    if p in s.killed && p in s.procs {
      KilledLeaves(s, p);
    }
  }

  // ------------------------------------------------------------------ no lost wakeup

  ghost predicate ReaderAsleep(s: State) {
    exists p :: p in s.procs && s.procs[p].Reading? && s.procs[p].asleep
  }

  ghost predicate WriterAsleep(s: State) {
    exists p :: p in s.procs && s.procs[p].Writing? && s.procs[p].asleep
  }

  /** Whoever sleeps has a reason to: a reader sleeps only on an empty ring that may still be written,
      a writer only on a full ring that may still be read. */
  ghost predicate NoLostWakeup(s: State) {
    && (ReaderAsleep(s) ==> s.contents == [] && s.writeopen)
    && (WriterAsleep(s) ==> |s.contents| == PIPESIZE && s.readopen)
  }

  /** Calls hold their end open. */
  ghost predicate EndsHeld(s: State) {
    && (forall p :: p in s.procs && s.procs[p].Reading? ==> s.readopen)
    && (forall p :: p in s.procs && s.procs[p].Writing? ==> s.writeopen)
  }

  /** A killed writer fills the empty ring past a sleeping reader and gives up without waking it. */
  ghost predicate DropsWakeup(s: State, op: Op) {
    && op.Go? && op.p in s.procs && s.procs[op.p].Writing?
    && op.p in s.killed && |s.procs[op.p].rest| > PIPESIZE && ReaderAsleep(s)
  }

  lemma StepKeepsEndsHeld(s: State, op: Op)
    requires EndsHeld(s) && Enabled(s, op)
    ensures EndsHeld(Step(s, op))
  {
  }

  // A reader's stretch puts nobody but the reader to sleep, and one that returns data wakes the writers.
  lemma GoReaderSleepers(s: State, p: nat)
    requires p in s.procs && s.procs[p].Reading? && !s.procs[p].asleep
    ensures var exit := ReadExit(s.contents, s.writeopen, p in s.killed);
            && (WriterAsleep(GoReader(s, p)) ==> WriterAsleep(s) && !exit.Done?)
            && (ReaderAsleep(GoReader(s, p)) ==> ReaderAsleep(s) || exit.Asleep?)
  {
    var s' := GoReader(s, p);
    if WriterAsleep(s') {
      var q :| q in s'.procs && s'.procs[q].Writing? && s'.procs[q].asleep;
      assert q in s.procs && s.procs[q].Writing? && s.procs[q].asleep;
    }
    if q :| q in s'.procs && s'.procs[q].Reading? && s'.procs[q].asleep && q != p {
      assert q in s.procs && s.procs[q].Reading? && s.procs[q].asleep;
    }
  }

  lemma GoReaderWakes(s: State, p: nat)
    requires NoLostWakeup(s) && EndsHeld(s) && |s.contents| <= PIPESIZE
    requires p in s.procs && s.procs[p].Reading? && !s.procs[p].asleep
    ensures NoLostWakeup(GoReader(s, p))
  {
    GoReaderSleepers(s, p);
    hide ReaderAsleep, WriterAsleep;
  }

  lemma GoWriterWakes(s: State, p: nat)
    requires NoLostWakeup(s) && EndsHeld(s) && |s.contents| <= PIPESIZE
    requires p in s.procs && s.procs[p].Writing? && !s.procs[p].asleep
    ensures NoLostWakeup(GoWriter(s, p)) <==> !DropsWakeup(s, Go(p))
  {
    var s' := GoWriter(s, p);
    if WriterAsleep(s') && (p !in s'.procs || !s'.procs[p].asleep) {
      var q :| q in s'.procs && s'.procs[q].Writing? && s'.procs[q].asleep;
      assert q in s.procs && s.procs[q].Writing? && s.procs[q].asleep;
    }
    if ReaderAsleep(s') {
      var q :| q in s'.procs && s'.procs[q].Reading? && s'.procs[q].asleep;
      assert q in s.procs && s.procs[q].Reading? && s.procs[q].asleep;
    }
    if DropsWakeup(s, Go(p)) {
      var q :| q in s.procs && s.procs[q].Reading? && s.procs[q].asleep;
      assert q in s'.procs && s'.procs[q].Reading? && s'.procs[q].asleep;
    }
  }

  lemma OtherStepSleepers(s: State, op: Op)
    requires Enabled(s, op) && !op.Go?
    ensures WriterAsleep(Step(s, op)) ==> WriterAsleep(s) && !op.CloseRead?
    ensures ReaderAsleep(Step(s, op)) ==> ReaderAsleep(s) && !op.CloseWrite?
  {
    var s' := Step(s, op);
    if WriterAsleep(s') {
      var q :| q in s'.procs && s'.procs[q].Writing? && s'.procs[q].asleep;
      assert q in s.procs && s.procs[q].Writing? && s.procs[q].asleep;
    }
    if ReaderAsleep(s') {
      var q :| q in s'.procs && s'.procs[q].Reading? && s'.procs[q].asleep;
      assert q in s.procs && s.procs[q].Reading? && s.procs[q].asleep;
    }
  }

  /** One step keeps every sleeper justified, except exactly when it is that of a killed writer. */
  lemma StepWakes(s: State, op: Op)
    requires NoLostWakeup(s) && EndsHeld(s) && |s.contents| <= PIPESIZE && Enabled(s, op)
    ensures NoLostWakeup(Step(s, op)) <==> !DropsWakeup(s, op)
  {
    match op {
      case Go(p) =>
        if s.procs[p].Writing? { GoWriterWakes(s, p); } else { GoReaderWakes(s, p); }
      case _ =>
        OtherStepSleepers(s, op);
        hide ReaderAsleep, WriterAsleep;
    }
  }

  lemma {:induction false} RunKeepsSleepers(s: State, ops: seq<Op>)
    requires Fifo(s) && NoLostWakeup(s) && EndsHeld(s) && s.killed == {} && Runs(s, ops)
    requires forall i :: 0 <= i < |ops| ==> !ops[i].Kill?
    ensures NoLostWakeup(Run(s, ops))
    decreases |ops|
  {
    if ops != [] {
      StepKeepsFifo(s, ops[0]);
      StepKeepsEndsHeld(s, ops[0]);
      StepWakes(s, ops[0]);
      RunKeepsSleepers(Step(s, ops[0]), ops[1..]);
    }
  }

  /** In runs of a fresh pipe without kills every sleeper is justified at every moment, so readers and writers never
      sleep together. */
  lemma {:induction false} NoRunLosesWakeup(ops: seq<Op>)
    requires Runs(NEW_PIPE, ops) && forall i :: 0 <= i < |ops| ==> !ops[i].Kill?
    ensures NoLostWakeup(Run(NEW_PIPE, ops)) && !(ReaderAsleep(Run(NEW_PIPE, ops)) && WriterAsleep(Run(NEW_PIPE, ops)))
  {
    FreshPipe();
    hide Runs, Run, Step, Enabled;
    RunKeepsSleepers(NEW_PIPE, ops);
  }

  /** The wakeup that a kill loses: a reader sleeps, a killed writer fills the ring, and the reader sleeps on. */
  lemma {:induction false} KilledWriterLosesWakeup(bytes: seq<byte>)
    requires |bytes| == PIPESIZE + 1
    ensures var ops := [CallRead(1, 1), Go(1), CallWrite(2, bytes), Kill(2), Go(2)];
            Runs(NEW_PIPE, ops) && ReaderAsleep(Run(NEW_PIPE, ops)) && Run(NEW_PIPE, ops).contents == bytes[..PIPESIZE]
  {
    var s1 := Step(NEW_PIPE, CallRead(1, 1));
    var s2 := Step(s1, Go(1));
    var s3 := Step(s2, CallWrite(2, bytes));
    var s4 := Step(s3, Kill(2));
    var s5 := Step(s4, Go(2));
    assert s2.procs == map[1 := Reading(1, true)];
    assert s5.procs[1].asleep && s5.contents == bytes[..PIPESIZE];
    hide Step;
    OneMoreStep(s4, Go(2), []);
    OneMoreStep(s3, Kill(2), [Go(2)]);
    OneMoreStep(s2, CallWrite(2, bytes), [Kill(2), Go(2)]);
    OneMoreStep(s1, Go(1), [CallWrite(2, bytes), Kill(2), Go(2)]);
    OneMoreStep(NEW_PIPE, CallRead(1, 1), [Go(1), CallWrite(2, bytes), Kill(2), Go(2)]);
    assert ReaderAsleep(s5);
  }

  lemma {:induction false} OneMoreStep(s: State, op: Op, ops: seq<Op>)
    requires Enabled(s, op) && Runs(Step(s, op), ops)
    ensures Runs(s, [op] + ops) && Run(s, [op] + ops) == Run(Step(s, op), ops)
  {
    assert ([op] + ops)[1..] == ops;
  }
}
