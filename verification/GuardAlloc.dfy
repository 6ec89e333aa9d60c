/** The frame allocator of p3a (p3a/kernel/kalloc.c), which takes every second entry of its free
    list so that the frames it hands out have unused neighbours.

    A frame is named by its index from the first frame above the kernel image. */
module GuardAlloc {
  const LOG_SIZE := 512

  /** The free list, first entry first, with what happened to the frames that left it:
      `live` are in use, `lost` were skipped by kalloc, `handed` were returned by kalloc at some time. */
  datatype Kmem = Kmem(list: seq<nat>, live: set<nat>, lost: set<nat>, handed: set<nat>)

  datatype Op = Alloc | Free(frame: nat)

  /** The frames t - 1, t - 2, ..., 0: what kinit leaves when it frees t frames in increasing order. */
  function Descending(t: nat): (s: seq<nat>)
    ensures |s| == t && forall i :: 0 <= i < t ==> s[i] == t - 1 - i
  {
    seq(t, (i: nat) requires i < t => t - 1 - i)
  }

  function AfterInit(frames: nat): Kmem {
    Kmem(Descending(frames), {}, {}, {})
  }

  predicate Enabled(s: Kmem, op: Op) {
    match op
    case Alloc => |s.list| >= 2
    case Free(f) => f in s.live
  }

  function Step(s: Kmem, op: Op): Kmem
    requires Enabled(s, op)
  {
    match op
    case Alloc =>
      Kmem(s.list[2..], s.live + {s.list[0]}, s.lost + {s.list[1]}, s.handed + {s.list[0]})
    case Free(f) =>
      Kmem([f] + s.list, s.live - {f}, s.lost, s.handed)
  }

  ghost predicate Runs(s: Kmem, ops: seq<Op>)
    decreases |ops|
  {
    ops == [] || (Enabled(s, ops[0]) && Runs(Step(s, ops[0]), ops[1..]))
  }

  function Run(s: Kmem, ops: seq<Op>): Kmem
    requires Runs(s, ops)
    decreases |ops|
  {
    if ops == [] then s else Run(Step(s, ops[0]), ops[1..])
  }

  ghost predicate NoNeighbours(handed: set<nat>) {
    forall f, g :: f in handed && g in handed ==> g != f + 1
  }

  /** The list is `pushed`, frames that were freed again, then the untouched frames below t in descending
      order.  None of the untouched frames was ever handed out, and neither was frame t itself. */
  ghost predicate Inv(s: Kmem, frames: nat, pushed: seq<nat>, t: nat) {
    && s.list == pushed + Descending(t) && t <= frames
    && (forall i :: 0 <= i < |pushed| ==> pushed[i] in s.handed)
    && (forall f :: f in s.handed ==> t < f < frames)
    && NoNeighbours(s.handed)
  }

  /** Every frame is on the list once, or live, or lost. */
  ghost predicate Accounted(s: Kmem, frames: nat) {
    && (forall i, j :: 0 <= i < j < |s.list| ==> s.list[i] != s.list[j])
    && (forall i :: 0 <= i < |s.list| ==> s.list[i] !in s.live && s.list[i] !in s.lost)
    && s.live !! s.lost
    && (forall f: nat :: f < frames <==> f in s.list || f in s.live || f in s.lost)
    && s.live <= s.handed
  }

  lemma HandOneMore(handed: set<nat>, t: nat, x: nat)
    requires NoNeighbours(handed) && (x in handed || x == t - 1) && forall f :: f in handed ==> t < f
    ensures NoNeighbours(handed + {x})
  {
  }

  lemma DescendingFrom(t: nat, k: nat)
    requires k <= t
    ensures Descending(t)[k..] == Descending(t - k)
  {
  }

  /** What is left of a list when its first two entries go. */
  lemma TwoTaken(pushed: seq<nat>, t: nat) returns (pushed': seq<nat>, t': nat)
    requires |pushed| + t >= 2
    ensures var list := pushed + Descending(t);
            && |list| >= 2 && list[2..] == pushed' + Descending(t')
            && list[0] == if pushed == [] then t - 1 else pushed[0]
    ensures pushed' == (if |pushed| >= 2 then pushed[2..] else []) && t' <= t
    ensures t' == if |pushed| >= 2 then t else t - (2 - |pushed|)
  {
    if |pushed| >= 2 {
      pushed', t' := pushed[2..], t;
    } else if |pushed| == 1 {
      pushed', t' := [], t - 1;
      DescendingFrom(t, 1);
    } else {
      pushed', t' := [], t - 2;
      DescendingFrom(t, 2);
    }
  }

  /** kalloc: the entry it takes is a freed frame or frame t - 1, and in the second case the one it skips is t - 2. */
  lemma AllocKeepsInv(s: Kmem, frames: nat, pushed: seq<nat>, t: nat) returns (pushed': seq<nat>, t': nat)
    requires Inv(s, frames, pushed, t) && Enabled(s, Alloc)
    ensures Inv(Step(s, Alloc), frames, pushed', t')
  {
    hide NoNeighbours, Descending;
    pushed', t' := TwoTaken(pushed, t);
    HandOneMore(s.handed, t, s.list[0]);
  }

  lemma FreeKeepsInv(s: Kmem, frames: nat, pushed: seq<nat>, t: nat, f: nat)
    requires Inv(s, frames, pushed, t) && f in s.live && s.live <= s.handed
    ensures Inv(Step(s, Free(f)), frames, [f] + pushed, t)
  {
    assert [f] + s.list == [f] + pushed + Descending(t);
  }

  lemma StepKeepsAccounts(s: Kmem, frames: nat, op: Op)
    requires Accounted(s, frames) && Enabled(s, op)
    ensures Accounted(Step(s, op), frames)
  {
    var s' := Step(s, op);
    match op
    case Alloc =>
      assert s.list == [s.list[0], s.list[1]] + s'.list;
    case Free(f) =>
  }

  /** In every run of kalloc and kfree from kinit, whatever the order of the frees, no two frames that
      were ever handed out are neighbours, and every frame is accounted for. */
  lemma {:induction false} NoRunHandsOutNeighbours(frames: nat, ops: seq<Op>)
    requires Runs(AfterInit(frames), ops)
    ensures NoNeighbours(Run(AfterInit(frames), ops).handed)
    ensures Accounted(Run(AfterInit(frames), ops), frames)
  {
    InitOk(frames);
    hide Inv, Accounted, AfterInit, NoNeighbours;
    RunKeepsInv(AfterInit(frames), frames, [], frames, ops);
  }

  lemma InitOk(frames: nat)
    ensures Inv(AfterInit(frames), frames, [], frames) && Accounted(AfterInit(frames), frames)
  {
    var list := Descending(frames);
    assert [] + list == list;
    forall f: nat ensures f < frames <==> f in list {
      if f < frames { assert list[frames - 1 - f] == f; }
    }
    hide Descending;
  }

  lemma {:induction false} RunKeepsInv(s: Kmem, frames: nat, pushed: seq<nat>, t: nat, ops: seq<Op>)
    requires Inv(s, frames, pushed, t) && Accounted(s, frames) && Runs(s, ops)
    ensures NoNeighbours(Run(s, ops).handed) && Accounted(Run(s, ops), frames)
    decreases |ops|
  {
    if ops != [] {
      StepKeepsAccounts(s, frames, ops[0]);
      var pushed', t' := [], t;
      match ops[0] {
        case Alloc =>
          pushed', t' := AllocKeepsInv(s, frames, pushed, t);
        case Free(f) =>
          FreeKeepsInv(s, frames, pushed, t, f);
          pushed' := [f] + pushed;
      }
      RunKeepsInv(Step(s, ops[0]), frames, pushed', t', ops[1..]);
    }
  }

  /** A skipped frame never comes back: it is handed out in no continuation of the run. */
  lemma {:induction false} LostStaysLost(s: Kmem, frames: nat, ops: seq<Op>, f: nat)
    requires Accounted(s, frames) && Runs(s, ops) && f in s.lost
    ensures f in Run(s, ops).lost && (f in Run(s, ops).handed <==> f in s.handed)
    decreases |ops|
  {
    if ops != [] {
      StepKeepsAccounts(s, frames, ops[0]);
      LostStaysLost(Step(s, ops[0]), frames, ops[1..], f);
    }
  }

  // ------------------------------------------------------------------ the allocator itself

  /** An entry of the free list: a frame with the number kfree gave it. */
  datatype Entry = Entry(frame: nat, cnum: nat)

  function Frames(es: seq<Entry>): (s: seq<nat>)
    ensures |s| == |es| && forall i :: 0 <= i < |es| ==> s[i] == es[i].frame
  {
    seq(|es|, (i: nat) requires i < |es| => es[i].frame)
  }

  class Allocator {
    const frames: nat
    const hlb: array<nat>
    var freelist: seq<Entry>
    var n: nat
    ghost var live: set<nat>
    ghost var lost: set<nat>
    ghost var handed: set<nat>
    ghost var log: seq<nat>   // the nonzero numbers of the frames handed out, oldest first

    ghost function Value(): Kmem
      reads this
    {
      Kmem(Frames(freelist), live, lost, handed)
    }

    /** HLB holds the first 512 entries of the log, and zeroes behind them. */
    ghost predicate Valid()
      reads this, hlb
    {
      && hlb.Length == LOG_SIZE
      && (forall i :: 0 <= i < |log| ==> log[i] != 0)
      && (forall i :: 0 <= i < LOG_SIZE ==> hlb[i] == if i < |log| then log[i] else 0)
    }

    /** kinit */
    constructor (count: nat)
      ensures Valid() && fresh(hlb) && frames == count
      ensures Value() == AfterInit(count) && n == count && log == []
      ensures forall i :: 0 <= i < |freelist| ==> freelist[i].cnum == freelist[i].frame
    {
      frames := count;
      hlb := new nat[LOG_SIZE](_ => 0);
      freelist, n := [], 0;
      live, lost, handed, log := {}, {}, {}, [];
      new;
      for f := 0 to count
        invariant Valid() && n == f && live == lost == handed == {} && log == []
        invariant Frames(freelist) == Descending(f)
        invariant forall i :: 0 <= i < |freelist| ==> freelist[i].cnum == freelist[i].frame
      {
        var ok := Kfree(f);
      }
    }

    /** kfree: panics outside the pool (ok is false), and otherwise puts the frame in front, numbered n. */
    method Kfree(f: nat) returns (ok: bool)
      requires Valid()
      modifies this
      ensures Valid() && ok == (f < frames)
      ensures !ok ==> unchanged(this)
      ensures ok ==> freelist == [Entry(f, old(n))] + old(freelist) && n == old(n) + 1
      ensures ok ==> Value() == Kmem([f] + old(Value()).list, old(live) - {f}, old(lost), old(handed))
      ensures log == old(log)
    {
      if f >= frames {
        return false;
      }
      freelist := [Entry(f, n)] + freelist;
      n := n + 1;
      live := live - {f};
      assert Frames(freelist) == [f] + old(Value()).list;
      ok := true;
    }

    /** kalloc, where the list has the two entries that it dereferences. */
    method Kalloc() returns (r: nat)
      requires Valid() && |freelist| >= 2
      modifies this, hlb
      ensures Valid()
      ensures Value() == Step(old(Value()), Alloc) && r == old(freelist)[0].frame
      ensures freelist == old(freelist)[2..] && n == old(n)
      ensures log == old(log) + if old(freelist)[0].cnum == 0 then [] else [old(freelist)[0].cnum]
    {
      var e := freelist[0];
      live, lost, handed := live + {e.frame}, lost + {freelist[1].frame}, handed + {e.frame};
      freelist := freelist[2..];
      assert Frames(freelist) == old(Value()).list[2..];
      ghost var log0 := log;
      for i := 0 to LOG_SIZE
        invariant Valid() && log == log0 && i <= |log|
        invariant forall j :: 0 <= j < i ==> hlb[j] != 0
      {
        if hlb[i] == 0 {
          hlb[i] := e.cnum;
          break;
        }
      }
      log := log0 + if e.cnum == 0 then [] else [e.cnum];
      r := e.frame;
    }
  }
}
