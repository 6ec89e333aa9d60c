/** Pipes (p2b/kernel/pipe.c): a 512-byte ring with two free-running 32-bit counters.

    The methods are the stretches of pipewrite and piperead that run under the pipe's lock: each one
    starts when the lock has just been acquired and ends when the process sleeps, which releases the
    lock, or returns.  `PipeProtocol` composes them into runs. */
module Pipe {
  import opened Basics

  const PIPESIZE := 512

  /** What readers sleep on (&p->nread), and what writers sleep on (&p->nwrite). */
  datatype Channel = NRead | NWrite

  /** How a stretch ends. */
  datatype Exit = Done | Asleep | Failed

  /** What a stretch of pipewrite does to the contents: it moves as much of `rest` as there is room for.
      The readers are woken unless the writer gives up. */
  function Put(contents: seq<byte>, rest: seq<byte>): nat
    requires |contents| <= PIPESIZE
  {
    if |rest| <= PIPESIZE - |contents| then |rest| else PIPESIZE - |contents|
  }

  function WriteExit(contents: seq<byte>, rest: seq<byte>, readopen: bool, killed: bool): Exit
    requires |contents| <= PIPESIZE
  {
    if Put(contents, rest) == |rest| then Done
    else if !readopen || killed then Failed
    else Asleep
  }

  /** A stretch of piperead sleeps on an empty ring with an open write end, and otherwise takes up to n bytes. */
  function ReadExit(contents: seq<byte>, writeopen: bool, killed: bool): Exit {
    if contents == [] && writeopen then (if killed then Failed else Asleep) else Done
  }

  function Got(contents: seq<byte>, n: nat): nat {
    if n <= |contents| then n else |contents|
  }

  // ------------------------------------------------------------------ the ring and its counters

  function Slot(counter: nat): (i: nat)
    ensures i < PIPESIZE
  {
    counter % PIPESIZE
  }

  /** Wrapping a counter at 32 bits does not move its slot, because 512 divides 2^32. */
  lemma SlotIgnoresWrap(x: nat)
    ensures Slot(x % UINT) == Slot(x)
  {
    var q := x / UINT;
    assert x == x % UINT + 512 * (8388608 * q);
    ModShift(x % UINT, 8388608 * q);
  }

  lemma {:induction false} ModShift(r: nat, k: nat)
    ensures (r + 512 * k) % 512 == r % 512
    decreases k
  {
    if k > 0 {
      ModShift(r, k - 1);
      assert r + 512 * k == r + 512 * (k - 1) + 512;
      assert (r + 512 * (k - 1) + 512) % 512 == (r + 512 * (k - 1)) % 512;
    }
  }

  /** Two counters less than 512 apart have different slots. */
  lemma SlotsDiffer(x: nat, k: nat)
    requires 0 < k < PIPESIZE
    ensures Slot(x + k) != Slot(x)
  {
  }

  function Count(nread: nat, nwrite: nat): nat
    requires nread < UINT && nwrite < UINT
  {
    if nread <= nwrite then nwrite - nread else nwrite + UINT - nread
  }

  /** The bytes between the counters, oldest first. */
  function Window(data: seq<byte>, nread: nat, count: nat): (s: seq<byte>)
    requires |data| == PIPESIZE
    ensures |s| == count && forall k :: 0 <= k < count ==> s[k] == data[Slot(nread + k)]
  {
    seq(count, (k: nat) requires k < count => data[Slot(nread + k)])
  }

  lemma WindowPut(data: seq<byte>, nread: nat, count: nat, b: byte)
    requires |data| == PIPESIZE && count < PIPESIZE
    ensures Window(data[Slot(nread + count) := b], nread, count + 1) == Window(data, nread, count) + [b]
  {
    var before, after := Window(data, nread, count), Window(data[Slot(nread + count) := b], nread, count + 1);
    forall k | 0 <= k < count ensures after[k] == before[k] {
      SlotsDiffer(nread + k, count - k);
    }
  }

  lemma NextSlot(nread: nat, k: nat)
    ensures Slot((nread + 1) % UINT + k) == Slot(nread + (k + 1))
  {
    var d := (nread + 1) % UINT;
    assert (d + k) % UINT == (nread + (k + 1)) % UINT;
    SlotIgnoresWrap(d + k);
    SlotIgnoresWrap(nread + (k + 1));
    hide Slot;
  }

  lemma WindowGet(data: seq<byte>, nread: nat, count: nat)
    requires |data| == PIPESIZE && 0 < count
    ensures Window(data, (nread + 1) % UINT, count - 1) == Window(data, nread, count)[1..]
    ensures Window(data, nread, count)[0] == data[Slot(nread)]
  {
    hide Window, Slot;
    var before, after := Window(data, nread, count), Window(data, (nread + 1) % UINT, count - 1);
    forall k | 0 <= k < count - 1 ensures after[k] == before[k + 1] {
      NextSlot(nread, k);
    }
  }

  /** One byte more behind the write counter. */
  lemma Stored(data: seq<byte>, nread: nat, nwrite: nat, b: byte)
    requires |data| == PIPESIZE && nread < UINT && nwrite < UINT && Count(nread, nwrite) < PIPESIZE
    ensures var nwrite' := (nwrite + 1) % UINT;
            && Count(nread, nwrite') == Count(nread, nwrite) + 1
            && Window(data[nwrite % PIPESIZE := b], nread, Count(nread, nwrite'))
            == Window(data, nread, Count(nread, nwrite)) + [b]
  {
    hide Window;
    var count := Count(nread, nwrite);
    assert nwrite == (nread + count) % UINT;
    SlotIgnoresWrap(nread + count);
    WindowPut(data, nread, count, b);
  }

  /** One byte less in front of the read counter. */
  lemma Fetched(data: seq<byte>, nread: nat, nwrite: nat)
    requires |data| == PIPESIZE && nread < UINT && nwrite < UINT && 0 < Count(nread, nwrite) <= PIPESIZE
    ensures var nread' := (nread + 1) % UINT;
            && Count(nread', nwrite) == Count(nread, nwrite) - 1
            && Window(data, nread', Count(nread', nwrite)) == Window(data, nread, Count(nread, nwrite))[1..]
            && Window(data, nread, Count(nread, nwrite))[0] == data[nread % PIPESIZE]
  {
    hide Window;
    WindowGet(data, nread, Count(nread, nwrite));
  }

  class Pipe {
    const data: array<byte>
    var nread: nat
    var nwrite: nat
    var readopen: bool
    var writeopen: bool

    ghost predicate Valid()
      reads this
    {
      data.Length == PIPESIZE && nread < UINT && nwrite < UINT && Count(nread, nwrite) <= PIPESIZE
    }

    ghost function Contents(): (s: seq<byte>)
      requires Valid()
      reads this, data
      ensures |s| <= PIPESIZE
    {
      Window(data[..], nread, Count(nread, nwrite))
    }

    /** pipealloc */
    constructor ()
      ensures Valid() && fresh(data) && Contents() == [] && readopen && writeopen
    {
      data := new byte[PIPESIZE](_ => 0);
      nread, nwrite, readopen, writeopen := 0, 0, true, true;
    }

    /** pipewrite from byte i of addr on; `woken` says whether the readers were woken. */
    method Write(addr: seq<byte>, i: nat, killed: bool) returns (i': nat, exit: Exit, woken: bool)
      requires Valid() && i <= |addr|
      modifies this`nwrite, data
      ensures Valid()
      ensures i' == i + Put(old(Contents()), addr[i..])
      ensures Contents() == old(Contents()) + addr[i..i']
      ensures exit == WriteExit(old(Contents()), addr[i..], readopen, killed)
      ensures woken == !exit.Failed?
      ensures i <= i' <= |addr| && (i' == |addr| || |Contents()| == 512)
      ensures exit.Done? <==> |old(Contents())| + (|addr| - i) <= 512
      ensures exit.Failed? <==> i' < |addr| && (!readopen || killed)
    {
      hide Window, Slot;
      i' := i;
      assert addr[i..i'] == [];
      while i' < |addr|
        invariant Valid() && i <= i' <= |addr| && i' - i + |old(Contents())| <= PIPESIZE
        invariant Contents() == old(Contents()) + addr[i..i']
      {
        if nwrite == (nread + PIPESIZE) % UINT {
          if !readopen || killed {
            return i', Failed, false;
          }
          return i', Asleep, true;
        }
        StoreByte(addr[i']);
        assert addr[i..i' + 1] == addr[i..i'] + [addr[i']];
        i' := i' + 1;
      }
      return i', Done, true;
    }

    // p->data[p->nwrite++ % PIPESIZE] = b
    method StoreByte(b: byte)
      requires Valid() && |Contents()| < PIPESIZE
      modifies this`nwrite, data
      ensures Valid() && Contents() == old(Contents()) + [b]
    {
      hide Window, Count;
      Stored(data[..], nread, nwrite, b);
      data[nwrite % PIPESIZE] := b;
      nwrite := (nwrite + 1) % UINT;
    }

    // p->data[p->nread++ % PIPESIZE]
    method FetchByte() returns (b: byte)
      requires Valid() && Contents() != []
      modifies this`nread
      ensures Valid() && b == old(Contents())[0] && Contents() == old(Contents())[1..]
    {
      hide Window, Count;
      Fetched(data[..], nread, nwrite);
      b := data[nread % PIPESIZE];
      nread := (nread + 1) % UINT;
    }

    /** piperead of up to n bytes; `woken` says whether the writers were woken. */
    method Read(n: nat, killed: bool) returns (out: seq<byte>, exit: Exit, woken: bool)
      requires Valid()
      modifies this`nread
      ensures Valid()
      ensures exit == ReadExit(old(Contents()), writeopen, killed)
      ensures woken == exit.Done?
      ensures out == old(Contents())[..if exit.Done? then Got(old(Contents()), n) else 0]
      ensures Contents() == old(Contents())[|out|..]
      ensures exit.Asleep? <==> old(Contents()) == [] && writeopen && !killed
      ensures exit.Failed? <==> old(Contents()) == [] && writeopen && killed
      ensures |out| <= n && (exit.Done? ==> |out| == n || Contents() == []) && (!exit.Done? ==> out == [])
    {
      hide Window, Slot;
      out := [];
      if nread == nwrite && writeopen {
        if killed {
          return [], Failed, false;
        }
        return [], Asleep, false;
      }
      var i := 0;
      while i < n
        invariant Valid() && i <= n && |out| == i <= |old(Contents())|
        invariant out == old(Contents())[..i] && Contents() == old(Contents())[i..]
      {
        if nread == nwrite {
          break;
        }
        var b := FetchByte();
        out := out + [b];
        i := i + 1;
      }
      return out, Done, true;
    }

    /** pipeclose: one side is closed, and the sleepers of the other side are woken; `last` frees the pipe. */
    method Close(writable: bool) returns (last: bool, woken: Channel)
      requires Valid()
      modifies this`readopen, this`writeopen
      ensures Valid() && Contents() == old(Contents())
      ensures writeopen == (old(writeopen) && !writable) && readopen == (old(readopen) && writable)
      ensures last == (!readopen && !writeopen)
      ensures woken == if writable then NRead else NWrite
    {
      if writable {
        writeopen := false;
        woken := NRead;
      } else {
        readopen := false;
        woken := NWrite;
      }
      last := !readopen && !writeopen;
    }
  }
}
