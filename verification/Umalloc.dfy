/** The K&R storage allocator of the user library (p2b/user/umalloc.c; section 8.7 of
    The C Programming Language, 2nd ed.).

    Addresses count units of one header (8 bytes).  `base` is the unit of the static
    header that anchors the circular free list; 0 is the null pointer. */
module Umalloc {
  import opened Basics
  import opened FreeBlocks

  const HEADER_BYTES := 8
  const MIN_UNITS := 4096

  datatype Header = Header(ptr: int, size: int)
  type Memory = map<int, Header>

  /** The number of units malloc asks for; the sum wraps at 32 bits, as `uint` does. */
  function UnitsFor(nbytes: nat): (n: nat)
    ensures n > 0
  {
    ((nbytes + HEADER_BYTES - 1) % UINT) / HEADER_BYTES + 1
  }

  /** malloc's block has room for the request exactly when the 32-bit sum does not wrap. */
  lemma RoomIffNoWrap(nbytes: nat)
    requires nbytes < UINT
    ensures (UnitsFor(nbytes) - 1) * HEADER_BYTES >= nbytes <==> nbytes <= UINT - HEADER_BYTES
    ensures nbytes <= UINT - 8 ==> (UnitsFor(nbytes) - 2) * 8 < nbytes <= (UnitsFor(nbytes) - 1) * 8 || nbytes == 0
  {
    var s := nbytes + 7;
    if s >= UINT {
      assert s % UINT == s - UINT;
    } else {
      assert s % UINT == s;
    }
  }

  /** A request that wraps: malloc(0xFFFFFFFF) asks for a header and no room at all. */
  lemma WrappedRequest()
    ensures UnitsFor(0xFFFF_FFFF) == 1
  {
  }

  /** morecore asks for at least 4096 units. */
  function ChunkUnits(nu: nat): nat {
    if nu < MIN_UNITS then MIN_UNITS else nu
  }

  /** nu * sizeof(Header) in 32 bits, read as the signed number that sbrk takes. */
  function SbrkArgument(nu: nat): int {
    var u := nu * HEADER_BYTES % UINT;
    if u < UINT / 2 then u else u - UINT
  }

  /** The break moves up by the chunk exactly for these requests.  For the others the argument is negative or zero,
      and sbrk returns the old break as a success without any new memory behind it. */
  lemma SbrkGrows(nbytes: nat)
    requires nbytes < UINT
    ensures var n := ChunkUnits(UnitsFor(nbytes));
            && (SbrkArgument(n) > 0 <==> nbytes <= UINT / 2 - 16 || nbytes > UINT - HEADER_BYTES)
            && (SbrkArgument(n) > 0 <==> SbrkArgument(n) == n * HEADER_BYTES)
  {
    var s := nbytes + 7;
    assert s % UINT == if s >= UINT then s - UINT else s;
    var n := ChunkUnits(UnitsFor(nbytes));
    assert n * HEADER_BYTES <= UINT;
    assert n * HEADER_BYTES % UINT == if n * HEADER_BYTES == UINT then 0 else n * HEADER_BYTES;
  }

  /** A request that sbrk takes for a negative one: malloc(2^31). */
  lemma HugeRequest()
    ensures SbrkArgument(ChunkUnits(UnitsFor(0x8000_0000))) == 0x8000_0008 - UINT < 0
  {
  }

  // ------------------------------------------------------------------ the ring

  /** Address of ring position i: position 0 is `base`, position i is block i - 1, and the ring closes at base. */
  ghost function At(base: int, bs: seq<Block>, i: int): int {
    if 1 <= i <= |bs| then bs[i - 1].addr else base
  }

  /** Following `ptr` from base visits every block once, in address order, and returns to base. */
  ghost predicate Linked(mem: Memory, base: int, bs: seq<Block>) {
    && base in mem && mem[base].size == 0
    && (forall i :: 0 <= i < |bs| ==> bs[i].addr in mem && mem[bs[i].addr].size == bs[i].size)
    && (forall i :: 0 <= i <= |bs| + 1 ==> At(base, bs, i) in mem)
    && (forall i :: 0 <= i <= |bs| ==> mem[At(base, bs, i)].ptr == At(base, bs, i + 1))
  }

  ghost predicate Ring(mem: Memory, base: int, bs: seq<Block>) {
    && Coalesced(bs)
    && (forall i :: 0 <= i < |bs| ==> base < bs[i].addr)
    && Linked(mem, base, bs)
  }

  /** The ring position after which a block at `a` belongs. */
  ghost function Slot(bs: seq<Block>, a: int): (t: int)
    ensures 0 <= t <= |bs|
  {
    if bs == [] || a < bs[0].addr then 0 else 1 + Slot(bs[1..], a)
  }

  lemma {:induction false} SlotMeaning(bs: seq<Block>, a: int)
    requires Coalesced(bs)
    ensures forall i :: 0 <= i < Slot(bs, a) ==> bs[i].addr <= a
    ensures forall i :: Slot(bs, a) <= i < |bs| ==> a < bs[i].addr
  {
    if bs != [] && bs[0].addr <= a {
      var t := bs[1..];
      SlotMeaning(t, a);
      assert forall i :: 1 <= i < |bs| ==> bs[i] == t[i - 1];
    }
  }

  /** The free list after freeing `b` behind position t, case by case as the code distinguishes them. */
  ghost function Spliced(bs: seq<Block>, b: Block, t: int): seq<Block>
    requires 0 <= t <= |bs|
  {
    var joinsNext := t < |bs| && b.addr + b.size == bs[t].addr;
    var joinsPrev := t > 0 && bs[t - 1].addr + bs[t - 1].size == b.addr;
    var b' := if joinsNext then Block(b.addr, b.size + bs[t].size) else b;
    var rest := if joinsNext then bs[t + 1..] else bs[t..];
    if joinsPrev then bs[..t - 1] + [Block(bs[t - 1].addr, bs[t - 1].size + b'.size)] + rest
    else bs[..t] + [b'] + rest
  }

  lemma {:induction false} SplicedIsRelease(bs: seq<Block>, b: Block)
    requires Coalesced(bs) && b.size > 0 && ApartFromAll(bs, b)
    ensures Spliced(bs, b, Slot(bs, b.addr)) == Release(bs, b)
    decreases |bs|
  {
    hide Spliced, Coalesced;
    if bs == [] || bs[0].addr > b.addr {
      SpliceFirst(bs, b);
    } else {
      CoalescedTail(bs, b);
      assert bs == [bs[0]] + bs[1..];
      if bs[0].addr + bs[0].size == b.addr {
        assert |bs| > 1 ==> Apart(bs[1], b);
        SpliceAtFront(bs, b);
      } else {
        SplicedIsRelease(bs[1..], b);
        SpliceCons(bs[0], bs[1..], b, Slot(bs[1..], b.addr));
      }
    }
  }

  lemma {:induction false} SpliceFirst(bs: seq<Block>, b: Block)
    requires Coalesced(bs) && b.size > 0 && ApartFromAll(bs, b) && (bs == [] || bs[0].addr > b.addr)
    ensures Slot(bs, b.addr) == 0 && Spliced(bs, b, 0) == Release(bs, b)
  {
  }

  lemma SpliceCons(h: Block, t: seq<Block>, b: Block, s: int)
    requires 0 <= s <= |t|
    requires s == 0 ==> h.addr + h.size != b.addr
    ensures Spliced([h] + t, b, s + 1) == [h] + Spliced(t, b, s)
  {
    var bs := [h] + t;
    assert bs[s + 1..] == t[s..];
    assert s < |t| ==> bs[s + 2..] == t[s + 1..];
    assert bs[..s + 1] == [h] + t[..s];
    assert s > 0 ==> bs[..s] == [h] + t[..s - 1];
  }

  lemma {:induction false} SpliceAtFront(bs: seq<Block>, b: Block)
    requires bs != [] && b.size > 0 && bs[0].size > 0 && bs[0].addr + bs[0].size == b.addr
    requires |bs| > 1 ==> b.addr + b.size <= bs[1].addr
    ensures Spliced(bs, b, Slot(bs, b.addr)) == Release(bs, b)
  {
    hide Spliced, Slot, Release;
    SlotOne(bs, b.addr);
    ReleaseJoin(bs, b);
    SpliceSecond(bs, b);
  }

  lemma {:induction false} SlotOne(bs: seq<Block>, a: int)
    requires bs != [] && bs[0].addr <= a && (|bs| > 1 ==> a < bs[1].addr)
    ensures Slot(bs, a) == 1
  {
    assert Slot(bs[1..], a) == 0;
  }

  lemma {:induction false} ReleaseJoin(bs: seq<Block>, b: Block)
    requires bs != [] && b.size > 0 && bs[0].addr + bs[0].size == b.addr && bs[0].size > 0
    ensures Release(bs, b) == Release(bs[1..], Block(bs[0].addr, bs[0].size + b.size))
  {
  }

  // Joining b to the first block, which it follows without a gap, and to the second if they meet.
  lemma {:induction false} SpliceSecond(bs: seq<Block>, b: Block)
    requires bs != [] && bs[0].addr + bs[0].size == b.addr
    requires |bs| > 1 ==> b.addr + b.size <= bs[1].addr
    ensures Spliced(bs, b, 1) == Release(bs[1..], Block(bs[0].addr, bs[0].size + b.size))
  {
    var t, m := bs[1..], Block(bs[0].addr, bs[0].size + b.size);
    assert bs[..0] == [];
    if |bs| > 1 && b.addr + b.size == bs[1].addr {
      assert Spliced(bs, b, 1) == [Block(m.addr, m.size + bs[1].size)] + bs[2..];
      assert t[1..] == bs[2..];
    } else {
      assert Spliced(bs, b, 1) == [m] + t;
    }
  }

  // What `free` does to the links: `e` is the position after which the ring goes on behind the freed
  // block, t or, when the next block is absorbed, t + 1.

  ghost predicate Distinct(base: int, bs: seq<Block>, a: int) {
    && base != a
    && (forall i :: 0 <= i < |bs| ==> bs[i].addr != a && bs[i].addr != base)
    && (forall i, j :: 0 <= i < j < |bs| ==> bs[i].addr != bs[j].addr)
  }

  lemma LinksAfterInsert(mem: Memory, base: int, bs: seq<Block>, b: Block, t: int, e: int)
    requires Linked(mem, base, bs) && 0 <= t <= e <= |bs| && Distinct(base, bs, b.addr)
    ensures var p := At(base, bs, t);
            Linked(mem[b.addr := Header(At(base, bs, e + 1), b.size)][p := Header(b.addr, mem[p].size)],
                   base, bs[..t] + [b] + bs[e..])
  {
    var p := At(base, bs, t);
    var r := bs[..t] + [b] + bs[e..];
    var m := mem[b.addr := Header(At(base, bs, e + 1), b.size)][p := Header(b.addr, mem[p].size)];
    forall i | 0 <= i < |r| ensures r[i].addr in m && m[r[i].addr].size == r[i].size {
      assert r[i] == if i < t then bs[i] else if i == t then b else bs[i - 1 - t + e];
    }
    forall i | 0 <= i <= |r| ensures m[At(base, r, i)].ptr == At(base, r, i + 1) {
      assert At(base, r, i) == if i <= t then At(base, bs, i)
                               else if i == t + 1 then b.addr else At(base, bs, i - 1 - t + e);
      assert At(base, r, i + 1) == if i < t then At(base, bs, i + 1)
                                   else if i == t then b.addr else At(base, bs, i - t + e);
    }
  }

  lemma LinksAfterGrow(mem: Memory, base: int, bs: seq<Block>, a: int, h: Header, t: int, e: int, size: int)
    requires Linked(mem, base, bs) && 0 < t <= e <= |bs| && Distinct(base, bs, a)
    ensures var p := bs[t - 1].addr;
            Linked(mem[a := h][p := Header(At(base, bs, e + 1), size)],
                   base, bs[..t - 1] + [Block(p, size)] + bs[e..])
  {
    var p := bs[t - 1].addr;
    var r := bs[..t - 1] + [Block(p, size)] + bs[e..];
    var m := mem[a := h][p := Header(At(base, bs, e + 1), size)];
    forall i | 0 <= i < |r| ensures r[i].addr in m && m[r[i].addr].size == r[i].size {
      assert r[i] == if i < t - 1 then bs[i] else if i == t - 1 then Block(p, size) else bs[i - t + e];
    }
    forall i | 0 <= i <= |r| ensures m[At(base, r, i)].ptr == At(base, r, i + 1) {
      assert At(base, r, i) == if i <= t then At(base, bs, i) else At(base, bs, i - t + e);
      assert At(base, r, i + 1) == if i < t then At(base, bs, i + 1) else At(base, bs, i + 1 - t + e);
    }
  }

  /** Where the roving scan of free may stop: position t, between the blocks below and above b, and nowhere else. */
  lemma ScanStops(mem: Memory, base: int, bs: seq<Block>, b: Block, t: int)
    requires Ring(mem, base, bs) && b.size > 0 && base < b.addr && ApartFromAll(bs, b) && t == Slot(bs, b.addr)
    ensures forall i :: 0 <= i < t ==> bs[i].addr + bs[i].size <= b.addr
    ensures forall i :: t <= i < |bs| ==> b.addr + b.size <= bs[i].addr
    ensures forall k :: 0 <= k <= |bs| ==>
              (var p := At(base, bs, k);
               k == t <==> (p < b.addr < mem[p].ptr) || (p >= mem[p].ptr && (b.addr > p || b.addr < mem[p].ptr)))
  {
    SlotMeaning(bs, b.addr);
    forall i | 0 <= i < t ensures bs[i].addr + bs[i].size <= b.addr {
      assert Apart(bs[i], b);
    }
    forall i | t <= i < |bs| ensures b.addr + b.size <= bs[i].addr {
      assert Apart(bs[i], b);
    }
    forall k | 0 <= k <= |bs|
      ensures (var p := At(base, bs, k);
               k == t <==> (p < b.addr < mem[p].ptr) || (p >= mem[p].ptr && (b.addr > p || b.addr < mem[p].ptr)))
    {
      assert mem[At(base, bs, k)].ptr == At(base, bs, k + 1);
    }
  }

  /** The two coalescing tests of free and the headers they write, for the block `bp` of `size` units behind p. */
  function Relink(mem: Memory, p: int, bp: int, size: int): Memory
    requires p in mem && mem[p].ptr in mem
  {
    var next := mem[p].ptr;
    var h := if bp + size == next then Header(mem[next].ptr, size + mem[next].size) else Header(next, size);
    mem[bp := h][p := if p + mem[p].size == bp then Header(h.ptr, mem[p].size + h.size) else Header(bp, mem[p].size)]
  }

  /** On the abstract list, that step is Release. */
  lemma RelinkIsRelease(mem: Memory, base: int, bs: seq<Block>, b: Block, t: int)
    requires Ring(mem, base, bs) && b.size > 0 && base < b.addr && ApartFromAll(bs, b) && t == Slot(bs, b.addr)
    ensures var p := At(base, bs, t);
            p in mem && mem[p].ptr in mem &&
            Linked(Relink(mem, p, b.addr, b.size), base, Release(bs, b))
    ensures t <= |Release(bs, b)| && At(base, Release(bs, b), t) == At(base, bs, t)
  {
    assert forall i :: 0 <= i < t ==> bs[i].addr + bs[i].size <= b.addr by { ScanStops(mem, base, bs, b, t); }
    assert Distinct(base, bs, b.addr) by { RingIsDistinct(mem, base, bs, b); }
    RelinkIsSplice(mem, base, bs, b, t);
    SplicedIsRelease(bs, b);
  }

  lemma RingIsDistinct(mem: Memory, base: int, bs: seq<Block>, b: Block)
    requires Ring(mem, base, bs) && base < b.addr && ApartFromAll(bs, b) && b.size > 0
    ensures Distinct(base, bs, b.addr)
  {
    forall i | 0 <= i < |bs| ensures bs[i].addr != b.addr {
      assert Apart(bs[i], b);
    }
  }

  lemma RelinkIsSplice(mem: Memory, base: int, bs: seq<Block>, b: Block, t: int)
    requires Linked(mem, base, bs) && b.size > 0 && base < b.addr && 0 <= t <= |bs|
    requires Distinct(base, bs, b.addr)
    ensures var p := At(base, bs, t);
            p in mem && mem[p].ptr in mem &&
            Linked(Relink(mem, p, b.addr, b.size), base, Spliced(bs, b, t))
    ensures t <= |Spliced(bs, b, t)| && At(base, Spliced(bs, b, t), t) == At(base, bs, t)
  {
    hide Linked, Spliced;
    var p := At(base, bs, t);
    LinkedStep(mem, base, bs, t);
    AtSpliced(base, bs, b, t);
    if p + mem[p].size == b.addr {
      RelinkJoins(mem, base, bs, b, t);
    } else {
      RelinkInserts(mem, base, bs, b, t);
    }
  }

  lemma LinkedStep(mem: Memory, base: int, bs: seq<Block>, i: int)
    requires Linked(mem, base, bs) && 0 <= i <= |bs|
    ensures At(base, bs, i) in mem && At(base, bs, i + 1) in mem && mem[At(base, bs, i)].ptr == At(base, bs, i + 1)
    ensures mem[At(base, bs, i)].size == if i == 0 then 0 else bs[i - 1].size
  {
  }

  lemma AtSpliced(base: int, bs: seq<Block>, b: Block, t: int)
    requires 0 <= t <= |bs|
    ensures t <= |Spliced(bs, b, t)| && At(base, Spliced(bs, b, t), t) == At(base, bs, t)
  {
  }

  // The block below is joined; `e` is the position behind what is replaced.
  lemma RelinkJoins(mem: Memory, base: int, bs: seq<Block>, b: Block, t: int)
    requires Linked(mem, base, bs) && b.size > 0 && base < b.addr && 0 <= t <= |bs| && Distinct(base, bs, b.addr)
    requires At(base, bs, t) in mem && mem[At(base, bs, t)].ptr in mem
    requires At(base, bs, t) + mem[At(base, bs, t)].size == b.addr
    ensures Linked(Relink(mem, At(base, bs, t), b.addr, b.size), base, Spliced(bs, b, t))
  {
    var p := At(base, bs, t);
    LinkedStep(mem, base, bs, t);
    var e := if t < |bs| && b.addr + b.size == bs[t].addr then t + 1 else t;
    var size := if e == t then b.size else b.size + bs[t].size;
    if t < |bs| {
      LinkedStep(mem, base, bs, t + 1);
    }
    LinksAfterGrow(mem, base, bs, b.addr, Header(At(base, bs, e + 1), size), t, e, mem[p].size + size);
    hide Linked;
  }

  lemma RelinkInserts(mem: Memory, base: int, bs: seq<Block>, b: Block, t: int)
    requires Linked(mem, base, bs) && b.size > 0 && base < b.addr && 0 <= t <= |bs| && Distinct(base, bs, b.addr)
    requires At(base, bs, t) in mem && mem[At(base, bs, t)].ptr in mem
    requires At(base, bs, t) + mem[At(base, bs, t)].size != b.addr
    ensures Linked(Relink(mem, At(base, bs, t), b.addr, b.size), base, Spliced(bs, b, t))
  {
    LinkedStep(mem, base, bs, t);
    var e := if t < |bs| && b.addr + b.size == bs[t].addr then t + 1 else t;
    var b' := Block(b.addr, if e == t then b.size else b.size + bs[t].size);
    if t < |bs| {
      LinkedStep(mem, base, bs, t + 1);
    }
    LinksAfterInsert(mem, base, bs, b', t, e);
    hide Linked;
  }

  // ------------------------------------------------------------------ the heap object

  ghost predicate Live(live: map<int, int>, u: int) {
    exists a :: a in live && Holds(Block(a, live[a]), u)
  }

  ghost predicate LiveOk(mem: Memory, base: int, live: map<int, int>) {
    && (forall a :: a in live ==> live[a] > 0 && base < a && a in mem && mem[a].size == live[a])
    && (forall a, b :: a in live && b in live && a != b ==> Apart(Block(a, live[a]), Block(b, live[b])))
  }

  ghost predicate LiveApart(bs: seq<Block>, live: map<int, int>) {
    forall a :: a in live ==> ApartFromAll(bs, Block(a, live[a]))
  }

  /** The units obtained from sbrk are exactly the free units and the live units. */
  ghost predicate Partition(arena: set<int>, bs: seq<Block>, live: map<int, int>) {
    forall u :: u in arena <==> Covers(bs, u) || Live(live, u)
  }

  ghost predicate HeapOk(mem: Memory, base: int, bs: seq<Block>, live: map<int, int>, arena: set<int>) {
    LiveOk(mem, base, live) && LiveApart(bs, live) && Partition(arena, bs, live) && arena <= mem.Keys
  }

  lemma FreedLivesOn(mem: Memory, base: int, bs: seq<Block>, live: map<int, int>, bp: int, t: int)
    requires Ring(mem, base, bs) && LiveOk(mem, base, live) && LiveApart(bs, live) && bp in live && 0 <= t <= |bs|
    ensures var p := At(base, bs, t);
            p in mem && mem[p].ptr in mem && LiveOk(Relink(mem, p, bp, live[bp]), base, live - {bp})
    ensures LiveApart(Release(bs, Block(bp, live[bp])), live - {bp})
  {
    var b := Block(bp, live[bp]);
    var p := At(base, bs, t);
    assert mem[p].ptr == At(base, bs, t + 1);
    forall a | a in live && a != bp ensures a != p {
      if t > 0 { assert Apart(bs[t - 1], Block(a, live[a])); }
    }
    forall a | a in live && a != bp ensures ApartFromAll(Release(bs, b), Block(a, live[a])) {
      ReleaseStaysApart(bs, b, Block(a, live[a]));
    }
  }

  lemma FreePartition(bs: seq<Block>, live: map<int, int>, arena: set<int>, bp: int)
    requires Coalesced(bs) && LiveApart(bs, live) && bp in live && live[bp] > 0 && Partition(arena, bs, live)
    ensures Partition(arena, Release(bs, Block(bp, live[bp])), live - {bp})
  {
    var b := Block(bp, live[bp]);
    ReleaseMeaning(bs, b);
    forall u ensures Live(live, u) <==> Live(live - {bp}, u) || Holds(b, u) {
      if Live(live, u) && !Holds(b, u) {
        var a :| a in live && Holds(Block(a, live[a]), u);
        assert a in live - {bp} && Holds(Block(a, (live - {bp})[a]), u);
      }
      if Live(live - {bp}, u) {
        var a :| a in live - {bp} && Holds(Block(a, (live - {bp})[a]), u);
        assert a in live && Holds(Block(a, live[a]), u);
      }
    }
  }

  /** One call of free, on values. */
  lemma FreeKeepsHeap(mem: Memory, base: int, bs: seq<Block>, live: map<int, int>, arena: set<int>, bp: int, t: int)
    requires Ring(mem, base, bs) && HeapOk(mem, base, bs, live, arena) && bp in live && t == Slot(bs, bp)
    ensures var p := At(base, bs, t);
            var b := Block(bp, live[bp]);
            p in mem && mem[p].ptr in mem &&
            Ring(Relink(mem, p, bp, b.size), base, Release(bs, b)) &&
            HeapOk(Relink(mem, p, bp, b.size), base, Release(bs, b), live - {bp}, arena)
    ensures t <= |Release(bs, Block(bp, live[bp]))|
    ensures At(base, Release(bs, Block(bp, live[bp])), t) == At(base, bs, t)
  {
    var b := Block(bp, live[bp]);
    RelinkIsRelease(mem, base, bs, b, t);
    ReleaseCoalesces(bs, b);
    ReleaseStart(bs, b);
    FreedLivesOn(mem, base, bs, live, bp, t);
    FreePartition(bs, live, arena, bp);
  }

  /** The place of a live block: behind it lie the free blocks with higher addresses. */
  lemma SlotPlace(mem: Memory, base: int, bs: seq<Block>, live: map<int, int>, arena: set<int>, bp: int)
    requires Ring(mem, base, bs) && HeapOk(mem, base, bs, live, arena) && bp in live
    ensures var p := At(base, bs, Slot(bs, bp));
            && p < bp && (p == base || exists i :: 0 <= i < |bs| && bs[i].addr == p)
            && forall i :: 0 <= i < |bs| && bs[i].addr < bp ==> bs[i].addr <= p
  {
    SlotMeaning(bs, bp);
    var t := Slot(bs, bp);
    if t > 0 {
      assert Apart(bs[t - 1], Block(bp, live[bp]));
      assert At(base, bs, t) == bs[t - 1].addr;
    }
  }

  // ------------------------------------------------------------------ one allocation, on values

  /** The headers malloc writes when the block at p, linked from prevp, is big enough. */
  function Cut(mem: Memory, prevp: int, p: int, n: int): Memory
    requires prevp in mem && p in mem && p + mem[p].size - n in mem
  {
    if mem[p].size == n then mem[prevp := Header(mem[p].ptr, mem[prevp].size)]
    else
      var m := mem[p := Header(mem[p].ptr, mem[p].size - n)];
      var q := p + m[p].size;
      m[q := Header(m[q].ptr, n)]
  }

  lemma AtWithout(base: int, bs: seq<Block>, j: int, i: int)
    requires 0 <= j < |bs| && 0 <= i <= |bs|
    ensures At(base, bs[..j] + bs[j + 1..], i) == At(base, bs, if i <= j then i else i + 1)
  {
    var r := bs[..j] + bs[j + 1..];
    if 1 <= i < |bs| {
      assert r[i - 1] == if i <= j then bs[i - 1] else bs[i];
    }
  }

  lemma AtDiffer(mem: Memory, base: int, bs: seq<Block>, i: int, k: int)
    requires Ring(mem, base, bs) && 0 <= i < k <= |bs|
    ensures At(base, bs, i) != At(base, bs, k)
  {
  }

  lemma LinksAfterUnlink(mem: Memory, base: int, bs: seq<Block>, j: int)
    requires Ring(mem, base, bs) && 0 <= j < |bs|
    ensures At(base, bs, j) in mem && bs[j].addr in mem
    ensures Linked(mem[At(base, bs, j) := Header(mem[bs[j].addr].ptr, mem[At(base, bs, j)].size)], base,
              bs[..j] + bs[j + 1..])
  {
    var p, r := At(base, bs, j), bs[..j] + bs[j + 1..];
    RingStep(mem, base, bs, j);
    RingStep(mem, base, bs, j + 1);
    assert At(base, bs, j + 1) == bs[j].addr;
    var m := mem[p := Header(mem[bs[j].addr].ptr, mem[p].size)];
    forall i | 0 <= i < |r| ensures r[i].addr in m && m[r[i].addr].size == r[i].size {
      RingStep(mem, base, bs, if i < j then i + 1 else i + 2);
      assert r[i] == if i < j then bs[i] else bs[i + 1];
    }
    forall i | 0 <= i <= |r|
      ensures At(base, r, i) in m && m[At(base, r, i)].ptr == At(base, r, i + 1)
    {
      UnlinkedAt(mem, base, bs, j, i);
    }
    hide At, Coalesced;
  }

  lemma UnlinkedAt(mem: Memory, base: int, bs: seq<Block>, j: int, i: int)
    requires Ring(mem, base, bs) && 0 <= j < |bs| && 0 <= i < |bs|
    ensures At(base, bs, j) in mem && At(base, bs, j + 1) in mem
    ensures var p, r := At(base, bs, j), bs[..j] + bs[j + 1..];
            var m := mem[p := Header(mem[At(base, bs, j + 1)].ptr, mem[p].size)];
            At(base, r, i) in m && At(base, r, i + 1) in m && m[At(base, r, i)].ptr == At(base, r, i + 1)
  {
    hide At, Ring;
    RingStep(mem, base, bs, j);
    RingStep(mem, base, bs, j + 1);
    RingStep(mem, base, bs, i);
    RingStep(mem, base, bs, i + 1);
    AtWithout(base, bs, j, i);
    AtWithout(base, bs, j, i + 1);
    if i < j {
      AtDiffer(mem, base, bs, i, j);
    } else if j < i {
      AtDiffer(mem, base, bs, j, i + 1);
    }
  }

  lemma LinksAfterShrink(mem: Memory, base: int, bs: seq<Block>, j: int, n: int, h: Header)
    requires Ring(mem, base, bs) && 0 <= j < |bs| && 0 < n < bs[j].size
    ensures var a, q := bs[j].addr, bs[j].addr + bs[j].size - n;
            a in mem &&
            Linked(mem[a := Header(mem[a].ptr, mem[a].size - n)][q := h], base, bs[j := Block(a, bs[j].size - n)])
  {
    var a, q := bs[j].addr, bs[j].addr + bs[j].size - n;
    var r := bs[j := Block(a, bs[j].size - n)];
    assert forall i :: 0 <= i < |bs| ==> bs[i].addr != q;
    assert forall i :: 0 <= i < |bs| && i != j ==> bs[i].addr != a;
    assert forall i :: 0 <= i <= |bs| + 1 ==> At(base, r, i) == At(base, bs, i);
  }

  // The positions in front of the block that is cut.
  lemma AtBefore(base: int, bs: seq<Block>, j: int, n: int)
    requires 0 <= j < |bs|
    ensures j <= |Take(bs, j, n)| && At(base, Take(bs, j, n), j) == At(base, bs, j) && At(base, bs, j + 1) == bs[j].addr
  {
  }

  lemma CutLinks(mem: Memory, base: int, bs: seq<Block>, j: int, n: int)
    requires Ring(mem, base, bs) && 0 <= j < |bs| && 0 < n <= bs[j].size && Taken(bs, j, n).addr in mem
    ensures At(base, bs, j) in mem && bs[j].addr in mem && mem[bs[j].addr].size == bs[j].size
    ensures Linked(Cut(mem, At(base, bs, j), bs[j].addr, n), base, Take(bs, j, n))
    ensures j <= |Take(bs, j, n)| && At(base, Take(bs, j, n), j) == At(base, bs, j)
  {
    hide Ring, Linked;
    RingStep(mem, base, bs, j);
    RingStep(mem, base, bs, j + 1);
    AtBefore(base, bs, j, n);
    LinksAfterUnlink(mem, base, bs, j);
    if n < bs[j].size {
      LinksAfterShrink(mem, base, bs, j, n, Header(mem[Taken(bs, j, n).addr].ptr, n));
    }
  }

  lemma TakeStaysApart(bs: seq<Block>, j: int, n: int, l: Block)
    requires ApartFromAll(bs, l) && 0 <= j < |bs| && 0 < n <= bs[j].size
    ensures ApartFromAll(Take(bs, j, n), l)
  {
    forall i | 0 <= i < |Take(bs, j, n)| ensures Apart(Take(bs, j, n)[i], l) {
      assert Apart(bs[if bs[j].size == n && i >= j then i + 1 else i], l);
    }
  }

  lemma TakenLives(mem: Memory, base: int, bs: seq<Block>, live: map<int, int>, j: int, n: int)
    requires Ring(mem, base, bs) && LiveOk(mem, base, live) && LiveApart(bs, live)
    requires 0 <= j < |bs| && 0 < n <= bs[j].size && Taken(bs, j, n).addr in mem
    ensures At(base, bs, j) in mem && bs[j].addr in mem && mem[bs[j].addr].size == bs[j].size
    ensures Taken(bs, j, n).addr !in live
    ensures LiveOk(Cut(mem, At(base, bs, j), bs[j].addr, n), base, live[Taken(bs, j, n).addr := n])
    ensures LiveApart(Take(bs, j, n), live[Taken(bs, j, n).addr := n])
  {
    var t, p := Taken(bs, j, n), At(base, bs, j);
    CutLinks(mem, base, bs, j, n);
    assert base < t.addr;
    hide Coalesced, Take, LiveOk, ApartFromAll;
    LiveSizes(mem, base, live);
    forall a | a in live
      ensures a != p && a != bs[j].addr && Apart(t, Block(a, live[a]))
      ensures ApartFromAll(Take(bs, j, n), Block(a, live[a]))
    {
      TakenApart(base, bs, live, j, n, a);
    }
    TakeCoalesces(bs, j, n);
    LiveAdd(mem, Cut(mem, p, bs[j].addr, n), base, live, t);
  }

  lemma LiveSizes(mem: Memory, base: int, live: map<int, int>)
    requires LiveOk(mem, base, live)
    ensures forall a :: a in live ==> base < a && live[a] > 0 && a in mem && mem[a].size == live[a]
  {
  }

  lemma TakenApart(base: int, bs: seq<Block>, live: map<int, int>, j: int, n: int, a: int)
    requires LiveApart(bs, live) && Coalesced(bs) && 0 <= j < |bs| && 0 < n <= bs[j].size
    requires a in live && base < a && live[a] > 0
    ensures a != At(base, bs, j) && a != bs[j].addr && Apart(Taken(bs, j, n), Block(a, live[a]))
    ensures ApartFromAll(Take(bs, j, n), Block(a, live[a]))
  {
    var l := Block(a, live[a]);
    assert Apart(bs[j], l) && bs[j].size > 0;
    if j > 0 {
      assert Apart(bs[j - 1], l) && bs[j - 1].size > 0;
    }
    TakeStaysApart(bs, j, n, l);
    hide Take, ApartFromAll, LiveApart, Coalesced;
  }

  lemma LiveAdd(mem: Memory, m: Memory, base: int, live: map<int, int>, t: Block)
    requires LiveOk(mem, base, live) && base < t.addr && t.size > 0 && t.addr in m && m[t.addr].size == t.size
    requires forall a :: a in live ==> a in m && m[a].size == mem[a].size && Apart(t, Block(a, live[a]))
    ensures t.addr !in live && LiveOk(m, base, live[t.addr := t.size])
  {
  }

  lemma TakePartition(bs: seq<Block>, live: map<int, int>, arena: set<int>, j: int, n: int)
    requires Coalesced(bs) && 0 <= j < |bs| && 0 < n <= bs[j].size && Partition(arena, bs, live)
    requires Taken(bs, j, n).addr !in live
    ensures Partition(arena, Take(bs, j, n), live[Taken(bs, j, n).addr := n])
  {
    var t := Taken(bs, j, n);
    var live' := live[t.addr := n];
    TakeMeaning(bs, j, n);
    forall u ensures Live(live', u) <==> Live(live, u) || Holds(t, u) {
      if Live(live, u) {
        var a :| a in live && Holds(Block(a, live[a]), u);
        assert a in live' && Holds(Block(a, live'[a]), u);
      }
      if Holds(t, u) {
        assert t.addr in live' && Holds(Block(t.addr, live'[t.addr]), u);
      }
    }
    forall u | Holds(t, u) ensures Covers(bs, u) {
      assert Holds(bs[j], u);
    }
  }

  /** Handing out the tail of block j keeps the heap intact. */
  lemma CutKeepsHeap(mem: Memory, base: int, bs: seq<Block>, live: map<int, int>, arena: set<int>, j: int, n: int)
    requires Ring(mem, base, bs) && HeapOk(mem, base, bs, live, arena)
    requires 0 <= j < |bs| && 0 < n <= bs[j].size
    ensures At(base, bs, j) in mem && bs[j].addr in mem && Taken(bs, j, n).addr in mem
    ensures mem[bs[j].addr].size == bs[j].size && Taken(bs, j, n).addr !in live
    ensures var m := Cut(mem, At(base, bs, j), bs[j].addr, n);
            Ring(m, base, Take(bs, j, n)) &&
            HeapOk(m, base, Take(bs, j, n), live[Taken(bs, j, n).addr := n], arena)
    ensures j <= |Take(bs, j, n)| && At(base, Take(bs, j, n), j) == At(base, bs, j)
  {
    var t := Taken(bs, j, n);
    assert Holds(bs[j], t.addr);
    assert Covers(bs, t.addr);
    assert t.addr in arena;
    TakeCoalesces(bs, j, n);
    CutLinks(mem, base, bs, j, n);
    TakenLives(mem, base, bs, live, j, n);
    TakePartition(bs, live, arena, j, n);
  }

  /** One step along the ring. */
  lemma RingStep(mem: Memory, base: int, bs: seq<Block>, i: int)
    requires Ring(mem, base, bs) && 0 <= i <= |bs|
    ensures At(base, bs, i) in mem && At(base, bs, i + 1) in mem && base <= At(base, bs, i)
    ensures mem[At(base, bs, i)].ptr == At(base, bs, i + 1)
    ensures mem[At(base, bs, i)].size == if i == 0 then 0 else bs[i - 1].size
  {
  }

  lemma RingPositions(mem: Memory, base: int, bs: seq<Block>, i: int, k: int)
    requires Ring(mem, base, bs) && 0 <= i <= |bs| && 0 <= k <= |bs| && i != k
    ensures At(base, bs, i) != At(base, bs, k)
  {
    if 1 <= i < k {
      assert bs[i - 1].addr + bs[i - 1].size < bs[k - 1].addr;
    } else if 1 <= k < i {
      assert bs[k - 1].addr + bs[k - 1].size < bs[i - 1].addr;
    }
  }

  /** Number of steps of the roving scan from just behind position k to position i, on a ring of n blocks and base. */
  function Steps(k: int, n: int, i: int): int {
    if i > k then i - k - 1 else i - k + n
  }

  ghost predicate AllSmall(bs: seq<Block>, n: int) {
    forall i :: 0 <= i < |bs| ==> bs[i].size < n
  }

  lemma NoRoom(bs: seq<Block>, n: int)
    ensures AllSmall(bs, n) <==> !exists i :: 0 <= i < |bs| && bs[i].size >= n
  {
  }

  /** Block j is the first one, walking the ring from just behind position k, with room for n units. */
  ghost predicate NextFit(bs: seq<Block>, k: int, n: int, j: int) {
    && 0 <= j < |bs| && bs[j].size >= n
    && forall i :: 0 <= i < |bs| && Steps(k, |bs|, i + 1) < Steps(k, |bs|, j + 1) ==> bs[i].size < n
  }

  /** Whether walking from position k means the blocks from index k to the end of the list, and then those before it. */
  lemma NextFitMeaning(bs: seq<Block>, k: int, n: int, j: int)
    requires 0 <= k <= |bs| && 0 <= j < |bs|
    ensures NextFit(bs, k, n, j) <==>
              && bs[j].size >= n && (forall i :: k <= i < |bs| && (i < j || j < k) ==> bs[i].size < n)
              && (forall i :: 0 <= i < j && j < k ==> bs[i].size < n)
  {
    if NextFit(bs, k, n, j) {
      forall i | 0 <= i < |bs| && if j < k then i >= k || i < j else k <= i < j ensures bs[i].size < n {
        assert Steps(k, |bs|, i + 1) < Steps(k, |bs|, j + 1);
      }
    }
  }

  function Units(a: int, n: nat): (s: set<int>)
    ensures forall u :: u in s <==> a <= u < a + n
  {
    if n == 0 then {} else Units(a, n - 1) + {a + n - 1}
  }

  // ------------------------------------------------------------------ conservation, in units

  ghost function FreeUnits(bs: seq<Block>): int {
    if bs == [] then 0 else bs[0].size + FreeUnits(bs[1..])
  }

  ghost function LiveUnits(live: map<int, int>): int
    decreases |live|
  {
    if !exists a :: a in live then 0
    else
      var a :| a in live;
      assert |live - {a}| < |live| by { assert (live - {a}).Keys == live.Keys - {a}; }
      live[a] + LiveUnits(live - {a})
  }

  lemma {:induction false} UnitsSize(a: int, n: nat)
    ensures |Units(a, n)| == n
  {
    if n > 0 {
      UnitsSize(a, n - 1);
    }
  }

  lemma RemoveUnits(arena: set<int>, b: Block)
    requires b.size > 0 && forall u :: Holds(b, u) ==> u in arena
    ensures |arena - Units(b.addr, b.size)| == |arena| - b.size
  {
    UnitsSize(b.addr, b.size);
    var us := Units(b.addr, b.size);
    assert forall u | u in us :: Holds(b, u);
    assert us <= arena;
    assert arena == us + (arena - us);
  }

  /** The free units and the live units add up to the units obtained from sbrk. */
  lemma {:induction false} Conservation(arena: set<int>, bs: seq<Block>, live: map<int, int>)
    requires Coalesced(bs) && Partition(arena, bs, live) && LiveApart(bs, live)
    requires forall a :: a in live ==> live[a] > 0
    requires forall a, b :: a in live && b in live && a != b ==> Apart(Block(a, live[a]), Block(b, live[b]))
    ensures |arena| == FreeUnits(bs) + LiveUnits(live)
    decreases |bs|, |live|
  {
    if bs != [] {
      FreeStep(arena, bs, live);
      Conservation(arena - Units(bs[0].addr, bs[0].size), bs[1..], live);
    } else if exists a :: a in live {
      var a :| a in live && LiveUnits(live) == live[a] + LiveUnits(live - {a});
      LiveStep(arena, live, a);
      assert (live - {a}).Keys == live.Keys - {a};
      Conservation(arena - Units(a, live[a]), [], live - {a});
    } else {
      assert arena == {} by {
        forall u ensures u !in arena {
          assert !Covers(bs, u) && !Live(live, u);
        }
      }
    }
  }

  lemma FreeStep(arena: set<int>, bs: seq<Block>, live: map<int, int>)
    requires bs != [] && Coalesced(bs) && Partition(arena, bs, live) && LiveApart(bs, live)
    requires forall a :: a in live ==> live[a] > 0
    ensures Coalesced(bs[1..]) && LiveApart(bs[1..], live)
    ensures bs[0].size > 0 && Partition(arena - Units(bs[0].addr, bs[0].size), bs[1..], live)
    ensures |arena - Units(bs[0].addr, bs[0].size)| == |arena| - bs[0].size
  {
    hide Coalesced, LiveApart, Covers, Live;
    var h := bs[0];
    FreeTail(bs, live);
    forall u
      ensures Holds(h, u) ==> Covers(bs, u) && !Live(live, u)
      ensures Covers(bs[1..], u) <==> Covers(bs, u) && !Holds(h, u)
    {
      CoversTail(bs, u);
      if Holds(h, u) {
        HeldCovers(bs, 0, u);
        HeldApart(bs, live, 0, u);
      }
    }
    RemoveUnits(arena, h);
  }

  lemma HeldCovers(bs: seq<Block>, i: int, u: int)
    requires 0 <= i < |bs| && Holds(bs[i], u)
    ensures Covers(bs, u)
  {
  }

  lemma FreeTail(bs: seq<Block>, live: map<int, int>)
    requires bs != [] && Coalesced(bs) && LiveApart(bs, live)
    ensures bs[0].size > 0 && Coalesced(bs[1..]) && LiveApart(bs[1..], live)
  {
    forall a | a in live ensures ApartFromAll(bs[1..], Block(a, live[a])) {
      CoalescedTail(bs, Block(a, live[a]));
    }
  }

  lemma HeldApart(bs: seq<Block>, live: map<int, int>, i: int, u: int)
    requires LiveApart(bs, live) && 0 <= i < |bs| && Holds(bs[i], u)
    ensures !Live(live, u)
  {
    forall a | a in live ensures !Holds(Block(a, live[a]), u) {
      assert Apart(bs[i], Block(a, live[a]));
    }
  }

  // Unit u is in use exactly when it belongs to the block at a or to some other live block, and never to both.
  lemma LiveWithout(live: map<int, int>, a: int, u: int)
    requires a in live && forall b :: b in live && a != b ==> Apart(Block(a, live[a]), Block(b, live[b]))
    ensures Live(live, u) <==> Live(live - {a}, u) || Holds(Block(a, live[a]), u)
    ensures Holds(Block(a, live[a]), u) ==> !Live(live - {a}, u)
  {
    var rest := live - {a};
    if Live(live, u) && !Holds(Block(a, live[a]), u) {
      var b :| b in live && Holds(Block(b, live[b]), u);
      assert b in rest && Holds(Block(b, rest[b]), u);
    }
    if Live(rest, u) {
      var b :| b in rest && Holds(Block(b, rest[b]), u);
      assert b in live && Apart(Block(a, live[a]), Block(b, live[b]));
    }
  }

  lemma LiveStep(arena: set<int>, live: map<int, int>, a: int)
    requires Partition(arena, [], live) && a in live && live[a] > 0
    requires forall b :: b in live && a != b ==> Apart(Block(a, live[a]), Block(b, live[b]))
    ensures Partition(arena - Units(a, live[a]), [], live - {a})
    ensures |arena - Units(a, live[a])| == |arena| - live[a]
  {
    var t := Block(a, live[a]);
    forall u
      ensures Live(live, u) <==> Live(live - {a}, u) || Holds(t, u)
      ensures Holds(t, u) ==> !Live(live - {a}, u)
    {
      LiveWithout(live, a, u);
    }
    RemoveUnits(arena, t);
  }

  /** Memory once the break has moved over the n units at hp, with morecore's header at hp. */
  function Grown(mem: Memory, hp: int, n: nat): (m: Memory)
    requires n > 0
    ensures m.Keys == mem.Keys + Units(hp, n) && m[hp].size == n
    ensures forall u :: u in mem && u != hp ==> m[u] == mem[u]
  {
    var m := map u | u in mem.Keys + Units(hp, n) :: if u in mem then mem[u] else Header(0, 0);
    m[hp := Header(m[hp].ptr, n)]
  }

  lemma FreshIsUnknown(bs: seq<Block>, live: map<int, int>, arena: set<int>, hp: int, n: nat)
    requires Partition(arena, bs, live) && n > 0 && forall u :: hp <= u < hp + n ==> u !in arena
    requires forall a :: a in live ==> live[a] > 0
    requires forall i :: 0 <= i < |bs| ==> bs[i].size > 0
    ensures hp !in live
    ensures ApartFromAll(bs, Block(hp, n))
    ensures forall a :: a in live ==> Apart(Block(a, live[a]), Block(hp, n))
    ensures forall i :: 0 <= i < |bs| ==> bs[i].addr != hp
  {
    forall i | 0 <= i < |bs| ensures Apart(bs[i], Block(hp, n)) {
      var u := if bs[i].addr < hp then hp else bs[i].addr;
      assert Holds(bs[i], u) ==> Covers(bs, u);
    }
    forall a | a in live ensures Apart(Block(a, live[a]), Block(hp, n)) {
      var u := if a < hp then hp else a;
      assert Holds(Block(a, live[a]), u) ==> Live(live, u);
    }
  }

  lemma GrownPartition(bs: seq<Block>, live: map<int, int>, arena: set<int>, hp: int, n: nat)
    requires Partition(arena, bs, live) && hp !in live
    ensures Partition(arena + Units(hp, n), bs, live[hp := n])
  {
    var live' := live[hp := n];
    forall u ensures Live(live', u) <==> Live(live, u) || Holds(Block(hp, n), u) {
      if Live(live, u) {
        var a :| a in live && Holds(Block(a, live[a]), u);
        assert a in live' && Holds(Block(a, live'[a]), u);
      }
      if Holds(Block(hp, n), u) {
        assert hp in live' && Holds(Block(hp, live'[hp]), u);
      }
    }
  }

  /** A fresh chunk enters the heap as a live block, which morecore then frees. */
  lemma ChunkKeepsHeap(mem: Memory, base: int, bs: seq<Block>, live: map<int, int>, arena: set<int>, hp: int, n: nat)
    requires Ring(mem, base, bs) && HeapOk(mem, base, bs, live, arena)
    requires base < hp && n > 0 && forall u :: hp <= u < hp + n ==> u !in arena
    ensures hp !in live
    ensures Ring(Grown(mem, hp, n), base, bs)
    ensures HeapOk(Grown(mem, hp, n), base, bs, live[hp := n], arena + Units(hp, n))
  {
    FreshIsUnknown(bs, live, arena, hp, n);
    GrownPartition(bs, live, arena, hp, n);
    GrownRing(mem, base, bs, hp, n);
    GrownLives(mem, base, live, hp, n);
  }

  lemma GrownRing(mem: Memory, base: int, bs: seq<Block>, hp: int, n: nat)
    requires Linked(mem, base, bs) && base != hp && n > 0 && forall i :: 0 <= i < |bs| ==> bs[i].addr != hp
    ensures Linked(Grown(mem, hp, n), base, bs)
  {
  }

  lemma GrownLives(mem: Memory, base: int, live: map<int, int>, hp: int, n: nat)
    requires LiveOk(mem, base, live) && base < hp && n > 0 && hp !in live
    requires forall a :: a in live ==> Apart(Block(a, live[a]), Block(hp, n))
    ensures LiveOk(Grown(mem, hp, n), base, live[hp := n])
  {
  }

  /** Some block of the list has room for whatever was just freed. */
  lemma {:induction false} ReleaseHasRoom(bs: seq<Block>, b: Block)
    requires b.size > 0 && forall i :: 0 <= i < |bs| ==> bs[i].size > 0
    ensures exists i :: 0 <= i < |Release(bs, b)| && Release(bs, b)[i].size >= b.size
    decreases |bs|
  {
    if bs == [] || b.addr + b.size <= bs[0].addr {
      assert Release(bs, b)[0].size >= b.size;
    } else {
      var joins := bs[0].addr + bs[0].size == b.addr;
      var b' := if joins then Block(bs[0].addr, bs[0].size + b.size) else b;
      ReleaseHasRoom(bs[1..], b');
      var i :| 0 <= i < |Release(bs[1..], b')| && Release(bs[1..], b')[i].size >= b'.size;
      assert Release(bs, b)[if joins then i else i + 1].size >= b.size;
    }
  }

  lemma UserStoreHarmless(mem: Memory, base: int, bs: seq<Block>, live: map<int, int>, arena: set<int>, a: int,
                          u: int, h: Header)
    requires Ring(mem, base, bs) && HeapOk(mem, base, bs, live, arena) && a in live && a < u < a + live[a]
    ensures Ring(mem[u := h], base, bs) && HeapOk(mem[u := h], base, bs, live, arena)
  {
    assert Holds(Block(a, live[a]), u);
    forall b | b in live ensures b != u {
      if b != a { assert Apart(Block(a, live[a]), Block(b, live[b])); }
    }
    forall i | 0 <= i < |bs| ensures bs[i].addr != u {
      assert Apart(bs[i], Block(a, live[a]));
    }
    assert Linked(mem[u := h], base, bs);
  }

  lemma {:induction false} GrowthHasRoom(mem: Memory, base: int, bs: seq<Block>, a: int, nu: nat)
    requires Ring(mem, base, bs)
    ensures !AllSmall(Release(bs, Block(a, ChunkUnits(nu))), nu)
  {
    ReleaseHasRoom(bs, Block(a, ChunkUnits(nu)));
  }

  /** The invariant of the heap between calls. */
  ghost predicate Intact(mem: Memory, base: int, freep: int, bs: seq<Block>, at: int, live: map<int, int>,
                         arena: set<int>) {
    && 0 < base && base in mem
    && HeapOk(mem, base, bs, live, arena)
    && 0 <= at <= |bs|
    && (freep == 0 ==> bs == [] && live == map[] && at == 0)
    && (freep != 0 ==> Ring(mem, base, bs) && freep == At(base, bs, at))
  }

  lemma IntactParts(mem: Memory, base: int, freep: int, bs: seq<Block>, at: int, live: map<int, int>, arena: set<int>)
    requires Intact(mem, base, freep, bs, at, live, arena)
    ensures 0 < base && base in mem && HeapOk(mem, base, bs, live, arena) && 0 <= at <= |bs|
    ensures live != map[] ==> freep != 0
    ensures freep == 0 ==> bs == [] && live == map[] && at == 0
    ensures freep != 0 ==> Ring(mem, base, bs) && freep == At(base, bs, at)
  {
  }

  lemma IntactIntro(mem: Memory, base: int, bs: seq<Block>, at: int, live: map<int, int>, arena: set<int>)
    requires 0 < base && Ring(mem, base, bs) && HeapOk(mem, base, bs, live, arena) && 0 <= at <= |bs|
    ensures Intact(mem, base, At(base, bs, at), bs, at, live, arena)
    ensures At(base, bs, at) != 0
  {
  }

  /** The first call of malloc links base to itself. */
  lemma FirstCall(mem: Memory, base: int, arena: set<int>)
    requires Intact(mem, base, 0, [], 0, map[], arena)
    ensures Intact(mem[base := Header(base, 0)], base, base, [], 0, map[], arena)
  {
  }

  /** The ring position that follows i. */
  function After(n: int, i: int): int {
    if i == n then 0 else i + 1
  }

  /** All blocks that the scan from just behind position k met before position i are too small. */
  ghost predicate Scanned(bs: seq<Block>, k: int, n: int, i: int) {
    forall x :: 0 <= x < |bs| && Steps(k, |bs|, x + 1) < Steps(k, |bs|, i) ==> bs[x].size < n
  }

  lemma ScanOn(bs: seq<Block>, k: int, n: int, i: int)
    requires Scanned(bs, k, n, i) && 0 <= k <= |bs| && 0 <= i <= |bs| && i != k
    requires i > 0 ==> bs[i - 1].size < n
    ensures Scanned(bs, k, n, After(|bs|, i))
    ensures Steps(k, |bs|, i) < Steps(k, |bs|, After(|bs|, i)) <= |bs|
  {
  }

  lemma ScanStart(bs: seq<Block>, k: int, n: int)
    requires 0 <= k <= |bs|
    ensures Scanned(bs, k, n, After(|bs|, k)) && 0 <= Steps(k, |bs|, After(|bs|, k)) <= |bs|
  {
  }

  lemma ScanEnd(bs: seq<Block>, k: int, n: int)
    requires Scanned(bs, k, n, k) && 0 <= k <= |bs|
    requires k > 0 ==> bs[k - 1].size < n
    ensures AllSmall(bs, n)
  {
  }

  lemma ScanFound(bs: seq<Block>, k: int, n: int, i: int)
    requires Scanned(bs, k, n, i) && 0 < i <= |bs| && bs[i - 1].size >= n
    ensures NextFit(bs, k, n, i - 1) && !AllSmall(bs, n) && bs[i - 1].size >= n
  {
  }

  /** The list that malloc cuts a block from. */
  ghost function Source(bs: seq<Block>, n: nat, grant: Option<int>): seq<Block> {
    if AllSmall(bs, n) && grant.Some? then Release(bs, Block(grant.value, ChunkUnits(n))) else bs
  }

  ghost function Obtained(bs: seq<Block>, arena: set<int>, n: nat, grant: Option<int>): set<int> {
    if AllSmall(bs, n) && grant.Some? then arena + Units(grant.value, ChunkUnits(n)) else arena
  }

  /** What one call of malloc for n units does, from (bs0, at0, live0, arena0) to (bs, live, arena):
      r is the result and j the block of the source list that was cut, and `freep` is left behind it. */
  ghost predicate Allocated(bs0: seq<Block>, at0: int, live0: map<int, int>, arena0: set<int>, n: nat,
                            grant: Option<int>, r: int, j: int, bs: seq<Block>, at: int, live: map<int, int>,
                            arena: set<int>) {
    var source := Source(bs0, n, grant);
    && arena == Obtained(bs0, arena0, n, grant)
    && (r == 0 <==> AllSmall(source, n))
    && (r == 0 ==> bs == bs0 && at == at0 && live == live0)
    && (r != 0 ==>
          && at == j && 0 <= j < |source| && source[j].size >= n
          && r - 1 == Taken(source, j, n).addr && bs == Take(source, j, n)
          && r - 1 !in live0 && live == live0[r - 1 := n])
    && (!AllSmall(bs0, n) ==> NextFit(bs0, at0, n, j))
  }

  /** Two calls in a row, both successful.  While the block that was cut has room, the second one returns the units
      directly below the first; after an exact fit it starts with the block that followed. */
  lemma MallocTwice(s0: HeapState, n1: nat, g1: Option<int>, r1: int, j1: int, s1: HeapState,
                    n2: nat, g2: Option<int>, r2: int, j2: int, s2: HeapState)
    requires Allocated(s0.blocks, s0.at, s0.live, s0.arena, n1, g1, r1, j1, s1.blocks, s1.at, s1.live, s1.arena)
    requires Allocated(s1.blocks, s1.at, s1.live, s1.arena, n2, g2, r2, j2, s2.blocks, s2.at, s2.live, s2.arena)
    requires n1 > 0 && n2 > 0 && r1 != 0
    ensures var source := Source(s0.blocks, n1, g1);
            && (source[j1].size >= n1 + n2 ==> r2 == r1 - n2)
            && (source[j1].size == n1 && j1 + 1 < |source| && source[j1 + 1].size >= n2 ==>
                  r2 - 1 == source[j1 + 1].addr + source[j1 + 1].size - n2)
  {
    hide Obtained, Source;
    var bs := s1.blocks;
    if j1 < |bs| && bs[j1].size >= n2 {
      NoRoom(bs, n2);
      NextFitMeaning(bs, j1, n2, j2);
      assert j2 == j1;
      assert Source(bs, n2, g2) == bs by { NoGrowth(bs, n2, g2); }
    }
  }

  lemma NoGrowth(bs: seq<Block>, n: nat, grant: Option<int>)
    requires !AllSmall(bs, n)
    ensures Source(bs, n, grant) == bs
  {
  }

  /** malloc after free: when the freed block was not joined to the one before it and has room, it is cut next. */
  lemma FreeThenMalloc(bs: seq<Block>, b: Block, s1: HeapState, n: nat, grant: Option<int>, r: int, j: int,
                       s2: HeapState)
    requires Coalesced(bs) && ApartFromAll(bs, b) && 0 < n <= b.size
    requires s1.blocks == Release(bs, b) && s1.at == Slot(bs, b.addr)
    requires Allocated(s1.blocks, s1.at, s1.live, s1.arena, n, grant, r, j, s2.blocks, s2.at, s2.live, s2.arena)
    requires forall i :: 0 <= i < |bs| ==> bs[i].addr + bs[i].size != b.addr
    ensures r != 0 && 0 <= j < |s1.blocks| && s1.blocks[j].addr == b.addr
    ensures r - 1 == b.addr + s1.blocks[j].size - n
  {
    hide Obtained, Source, Coalesced, Release, Slot;
    var t := Slot(bs, b.addr);
    SplicedIsRelease(bs, b);
    assert s1.blocks[t].addr == b.addr && s1.blocks[t].size >= b.size by { SpliceSize(bs, b, t); }
    NoRoom(s1.blocks, n);
    NextFitMeaning(s1.blocks, t, n, j);
    assert j == t;
    NoGrowth(s1.blocks, n, grant);
  }

  lemma SpliceSize(bs: seq<Block>, b: Block, t: int)
    requires 0 <= t <= |bs| && Coalesced(bs) && forall i :: 0 <= i < |bs| ==> bs[i].addr + bs[i].size != b.addr
    ensures t < |Spliced(bs, b, t)| && Spliced(bs, b, t)[t].addr == b.addr && Spliced(bs, b, t)[t].size >= b.size
  {
  }

  /** A growing call adds max(n, 4096) units to the heap. */
  lemma GrowthIsChunk(s0: HeapState, n: nat, a: int, r: int, j: int, s: HeapState)
    requires Allocated(s0.blocks, s0.at, s0.live, s0.arena, n, Some(a), r, j, s.blocks, s.at, s.live, s.arena)
    requires AllSmall(s0.blocks, n) && forall u :: a <= u < a + ChunkUnits(n) ==> u !in s0.arena
    ensures |s.arena| == |s0.arena| + if n < 4096 then 4096 else n
  {
    hide Source;
    UnitsSize(a, ChunkUnits(n));
    assert Units(a, ChunkUnits(n)) !! s0.arena;
  }

  lemma AllocatedFound(bs0: seq<Block>, at0: int, live0: map<int, int>, arena0: set<int>, n: nat, grant: Option<int>,
                       r: int, j: int, source: seq<Block>, k: int, bs: seq<Block>, live: map<int, int>,
                       arena: set<int>)
    requires NextFit(source, k, n, j) && !AllSmall(source, n)
    requires (&& AllSmall(bs0, n) && grant.Some? && source == Source(bs0, n, grant)
               && arena == Obtained(bs0, arena0, n, grant))
             || (source == bs0 && k == at0 && arena == arena0)
    requires r != 0 && r - 1 == Taken(source, j, n).addr && bs == Take(source, j, n)
    requires r - 1 !in live0 && live == live0[r - 1 := n]
    ensures Allocated(bs0, at0, live0, arena0, n, grant, r, j, bs, j, live, arena)
  {
  }

  lemma AllocatedNone(bs: seq<Block>, at: int, live: map<int, int>, arena: set<int>, n: nat, j: int)
    requires AllSmall(bs, n)
    ensures Allocated(bs, at, live, arena, n, None, 0, j, bs, at, live, arena)
  {
  }

  lemma GrowthSource(bs: seq<Block>, arena: set<int>, n: nat, a: int)
    requires AllSmall(bs, n)
    ensures Source(bs, n, Some(a)) == Release(bs, Block(a, ChunkUnits(n)))
    ensures Obtained(bs, arena, n, Some(a)) == arena + Units(a, ChunkUnits(n))
  {
  }

  datatype HeapState = HeapState(mem: Memory, base: int, freep: int, blocks: seq<Block>, at: int,
                                 live: map<int, int>, arena: set<int>)

  /** The invariant of malloc's loop: s0 is the heap at the call, s the heap now, and the scan stands at p,
      position i. */
  ghost predicate Scanning(s0: HeapState, s: HeapState, n: nat, grant: Option<int>, grown: bool, prevp: int, p: int,
                           i: int) {
    && Intact(s.mem, s.base, s.freep, s.blocks, s.at, s.live, s.arena) && s.freep != 0
    && 0 <= i <= |s.blocks| && p == At(s.base, s.blocks, i)
    && prevp == At(s.base, s.blocks, if i == 0 then |s.blocks| else i - 1)
    && Scanned(s.blocks, s.at, n, i)
    && s.live == s0.live
    && if grown
       then AllSmall(s0.blocks, n) && grant.Some? && !AllSmall(s.blocks, n)
            && s.blocks == Source(s0.blocks, n, grant) && s.arena == Obtained(s0.blocks, s0.arena, n, grant)
       else s.blocks == s0.blocks && s.at == s0.at && s.arena == s0.arena
  }

  lemma ScanInit(s: HeapState, n: nat, grant: Option<int>)
    requires Intact(s.mem, s.base, s.freep, s.blocks, s.at, s.live, s.arena) && s.freep != 0
    ensures s.freep in s.mem
    ensures Scanning(s, s, n, grant, false, s.freep, s.mem[s.freep].ptr, After(|s.blocks|, s.at))
    ensures Steps(s.at, |s.blocks|, After(|s.blocks|, s.at)) <= |s.blocks|
  {
    hide Intact, Ring, HeapOk;
    IntactParts(s.mem, s.base, s.freep, s.blocks, s.at, s.live, s.arena);
    RingStep(s.mem, s.base, s.blocks, s.at);
    ScanStart(s.blocks, s.at, n);
  }

  lemma ScanStep(s0: HeapState, s: HeapState, n: nat, grant: Option<int>, grown: bool, prevp: int, p: int, i: int)
    requires Scanning(s0, s, n, grant, grown, prevp, p, i)
    ensures Intact(s.mem, s.base, s.freep, s.blocks, s.at, s.live, s.arena) && s.freep != 0
    ensures 0 <= i <= |s.blocks| && p == At(s.base, s.blocks, i) && (i > 0 ==> prevp == At(s.base, s.blocks, i - 1))
    ensures !grown ==> s.blocks == s0.blocks && s.at == s0.at && s.live == s0.live && s.arena == s0.arena
    ensures p in s.mem && (s.mem[p].size >= n && n > 0 ==> i > 0 && s.blocks[i - 1].size >= n)
    ensures p == s.freep <==> i == s.at
    ensures s.mem[p].size < n && i != s.at ==>
              Scanning(s0, s, n, grant, grown, p, s.mem[p].ptr, After(|s.blocks|, i)) &&
              Steps(s.at, |s.blocks|, i) < Steps(s.at, |s.blocks|, After(|s.blocks|, i)) <= |s.blocks|
    ensures s.mem[p].size < n && i == s.at ==> !grown && AllSmall(s.blocks, n)
  {
    hide Intact, Ring, HeapOk, Source, Obtained;
    IntactParts(s.mem, s.base, s.freep, s.blocks, s.at, s.live, s.arena);
    RingStep(s.mem, s.base, s.blocks, i);
    if i != s.at { RingPositions(s.mem, s.base, s.blocks, i, s.at); }
    hide Scanned, Steps, AllSmall;
    if s.mem[p].size < n {
      if i == s.at {
        ScanEnd(s.blocks, s.at, n);
      } else {
        ScanOn(s.blocks, s.at, n, i);
      }
    }
  }

  lemma ScanGrown(s0: HeapState, s: HeapState, s': HeapState, n: nat, grant: Option<int>, prevp: int, p: int, i: int)
    requires Scanning(s0, s, n, grant, false, prevp, p, i) && AllSmall(s.blocks, n) && grant.Some?
    requires Intact(s'.mem, s'.base, s'.freep, s'.blocks, s'.at, s'.live, s'.arena) && s'.freep != 0
    requires s'.live == s.live && !AllSmall(s'.blocks, n)
    requires s'.blocks == Release(s.blocks, Block(grant.value, ChunkUnits(n)))
    requires s'.arena == s.arena + Units(grant.value, ChunkUnits(n))
    ensures s'.freep in s'.mem
    ensures Scanning(s0, s', n, grant, true, s'.freep, s'.mem[s'.freep].ptr, After(|s'.blocks|, s'.at))
    ensures Steps(s'.at, |s'.blocks|, After(|s'.blocks|, s'.at)) <= |s'.blocks|
  {
    hide Intact, Ring, HeapOk, AllSmall, Release, Units, ChunkUnits;
    ScanInit(s', n, grant);
    GrowthSource(s.blocks, s.arena, n, grant.value);
  }

  lemma ScanHit(s0: HeapState, s: HeapState, n: nat, grant: Option<int>, grown: bool, prevp: int, p: int, i: int,
                r: int, bs: seq<Block>, live: map<int, int>)
    requires Scanning(s0, s, n, grant, grown, prevp, p, i) && i > 0 && s.blocks[i - 1].size >= n
    requires r != 0 && r - 1 == Taken(s.blocks, i - 1, n).addr && bs == Take(s.blocks, i - 1, n)
    requires r - 1 !in s.live && live == s.live[r - 1 := n]
    ensures Allocated(s0.blocks, s0.at, s0.live, s0.arena, n, grant, r, i - 1, bs, i - 1, live, s.arena)
    ensures s.arena == s0.arena || AllSmall(s0.blocks, n)
  {
    hide Intact, Source, Obtained, Take, Taken, Allocated;
    ScanFound(s.blocks, s.at, n, i);
    hide AllSmall, NextFit;
    AllocatedFound(s0.blocks, s0.at, s0.live, s0.arena, n, grant, r, i - 1, s.blocks, s.at, bs, live, s.arena);
  }

  /** The exit of malloc's loop, on values: block j is cut, and freep is left on the block before it. */
  lemma CutIntact(s: HeapState, j: int, n: nat)
    requires Intact(s.mem, s.base, s.freep, s.blocks, s.at, s.live, s.arena) && s.freep != 0
    requires 0 <= j < |s.blocks| && 0 < n <= s.blocks[j].size
    ensures var prevp, p := At(s.base, s.blocks, j), At(s.base, s.blocks, j + 1);
            var a := Taken(s.blocks, j, n).addr;
            && prevp in s.mem && p in s.mem && prevp != p && a == p + s.mem[p].size - n && a in s.mem
            && a !in s.live && a + 1 != 0 && prevp != 0 && prevp == At(s.base, Take(s.blocks, j, n), j)
            && Intact(Cut(s.mem, prevp, p, n), s.base, prevp, Take(s.blocks, j, n), j, s.live[a := n], s.arena)
  {
    IntactParts(s.mem, s.base, s.freep, s.blocks, s.at, s.live, s.arena);
    hide Intact, Ring, HeapOk, Cut, Take;
    CutKeepsHeap(s.mem, s.base, s.blocks, s.live, s.arena, j, n);
    RingPositions(s.mem, s.base, s.blocks, j, j + 1);
    RingStep(s.mem, s.base, s.blocks, j + 1);
    var a := Taken(s.blocks, j, n).addr;
    IntactIntro(Cut(s.mem, At(s.base, s.blocks, j), s.blocks[j].addr, n), s.base, Take(s.blocks, j, n), j,
        s.live[a := n], s.arena);
  }

  class Heap {
    const base: int
    var mem: Memory
    var freep: int
    ghost var blocks: seq<Block>     // the free list behind base
    ghost var at: int                // ring position of freep
    ghost var live: map<int, int>    // header address -> size of every block handed out
    ghost var arena: set<int>        // the units obtained from sbrk

    ghost predicate Valid()
      reads this
    {
      Intact(mem, base, freep, blocks, at, live, arena)
    }

    constructor (staticHeader: int, memory: Memory)
      requires 0 < staticHeader && staticHeader in memory
      ensures Valid() && base == staticHeader && blocks == [] && live == map[] && arena == {}
    {
      base, mem, freep := staticHeader, memory, 0;
      blocks, at, live, arena := [], 0, map[], {};
    }

    /** free(ap): the block at ap - 1 leaves the live set and is released into the free list. */
    method Free(ap: int)
      requires Valid() && ap - 1 in live
      modifies this
      ensures Valid()
      ensures live == old(live) - {ap - 1} && arena == old(arena)
      ensures blocks == Release(old(blocks), Block(ap - 1, old(live)[ap - 1]))
      ensures freep == At(base, blocks, at) && at == Slot(old(blocks), ap - 1)
      ensures freep != 0 && freep < ap - 1
      ensures freep == base || exists i :: 0 <= i < |old(blocks)| && old(blocks)[i].addr == freep
      ensures forall i :: 0 <= i < |old(blocks)| && old(blocks)[i].addr < ap - 1 ==> old(blocks)[i].addr <= freep
    {
      hide Intact, Coalesced, HeapOk, Ring, Release, Relink, Slot;
      var bp := ap - 1;
      ghost var b := Block(bp, live[bp]);
      ghost var t := Slot(blocks, bp);
      IntactParts(mem, base, freep, blocks, at, live, arena);
      var p := FindPlace(bp);
      FreeKeepsHeap(mem, base, blocks, live, arena, bp, t);
      SlotPlace(mem, base, blocks, live, arena, bp);
      assert mem[bp].size == b.size;
      LinkBehind(p, bp);
      freep := p;
      blocks, at, live := Release(blocks, b), t, live - {bp};
      IntactIntro(mem, base, blocks, t, live, arena);
    }

    // The roving scan of free: from freep to the ring position behind which bp belongs.
    method FindPlace(bp: int) returns (p: int)
      requires Valid() && bp in live
      ensures p == At(base, blocks, Slot(blocks, bp)) && p in mem && mem[p].ptr in mem && p != bp && bp in mem
      ensures mem[bp].size == live[bp]
    {
      ghost var t := Slot(blocks, bp);
      ScanStops(mem, base, blocks, Block(bp, live[bp]), t);
      p := freep;
      ghost var k := at;
      while !(bp > p && bp < mem[p].ptr)
        invariant 0 <= k <= |blocks| && p == At(base, blocks, k)
        decreases if k <= t then t - k else t - k + |blocks| + 1
      {
        if p >= mem[p].ptr && (bp > p || bp < mem[p].ptr) {
          break;
        }
        RingStep(mem, base, blocks, k);
        p := mem[p].ptr;
        k := if k == |blocks| then 0 else k + 1;
      }
      assert k == t;
      RingStep(mem, base, blocks, k);
    }

    /** malloc(nbytes), where `grant` is what sbrk would answer if asked.

        Without growth the first block behind `freep` that fits is cut.  Only when no block fits is sbrk asked,
        once, and then the scan meets a block that fits before it comes back to `freep`. */
    method Malloc(nbytes: nat, grant: Option<int>) returns (r: int, ghost j: int)
      requires Valid() && nbytes < UINT
      requires grant.Some? ==> Fresh(grant.value, ChunkUnits(UnitsFor(nbytes)))
      modifies this
      ensures Valid()
      ensures Allocated(old(blocks), old(at), old(live), old(arena), UnitsFor(nbytes), grant, r, j, blocks, at, live,
                        arena)
      ensures freep != 0 && freep == At(base, blocks, at)
      ensures r == 0 ==> grant.None? && forall i :: 0 <= i < |blocks| ==> blocks[i].size < UnitsFor(nbytes)
      ensures (exists i :: 0 <= i < |old(blocks)| && old(blocks)[i].size >= UnitsFor(nbytes)) ==>
                r != 0 && arena == old(arena)
    {
      var nunits := UnitsFor(nbytes);
      j := 0;
      hide Intact, Scanning, Allocated, AllSmall, Steps, UnitsFor, ChunkUnits, Release, Take, Taken, Units;
      IntactParts(mem, base, freep, blocks, at, live, arena);
      NoRoom(blocks, nunits);
      if freep == 0 {
        FirstCall(mem, base, arena);
        mem := mem[base := Header(base, 0)];
        freep := base;
      }
      ghost var s0, grown := State(), false;
      ScanInit(s0, nunits, grant);
      var prevp := freep;
      var p := mem[prevp].ptr;
      ghost var i := After(|blocks|, at);
      while true
        invariant Scanning(s0, State(), nunits, grant, grown, prevp, p, i)
        invariant Steps(at, |blocks|, i) <= |blocks|
        invariant !grown ==> arena == s0.arena
        decreases !grown, |blocks| - Steps(at, |blocks|, i)
      {
        ScanStep(s0, State(), nunits, grant, grown, prevp, p, i);
        if mem[p].size >= nunits {
          ghost var s := State();
          j := i - 1;
          r := HandOut(prevp, p, nunits, j);
          ScanHit(s0, s, nunits, grant, grown, prevp, p, i, r, blocks, live);
          return;
        }
        if p == freep {
          ghost var s := State();
          ghost var h := prevp;
          var q := MoreCore(nunits, grant);
          if q == 0 {
            AllocatedNone(s.blocks, s.at, s.live, s.arena, nunits, j);
            return 0, j;
          }
          ScanGrown(s0, s, State(), nunits, grant, h, p, i);
          p, grown, i := q, true, at;
        }
        prevp := p;
        p := mem[p].ptr;
        i := After(|blocks|, i);
      }
    }

    ghost function State(): HeapState
      reads this
    {
      HeapState(mem, base, freep, blocks, at, live, arena)
    }

    // The exit of malloc's loop: block j, at p behind prevp, is big enough.
    method HandOut(prevp: int, p: int, nunits: nat, ghost j: int) returns (r: int)
      requires Valid() && freep != 0 && 0 <= j < |blocks| && 0 < nunits <= blocks[j].size
      requires prevp == At(base, blocks, j) && p == At(base, blocks, j + 1)
      modifies this
      ensures Valid()
      ensures r != 0 && r - 1 == Taken(old(blocks), j, nunits).addr && r - 1 !in old(live)
      ensures blocks == Take(old(blocks), j, nunits) && live == old(live)[r - 1 := nunits] && arena == old(arena)
      ensures at == j && freep == prevp == At(base, blocks, j) && freep != 0
    {
      hide Intact, Cut, Take, Taken, At;
      CutIntact(State(), j, nunits);
      var a := CutBlock(prevp, p, nunits);
      freep := prevp;
      blocks, at, live := Take(blocks, j, nunits), j, live[a := nunits];
      r := a + 1;
    }

    // The headers malloc writes when the block at p fits; a is the header of the block handed out.
    method CutBlock(prevp: int, p: int, nunits: int) returns (a: int)
      requires prevp in mem && p in mem && p + mem[p].size - nunits in mem && prevp != p
      modifies this`mem
      ensures mem == Cut(old(mem), prevp, p, nunits) && a == p + old(mem)[p].size - nunits
    {
      a := p;
      if mem[p].size == nunits {
        mem := mem[prevp := Header(mem[p].ptr, mem[prevp].size)];
      } else {
        mem := mem[p := Header(mem[p].ptr, mem[p].size - nunits)];
        a := p + mem[p].size;
        mem := mem[a := Header(mem[a].ptr, nunits)];
      }
    }

    /** A program may write what it likes into the room of its own blocks. */
    method UserStore(a: int, u: int, h: Header)
      requires Valid() && a in live && a < u < a + live[a]
      modifies this`mem
      ensures Valid()
    {
      UserStoreHarmless(mem, base, blocks, live, arena, a, u, h);
      mem := mem[u := h];
    }

    // Room obtained from sbrk: malloc's morecore.  `grant` is what sbrk answers: None for -1.
    method MoreCore(nu: nat, grant: Option<int>) returns (r: int)
      requires Valid() && freep != 0 && nu > 0
      requires grant.Some? ==> Fresh(grant.value, ChunkUnits(nu))
      modifies this
      ensures Valid()
      ensures live == old(live) && r == (if grant.None? then 0 else freep) && freep != 0
      ensures grant.None? ==> unchanged(this)
      ensures grant.Some? ==>
                && !AllSmall(blocks, nu)
                && blocks == Release(old(blocks), Block(grant.value, ChunkUnits(nu)))
                && arena == old(arena) + Units(grant.value, ChunkUnits(nu))
    {
      hide Intact, Ring, HeapOk, Coalesced, Release, AllSmall, Units;
      var n := if nu < MIN_UNITS then MIN_UNITS else nu;
      if grant.None? {
        return 0;
      }
      var hp := grant.value;
      IntactParts(mem, base, freep, blocks, at, live, arena);
      GrowthHasRoom(mem, base, blocks, hp, nu);
      AdoptChunk(hp, n);
      assert live - {hp} == old(live);
      Free(hp + 1);
      r := freep;
    }

    // The memory behind sbrk's answer, with morecore's header written at its start.
    method AdoptChunk(hp: int, n: nat)
      requires Valid() && freep != 0 && n > 0 && Fresh(hp, n)
      modifies this`mem, this`live, this`arena
      ensures Valid() && hp !in old(live)
      ensures live == old(live)[hp := n] && arena == old(arena) + Units(hp, n)
    {
      hide Intact, Coalesced, HeapOk, Ring, Grown, Units, At;
      IntactParts(mem, base, freep, blocks, at, live, arena);
      ChunkKeepsHeap(mem, base, blocks, live, arena, hp, n);
      mem := Grown(mem, hp, n);
      live, arena := live[hp := n], arena + Units(hp, n);
      IntactIntro(mem, base, blocks, at, live, arena);
    }

    /** A run of units that sbrk may return: above the static data, and never returned before. */
    ghost predicate Fresh(a: int, n: nat)
      reads this
    {
      base < a && forall u :: a <= u < a + n ==> u !in arena
    }

    // The assignments at the end of free: link the block at bp behind p, joining it to its neighbours.
    method LinkBehind(p: int, bp: int)
      requires p in mem && mem[p].ptr in mem && bp in mem && p != bp
      modifies this`mem
      ensures mem == Relink(old(mem), p, bp, old(mem)[bp].size)
    {
      if bp + mem[bp].size == mem[p].ptr {
        mem := mem[bp := Header(mem[mem[p].ptr].ptr, mem[bp].size + mem[mem[p].ptr].size)];
      } else {
        mem := mem[bp := Header(mem[p].ptr, mem[bp].size)];
      }
      if p + mem[p].size == bp {
        mem := mem[p := Header(mem[bp].ptr, mem[p].size + mem[bp].size)];
      } else {
        mem := mem[p := Header(bp, mem[p].size)];
      }
    }
  }
}
