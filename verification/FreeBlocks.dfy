/** The abstract free list of the K&R allocator (p2b/user/umalloc.c).

    A free list is a sequence of blocks in increasing address order in which every
    two neighbours are separated by at least one unit: full coalescing.  Such a list
    is a canonical form: it is determined by the set of units that it covers. */
module FreeBlocks {

  /** A run of `size` header-sized units that starts at unit `addr`. */
  datatype Block = Block(addr: int, size: int)

  predicate Holds(b: Block, u: int) {
    b.addr <= u < b.addr + b.size
  }

  ghost predicate Covers(bs: seq<Block>, u: int) {
    exists i :: 0 <= i < |bs| && Holds(bs[i], u)
  }

  ghost predicate Coalesced(bs: seq<Block>) {
    && (forall i :: 0 <= i < |bs| ==> bs[i].size > 0)
    && (forall i, j :: 0 <= i < j < |bs| ==> bs[i].addr + bs[i].size < bs[j].addr)
  }

  ghost predicate Apart(a: Block, b: Block) {
    a.addr + a.size <= b.addr || b.addr + b.size <= a.addr
  }

  ghost predicate ApartFromAll(bs: seq<Block>, b: Block) {
    forall i :: 0 <= i < |bs| ==> Apart(bs[i], b)
  }

  /** What freeing `b` means for the list: insert it and merge it with the neighbours it touches. */
  function Release(bs: seq<Block>, b: Block): seq<Block> {
    if bs == [] then [b]
    else if b.addr + b.size < bs[0].addr then [b] + bs
    else if b.addr + b.size == bs[0].addr then [Block(b.addr, b.size + bs[0].size)] + bs[1..]
    else if bs[0].addr + bs[0].size == b.addr then Release(bs[1..], Block(bs[0].addr, bs[0].size + b.size))
    else [bs[0]] + Release(bs[1..], b)
  }

  /** The block that `malloc` hands out of block `j`: its last `n` units. */
  function Taken(bs: seq<Block>, j: int, n: int): Block
    requires 0 <= j < |bs|
  {
    Block(bs[j].addr + bs[j].size - n, n)
  }

  /** The list after that: block `j` is dropped when it fits exactly, and loses its tail otherwise. */
  function Take(bs: seq<Block>, j: int, n: int): seq<Block>
    requires 0 <= j < |bs|
  {
    if bs[j].size == n then bs[..j] + bs[j + 1..]
    else bs[j := Block(bs[j].addr, bs[j].size - n)]
  }

  lemma FirstCovered(xs: seq<Block>)
    requires Coalesced(xs) && xs != []
    ensures Covers(xs, xs[0].addr)
  {
    assert Holds(xs[0], xs[0].addr);
  }

  /** Two coalesced lists that cover the same units are the same list. */
  lemma {:induction false} CoalescedIsCanonical(xs: seq<Block>, ys: seq<Block>)
    requires Coalesced(xs) && Coalesced(ys)
    requires forall u :: Covers(xs, u) <==> Covers(ys, u)
    ensures xs == ys
    decreases |xs|
  {
    if xs == [] {
      if ys != [] {
        FirstCovered(ys);
      }
    } else {
      FirstCovered(xs);
      FirstBlockAgrees(xs, ys);
      FirstBlockAgrees(ys, xs);
      assert xs[0] == ys[0];
      forall u ensures Covers(xs[1..], u) <==> Covers(ys[1..], u) {
        CoversTail(xs, u);
        CoversTail(ys, u);
      }
      CoalescedIsCanonical(xs[1..], ys[1..]);
      assert xs == [xs[0]] + xs[1..];
      assert ys == [ys[0]] + ys[1..];
    }
  }

  lemma CoversTail(xs: seq<Block>, u: int)
    requires Coalesced(xs) && xs != []
    ensures Covers(xs[1..], u) <==> Covers(xs, u) && !Holds(xs[0], u)
  {
    if Covers(xs[1..], u) {
      var i :| 0 <= i < |xs[1..]| && Holds(xs[1..][i], u);
      assert Holds(xs[i + 1], u);
    }
    if Covers(xs, u) && !Holds(xs[0], u) {
      var i :| 0 <= i < |xs| && Holds(xs[i], u);
      assert Holds(xs[1..][i - 1], u);
    }
  }

  // The first block of ys starts no later, and if it starts at the same unit ends no later, than that of xs.
  lemma FirstBlockAgrees(xs: seq<Block>, ys: seq<Block>)
    requires Coalesced(xs) && Coalesced(ys) && xs != []
    requires forall u :: Covers(xs, u) <==> Covers(ys, u)
    ensures ys != [] && ys[0].addr <= xs[0].addr
    ensures ys[0].addr == xs[0].addr ==> ys[0].size >= xs[0].size
  {
    assert Holds(xs[0], xs[0].addr);
    assert Covers(xs, xs[0].addr);
    var i :| 0 <= i < |ys| && Holds(ys[i], xs[0].addr);
    var u := ys[0].addr + ys[0].size;
    assert !Covers(ys, u);
    assert Holds(xs[0], u) ==> Covers(xs, u);
  }

  lemma CoversCons(b: Block, t: seq<Block>, u: int)
    ensures Covers([b] + t, u) <==> Holds(b, u) || Covers(t, u)
  {
    var r := [b] + t;
    if Covers(r, u) && !Holds(b, u) {
      var i :| 0 <= i < |r| && Holds(r[i], u);
      assert Holds(t[i - 1], u);
    }
    if Holds(b, u) { assert Holds(r[0], u); }
    if Covers(t, u) {
      var i :| 0 <= i < |t| && Holds(t[i], u);
      assert Holds(r[i + 1], u);
    }
  }

  lemma {:induction false} ReleaseCovers(bs: seq<Block>, b: Block, u: int)
    requires b.size > 0 && forall i :: 0 <= i < |bs| ==> bs[i].size > 0
    ensures Covers(Release(bs, b), u) <==> Covers(bs, u) || Holds(b, u)
    decreases |bs|
  {
    CoversCons(b, bs, u);
    if bs == [] {
      assert [b] + bs == [b];
    } else {
      var h, t := bs[0], bs[1..];
      assert bs == [h] + t;
      CoversCons(h, t, u);
      if b.addr + b.size < h.addr {
      } else if b.addr + b.size == h.addr {
        CoversCons(Block(b.addr, b.size + h.size), t, u);
      } else if h.addr + h.size == b.addr {
        ReleaseCovers(t, Block(h.addr, h.size + b.size), u);
      } else {
        CoversCons(h, Release(t, b), u);
        ReleaseCovers(t, b, u);
      }
    }
  }

  lemma CoalescedTail(bs: seq<Block>, b: Block)
    requires Coalesced(bs) && bs != [] && ApartFromAll(bs, b)
    ensures Coalesced(bs[1..]) && ApartFromAll(bs[1..], b) && Apart(bs[0], b) && bs[0].size > 0
    ensures |bs| > 1 ==> bs[0].addr + bs[0].size < bs[1].addr
    ensures bs[0].addr + bs[0].size == b.addr ==> ApartFromAll(bs[1..], Block(bs[0].addr, bs[0].size + b.size))
  {
    forall i | 0 <= i < |bs[1..]| ensures Apart(bs[1..][i], b) {
      assert bs[1..][i] == bs[i + 1] && Apart(bs[i + 1], b);
    }
  }

  ghost function Start(bs: seq<Block>, b: Block): int {
    if bs == [] || b.addr < bs[0].addr then b.addr else bs[0].addr
  }

  // Freeing behind the first block leaves a list that starts behind it, unless the two touch.
  lemma {:induction false} ReleaseStart(bs: seq<Block>, b: Block)
    requires Coalesced(bs) && b.size > 0 && ApartFromAll(bs, b)
    ensures Release(bs, b) != [] && Release(bs, b)[0].addr == Start(bs, b)
    decreases |bs|
  {
    if bs != [] && bs[0].addr + bs[0].size == b.addr {
      var m := Block(bs[0].addr, bs[0].size + b.size);
      CoalescedTail(bs, b);
      StartAfter(bs, m);
      ReleaseStart(bs[1..], m);
    }
  }

  lemma {:induction false} ReleaseCoalesces(bs: seq<Block>, b: Block)
    requires Coalesced(bs) && b.size > 0 && ApartFromAll(bs, b)
    ensures Coalesced(Release(bs, b))
    decreases |bs|
  {
    hide ApartFromAll;
    if bs != [] {
      CoalescedTail(bs, b);
      hide Coalesced;
      if bs[0].addr + bs[0].size == b.addr {
        ReleaseCoalesces(bs[1..], Block(bs[0].addr, bs[0].size + b.size));
      } else if bs[0].addr < b.addr {
        ReleaseCoalesces(bs[1..], b);
        ReleaseStart(bs[1..], b);
        StartAfter(bs, b);
        CoalescedCons(bs[0], Release(bs[1..], b));
      } else {
        ReleaseBefore(bs, b);
      }
    }
  }

  lemma {:induction false} ReleaseBefore(bs: seq<Block>, b: Block)
    requires Coalesced(bs) && b.size > 0 && bs != [] && b.addr + b.size <= bs[0].addr
    ensures Coalesced(Release(bs, b))
  {
    if b.addr + b.size < bs[0].addr {
      CoalescedCons(b, bs);
    }
  }

  lemma StartAfter(bs: seq<Block>, b: Block)
    requires Coalesced(bs) && bs != []
    ensures b.addr == bs[0].addr ==> Start(bs[1..], b) == b.addr
    ensures bs[0].addr + bs[0].size < b.addr ==> bs[0].addr + bs[0].size < Start(bs[1..], b)
  {
    assert |bs| > 1 ==> bs[0].addr + bs[0].size < bs[1].addr;
  }

  lemma CoalescedCons(h: Block, t: seq<Block>)
    requires Coalesced(t) && h.size > 0 && (t == [] || h.addr + h.size < t[0].addr)
    ensures Coalesced([h] + t)
  {
    var r := [h] + t;
    forall i, j | 0 <= i < j < |r| ensures r[i].addr + r[i].size < r[j].addr {
      assert r[j] == t[j - 1];
      if i > 0 { assert r[i] == t[i - 1]; }
    }
  }

  /** Freeing keeps the list coalesced and adds exactly the freed units to what it covers. */
  lemma {:induction false} ReleaseMeaning(bs: seq<Block>, b: Block)
    requires Coalesced(bs) && b.size > 0 && ApartFromAll(bs, b)
    ensures Coalesced(Release(bs, b))
    ensures forall u :: Covers(Release(bs, b), u) <==> Covers(bs, u) || Holds(b, u)
  {
    ReleaseCoalesces(bs, b);
    forall u ensures Covers(Release(bs, b), u) <==> Covers(bs, u) || Holds(b, u) {
      ReleaseCovers(bs, b, u);
    }
  }

  /** Frees commute: the list left behind does not depend on their order. */
  lemma {:induction false} ReleaseCommutes(bs: seq<Block>, a: Block, b: Block)
    requires Coalesced(bs) && a.size > 0 && b.size > 0
    requires ApartFromAll(bs, a) && ApartFromAll(bs, b) && Apart(a, b)
    ensures Release(Release(bs, a), b) == Release(Release(bs, b), a)
  {
    ReleaseMeaning(bs, a);
    ReleaseMeaning(bs, b);
    ReleaseStaysApart(bs, a, b);
    ReleaseStaysApart(bs, b, a);
    ReleaseMeaning(Release(bs, a), b);
    ReleaseMeaning(Release(bs, b), a);
    CoalescedIsCanonical(Release(Release(bs, a), b), Release(Release(bs, b), a));
  }

  lemma {:induction false} ReleaseStaysApart(bs: seq<Block>, a: Block, b: Block)
    requires Coalesced(bs) && a.size > 0 && b.size > 0
    requires ApartFromAll(bs, a) && ApartFromAll(bs, b) && Apart(a, b)
    ensures ApartFromAll(Release(bs, a), b)
  {
    ReleaseMeaning(bs, a);
    var r := Release(bs, a);
    forall i | 0 <= i < |r| ensures Apart(r[i], b) {
      forall u | Holds(r[i], u) ensures !Holds(b, u) {
        assert Covers(r, u);
      }
      NoUnitShared(r[i], b);
    }
  }

  lemma NoUnitShared(a: Block, b: Block)
    requires a.size > 0 && b.size > 0 && forall u :: Holds(a, u) ==> !Holds(b, u)
    ensures Apart(a, b)
  {
    var u := if a.addr < b.addr then b.addr else a.addr;
    assert Holds(a, u) ==> !Holds(b, u);
  }

  // Index in bs of the block that became block i of Take(bs, j, n).
  function Origin(bs: seq<Block>, j: int, n: int, i: int): int
    requires 0 <= j < |bs|
  {
    if bs[j].size == n && i >= j then i + 1 else i
  }

  lemma TakeAt(bs: seq<Block>, j: int, n: int, i: int)
    requires 0 <= j < |bs| && 0 < n <= bs[j].size && 0 <= i < |Take(bs, j, n)|
    ensures var k := Origin(bs, j, n, i);
            0 <= k < |bs| && Take(bs, j, n)[i] == (if k == j then Block(bs[j].addr, bs[j].size - n) else bs[k])
    ensures Origin(bs, j, n, i) == j ==> bs[j].size > n
  {
  }

  lemma TakeCovers(bs: seq<Block>, j: int, n: int, u: int)
    requires Coalesced(bs) && 0 <= j < |bs| && 0 < n <= bs[j].size
    ensures Covers(Take(bs, j, n), u) <==> Covers(bs, u) && !Holds(Taken(bs, j, n), u)
  {
    hide Coalesced;
    var r := Take(bs, j, n);
    if Covers(r, u) {
      var i :| 0 <= i < |r| && Holds(r[i], u);
      TakeAt(bs, j, n, i);
      var k := Origin(bs, j, n, i);
      assert Holds(bs[k], u);
      OneHolder(bs, j, k, u);
    }
    if Covers(bs, u) && !Holds(Taken(bs, j, n), u) {
      var k :| 0 <= k < |bs| && Holds(bs[k], u);
      var i := if bs[j].size == n && k > j then k - 1 else k;
      TakeAt(bs, j, n, i);
      assert Holds(r[i], u);
    }
  }

  lemma OneHolder(bs: seq<Block>, j: int, k: int, u: int)
    requires Coalesced(bs) && 0 <= j < |bs| && 0 <= k < |bs| && Holds(bs[k], u)
    ensures j != k ==> !Holds(bs[j], u)
  {
    assert j < k ==> bs[j].addr + bs[j].size < bs[k].addr;
    assert k < j ==> bs[k].addr + bs[k].size < bs[j].addr;
  }

  lemma TakeCoalesces(bs: seq<Block>, j: int, n: int)
    requires Coalesced(bs) && 0 <= j < |bs| && 0 < n <= bs[j].size
    ensures Coalesced(Take(bs, j, n)) && ApartFromAll(Take(bs, j, n), Taken(bs, j, n))
  {
    var r, t := Take(bs, j, n), Taken(bs, j, n);
    if bs[j].size == n {
      forall i | 0 <= i < |r| ensures r[i].size > 0 && Apart(r[i], t) {
        assert r[i] == bs[if i < j then i else i + 1];
      }
      forall i, k | 0 <= i < k < |r| ensures r[i].addr + r[i].size < r[k].addr {
        assert r[i] == bs[if i < j then i else i + 1] && r[k] == bs[if k < j then k else k + 1];
      }
    } else {
      forall i | 0 <= i < |r| ensures Apart(r[i], t) {
        assert i != j ==> r[i] == bs[i];
      }
    }
  }

  /** Taking from block j removes exactly the taken units and keeps the list coalesced. */
  lemma TakeMeaning(bs: seq<Block>, j: int, n: int)
    requires Coalesced(bs) && 0 <= j < |bs| && 0 < n <= bs[j].size
    ensures Coalesced(Take(bs, j, n)) && ApartFromAll(Take(bs, j, n), Taken(bs, j, n))
    ensures forall u :: Covers(Take(bs, j, n), u) <==> Covers(bs, u) && !Holds(Taken(bs, j, n), u)
  {
    TakeCoalesces(bs, j, n);
    forall u ensures Covers(Take(bs, j, n), u) <==> Covers(bs, u) && !Holds(Taken(bs, j, n), u) {
      TakeCovers(bs, j, n, u);
    }
  }

  /** Freeing what was just taken restores the list. */
  lemma {:induction false} ReleaseUndoesTake(bs: seq<Block>, j: int, n: int)
    requires Coalesced(bs) && 0 <= j < |bs| && 0 < n <= bs[j].size
    ensures Release(Take(bs, j, n), Taken(bs, j, n)) == bs
  {
    var r, t := Take(bs, j, n), Taken(bs, j, n);
    TakeMeaning(bs, j, n);
    ReleaseMeaning(r, t);
    forall u ensures Covers(Release(r, t), u) <==> Covers(bs, u) {
      if Holds(t, u) { assert Holds(bs[j], u); }
    }
    CoalescedIsCanonical(Release(r, t), bs);
  }
}
