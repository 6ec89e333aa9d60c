/** Discarding a file (bfree and itrunc of p2b/kernel/fs.c:78-97,349-380) as a step on the disk. */
module FsTrunc {
  import opened FsBlock
  import opened FsDisk
  import opened FsMap
  import opened FsWrite

  /** The blocks of inode i, its indirect block included. */
  ghost function BlocksOf(d: Disk, i: nat): set<nat>
    requires Shaped(d) && i < |d.inodes|
  {
    set s: nat | s <= INDIRECT && Ptr(d, i, s) != 0 :: Ptr(d, i, s)
  }

  /** The disk with the blocks in `freed` zeroed and marked free: what bfree does, block by block. */
  function Freed(d: Disk, freed: set<nat>): (r: Disk)
    ensures |r.bits| == |d.bits| && |r.blocks| == |d.blocks|
    ensures forall b :: 0 <= b < |d.bits| ==> r.bits[b] == (d.bits[b] && b !in freed)
    ensures forall b :: 0 <= b < |d.blocks| ==> r.blocks[b] == if b in freed then ZERO_BLOCK else d.blocks[b]
  {
    d.(bits := seq(|d.bits|, (b: nat) requires b < |d.bits| => d.bits[b] && b !in freed),
       blocks := seq(|d.blocks|, (b: nat) requires b < |d.blocks| => if b in freed then ZERO_BLOCK else d.blocks[b]))
  }

  lemma FreedOneMore(d: Disk, freed: set<nat>, b: nat)
    requires b < |d.bits| && b < |d.blocks|
    ensures Freed(d, freed + {b}) == Freed(d, freed).(bits := Freed(d, freed).bits[b := false],
                                                      blocks := Freed(d, freed).blocks[b := ZERO_BLOCK])
  {
    var x := Freed(d, freed);
    var y := x.(bits := x.bits[b := false], blocks := x.blocks[b := ZERO_BLOCK]);
    assert Freed(d, freed + {b}).bits == y.bits;
    assert Freed(d, freed + {b}).blocks == y.blocks;
  }

  lemma FreedNone(d: Disk)
    ensures Freed(d, {}) == d
  {
    assert Freed(d, {}).bits == d.bits && Freed(d, {}).blocks == d.blocks;
  }

  const NO_ADDRS: seq<nat> := [0, 0, 0, 0, 0, 0, 0, 0, 0, 0, 0, 0, 0]

  /** itrunc */
  ghost function Truncated(d: Disk, i: nat): Disk
    requires Shaped(d) && i < |d.inodes|
  {
    var r := Freed(d, BlocksOf(d, i));
    r.(inodes := d.inodes[i := d.inodes[i].(size := 0, addrs := NO_ADDRS)])
  }

  /** All pointers of inode i are gone, and those of the others stay. */
  lemma TruncatedPointers(d: Disk, owner: Owner, i: nat)
    requires Shaped(d) && Owned(d, owner) && i < |d.inodes|
    ensures Shaped(Truncated(d, i))
    ensures forall j, t :: 0 <= j < |d.inodes| && 0 <= t <= INDIRECT ==>
              Ptr(Truncated(d, i), j, t) == if j == i then 0 else Ptr(d, j, t)
  {
    forall j, t | 0 <= j < |d.inodes| && 0 <= t <= INDIRECT
      ensures Ptr(Truncated(d, i), j, t) == if j == i then 0 else Ptr(d, j, t)
    {
      TruncatedPointer(d, owner, i, j, t);
    }
    hide Owned, BlocksOf, Ptr;
  }

  lemma TruncatedPointer(d: Disk, owner: Owner, i: nat, j: nat, t: nat)
    requires Shaped(d) && Owned(d, owner) && i < |d.inodes| && j < |d.inodes| && t <= INDIRECT
    ensures Shaped(Truncated(d, i)) && Ptr(Truncated(d, i), j, t) == if j == i then 0 else Ptr(d, j, t)
  {
    hide Owned, BlocksOf, Slot;
    var d', ip := Truncated(d, i), d.inodes[j];
    if j == i {
      EmptySlot(d'.blocks, d'.inodes[i], t);
    } else {
      if ip.addrs[NDIRECT] != 0 {
        IndirectPointer(d, j);
        NotOf(d, owner, i, j, INDIRECT);
      }
      SameSlot(d.blocks, d'.blocks, ip, t);
    }
  }

  lemma IndirectPointer(d: Disk, j: nat)
    requires Shaped(d) && j < |d.inodes|
    ensures Ptr(d, j, INDIRECT) == d.inodes[j].addrs[NDIRECT]
  {
  }

  lemma EmptySlot(blocks: seq<Block>, ip: Inode, t: nat)
    requires ip.addrs == NO_ADDRS && t <= INDIRECT
    ensures Slot(blocks, ip, t) == 0
  {
  }

  lemma SameSlot(blocks: seq<Block>, blocks': seq<Block>, ip: Inode, t: nat)
    requires |ip.addrs| == NDIRECT + 1 && t <= INDIRECT && |blocks'| == |blocks|
    requires var a := ip.addrs[NDIRECT]; a != 0 && a < |blocks| ==> blocks'[a] == blocks[a]
    ensures Slot(blocks', ip, t) == Slot(blocks, ip, t)
  {
  }

  lemma NotOf(d: Disk, owner: Owner, i: nat, j: nat, s: nat)
    requires Shaped(d) && Owned(d, owner) && i < |d.inodes| && j < |d.inodes| && j != i && s <= INDIRECT
    requires Ptr(d, j, s) != 0
    ensures Ptr(d, j, s) !in BlocksOf(d, i) && Ptr(d, j, s) < |d.blocks|
  {
  }

  lemma TruncatedOwned(d: Disk, owner: Owner, i: nat)
    requires Shaped(d) && Owned(d, owner) && FreeIsZero(d) && i < |d.inodes|
    ensures Shaped(Truncated(d, i)) && Owned(Truncated(d, i), owner - BlocksOf(d, i)) && FreeIsZero(Truncated(d, i))
  {
    TruncatedPointers(d, owner, i);
    BlocksOfMeaning(d, owner, i);
    OwnedWithout(d, Truncated(d, i), owner, BlocksOf(d, i), i);
    hide Ptr, BlocksOf, Owned;
  }

  lemma OwnedWithout(d: Disk, d': Disk, owner: Owner, own: set<nat>, i: nat)
    requires Shaped(d) && Shaped(d') && Owned(d, owner) && i < |d.inodes|
    requires forall b :: b in own <==> b in owner && owner[b].inum == i
    requires |d'.blocks| == |d.blocks| && |d'.inodes| == |d.inodes| && d'.start == d.start && |d'.bits| == |d.bits|
    requires forall j, t :: 0 <= j < |d.inodes| && 0 <= t <= INDIRECT ==>
               Ptr(d', j, t) == if j == i then 0 else Ptr(d, j, t)
    requires forall b :: 0 <= b < |d.bits| ==> d'.bits[b] == (d.bits[b] && b !in own)
    ensures Owned(d', owner - own)
  {
    hide Ptr;
    forall b | b in owner - own ensures Ptr(d', owner[b].inum, owner[b].slot) == b {
      assert Ptr(d, owner[b].inum, owner[b].slot) == b;
    }
  }

  lemma BlocksOfMeaning(d: Disk, owner: Owner, i: nat)
    requires Shaped(d) && Owned(d, owner) && i < |d.inodes|
    ensures forall b :: b in BlocksOf(d, i) <==> b in owner && owner[b].inum == i
  {
    forall b | b in owner && owner[b].inum == i ensures b in BlocksOf(d, i) {
      assert Ptr(d, i, owner[b].slot) == b;
    }
  }

  /** A file that is empty and has no blocks. */
  lemma EmptyFile(d: Disk, i: nat)
    requires Shaped(d) && i < |d.inodes| && d.inodes[i].size == 0
    requires forall t :: 0 <= t <= INDIRECT ==> Ptr(d, i, t) == 0
    ensures Exact(d, i) && TailIsZero(d, i) && Content(d, i) == []
  {
    hide Ptr;
  }

  /** A file whose size, pointers and blocks are as before. */
  lemma SameFile(d: Disk, d': Disk, j: nat)
    requires Shaped(d) && Shaped(d') && j < |d.inodes| == |d'.inodes| && |d.blocks| == |d'.blocks|
    requires Exact(d, j) && TailIsZero(d, j) && d'.inodes[j].size == d.inodes[j].size
    requires forall t :: 0 <= t <= INDIRECT ==> Ptr(d', j, t) == Ptr(d, j, t)
    requires forall s :: 0 <= s < MAXFILE && Ptr(d, j, s) != 0 ==>
               Ptr(d, j, s) < |d.blocks| && d'.blocks[Ptr(d, j, s)] == d.blocks[Ptr(d, j, s)]
    ensures Exact(d', j) && TailIsZero(d', j) && Content(d', j) == Content(d, j)
  {
    hide Ptr, Content;
    ContentFrame(d, d', j);
  }

  /** The blocks of another file are not written. */
  lemma OtherBlocks(d: Disk, owner: Owner, i: nat, j: nat)
    requires Shaped(d) && Owned(d, owner) && i < |d.inodes| && j < |d.inodes| && j != i
    ensures forall s :: 0 <= s < MAXFILE && Ptr(d, j, s) != 0 ==>
              Ptr(d, j, s) < |d.blocks| && Truncated(d, i).blocks[Ptr(d, j, s)] == d.blocks[Ptr(d, j, s)]
  {
    hide Owned, Ptr, BlocksOf;
    forall s: nat | s < MAXFILE && Ptr(d, j, s) != 0
      ensures Ptr(d, j, s) < |d.blocks| && Truncated(d, i).blocks[Ptr(d, j, s)] == d.blocks[Ptr(d, j, s)]
    {
      NotOf(d, owner, i, j, s);
    }
  }

  lemma TruncatedShape(d: Disk, i: nat, j: nat)
    requires Shaped(d) && i < |d.inodes| && j < |d.inodes|
    ensures var d' := Truncated(d, i);
            && |d'.inodes| == |d.inodes| && |d'.blocks| == |d.blocks|
            && d'.inodes[j] == if j == i then Inode(d.inodes[i].kind, d.inodes[i].nlink, 0, NO_ADDRS) else d.inodes[j]
  {
    hide BlocksOf;
  }

  lemma TruncatedFiles(d: Disk, owner: Owner, i: nat, j: nat)
    requires Sound(d, owner) && i < |d.inodes| && j < |d.inodes|
    ensures Shaped(Truncated(d, i)) && Exact(Truncated(d, i), j) && TailIsZero(Truncated(d, i), j)
    ensures Content(Truncated(d, i), j) == if j == i then [] else Content(d, j)
  {
    hide Sound, Ptr, Owned, FreeIsZero, Exact, TailIsZero, Content, Truncated;
    SoundParts(d, owner, j);
    TruncatedPointers(d, owner, i);
    TruncatedShape(d, i, j);
    if j == i {
      EmptyFile(Truncated(d, i), i);
    } else {
      OtherBlocks(d, owner, i, j);
      SameFile(d, Truncated(d, i), j);
    }
  }

  /** itrunc keeps the invariant, empties the file, gives back exactly its blocks, and touches no other file. */
  lemma TruncatedSound(d: Disk, owner: Owner, i: nat)
    requires Sound(d, owner) && i < |d.inodes|
    ensures Sound(Truncated(d, i), owner - BlocksOf(d, i))
    ensures Content(Truncated(d, i), i) == [] && OthersSame(d, Truncated(d, i), i)
    ensures FreeSet(Truncated(d, i)) == FreeSet(d) + BlocksOf(d, i)
    ensures Truncated(d, i).inodes[i] == Inode(d.inodes[i].kind, d.inodes[i].nlink, 0, NO_ADDRS)
  {
    hide Exact, TailIsZero, Content, Owned, FreeIsZero, Ptr, BlocksOf, Truncated;
    SoundParts(d, owner, i);
    TruncatedOwned(d, owner, i);
    TruncatedFree(d, owner, i);
    TruncatedShape(d, i, i);
    forall j | 0 <= j < |d.inodes|
      ensures Exact(Truncated(d, i), j) && TailIsZero(Truncated(d, i), j)
      ensures Content(Truncated(d, i), j) == if j == i then [] else Content(d, j)
      ensures j != i ==> Truncated(d, i).inodes[j] == d.inodes[j]
    {
      TruncatedFiles(d, owner, i, j);
      TruncatedShape(d, i, j);
    }
  }

  lemma TruncatedFree(d: Disk, owner: Owner, i: nat)
    requires Shaped(d) && Owned(d, owner) && i < |d.inodes| && Shaped(Truncated(d, i))
    ensures FreeSet(Truncated(d, i)) == FreeSet(d) + BlocksOf(d, i)
  {
    hide Owned, Ptr, BlocksOf;
    BlocksOfInside(d, owner, i);
  }

  lemma BlocksOfInside(d: Disk, owner: Owner, i: nat)
    requires Shaped(d) && Owned(d, owner) && i < |d.inodes|
    ensures forall b :: b in BlocksOf(d, i) ==> b < |d.blocks|
  {
  }

  // ------------------------------------------------------------------ one slot at a time

  /** The blocks in the first k slots of inode i. */
  ghost function BlocksBelow(d: Disk, i: nat, k: nat): set<nat>
    requires Shaped(d) && i < |d.inodes| && k <= INDIRECT + 1
  {
    set s: nat | s < k && Ptr(d, i, s) != 0 :: Ptr(d, i, s)
  }

  /** Freeing the block of slot k: its bit is still set, so bfree does not find it free already. */
  lemma FreeSlot(d: Disk, owner: Owner, i: nat, k: nat)
    requires Sound(d, owner) && i < |d.inodes| && k <= INDIRECT
    ensures var b, x := Ptr(d, i, k), Freed(d, BlocksBelow(d, i, k));
            if b == 0 then Freed(d, BlocksBelow(d, i, k + 1)) == x
            else b < |d.blocks| <= |d.bits| && x.bits[b] && x.blocks[b] == d.blocks[b] &&
                 Freed(d, BlocksBelow(d, i, k + 1))
                     == x.(bits := x.bits[b := false], blocks := x.blocks[b := ZERO_BLOCK])
  {
    SoundParts(d, owner, i);
    var b := Ptr(d, i, k);
    if b == 0 {
      assert BlocksBelow(d, i, k + 1) == BlocksBelow(d, i, k);
    } else {
      PointersDistinct(d, owner, i, k, i, k);
      forall s: nat | s < k && Ptr(d, i, s) != 0 ensures Ptr(d, i, s) != b {
        PointersDistinct(d, owner, i, s, i, k);
      }
      assert BlocksBelow(d, i, k + 1) == BlocksBelow(d, i, k) + {b};
      FreedOneMore(d, BlocksBelow(d, i, k), b);
    }
  }

  /** The indirect block survives until its entries have been freed. */
  lemma IndirectKept(d: Disk, owner: Owner, i: nat, k: nat)
    requires Sound(d, owner) && i < |d.inodes| && k <= INDIRECT && Ptr(d, i, INDIRECT) != 0
    ensures Ptr(d, i, INDIRECT) < |d.blocks|
    ensures Freed(d, BlocksBelow(d, i, k)).blocks[Ptr(d, i, INDIRECT)] == d.blocks[Ptr(d, i, INDIRECT)]
  {
    SoundParts(d, owner, i);
    PointersDistinct(d, owner, i, INDIRECT, i, INDIRECT);
    forall s: nat | s < k && Ptr(d, i, s) != 0 ensures Ptr(d, i, s) != Ptr(d, i, INDIRECT) {
      PointersDistinct(d, owner, i, s, i, INDIRECT);
    }
  }

  lemma NoIndirect(d: Disk, i: nat)
    requires Shaped(d) && i < |d.inodes| && Ptr(d, i, INDIRECT) == 0
    ensures BlocksBelow(d, i, INDIRECT + 1) == BlocksBelow(d, i, NDIRECT)
  {
  }

  lemma AllBelow(d: Disk, i: nat)
    requires Shaped(d) && i < |d.inodes|
    ensures BlocksBelow(d, i, INDIRECT + 1) == BlocksOf(d, i) && BlocksBelow(d, i, 0) == {}
  {
  }
}
