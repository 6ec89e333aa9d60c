/** The disk of the file system (p2b/kernel/fs.c) and the invariants that its code relies on.

    `bits` is the bitmap (true: in use), `inodes` the inode blocks, `blocks` the raw blocks.  Block
    numbers below `start` hold the superblock, the inodes and the bitmap. */
module FsDisk {
  import opened Basics
  import opened FsBlock

  const NDIRECT := 12
  const MAXFILE := 140     // NDIRECT + NINDIRECT
  const INDIRECT := 140    // the slot of the indirect block itself
  const BPB := 4096        // bitmap bits in a block

  datatype Inode = Inode(kind: int, nlink: int, size: nat, addrs: seq<nat>)

  datatype Disk = Disk(start: nat, bits: seq<bool>, inodes: seq<Inode>, blocks: seq<Block>)

  ghost predicate Shaped(d: Disk) {
    && 0 < d.start <= |d.blocks| <= |d.bits| && |d.blocks| <= UINT
    && |d.bits| % BPB == 0 && |d.bits| < |d.blocks| + BPB
    && forall i :: 0 <= i < |d.inodes| ==> |d.inodes[i].addrs| == NDIRECT + 1
  }

  /** The block in slot s of an inode: slots 0 to 139 are the data blocks, slot 140 the indirect block; 0 is none. */
  function Slot(blocks: seq<Block>, ip: Inode, s: nat): nat
    requires |ip.addrs| == NDIRECT + 1 && s <= INDIRECT
  {
    if s < NDIRECT then ip.addrs[s]
    else if s == INDIRECT then ip.addrs[NDIRECT]
    else if ip.addrs[NDIRECT] == 0 || ip.addrs[NDIRECT] >= |blocks| then 0
    else Word(blocks[ip.addrs[NDIRECT]], s - NDIRECT)
  }

  function Ptr(d: Disk, i: nat, s: nat): nat
    requires Shaped(d) && i < |d.inodes| && s <= INDIRECT
  {
    Slot(d.blocks, d.inodes[i], s)
  }

  /** Where a block is used: by slot `slot` of inode `inum`. */
  datatype Place = Place(inum: nat, slot: nat)

  type Owner = map<nat, Place>

  predicate ValidPlace(d: Disk, p: Place) {
    p.inum < |d.inodes| && p.slot <= INDIRECT
  }

  /** Every block pointer is in the owner map, which therefore makes them pairwise distinct, and the blocks in
      the owner map are the ones that the bitmap marks in use. */
  ghost predicate Owned(d: Disk, owner: Owner)
    requires Shaped(d)
  {
    && (forall i, s :: 0 <= i < |d.inodes| && 0 <= s <= INDIRECT && Ptr(d, i, s) != 0 ==>
          Ptr(d, i, s) in owner && owner[Ptr(d, i, s)] == Place(i, s))
    && (forall b :: b in owner ==> d.start <= b < |d.blocks| && ValidPlace(d, owner[b])
                                   && Ptr(d, owner[b].inum, owner[b].slot) == b)
    && (forall b :: 0 <= b < |d.blocks| ==> (d.bits[b] <==> b < d.start || b in owner))
  }

  /** Blocks that are not in use are all zero. */
  ghost predicate FreeIsZero(d: Disk)
    requires Shaped(d)
  {
    forall b :: d.start <= b < |d.blocks| && !d.bits[b] ==> d.blocks[b] == ZERO_BLOCK
  }

  /** An inode has exactly the blocks that its size needs. */
  ghost predicate Exact(d: Disk, i: nat)
    requires Shaped(d) && i < |d.inodes|
  {
    && d.inodes[i].size <= MAXFILE * BSIZE
    && (forall s :: 0 <= s < MAXFILE ==> (Ptr(d, i, s) != 0 <==> s * BSIZE < d.inodes[i].size))
    && (Ptr(d, i, INDIRECT) != 0 <==> NDIRECT * BSIZE < d.inodes[i].size)
  }

  /** The bytes behind the end of a file in its last block are zero. */
  ghost predicate TailIsZero(d: Disk, i: nat)
    requires Shaped(d) && i < |d.inodes|
  {
    forall s, k :: 0 <= s < MAXFILE && 0 < Ptr(d, i, s) < |d.blocks| &&
                   0 <= k < BSIZE && d.inodes[i].size <= s * BSIZE + k ==>
      d.blocks[Ptr(d, i, s)][k] == 0
  }

  ghost predicate FilesOk(d: Disk)
    requires Shaped(d)
  {
    forall i :: 0 <= i < |d.inodes| ==> Exact(d, i) && TailIsZero(d, i)
  }

  /** The invariant between system calls. */
  ghost predicate Sound(d: Disk, owner: Owner) {
    Shaped(d) && Owned(d, owner) && FreeIsZero(d) && FilesOk(d)
  }

  // ------------------------------------------------------------------ what the invariant says

  /** No block is used twice, and every used block is marked in the bitmap. */
  lemma PointersDistinct(d: Disk, owner: Owner, i: nat, s: nat, j: nat, t: nat)
    requires Shaped(d) && Owned(d, owner) && ValidPlace(d, Place(i, s)) && ValidPlace(d, Place(j, t))
    requires Ptr(d, i, s) != 0
    ensures d.start <= Ptr(d, i, s) < |d.blocks| && d.bits[Ptr(d, i, s)]
    ensures Ptr(d, i, s) == Ptr(d, j, t) ==> i == j && s == t
  {
  }

  /** The content of a file: byte k is byte k % 512 of data block k / 512. */
  ghost function ByteAt(d: Disk, i: nat, k: nat): byte
    requires Shaped(d) && i < |d.inodes|
  {
    if k / BSIZE < MAXFILE && Ptr(d, i, k / BSIZE) < |d.blocks| then d.blocks[Ptr(d, i, k / BSIZE)][k % BSIZE] else 0
  }

  ghost function Content(d: Disk, i: nat): (c: seq<byte>)
    requires Shaped(d) && i < |d.inodes|
    ensures |c| == d.inodes[i].size
    ensures forall k :: 0 <= k < |c| ==> c[k] == ByteAt(d, i, k)
  {
    seq(d.inodes[i].size, (k: nat) requires k < d.inodes[i].size => ByteAt(d, i, k))
  }

  /** A file whose slots and data blocks below its size did not change has the same content. */
  lemma ContentFrame(d: Disk, d': Disk, j: nat)
    requires Shaped(d) && Shaped(d') && j < |d.inodes| == |d'.inodes|
    requires d.inodes[j].size == d'.inodes[j].size <= MAXFILE * BSIZE && |d.blocks| == |d'.blocks|
    requires forall s :: 0 <= s < MAXFILE && s * BSIZE < d.inodes[j].size ==>
               Ptr(d', j, s) == Ptr(d, j, s) < |d.blocks| && d'.blocks[Ptr(d, j, s)] == d.blocks[Ptr(d, j, s)]
    ensures Content(d', j) == Content(d, j)
  {
    forall k | 0 <= k < d.inodes[j].size ensures ByteAt(d', j, k) == ByteAt(d, j, k) {
      var s := k / BSIZE;
      assert 0 <= s < MAXFILE && s * BSIZE < d.inodes[j].size;
      assert Ptr(d', j, s) == Ptr(d, j, s);
    }
  }

  // ------------------------------------------------------------------ giving a free block to a slot

  ghost predicate Unused(d: Disk, b: nat)
    requires Shaped(d)
  {
    d.start <= b < |d.blocks| && !d.bits[b]
  }

  /** From d to d', block b went to the empty slot (i, s) and nothing else about pointers and free blocks changed. */
  ghost predicate Attached(d: Disk, d': Disk, i: nat, s: nat, b: nat)
    requires Shaped(d) && Shaped(d') && ValidPlace(d, Place(i, s))
  {
    && d'.start == d.start && |d'.inodes| == |d.inodes| && |d'.blocks| == |d.blocks| && b < |d.bits|
    && d'.bits == d.bits[b := true]
    && (forall j, t :: 0 <= j < |d.inodes| && 0 <= t <= INDIRECT ==>
          Ptr(d', j, t) == if j == i && t == s then b else Ptr(d, j, t))
    && (forall c :: 0 <= c < |d.blocks| && !d.bits[c] ==> d'.blocks[c] == d.blocks[c])
  }

  lemma AttachKeepsOwned(d: Disk, d': Disk, owner: Owner, i: nat, s: nat, b: nat)
    requires Shaped(d) && Shaped(d') && Owned(d, owner) && ValidPlace(d, Place(i, s))
    requires Unused(d, b) && Ptr(d, i, s) == 0 && Attached(d, d', i, s, b)
    ensures Owned(d', owner[b := Place(i, s)])
  {
    var owner' := owner[b := Place(i, s)];
    hide Ptr;
    forall c | c in owner'
      ensures d'.start <= c < |d'.blocks| && ValidPlace(d', owner'[c]) && Ptr(d', owner'[c].inum, owner'[c].slot) == c
    {
      if c != b {
        assert Ptr(d, owner[c].inum, owner[c].slot) == c;
      }
    }
  }

  lemma AttachKeepsFree(d: Disk, d': Disk, i: nat, s: nat, b: nat)
    requires Shaped(d) && Shaped(d') && FreeIsZero(d) && ValidPlace(d, Place(i, s)) && Attached(d, d', i, s, b)
    ensures FreeIsZero(d')
  {
    hide Ptr;
  }

  /** ip->addrs[k] = b, for a direct slot. */
  function WithDirect(d: Disk, i: nat, s: nat, b: nat): Disk
    requires Shaped(d) && i < |d.inodes| && s < NDIRECT && b < |d.bits|
  {
    d.(bits := d.bits[b := true], inodes := d.inodes[i := d.inodes[i].(addrs := d.inodes[i].addrs[s := b])])
  }

  lemma AttachDirect(d: Disk, i: nat, s: nat, b: nat)
    requires Shaped(d) && i < |d.inodes| && s < NDIRECT && b < |d.bits|
    ensures Shaped(WithDirect(d, i, s, b)) && Attached(d, WithDirect(d, i, s, b), i, s, b)
  {
  }

  /** ip->addrs[NDIRECT] = b, for a block of zeros. */
  function WithIndirect(d: Disk, i: nat, b: nat): Disk
    requires Shaped(d) && i < |d.inodes| && b < |d.bits|
  {
    d.(bits := d.bits[b := true], inodes := d.inodes[i := d.inodes[i].(addrs := d.inodes[i].addrs[NDIRECT := b])])
  }

  /** A fresh indirect block holds no stale pointers, because free blocks are zero. */
  lemma AttachIndirect(d: Disk, i: nat, b: nat)
    requires Shaped(d) && i < |d.inodes| && b < |d.blocks| && d.blocks[b] == ZERO_BLOCK
    requires d.inodes[i].addrs[NDIRECT] == 0
    ensures Shaped(WithIndirect(d, i, b)) && Attached(d, WithIndirect(d, i, b), i, INDIRECT, b)
  {
    var d' := WithIndirect(d, i, b);
    forall j, t | 0 <= j < |d.inodes| && 0 <= t <= INDIRECT
      ensures Ptr(d', j, t) == if j == i && t == INDIRECT then b else Ptr(d, j, t)
    {
      if j == i && NDIRECT <= t < INDIRECT {
        ZeroWord(t - NDIRECT);
      }
    }
  }

  /** a[s - NDIRECT] = b, in the indirect block. */
  function WithEntry(d: Disk, i: nat, s: nat, b: nat): Disk
    requires Shaped(d) && i < |d.inodes| && NDIRECT <= s < INDIRECT && b < |d.blocks|
    requires d.inodes[i].addrs[NDIRECT] < |d.blocks|
  {
    var a := d.inodes[i].addrs[NDIRECT];
    d.(bits := d.bits[b := true], blocks := d.blocks[a := SetWord(d.blocks[a], s - NDIRECT, b)])
  }

  lemma AttachEntry(d: Disk, owner: Owner, i: nat, s: nat, b: nat)
    requires Shaped(d) && Owned(d, owner) && i < |d.inodes| && NDIRECT <= s < INDIRECT && Unused(d, b)
    requires Ptr(d, i, INDIRECT) != 0
    ensures d.inodes[i].addrs[NDIRECT] < |d.blocks|
    ensures Shaped(WithEntry(d, i, s, b)) && Attached(d, WithEntry(d, i, s, b), i, s, b)
  {
    PointersDistinct(d, owner, i, INDIRECT, i, INDIRECT);
    var d', a := WithEntry(d, i, s, b), d.inodes[i].addrs[NDIRECT];
    forall j, t | 0 <= j < |d.inodes| && 0 <= t <= INDIRECT
      ensures Ptr(d', j, t) == if j == i && t == s then b else Ptr(d, j, t)
    {
      if NDIRECT <= t < INDIRECT && Ptr(d, j, INDIRECT) != 0 {
        PointersDistinct(d, owner, j, INDIRECT, i, INDIRECT);
        if j == i { WordOfSetWord(d.blocks[a], s - NDIRECT, b, t - NDIRECT); }
      }
    }
  }
}
