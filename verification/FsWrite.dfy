/** One iteration of writei's loop (p2b/kernel/fs.c:438-444) as a step on the disk: the invariant survives
    it, and the file's content changes by exactly the bytes written. */
module FsWrite {
  import opened Basics
  import opened FsBlock
  import opened FsDisk
  import opened FsMap

  /** c with the bytes from off on replaced by w, extended if w reaches past the end. */
  function Splice(c: seq<byte>, off: nat, w: seq<byte>): (r: seq<byte>)
    requires off <= |c|
    ensures |r| == if off + |w| > |c| then off + |w| else |c|
    ensures forall k :: 0 <= k < |r| ==> r[k] == if off <= k < off + |w| then w[k - off] else c[k]
  {
    c[..off] + w + if off + |w| < |c| then c[off + |w|..] else []
  }

  lemma SpliceTwice(c: seq<byte>, off: nat, v: seq<byte>, w: seq<byte>)
    requires off <= |c|
    ensures Splice(Splice(c, off, v), off + |v|, w) == Splice(c, off, v + w)
  {
  }

  lemma SpliceNothing(c: seq<byte>, off: nat)
    requires off <= |c|
    ensures Splice(c, off, []) == c
  {
  }

  /** A piece that lies within one block, at or before the end of the file. */
  ghost predicate Piece(d: Disk, i: nat, off: nat, w: seq<byte>)
    requires Shaped(d) && i < |d.inodes|
  {
    off <= d.inodes[i].size && 0 < |w| && off % BSIZE + |w| <= BSIZE && off / BSIZE < MAXFILE
  }

  /** The disk d1 with the piece stored in its block, and the size raised if the piece ends behind it. */
  function Stored(d1: Disk, i: nat, off: nat, w: seq<byte>): Disk
    requires Shaped(d1) && i < |d1.inodes| && off / BSIZE < MAXFILE && off % BSIZE + |w| <= BSIZE
  {
    var p := Ptr(d1, i, off / BSIZE);
    var ip := d1.inodes[i];
    if p >= |d1.blocks| then d1 else
    d1.(blocks := d1.blocks[p := Patch(d1.blocks[p], off % BSIZE, w)],
        inodes := d1.inodes[i := ip.(size := if off + |w| > ip.size then off + |w| else ip.size)])
  }

  /** Storing into a data block moves no pointer. */
  lemma StoredPointers(d1: Disk, owner: Owner, i: nat, off: nat, w: seq<byte>)
    requires Shaped(d1) && Owned(d1, owner) && i < |d1.inodes| && off / BSIZE < MAXFILE && off % BSIZE + |w| <= BSIZE
    requires Ptr(d1, i, off / BSIZE) != 0
    ensures Ptr(d1, i, off / BSIZE) < |d1.blocks|
    ensures var d2 := Stored(d1, i, off, w);
            Shaped(d2) && forall j, t :: 0 <= j < |d1.inodes| && 0 <= t <= INDIRECT ==> Ptr(d2, j, t) == Ptr(d1, j, t)
  {
    var bn := off / BSIZE;
    PointersDistinct(d1, owner, i, bn, i, bn);
    forall j | 0 <= j < |d1.inodes| ensures Ptr(d1, j, INDIRECT) != Ptr(d1, i, bn) {
      PointersDistinct(d1, owner, i, bn, j, INDIRECT);
    }
    hide Owned;
    var d2 := Stored(d1, i, off, w);
    forall j, t | 0 <= j < |d1.inodes| && 0 <= t <= INDIRECT ensures Ptr(d2, j, t) == Ptr(d1, j, t) {
      assert d2.inodes[j].addrs == d1.inodes[j].addrs;
      assert d1.inodes[j].addrs[NDIRECT] == Ptr(d1, j, INDIRECT);
    }
  }

  lemma StoredKeepsOwned(d1: Disk, owner: Owner, i: nat, off: nat, w: seq<byte>)
    requires Shaped(d1) && Owned(d1, owner) && FreeIsZero(d1) && i < |d1.inodes|
    requires off / BSIZE < MAXFILE && off % BSIZE + |w| <= BSIZE && Ptr(d1, i, off / BSIZE) != 0
    ensures Ptr(d1, i, off / BSIZE) < |d1.blocks|
    ensures var d2 := Stored(d1, i, off, w); Shaped(d2) && Owned(d2, owner) && FreeIsZero(d2)
  {
    StoredPointers(d1, owner, i, off, w);
    PointersDistinct(d1, owner, i, off / BSIZE, i, off / BSIZE);
    hide Ptr;
  }

  /** The inode written has exactly the blocks it needs. */
  lemma StoredExact(d: Disk, d1: Disk, d2: Disk, i: nat, off: nat, w: seq<byte>)
    requires Shaped(d) && Shaped(d1) && Shaped(d2) && i < |d.inodes| && Exact(d, i) && Piece(d, i, off, w)
    requires Extended(d, d1, i, off / BSIZE) && |d2.inodes| == |d1.inodes|
    requires forall t :: 0 <= t <= INDIRECT ==> Ptr(d2, i, t) == Ptr(d1, i, t)
    requires d2.inodes[i].size == if off + |w| > d.inodes[i].size then off + |w| else d.inodes[i].size
    ensures Exact(d2, i)
  {
    var bn, size, size2 := off / BSIZE, d.inodes[i].size, d2.inodes[i].size;
    SizeInBlocks(size, off, |w|);
    assert size2 <= (bn + 1) * BSIZE || size2 == size;
    assert forall j, t :: 0 <= j < |d.inodes| && 0 <= t <= INDIRECT ==>
          Ptr(d1, j, t) == Ptr(d, j, t) || (j == i && (t == bn || t == INDIRECT) && Ptr(d, j, t) == 0);
    forall s | 0 <= s < MAXFILE ensures Ptr(d2, i, s) != 0 <==> s * BSIZE < size2 {
      assert Ptr(d, i, s) != 0 <==> s * BSIZE < size;
      assert s == bn || Ptr(d1, i, s) == Ptr(d, i, s);
    }
  }

  lemma SizeInBlocks(size: nat, off: nat, n: nat)
    requires off <= size && 0 < n && off % BSIZE + n <= BSIZE
    ensures var bn, size2 := off / BSIZE, if off + n > size then off + n else size;
            && bn * BSIZE <= off < size2 && off + n <= (bn + 1) * BSIZE
            && forall s: nat :: s * BSIZE < size2 <==> s * BSIZE < size || s == bn
  {
    var bn, size2 := off / BSIZE, if off + n > size then off + n else size;
    forall s: nat ensures s * BSIZE < size2 <==> s * BSIZE < size || s == bn {
      if s < bn { assert (s + 1) * BSIZE <= bn * BSIZE; }
    }
  }

  /** Where the blocks of d ended up in d2 = Stored(d1, ...): only the block written differs. */
  lemma StoredBlocks(d: Disk, d1: Disk, owner1: Owner, i: nat, off: nat, w: seq<byte>, j: nat, s: nat)
    requires Shaped(d) && Shaped(d1) && Owned(d1, owner1) && i < |d.inodes| && j < |d.inodes| && s < MAXFILE
    requires off / BSIZE < MAXFILE && off % BSIZE + |w| <= BSIZE && Extended(d, d1, i, off / BSIZE)
    requires 0 < Ptr(d, j, s) < |d.blocks|
    ensures Ptr(d1, i, off / BSIZE) < |d1.blocks| && Ptr(d1, j, s) == Ptr(d, j, s)
    ensures j != i || s != off / BSIZE ==> Stored(d1, i, off, w).blocks[Ptr(d, j, s)] == d.blocks[Ptr(d, j, s)]
    ensures j == i && s == off / BSIZE ==>
              Stored(d1, i, off, w).blocks[Ptr(d, j, s)] == Patch(d.blocks[Ptr(d, j, s)], off % BSIZE, w)
  {
    var bn := off / BSIZE;
    PointersDistinct(d1, owner1, i, bn, i, bn);
    assert Ptr(d1, j, s) == Ptr(d, j, s);
    assert d1.blocks[Ptr(d, j, s)] == d.blocks[Ptr(d, j, s)];
    PointersDistinct(d1, owner1, i, bn, j, s);
  }

  /** The block written when it was not there before: zeros with the piece at the front. */
  lemma StoredFresh(d: Disk, d1: Disk, i: nat, off: nat, w: seq<byte>)
    requires Shaped(d) && Shaped(d1) && i < |d.inodes| && off / BSIZE < MAXFILE && off % BSIZE + |w| <= BSIZE
    requires Extended(d, d1, i, off / BSIZE) && Ptr(d, i, off / BSIZE) == 0
    ensures var p := Ptr(d1, i, off / BSIZE);
            p < |d1.blocks| && Stored(d1, i, off, w).blocks[p] == Patch(ZERO_BLOCK, off % BSIZE, w)
  {
  }

  /** Other files keep their inode, their blocks and their tails. */
  lemma StoredOthers(d: Disk, d1: Disk, owner1: Owner, i: nat, off: nat, w: seq<byte>, j: nat)
    requires Shaped(d) && Shaped(d1) && Owned(d1, owner1) && i < |d.inodes| && j < |d.inodes| && j != i
    requires Exact(d, j) && TailIsZero(d, j)
    requires off / BSIZE < MAXFILE && off % BSIZE + |w| <= BSIZE && Extended(d, d1, i, off / BSIZE)
    ensures Ptr(d1, i, off / BSIZE) < |d1.blocks|
    ensures var d2 := Stored(d1, i, off, w);
            Shaped(d2) && d2.inodes[j] == d.inodes[j] && Exact(d2, j) && TailIsZero(d2, j)
                && Content(d2, j) == Content(d, j)
  {
    hide Owned, Content;
    StoredPointers(d1, owner1, i, off, w);
    var d2 := Stored(d1, i, off, w);
    forall t | 0 <= t <= INDIRECT ensures Ptr(d2, j, t) == Ptr(d, j, t) {
      assert Ptr(d1, j, t) == Ptr(d, j, t);
    }
    forall s | 0 <= s < MAXFILE && 0 < Ptr(d, j, s) < |d.blocks|
      ensures d2.blocks[Ptr(d, j, s)] == d.blocks[Ptr(d, j, s)]
    {
      StoredBlocks(d, d1, owner1, i, off, w, j, s);
    }
    forall s | 0 <= s < MAXFILE && Ptr(d, j, s) != 0 ensures Ptr(d, j, s) < |d.blocks| {
      PointersDistinct(d1, owner1, j, s, j, s);
    }
    hide Ptr, Extended, Owned, Stored;
    ContentFrame(d, d2, j);
  }

  lemma StoredTail(d: Disk, d1: Disk, owner1: Owner, i: nat, off: nat, w: seq<byte>)
    requires Shaped(d) && Shaped(d1) && Owned(d1, owner1) && i < |d.inodes|
    requires TailIsZero(d, i) && Piece(d, i, off, w) && Extended(d, d1, i, off / BSIZE)
    ensures Ptr(d1, i, off / BSIZE) < |d1.blocks|
    ensures var d2 := Stored(d1, i, off, w); Shaped(d2) && TailIsZero(d2, i)
  {
    StoredPointers(d1, owner1, i, off, w);
    var d2, bn := Stored(d1, i, off, w), off / BSIZE;
    forall s, k | 0 <= s < MAXFILE && 0 < Ptr(d2, i, s) < |d2.blocks| && 0 <= k < BSIZE
        && d2.inodes[i].size <= s * BSIZE + k
      ensures d2.blocks[Ptr(d2, i, s)][k] == 0
    {
      assert Ptr(d1, i, s) == Ptr(d2, i, s);
      if Ptr(d, i, s) != 0 {
        assert Ptr(d1, i, s) == Ptr(d, i, s);
        StoredBlocks(d, d1, owner1, i, off, w, i, s);
      } else {
        assert s == bn;
        StoredFresh(d, d1, i, off, w);
      }
    }
  }

  lemma StoredByte(d: Disk, d1: Disk, owner1: Owner, i: nat, off: nat, w: seq<byte>, k: nat)
    requires Shaped(d) && Shaped(d1) && Owned(d1, owner1) && i < |d.inodes|
    requires Exact(d, i) && Piece(d, i, off, w) && Extended(d, d1, i, off / BSIZE)
    requires k < off + |w| || k < d.inodes[i].size
    ensures Ptr(d1, i, off / BSIZE) < |d1.blocks|
    ensures var d2 := Stored(d1, i, off, w);
            Shaped(d2) && ByteAt(d2, i, k) == if off <= k < off + |w| then w[k - off] else ByteAt(d, i, k)
  {
    StoredPointers(d1, owner1, i, off, w);
    SizeInBlocks(d.inodes[i].size, off, |w|);
    var s, bn := k / BSIZE, off / BSIZE;
    hide Owned;
    if s * BSIZE < d.inodes[i].size {
      assert Ptr(d, i, s) != 0 && s < MAXFILE;
      assert Ptr(d1, i, s) == Ptr(d, i, s);
      PointersDistinct(d1, owner1, i, s, i, s);
      StoredBlocks(d, d1, owner1, i, off, w, i, s);
    } else {
      assert s == bn;
      StoredFresh(d, d1, i, off, w);
    }
  }

  lemma StoredContent(d: Disk, d1: Disk, owner1: Owner, i: nat, off: nat, w: seq<byte>)
    requires Shaped(d) && Shaped(d1) && Owned(d1, owner1) && i < |d.inodes|
    requires Exact(d, i) && Piece(d, i, off, w) && Extended(d, d1, i, off / BSIZE)
    ensures Ptr(d1, i, off / BSIZE) < |d1.blocks|
    ensures var d2 := Stored(d1, i, off, w);
            Shaped(d2) && Content(d2, i) == Splice(Content(d, i), off, w)
  {
    StoredPointers(d1, owner1, i, off, w);
    var d2 := Stored(d1, i, off, w);
    assert d2.inodes[i].size == if off + |w| > d.inodes[i].size then off + |w| else d.inodes[i].size;
    hide ByteAt, Ptr, Stored, Owned, Exact, Extended;
    var c, c2 := Splice(Content(d, i), off, w), Content(d2, i);
    forall k | 0 <= k < |c2| ensures c2[k] == c[k] {
      StoredByte(d, d1, owner1, i, off, w, k);
    }
  }

  /** From d to d2, file i received w at off; its type and link count, and all other files, stayed the same. */
  ghost predicate Wrote(d: Disk, d2: Disk, i: nat, off: nat, w: seq<byte>)
    requires Shaped(d) && i < |d.inodes| && off <= d.inodes[i].size
  {
    && Shaped(d2) && |d2.inodes| == |d.inodes|
    && d2.inodes[i].kind == d.inodes[i].kind && d2.inodes[i].nlink == d.inodes[i].nlink
    && Content(d2, i) == Splice(Content(d, i), off, w)
    && OthersSame(d, d2, i)
  }

  ghost predicate OthersSame(d: Disk, d2: Disk, i: nat)
    requires Shaped(d) && Shaped(d2) && |d2.inodes| == |d.inodes|
  {
    forall j :: 0 <= j < |d.inodes| && j != i ==> d2.inodes[j] == d.inodes[j] && Content(d2, j) == Content(d, j)
  }

  /** One iteration: the piece is stored, the invariant holds, and no other file is affected. */
  lemma PieceSound(d: Disk, owner: Owner, d1: Disk, owner1: Owner, i: nat, off: nat, w: seq<byte>)
    requires Sound(d, owner) && i < |d.inodes| && Piece(d, i, off, w)
    requires Shaped(d1) && Owned(d1, owner1) && FreeIsZero(d1) && Extended(d, d1, i, off / BSIZE)
    ensures Ptr(d1, i, off / BSIZE) < |d1.blocks|
    ensures Sound(Stored(d1, i, off, w), owner1) && Wrote(d, Stored(d1, i, off, w), i, off, w)
    ensures FreeSet(Stored(d1, i, off, w)) == FreeSet(d1)
  {
    StoredKeepsOwned(d1, owner1, i, off, w);
    var d2 := Stored(d1, i, off, w);
    assert FreeSet(d2) == FreeSet(d1);
    StoredFilesOk(d, d1, owner1, i, off, w);
    hide Ptr, Owned, FreeIsZero, FilesOk, Wrote, Stored;
  }

  lemma StoredKinds(d: Disk, d1: Disk, i: nat, off: nat, w: seq<byte>)
    requires Shaped(d) && Shaped(d1) && i < |d.inodes| && Piece(d, i, off, w) && Extended(d, d1, i, off / BSIZE)
    requires Ptr(d1, i, off / BSIZE) < |d1.blocks|
    ensures var d2 := Stored(d1, i, off, w);
            |d2.inodes| == |d.inodes| && d2.inodes[i].kind == d.inodes[i].kind
                && d2.inodes[i].nlink == d.inodes[i].nlink
  {
  }

  lemma StoredFilesOk(d: Disk, d1: Disk, owner1: Owner, i: nat, off: nat, w: seq<byte>)
    requires Shaped(d) && FilesOk(d) && i < |d.inodes| && Piece(d, i, off, w)
    requires Shaped(d1) && Owned(d1, owner1) && Extended(d, d1, i, off / BSIZE)
    ensures Ptr(d1, i, off / BSIZE) < |d1.blocks|
    ensures var d2 := Stored(d1, i, off, w); Shaped(d2) && FilesOk(d2) && Wrote(d, d2, i, off, w)
  {
    hide Owned, Exact, TailIsZero, Content, Ptr;
    StoredPointers(d1, owner1, i, off, w);
    StoredKinds(d, d1, i, off, w);
    hide Stored;
    var d2 := Stored(d1, i, off, w);
    assert Exact(d, i) && TailIsZero(d, i);
    StoredExact(d, d1, d2, i, off, w);
    StoredTail(d, d1, owner1, i, off, w);
    StoredContent(d, d1, owner1, i, off, w);
    forall j | 0 <= j < |d.inodes| && j != i
      ensures d2.inodes[j] == d.inodes[j] && Exact(d2, j) && TailIsZero(d2, j) && Content(d2, j) == Content(d, j)
    {
      StoredOthers(d, d1, owner1, i, off, w, j);
    }
  }

  // ------------------------------------------------------------------ the whole loop, on values

  /** The blocks that a file of s bytes needs, its indirect block included. */
  function BlocksFor(s: nat): nat {
    (s + BSIZE - 1) / BSIZE + if s > NDIRECT * BSIZE then 1 else 0
  }

  /** As many blocks as it takes to hold the bytes, and one more beyond the twelve direct ones. */
  lemma BlocksForMeaning(s: nat)
    ensures var n := if s > 12 * 512 then BlocksFor(s) - 1 else BlocksFor(s);
            s <= n * 512 && (n > 0 ==> (n - 1) * 512 < s)
  {
  }

  lemma BlocksForGrows(s: nat, t: nat)
    requires s <= t
    ensures BlocksFor(s) <= BlocksFor(t)
  {
  }

  /** bmap allocates what the growth of the file needs, and nothing when the file does not grow. */
  lemma MissingIsGrowth(d: Disk, i: nat, off: nat, n: nat)
    requires Shaped(d) && i < |d.inodes| && Exact(d, i)
    requires off <= d.inodes[i].size && 0 < n && off % BSIZE + n <= BSIZE && off / BSIZE < MAXFILE
    ensures var size := d.inodes[i].size;
            var size2 := if off + n > size then off + n else size;
            BlocksFor(size2) == BlocksFor(size) + Missing(d, i, off / BSIZE)
    ensures Ptr(d, i, off / BSIZE) == 0 ==> off + n > d.inodes[i].size
  {
    var size, bn := d.inodes[i].size, off / BSIZE;
    SizeInBlocks(size, off, n);
    assert Ptr(d, i, bn) != 0 <==> bn * BSIZE < size;
    hide Exact, Ptr;
    if bn * BSIZE < size {
      if off + n > size { SameBlocks(size, off + n, bn); }
    } else {
      assert size == bn * BSIZE == off;
      NextBlock(bn, n);
    }
  }

  lemma SameBlocks(s: nat, t: nat, bn: nat)
    requires bn * BSIZE < s && bn * BSIZE < t && s <= (bn + 1) * BSIZE && t <= (bn + 1) * BSIZE
    ensures BlocksFor(s) == BlocksFor(t)
  {
  }

  lemma NextBlock(bn: nat, n: nat)
    requires 0 < n <= BSIZE
    ensures BlocksFor(bn * BSIZE + n) == BlocksFor(bn * BSIZE) + 1 + if bn == NDIRECT then 1 else 0
  {
  }

  lemma WroteTwice(d0: Disk, v: Disk, d2: Disk, i: nat, off: nat, done: seq<byte>, w: seq<byte>)
    requires Shaped(d0) && i < |d0.inodes| && off <= d0.inodes[i].size && Wrote(d0, v, i, off, done)
    requires off + |done| <= v.inodes[i].size && Wrote(v, d2, i, off + |done|, w)
    ensures Wrote(d0, d2, i, off, done + w)
  {
    SpliceTwice(Content(d0, i), off, done, w);
    hide Content;
  }

  function Max(a: nat, b: nat): nat {
    if a > b then a else b
  }

  lemma StoredInode(d1: Disk, i: nat, off: nat, w: seq<byte>)
    requires Shaped(d1) && i < |d1.inodes| && off / BSIZE < MAXFILE && off % BSIZE + |w| <= BSIZE
    requires Ptr(d1, i, off / BSIZE) < |d1.blocks|
    ensures var d2 := Stored(d1, i, off, w);
            |d2.inodes| == |d1.inodes| && d2.inodes[i].addrs == d1.inodes[i].addrs
            && d2.inodes[i].size == Max(off + |w|, d1.inodes[i].size)
  {
  }

  /** One iteration of writei, on values: bmap, then the piece w. */
  ghost function Iteration(v: Disk, i: nat, at: nat, w: seq<byte>): Option<Disk>
    requires Shaped(v) && i < |v.inodes| && at / BSIZE < MAXFILE && at % BSIZE + |w| <= BSIZE
  {
    match Bmap(v, i, at / BSIZE)
    case None => None
    case Some(d1) => Some(Stored(d1, i, at, w))
  }

  /** v grew into d2 at the cost of the blocks that the growth needs, and of none if it did not grow. */
  ghost predicate Grew(v: Disk, d2: Disk, i: nat)
    requires Shaped(v) && Shaped(d2) && i < |v.inodes| == |d2.inodes|
  {
    && |FreeSet(v)| + BlocksFor(v.inodes[i].size) == |FreeSet(d2)| + BlocksFor(d2.inodes[i].size)
    && (d2.inodes[i].size == v.inodes[i].size ==> d2.inodes[i].addrs == v.inodes[i].addrs)
    && v.inodes[i].size <= d2.inodes[i].size
  }

  /** The iteration is sound, and fails exactly when the growth needs more blocks than are free. */
  lemma {:induction false} IterationSound(v: Disk, owner: Owner, i: nat, at: nat, w: seq<byte>) returns (owner1: Owner)
    requires Sound(v, owner) && i < |v.inodes| && Piece(v, i, at, w)
    ensures match Iteration(v, i, at, w)
            case None => |FreeSet(v)| + BlocksFor(v.inodes[i].size) < BlocksFor(Max(at + |w|, v.inodes[i].size))
            case Some(d2) => Sound(d2, owner1) && Wrote(v, d2, i, at, w) && Grew(v, d2, i)
  {
    hide Sound, Exact, Owned, FreeIsZero, TailIsZero, Bmap, Missing, BlocksFor, Ptr, Wrote, Stored, Extended, Grew;
    SoundParts(v, owner, i);
    owner1 := BmapExtends(v, owner, i, at / BSIZE);
    MissingIsGrowth(v, i, at, |w|);
    if Bmap(v, i, at / BSIZE).Some? {
      PieceGrows(v, owner, Bmap(v, i, at / BSIZE).value, owner1, i, at, w);
    }
  }

  lemma {:induction false} PieceGrows(v: Disk, owner: Owner, d1: Disk, owner1: Owner, i: nat, at: nat, w: seq<byte>)
    requires Sound(v, owner) && i < |v.inodes| && Piece(v, i, at, w)
    requires Shaped(d1) && Owned(d1, owner1) && FreeIsZero(d1) && Extended(v, d1, i, at / BSIZE)
    requires |FreeSet(v)| == |FreeSet(d1)| + Missing(v, i, at / BSIZE)
    requires Ptr(v, i, at / BSIZE) != 0 ==> d1 == v
    ensures i < |d1.inodes| && var d2 := Stored(d1, i, at, w);
            Sound(d2, owner1) && Wrote(v, d2, i, at, w) && Grew(v, d2, i)
  {
    hide Sound, Exact, Owned, FreeIsZero, TailIsZero, Missing, BlocksFor, Ptr, Wrote, Stored, Extended, FreeSet;
    SoundParts(v, owner, i);
    MissingIsGrowth(v, i, at, |w|);
    PieceSound(v, owner, d1, owner1, i, at, w);
    ExtendedInode(v, d1, i, at / BSIZE);
    StoredInode(d1, i, at, w);
  }

  lemma SoundParts(d: Disk, owner: Owner, i: nat)
    requires Sound(d, owner) && i < |d.inodes|
    ensures Shaped(d) && Owned(d, owner) && FreeIsZero(d) && Exact(d, i) && TailIsZero(d, i)
  {
  }

  lemma ExtendedInode(d: Disk, d1: Disk, i: nat, bn: nat)
    requires Shaped(d) && Shaped(d1) && i < |d.inodes| && bn <= INDIRECT && Extended(d, d1, i, bn)
    ensures |d1.inodes| == |d.inodes| && d1.inodes[i].size == d.inodes[i].size
  {
  }

  /** There are too few free blocks for file i to reach `end`. */
  ghost predicate FallsShort(d: Disk, i: nat, end: nat)
    requires Shaped(d) && i < |d.inodes|
  {
    |FreeSet(d)| + BlocksFor(d.inodes[i].size) < BlocksFor(Max(end, d.inodes[i].size))
  }

  /** Space suffices exactly when the data blocks by which the file grows are free, and one more if it only now needs
      its indirect block. */
  lemma SpaceSuffices(d: Disk, i: nat, end: nat)
    requires Shaped(d) && i < |d.inodes|
    ensures var size := d.inodes[i].size;
            !FallsShort(d, i, end) <==>
            end <= size || (end + 511) / 512 - (size + 511) / 512
                           + (if size <= 12 * 512 < end then 1 else 0) <= |FreeSet(d)|
  {
    if end <= d.inodes[i].size {
      BlocksForGrows(end, d.inodes[i].size);
    }
  }

  lemma FallsShortLater(d: Disk, i: nat, e: nat, f: nat)
    requires Shaped(d) && i < |d.inodes| && e <= f && FallsShort(d, i, e)
    ensures FallsShort(d, i, f)
  {
    BlocksForGrows(Max(e, d.inodes[i].size), Max(f, d.inodes[i].size));
  }

  lemma WroteShape(d0: Disk, v: Disk, i: nat, off: nat, done: seq<byte>)
    requires Shaped(d0) && i < |d0.inodes| && off <= d0.inodes[i].size && Wrote(d0, v, i, off, done)
    ensures Shaped(v) && |v.inodes| == |d0.inodes|
  {
  }

  lemma WroteSize(d0: Disk, v: Disk, i: nat, off: nat, done: seq<byte>)
    requires Shaped(d0) && i < |d0.inodes| && off <= d0.inodes[i].size && Wrote(d0, v, i, off, done)
    ensures v.inodes[i].size == Max(off + |done|, d0.inodes[i].size)
  {
    assert |Content(v, i)| == v.inodes[i].size;
  }

  /** Between two iterations of writei: v is the disk with the inode as it is in memory, at the size that the
      bytes written so far give it; `done` has been written at off since d0. */
  ghost predicate Underway(d0: Disk, v: Disk, owner: Owner, i: nat, off: nat, done: seq<byte>)
    requires Shaped(d0) && i < |d0.inodes| && off <= d0.inodes[i].size
  {
    Sound(v, owner) && Wrote(d0, v, i, off, done) && Grew(d0, v, i)
  }

  lemma {:induction false} UnderwayInit(d0: Disk, owner: Owner, i: nat, off: nat)
    requires Sound(d0, owner) && i < |d0.inodes| && off <= d0.inodes[i].size
    ensures Underway(d0, d0, owner, i, off, [])
  {
    SpliceNothing(Content(d0, i), off);
  }

  lemma {:induction false} UnderwayStep(d0: Disk, v: Disk, owner: Owner, i: nat, off: nat, done: seq<byte>,
                                        w: seq<byte>)
    returns (owner1: Owner)
    requires Shaped(d0) && i < |d0.inodes| && off <= d0.inodes[i].size && Underway(d0, v, owner, i, off, done)
    requires 0 < |w| && (off + |done|) % BSIZE + |w| <= BSIZE && (off + |done|) / BSIZE < MAXFILE
    ensures match Iteration(v, i, off + |done|, w)
            case None => FallsShort(d0, i, off + |done| + |w|)
            case Some(d2) => Underway(d0, d2, owner1, i, off, done + w)
  {
    hide Wrote, Iteration, BlocksFor, Sound, Owned, FreeIsZero, Exact, TailIsZero, FreeSet;
    WroteShape(d0, v, i, off, done);
    WroteSize(d0, v, i, off, done);
    owner1 := IterationSound(v, owner, i, off + |done|, w);
    match Iteration(v, i, off + |done|, w) {
      case None =>
      case Some(d2) => WroteTwice(d0, v, d2, i, off, done, w);
    }
  }
}
