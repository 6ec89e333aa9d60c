/** Block allocation: balloc and bmap of p2b/kernel/fs.c as functions on the disk, and what they keep. */
module FsMap {
  import opened Basics
  import opened FsBlock
  import opened FsDisk

  // ------------------------------------------------------------------ balloc

  /** The first clear bit from k on, or the length of the bitmap. */
  function FreeFrom(bits: seq<bool>, k: nat): (b: nat)
    requires k <= |bits|
    ensures k <= b <= |bits| && (b < |bits| ==> !bits[b]) && forall c :: k <= c < b ==> bits[c]
    decreases |bits| - k
  {
    if k == |bits| || !bits[k] then k else FreeFrom(bits, k + 1)
  }

  /** balloc: the first free block.  None stands for the panic and for a bit past the end of the disk, which
      balloc returns when no block of the disk is free but the last bitmap block has spare bits. */
  function Alloc(d: Disk): Option<nat>
    requires Shaped(d)
  {
    var b := FreeFrom(d.bits, 0);
    if b < |d.blocks| then Some(b) else None
  }

  ghost function FreeSet(d: Disk): set<nat>
    requires Shaped(d)
  {
    set b: nat | b < |d.blocks| && !d.bits[b]
  }

  lemma AllocMeaning(d: Disk, owner: Owner)
    requires Shaped(d) && Owned(d, owner)
    ensures Alloc(d).Some? <==> FreeSet(d) != {}
    ensures Alloc(d).Some? ==> Unused(d, Alloc(d).value)
  {
    var b := FreeFrom(d.bits, 0);
    if b < |d.blocks| {
      assert b in FreeSet(d);
    } else {
      assert forall c: nat :: c < |d.blocks| ==> d.bits[c];
    }
  }

  /** balloc's inner loop has no bound: it returns a block past the end of the disk exactly when the disk is
      full and the last bitmap block has a clear bit to spare. */
  lemma AllocPastEnd(d: Disk)
    requires Shaped(d)
    ensures |d.blocks| <= FreeFrom(d.bits, 0) < |d.bits|
            <==> FreeSet(d) == {} && exists c :: |d.blocks| <= c < |d.bits| && !d.bits[c]
  {
    var b := FreeFrom(d.bits, 0);
    if b < |d.blocks| {
      assert b in FreeSet(d);
    } else {
      assert forall c: nat :: c < |d.blocks| ==> c !in FreeSet(d);
    }
  }

  /** A disk of 1024 blocks, as mkfs makes them, without a free one. */
  function FullDisk(): Disk {
    Disk(29, seq(BPB, (b: nat) => b < 1024), [], seq(1024, _ => ZERO_BLOCK))
  }

  /** There balloc returns block 1024, the first one behind the end. */
  lemma FullDiskOverrun()
    ensures Shaped(FullDisk()) && FreeSet(FullDisk()) == {}
    ensures FreeFrom(FullDisk().bits, 0) == |FullDisk().blocks| == 1024
  {
    var d := FullDisk();
    assert d.bits[1023] && !d.bits[1024];
    AllocPastEnd(d);
  }

  lemma FreeSetShrinks(d: Disk, d': Disk, b: nat)
    requires Shaped(d) && Shaped(d') && Unused(d, b) && |d'.blocks| == |d.blocks| && d'.bits == d.bits[b := true]
    ensures FreeSet(d') == FreeSet(d) - {b} && |FreeSet(d')| == |FreeSet(d)| - 1
  {
    assert b in FreeSet(d);
  }

  // ------------------------------------------------------------------ bmap

  function AllocDirect(d: Disk, i: nat, s: nat): (r: Option<Disk>)
    requires Shaped(d) && i < |d.inodes| && s < NDIRECT
    ensures r.Some? ==> Shaped(r.value) && |r.value.inodes| == |d.inodes| && |r.value.blocks| == |d.blocks|
  {
    if d.inodes[i].addrs[s] != 0 then Some(d)
    else match Alloc(d) case None => None case Some(b) => Some(WithDirect(d, i, s, b))
  }

  function AllocIndirect(d: Disk, i: nat): (r: Option<Disk>)
    requires Shaped(d) && i < |d.inodes|
    ensures r.Some? ==> Shaped(r.value) && |r.value.inodes| == |d.inodes| && |r.value.blocks| == |d.blocks|
  {
    if d.inodes[i].addrs[NDIRECT] != 0 then Some(d)
    else match Alloc(d) case None => None case Some(b) => Some(WithIndirect(d, i, b))
  }

  function AllocEntry(d: Disk, i: nat, s: nat): (r: Option<Disk>)
    requires Shaped(d) && i < |d.inodes| && NDIRECT <= s < INDIRECT
    ensures r.Some? ==> Shaped(r.value) && |r.value.inodes| == |d.inodes| && |r.value.blocks| == |d.blocks|
  {
    if d.inodes[i].addrs[NDIRECT] >= |d.blocks| then None
    else if Word(d.blocks[d.inodes[i].addrs[NDIRECT]], s - NDIRECT) != 0 then Some(d)
    else match Alloc(d) case None => None case Some(b) => Some(WithEntry(d, i, s, b))
  }

  /** bmap(ip, bn): the disk on which slot bn of inode i has a block. */
  function Bmap(d: Disk, i: nat, bn: nat): (r: Option<Disk>)
    requires Shaped(d) && i < |d.inodes| && bn < MAXFILE
    ensures r.Some? ==> Shaped(r.value) && |r.value.inodes| == |d.inodes| && |r.value.blocks| == |d.blocks|
  {
    if bn < NDIRECT then AllocDirect(d, i, bn)
    else match AllocIndirect(d, i)
      case None => None
      case Some(d1) => AllocEntry(d1, i, bn)
  }

  /** d1 is d with a block in slot bn of inode i, and in its indirect slot if bn needs it; what was there stays. */
  ghost predicate Extended(d: Disk, d1: Disk, i: nat, bn: nat)
    requires Shaped(d) && Shaped(d1) && i < |d.inodes| && bn <= INDIRECT
  {
    && d1.start == d.start && |d1.blocks| == |d.blocks| && |d1.bits| == |d.bits| && |d1.inodes| == |d.inodes|
    && (forall j :: 0 <= j < |d.inodes| && j != i ==> d1.inodes[j] == d.inodes[j])
    && d1.inodes[i] == d.inodes[i].(addrs := d1.inodes[i].addrs)
    && (forall j, t :: 0 <= j < |d.inodes| && 0 <= t <= INDIRECT ==>
          Ptr(d1, j, t) == Ptr(d, j, t) || (j == i && (t == bn || t == INDIRECT) && Ptr(d, j, t) == 0))
    && Ptr(d1, i, bn) != 0
    && (bn < NDIRECT ==> Ptr(d1, i, INDIRECT) == Ptr(d, i, INDIRECT))
    && (NDIRECT <= bn < INDIRECT ==> Ptr(d1, i, INDIRECT) != 0)
    && (forall j, t :: 0 <= j < |d.inodes| && 0 <= t < INDIRECT && 0 < Ptr(d, j, t) < |d.blocks| ==>
          d1.blocks[Ptr(d, j, t)] == d.blocks[Ptr(d, j, t)])
    && (bn < INDIRECT && Ptr(d, i, bn) == 0 ==> Ptr(d1, i, bn) < |d.blocks| && d1.blocks[Ptr(d1, i, bn)] == ZERO_BLOCK)
  }

  lemma AllocDirectExtends(d: Disk, owner: Owner, i: nat, s: nat) returns (owner': Owner)
    requires Shaped(d) && Owned(d, owner) && FreeIsZero(d) && i < |d.inodes| && s < NDIRECT
    requires AllocDirect(d, i, s).Some?
    ensures var d1 := AllocDirect(d, i, s).value;
            Shaped(d1) && Owned(d1, owner') && FreeIsZero(d1) && Extended(d, d1, i, s) &&
            |FreeSet(d)| == |FreeSet(d1)| + if Ptr(d, i, s) == 0 then 1 else 0
    ensures Ptr(d, i, s) != 0 ==> AllocDirect(d, i, s).value == d && owner' == owner
  {
    owner' := owner;
    if Ptr(d, i, s) == 0 {
      AllocMeaning(d, owner);
      var b := Alloc(d).value;
      var d1 := WithDirect(d, i, s, b);
      AttachDirect(d, i, s, b);
      AttachKeepsOwned(d, d1, owner, i, s, b);
      AttachKeepsFree(d, d1, i, s, b);
      FreeSetShrinks(d, d1, b);
      owner' := owner[b := Place(i, s)];
    }
  }

  lemma AllocIndirectExtends(d: Disk, owner: Owner, i: nat) returns (owner': Owner)
    requires Shaped(d) && Owned(d, owner) && FreeIsZero(d) && i < |d.inodes|
    requires AllocIndirect(d, i).Some?
    ensures var d1 := AllocIndirect(d, i).value;
            Shaped(d1) && Owned(d1, owner') && FreeIsZero(d1) && Extended(d, d1, i, INDIRECT) &&
            |FreeSet(d)| == |FreeSet(d1)| + if Ptr(d, i, INDIRECT) == 0 then 1 else 0
    ensures Ptr(d, i, INDIRECT) != 0 ==> AllocIndirect(d, i).value == d && owner' == owner
  {
    owner' := owner;
    if Ptr(d, i, INDIRECT) == 0 {
      AllocMeaning(d, owner);
      var b := Alloc(d).value;
      var d1 := WithIndirect(d, i, b);
      AttachIndirect(d, i, b);
      AttachKeepsOwned(d, d1, owner, i, INDIRECT, b);
      AttachKeepsFree(d, d1, i, INDIRECT, b);
      FreeSetShrinks(d, d1, b);
      owner' := owner[b := Place(i, INDIRECT)];
    }
  }

  lemma AllocEntryExtends(d: Disk, owner: Owner, i: nat, s: nat) returns (owner': Owner)
    requires Shaped(d) && Owned(d, owner) && FreeIsZero(d) && i < |d.inodes| && NDIRECT <= s < INDIRECT
    requires Ptr(d, i, INDIRECT) != 0 && AllocEntry(d, i, s).Some?
    ensures var d1 := AllocEntry(d, i, s).value;
            Shaped(d1) && Owned(d1, owner') && FreeIsZero(d1) && Extended(d, d1, i, s) &&
            Ptr(d1, i, INDIRECT) == Ptr(d, i, INDIRECT) &&
            |FreeSet(d)| == |FreeSet(d1)| + if Ptr(d, i, s) == 0 then 1 else 0
    ensures Ptr(d, i, s) != 0 ==> AllocEntry(d, i, s).value == d && owner' == owner
  {
    owner' := owner;
    if Ptr(d, i, s) == 0 {
      AllocMeaning(d, owner);
      var b := Alloc(d).value;
      var d1 := WithEntry(d, i, s, b);
      AttachEntry(d, owner, i, s, b);
      AttachKeepsOwned(d, d1, owner, i, s, b);
      AttachKeepsFree(d, d1, i, s, b);
      FreeSetShrinks(d, d1, b);
      EntryKeepsData(d, owner, i, s, b);
      owner' := owner[b := Place(i, s)];
    }
  }

  // Only the indirect block changes, and that is nobody's data block.
  lemma EntryKeepsData(d: Disk, owner: Owner, i: nat, s: nat, b: nat)
    requires Shaped(d) && Owned(d, owner) && FreeIsZero(d) && i < |d.inodes| && NDIRECT <= s < INDIRECT && Unused(d, b)
    requires Ptr(d, i, INDIRECT) != 0 && d.inodes[i].addrs[NDIRECT] < |d.blocks|
    ensures var d1 := WithEntry(d, i, s, b);
            && (forall j, t :: 0 <= j < |d.inodes| && 0 <= t < INDIRECT && 0 < Ptr(d, j, t) < |d.blocks| ==>
                  d1.blocks[Ptr(d, j, t)] == d.blocks[Ptr(d, j, t)])
            && d1.blocks[b] == ZERO_BLOCK
  {
    PointersDistinct(d, owner, i, INDIRECT, i, INDIRECT);
    forall j, t | 0 <= j < |d.inodes| && 0 <= t < INDIRECT && 0 < Ptr(d, j, t) < |d.blocks|
      ensures Ptr(d, j, t) != Ptr(d, i, INDIRECT)
    {
      PointersDistinct(d, owner, j, t, i, INDIRECT);
    }
  }

  lemma ExtendedTrans(d: Disk, d1: Disk, d2: Disk, i: nat, bn: nat)
    requires Shaped(d) && Shaped(d1) && Shaped(d2) && i < |d.inodes| && NDIRECT <= bn < INDIRECT
    requires Extended(d, d1, i, INDIRECT) && Extended(d1, d2, i, bn)
    requires Ptr(d, i, INDIRECT) == 0 && Ptr(d2, i, INDIRECT) == Ptr(d1, i, INDIRECT)
    ensures Extended(d, d2, i, bn)
  {
    hide Ptr, Shaped;
    forall j, t | 0 <= j < |d.inodes| && 0 <= t < INDIRECT && 0 < Ptr(d, j, t) < |d.blocks|
      ensures d2.blocks[Ptr(d, j, t)] == d.blocks[Ptr(d, j, t)]
    {
      assert Ptr(d1, j, t) == Ptr(d, j, t);
    }
    assert Ptr(d1, i, bn) == Ptr(d, i, bn);
  }

  /** How many blocks bmap has to allocate. */
  function Missing(d: Disk, i: nat, bn: nat): nat
    requires Shaped(d) && i < |d.inodes| && bn < MAXFILE
  {
    (if Ptr(d, i, bn) == 0 then 1 else 0) + if bn >= NDIRECT && Ptr(d, i, INDIRECT) == 0 then 1 else 0
  }

  /** bmap gives the slot a block when there are enough free blocks, and otherwise runs out. */
  lemma {:induction false} BmapExtends(d: Disk, owner: Owner, i: nat, bn: nat) returns (owner': Owner)
    requires Shaped(d) && Owned(d, owner) && FreeIsZero(d) && i < |d.inodes| && bn < MAXFILE
    ensures d.inodes[i].addrs[NDIRECT] < |d.blocks|
    ensures Bmap(d, i, bn).Some? <==> |FreeSet(d)| >= Missing(d, i, bn)
    ensures Bmap(d, i, bn).Some? ==>
              var d1 := Bmap(d, i, bn).value;
              Owned(d1, owner') && FreeIsZero(d1) && Extended(d, d1, i, bn) &&
              |FreeSet(d)| == |FreeSet(d1)| + Missing(d, i, bn)
    ensures Ptr(d, i, bn) != 0 ==> Bmap(d, i, bn) == Some(d) && owner' == owner
  {
    hide Extended, Owned, FreeIsZero, Shaped, WithDirect, WithIndirect, WithEntry, FreeSet, FreeFrom;
    owner' := owner;
    IndirectInside(d, owner, i);
    AllocMeaning(d, owner);
    if bn < NDIRECT {
      if AllocDirect(d, i, bn).Some? {
        owner' := AllocDirectExtends(d, owner, i, bn);
      }
    } else if AllocIndirect(d, i).Some? {
      var owner1 := AllocIndirectExtends(d, owner, i);
      var d1 := AllocIndirect(d, i).value;
      IndirectSlot(d, d1, i, bn);
      AllocMeaning(d1, owner1);
      if AllocEntry(d1, i, bn).Some? {
        owner' := AllocEntryExtends(d1, owner1, i, bn);
        if Ptr(d, i, INDIRECT) == 0 {
          ExtendedTrans(d, d1, AllocEntry(d1, i, bn).value, i, bn);
        }
      }
    }
  }

  lemma IndirectInside(d: Disk, owner: Owner, i: nat)
    requires Shaped(d) && Owned(d, owner) && i < |d.inodes|
    ensures |d.inodes[i].addrs| == NDIRECT + 1 && Ptr(d, i, INDIRECT) == d.inodes[i].addrs[NDIRECT] < |d.blocks|
  {
    if Ptr(d, i, INDIRECT) != 0 { PointersDistinct(d, owner, i, INDIRECT, i, INDIRECT); }
  }

  lemma IndirectSlot(d: Disk, d1: Disk, i: nat, bn: nat)
    requires Shaped(d) && Shaped(d1) && i < |d.inodes| && NDIRECT <= bn < INDIRECT && Extended(d, d1, i, INDIRECT)
    ensures i < |d1.inodes| && Ptr(d1, i, INDIRECT) != 0 && Ptr(d1, i, bn) == Ptr(d, i, bn)
    ensures Ptr(d, i, INDIRECT) == 0 ==> Ptr(d, i, bn) == 0
  {
  }
}
