/** The inode layer of the file system (p2b/kernel/fs.c) over a disk, one buffer access at a time.

    `FileSystem` is the disk, `Inode` the in-memory copy that the caller has locked.  The buffer cache is
    transparent: bread yields the block and bwrite stores it (see `Bio`). */
module Fs {
  import opened Basics
  import opened FsBlock
  import D = FsDisk
  import opened FsMap
  import opened FsWrite
  import opened FsTrunc

  class Inode {
    const inum: nat
    var kind: int
    var nlink: int
    var size: nat
    var addrs: seq<nat>

    constructor (inum: nat, kind: int, nlink: int, size: nat, addrs: seq<nat>)
      ensures this.inum == inum && this.kind == kind && this.nlink == nlink && this.size == size && this.addrs == addrs
    {
      this.inum, this.kind, this.nlink, this.size, this.addrs := inum, kind, nlink, size, addrs;
    }

    function Value(): D.Inode
      reads this
    {
      D.Inode(kind, nlink, size, addrs)
    }
  }

  datatype ReadResult = ReadFailed | ReadDevice | Read(bytes: seq<byte>)
  datatype WriteResult = WriteFailed | WriteDevice | NoSpace | Written(n: nat)

  /** The file has received w at off, and cost as many free blocks as its growth needs. */
  ghost predicate Updated(d: D.Disk, d2: D.Disk, i: nat, off: nat, w: seq<byte>)
    requires D.Shaped(d) && i < |d.inodes| && off <= d.inodes[i].size
  {
    Wrote(d, d2, i, off, w) && Grew(d, d2, i)
  }

  lemma UpdatedSize(d: D.Disk, d2: D.Disk, i: nat, off: nat, w: seq<byte>)
    requires D.Shaped(d) && i < |d.inodes| && off <= d.inodes[i].size && Updated(d, d2, i, off, w)
    ensures |d2.inodes| == |d.inodes|
    ensures d2.inodes[i].size == if off + |w| > d.inodes[i].size then off + |w| else d.inodes[i].size
  {
    WroteSize(d, d2, i, off, w);
  }

  /** Reading back: the bytes at off are those written, all others of the file are as before, and so are all other
      files. */
  lemma ReadBack(d: D.Disk, d2: D.Disk, i: nat, off: nat, w: seq<byte>)
    requires D.Shaped(d) && i < |d.inodes| && off <= d.inodes[i].size && Updated(d, d2, i, off, w)
    ensures D.Shaped(d2) && |d2.inodes| == |d.inodes|
    ensures var c, c2 := D.Content(d, i), D.Content(d2, i);
            && off + |w| <= |c2| && |c| <= |c2| && (off + |w| <= |c| ==> |c2| == |c|)
            && c2[off..off + |w|] == w && c2[..off] == c[..off]
            && forall k :: off + |w| <= k < |c2| ==> k < |c| && c2[k] == c[k]
    ensures forall j :: 0 <= j < |d.inodes| && j != i ==>
              d2.inodes[j] == d.inodes[j] && D.Content(d2, j) == D.Content(d, j)
    ensures d2.inodes[i].kind == d.inodes[i].kind && d2.inodes[i].nlink == d.inodes[i].nlink
  {
  }

  /** Where byte k of a file lies on the disk: the first 6144 bytes in the twelve direct blocks, the rest in the blocks
      that the indirect block lists as little-endian words. */
  lemma ContentLayout(d: D.Disk, owner: D.Owner, i: nat, k: nat)
    requires D.Sound(d, owner) && i < |d.inodes| && k < d.inodes[i].size
    ensures D.Shaped(d) && k < 140 * 512 && |d.inodes[i].addrs| == 13
    ensures k < 12 * 512 ==>
              var b := d.inodes[i].addrs[k / 512];
              0 < b < |d.blocks| && D.Content(d, i)[k] == d.blocks[b][k % 512]
    ensures k >= 12 * 512 ==>
              && 0 < d.inodes[i].addrs[12] < |d.blocks|
              && var a: Block, j := d.blocks[d.inodes[i].addrs[12]], 4 * (k / 512 - 12);
                 var b: int := a[j] as int + 256 * a[j + 1] as int + 65536 * a[j + 2] as int
                               + 16777216 * a[j + 3] as int;
                 0 < b < |d.blocks| && D.Content(d, i)[k] == d.blocks[b][k % 512]
  {
    hide D.Sound, D.Owned, D.FreeIsZero, D.TailIsZero;
    SoundParts(d, owner, i);
    var s := k / 512;
    assert D.Ptr(d, i, s) != 0;
    D.PointersDistinct(d, owner, i, s, i, s);
    if s >= 12 {
      D.PointersDistinct(d, owner, i, D.INDIRECT, i, D.INDIRECT);
    }
    assert D.Content(d, i)[k] == D.ByteAt(d, i, k);
  }

  /** m = min(n - tot, BSIZE - off % BSIZE) */
  function PartLength(o: nat, left: nat): (k: nat)
    requires left > 0
    ensures 0 < k <= left && o % BSIZE + k <= BSIZE
  {
    if left < BSIZE - o % BSIZE then left else BSIZE - o % BSIZE
  }

  class FileSystem {
    const start: nat
    var bits: seq<bool>
    var inodes: seq<D.Inode>
    var blocks: seq<Block>
    ghost var owner: D.Owner

    constructor (d: D.Disk, ghost o: D.Owner)
      requires D.Sound(d, o)
      ensures Value() == d && owner == o && Valid()
    {
      start, bits, inodes, blocks, owner := d.start, d.bits, d.inodes, d.blocks, o;
    }

    ghost function Value(): D.Disk
      reads this
    {
      D.Disk(start, bits, inodes, blocks)
    }

    ghost predicate Valid()
      reads this
    {
      D.Sound(Value(), owner)
    }

    /** The in-memory inode agrees with the disk. */
    ghost predicate Coherent(ip: Inode)
      reads this, ip
    {
      ip.inum < |inodes| && inodes[ip.inum] == ip.Value()
    }

    /** The disk as it would be with the in-memory inode at a given size. */
    ghost function Virtual(ip: Inode, size: nat): D.Disk
      requires ip.inum < |inodes|
      reads this, ip
    {
      Value().(inodes := inodes[ip.inum := D.Inode(ip.kind, ip.nlink, size, ip.addrs)])
    }

    /** `done` has been written at off since the disk was d0, and the in-memory inode still has the size it had then. */
    ghost predicate Writing(ip: Inode, d0: D.Disk, off: nat, done: seq<byte>)
      reads this, ip
    {
      && ip.inum < |inodes| && D.Shaped(d0) && ip.inum < |d0.inodes| && off <= d0.inodes[ip.inum].size
      && ip.size == d0.inodes[ip.inum].size
      && Underway(d0, Virtual(ip, Max(off + |done|, ip.size)), owner, ip.inum, off, done)
    }

    // ------------------------------------------------------------------ blocks

    /** balloc.  The result is the length of the bitmap where the original panics. */
    method Balloc() returns (b: nat)
      requires |blocks| <= |bits| < |blocks| + D.BPB && |bits| % D.BPB == 0
      modifies this`bits
      ensures b == FreeFrom(old(bits), 0)
      ensures bits == if b < |old(bits)| then old(bits)[b := true] else old(bits)
    {
      b := 0;
      ghost var all := bits;
      while b < |blocks|
        invariant bits == all && b <= |all| && b % D.BPB == 0
        invariant FreeFrom(all, 0) == FreeFrom(all, b)
      {
        var bi := 0;
        while bi < D.BPB
          invariant 0 <= bi <= D.BPB && b + bi <= |all| && bits == all && b + D.BPB <= |all|
          invariant FreeFrom(all, 0) == FreeFrom(all, b + bi)
        {
          if !bits[b + bi] {
            bits := bits[b + bi := true];
            return b + bi;
          }
          bi := bi + 1;
        }
        b := b + D.BPB;
      }
    }

    /** bfree of a block in use, which is what keeps it from the panic "freeing free block". */
    method Bfree(b: nat)
      requires b < |blocks| <= |bits| && bits[b]
      modifies this`bits, this`blocks
      ensures bits == old(bits)[b := false] && blocks == old(blocks)[b := ZERO_BLOCK]
    {
      blocks := blocks[b := ZERO_BLOCK];
      bits := bits[b := false];
    }

    // ------------------------------------------------------------------ inodes

    method Iupdate(ip: Inode)
      requires ip.inum < |inodes|
      modifies this`inodes
      ensures inodes == old(inodes)[ip.inum := ip.Value()]
    {
      inodes := inodes[ip.inum := D.Inode(ip.kind, ip.nlink, ip.size, ip.addrs)];
    }

    /** bmap: the block of slot bn, allocated if need be; None when the disk is full. */
    method BmapBlock(ip: Inode, bn: nat, ghost size: nat) returns (r: Option<nat>)
      requires ip.inum < |inodes| && D.Shaped(Virtual(ip, size)) && bn < D.MAXFILE && bits[0]
      requires |ip.addrs| == D.NDIRECT + 1 && ip.addrs[D.NDIRECT] < |blocks|
      modifies this`bits, this`blocks, ip`addrs
      ensures match Bmap(old(Virtual(ip, size)), ip.inum, bn)
              case None => r.None?
              case Some(d1) => Virtual(ip, size) == d1 && r == Some(D.Ptr(d1, ip.inum, bn))
    {
      ghost var v := Virtual(ip, size);
      assert v.inodes[ip.inum].addrs == ip.addrs;
      if bn < D.NDIRECT {
        if ip.addrs[bn] == 0 {
          var b := Balloc();
          if b >= |blocks| {
            return None;
          }
          ip.addrs := ip.addrs[bn := b];
          assert Virtual(ip, size) == D.WithDirect(v, ip.inum, bn, b);
        }
        return Some(ip.addrs[bn]);
      }
      r := BmapEntry(ip, bn, size);
    }

    // The indirect half of bmap.
    method BmapEntry(ip: Inode, bn: nat, ghost size: nat) returns (r: Option<nat>)
      requires ip.inum < |inodes| && D.Shaped(Virtual(ip, size)) && D.NDIRECT <= bn < D.MAXFILE && bits[0]
      requires |ip.addrs| == D.NDIRECT + 1 && ip.addrs[D.NDIRECT] < |blocks|
      modifies this`bits, this`blocks, ip`addrs
      ensures match Bmap(old(Virtual(ip, size)), ip.inum, bn)
              case None => r.None?
              case Some(d1) => Virtual(ip, size) == d1 && r == Some(D.Ptr(d1, ip.inum, bn))
    {
      ghost var v := Virtual(ip, size);
      assert v.inodes[ip.inum].addrs == ip.addrs;
      if ip.addrs[D.NDIRECT] == 0 {
        var b := Balloc();
        if b >= |blocks| {
          return None;
        }
        ip.addrs := ip.addrs[D.NDIRECT := b];
        assert Virtual(ip, size) == D.WithIndirect(v, ip.inum, b);
      }
      assert AllocIndirect(v, ip.inum) == Some(Virtual(ip, size));
      hide AllocIndirect;
      r := BmapWord(ip, bn, size);
    }

    method BmapWord(ip: Inode, bn: nat, ghost size: nat) returns (r: Option<nat>)
      requires ip.inum < |inodes| && D.Shaped(Virtual(ip, size)) && D.NDIRECT <= bn < D.MAXFILE
      requires |ip.addrs| == D.NDIRECT + 1 && ip.addrs[D.NDIRECT] < |blocks|
      modifies this`bits, this`blocks
      ensures match AllocEntry(old(Virtual(ip, size)), ip.inum, bn)
              case None => r.None?
              case Some(d1) =>
                Virtual(ip, size) == d1 && (0 < ip.addrs[D.NDIRECT] ==> r == Some(D.Ptr(d1, ip.inum, bn)))
    {
      ghost var v := Virtual(ip, size);
      var n := bn - D.NDIRECT;
      var addr := ip.addrs[D.NDIRECT];
      var a := blocks[addr];
      if Word(a, n) == 0 {
        var b := Balloc();
        if b >= |blocks| {
          return None;
        }
        WordOfSetWord(a, n, b, n);
        blocks := blocks[addr := SetWord(a, n, b)];
        assert Virtual(ip, size) == D.WithEntry(v, ip.inum, bn, b);
      }
      return Some(Word(blocks[addr], n));
    }
  
    // ------------------------------------------------------------------ content

    /** readi of n bytes at off. */
    method Readi(ip: Inode, off: nat, n: nat) returns (r: ReadResult)
      requires Valid() && Coherent(ip) && off < UINT && n < UINT
      modifies this`bits, this`blocks, ip`addrs
      ensures ip.kind == T_DEV ==> r == ReadDevice
      ensures ip.kind != T_DEV && (off > ip.size || off + n >= UINT) ==> r == ReadFailed
      ensures ip.kind != T_DEV && off <= ip.size && off + n < UINT ==>
                r == Read(old(D.Content(Value(), ip.inum))[off..if off + n > ip.size then ip.size else off + n])
      ensures Value() == old(Value()) && ip.Value() == old(ip.Value())
    {
      hide D.Sound, D.Content, D.Shaped;
      SoundSize(Value(), owner, ip.inum);
      if ip.kind == T_DEV {
        return ReadDevice;
      }
      if off > ip.size || (off + n) % UINT < off {
        return ReadFailed;
      }
      var m := if off + n > ip.size then ip.size - off else n;
      var out := ReadAll(ip, off, m);
      r := Read(out);
    }

    /** itrunc, of a file that no directory names any more. */
    method Itrunc(ip: Inode)
      requires Valid() && Coherent(ip)
      modifies this`bits, this`blocks, this`inodes, this`owner, ip`addrs, ip`size
      ensures D.Shaped(old(Value())) && Value() == Truncated(old(Value()), ip.inum)
      ensures Valid() && Coherent(ip) && ip.size == 0
    {
      hide D.Sound, D.Shaped, Freed, Truncated, D.Ptr, BlocksBelow, BlocksOf;
      ghost var d, i := Value(), ip.inum;
      SoundParts(d, owner, i);
      FreeBlocks(ip, d);
      ip.size := 0;
      Iupdate(ip);
      TruncatedIs(d, i);
      TruncatedSound(d, owner, i);
      owner := owner - BlocksOf(d, i);
    }

    // The two loops of itrunc.
    method FreeBlocks(ip: Inode, ghost d: D.Disk)
      requires D.Sound(d, owner) && Value() == d && Coherent(ip)
      modifies this`bits, this`blocks, ip`addrs
      ensures D.Shaped(d) && Value() == Freed(d, BlocksOf(d, ip.inum)) && ip.addrs == NO_ADDRS
    {
      hide D.Sound, D.Shaped, Freed, D.Ptr, BlocksBelow, BlocksOf;
      ghost var i := ip.inum;
      SoundParts(d, owner, i);
      AllBelow(d, i);
      AddrsLength(d, i);
      FreeDirect(ip, d);
      if ip.addrs[D.NDIRECT] != 0 {
        FreeIndirect(ip, d);
      } else {
        PtrOfIndirect(d, i);
        NoIndirect(d, i);
      }
      AllZero(ip.addrs);
    }

    // bfree of the block in slot k of inode i, after those of the slots before it.
    method FreeOne(b: nat, ghost d: D.Disk, ghost i: nat, ghost k: nat)
      requires D.Sound(d, owner) && D.Shaped(d) && i < |d.inodes| && k <= D.INDIRECT
      requires b == D.Ptr(d, i, k) != 0 && Value() == Freed(d, BlocksBelow(d, i, k))
      modifies this`bits, this`blocks
      ensures Value() == Freed(d, BlocksBelow(d, i, k + 1))
    {
      hide D.Sound, D.Shaped, Freed, D.Ptr, BlocksBelow;
      FreeSlot(d, owner, i, k);
      Bfree(b);
    }

    // The first loop of itrunc.
    method FreeDirect(ip: Inode, ghost d: D.Disk)
      requires D.Sound(d, owner) && Value() == d && Coherent(ip)
      modifies this`bits, this`blocks, ip`addrs
      ensures D.Shaped(d) && Value() == Freed(d, BlocksBelow(d, ip.inum, D.NDIRECT))
      ensures |ip.addrs| == D.NDIRECT + 1 && ip.addrs[D.NDIRECT] == d.inodes[ip.inum].addrs[D.NDIRECT]
      ensures forall k :: 0 <= k < D.NDIRECT ==> ip.addrs[k] == 0
    {
      hide D.Sound, D.Shaped, Freed, D.Ptr, BlocksBelow, Cleared;
      ghost var i := ip.inum;
      SoundParts(d, owner, i);
      AllBelow(d, i);
      FreedNone(d);
      AddrsLength(d, i);
      ClearedNone(ip.addrs);
      for k := 0 to D.NDIRECT
        invariant D.Sound(d, owner) && D.Shaped(d) && Value() == Freed(d, BlocksBelow(d, i, k))
        invariant Cleared(d.inodes[i].addrs, ip.addrs, k)
      {
        PtrOfDirect(d, i, k);
        ClearedNext(d.inodes[i].addrs, ip.addrs, k);
        if ip.addrs[k] != 0 {
          FreeOne(ip.addrs[k], d, i, k);
          ip.addrs := ip.addrs[k := 0];
        } else {
          FreeSlot(d, owner, i, k);
        }
      }
      ClearedAll(d.inodes[i].addrs, ip.addrs);
    }

    // The indirect half of itrunc: the entries, then the block that lists them.
    method FreeIndirect(ip: Inode, ghost d: D.Disk)
      requires D.Sound(d, owner) && D.Shaped(d) && ip.inum < |d.inodes|
      requires Value() == Freed(d, BlocksBelow(d, ip.inum, D.NDIRECT))
      requires |ip.addrs| == |d.inodes[ip.inum].addrs| == D.NDIRECT + 1
      requires ip.addrs[D.NDIRECT] == d.inodes[ip.inum].addrs[D.NDIRECT] != 0
      modifies this`bits, this`blocks, ip`addrs
      ensures Value() == Freed(d, BlocksBelow(d, ip.inum, D.INDIRECT + 1))
      ensures ip.addrs == old(ip.addrs)[D.NDIRECT := 0]
    {
      hide D.Sound, D.Shaped, Freed, D.Ptr, Word, BlocksBelow;
      ghost var i := ip.inum;
      var addr := ip.addrs[D.NDIRECT];
      PtrOfIndirect(d, i);
      IndirectKept(d, owner, i, D.NDIRECT);
      var a := blocks[addr];
      var j := 0;
      while j < NINDIRECT
        invariant 0 <= j <= NINDIRECT && D.Sound(d, owner) && D.Shaped(d) && ip.addrs == old(ip.addrs)
        invariant Value() == Freed(d, BlocksBelow(d, i, D.NDIRECT + j))
        invariant addr < |d.blocks| && a == d.blocks[addr]
      {
        PtrOfEntry(d, i, j);
        if Word(a, j) != 0 {
          FreeOne(Word(a, j), d, i, D.NDIRECT + j);
        } else {
          FreeSlot(d, owner, i, D.NDIRECT + j);
        }
        j := j + 1;
      }
      FreeOne(addr, d, i, D.INDIRECT);
      ip.addrs := ip.addrs[D.NDIRECT := 0];
    }

    /** writei of src at off. */
    method Writei(ip: Inode, src: seq<byte>, off: nat) returns (r: WriteResult)
      requires Valid() && Coherent(ip) && off < UINT && |src| < UINT
      modifies this`bits, this`blocks, this`inodes, this`owner, ip`addrs, ip`size
      ensures D.Shaped(old(Value())) && old(ip.size) <= D.MAXFILE * BSIZE
      ensures ip.kind == T_DEV ==> r == WriteDevice
      ensures ip.kind != T_DEV && (off > old(ip.size) || off + |src| >= UINT) ==> r == WriteFailed
      ensures r.WriteDevice? || r.WriteFailed? ==>
                Value() == old(Value()) && ip.Value() == old(ip.Value()) && owner == old(owner)
      ensures ip.kind != T_DEV && off <= old(ip.size) && off + |src| < UINT ==>
                var d, max := old(Value()), D.MAXFILE * BSIZE;
                && (off + |src| <= max ==>
                      r == if FallsShort(d, ip.inum, off + |src|) then NoSpace else Written(|src|))
                && (off + |src| > max ==>
                      r == if FallsShort(d, ip.inum, max) then NoSpace else Written(max - off))
                && (r.Written? ==>
                      && Valid() && Coherent(ip) && r.n <= |src| && Updated(d, Value(), ip.inum, off, src[..r.n])
                      && ip.size == if off + r.n > old(ip.size) then off + r.n else old(ip.size))
    {
      hide D.Sound, D.Shaped, Updated, FallsShort;
      SoundSize(Value(), owner, ip.inum);
      if ip.kind == T_DEV {
        return WriteDevice;
      }
      if off > ip.size || (off + |src|) % UINT < off {
        return WriteFailed;
      }
      var n := |src|;
      if off + n > D.MAXFILE * BSIZE {
        n := D.MAXFILE * BSIZE - off;
      }
      ghost var d := Value();
      var ok := WriteUpTo(ip, src[..n], off);
      r := if ok then Written(n) else NoSpace;
      if ok {
        UpdatedSize(d, Value(), ip.inum, off, src[..n]);
      }
    }

    // The loop of writei and the update of the inode behind it.
    method WriteUpTo(ip: Inode, src: seq<byte>, off: nat) returns (ok: bool)
      requires Valid() && Coherent(ip) && off <= ip.size && off + |src| <= D.MAXFILE * BSIZE
      modifies this`bits, this`blocks, this`inodes, this`owner, ip`addrs, ip`size
      ensures D.Shaped(old(Value()))
      ensures ok <==> !FallsShort(old(Value()), ip.inum, off + |src|)
      ensures ok ==> Valid() && Coherent(ip) && Updated(old(Value()), Value(), ip.inum, off, src)
    {
      hide D.Sound, D.Shaped, Wrote, Grew, FallsShort, Underway, Writing;
      ghost var d, i := Value(), ip.inum;
      SoundParts(d, owner, i);
      UnderwayInit(d, owner, i, off);
      assert Virtual(ip, ip.size) == d;
      WritingIntro(ip, d, off, []);
      ok := WriteAll(ip, src, off, d);
      if ok {
        WritingShape(ip, d, off, src);
        UnderwayDone(d, Virtual(ip, Max(off + |src|, ip.size)), owner, i, off, src);
        if |src| > 0 && off + |src| > ip.size {
          ip.size := off + |src|;
          Iupdate(ip);
        }
        assert Value() == Virtual(ip, ip.size);
      }
    }

    // The loop of writei: all of src at off.
    method WriteAll(ip: Inode, src: seq<byte>, off: nat, ghost d0: D.Disk) returns (ok: bool)
      requires Writing(ip, d0, off, []) && off + |src| <= D.MAXFILE * BSIZE
      modifies this`bits, this`blocks, this`owner, ip`addrs
      ensures D.Shaped(d0) && ip.inum < |d0.inodes|
      ensures ok <==> !FallsShort(d0, ip.inum, off + |src|)
      ensures ok ==> Writing(ip, d0, off, src)
    {
      hide FallsShort, D.Shaped, Underway, Writing, PartLength;
      var tot := 0;
      WritingShape(ip, d0, off, []);
      assert src[..0] == [];
      while tot < |src|
        invariant 0 <= tot <= |src|
        invariant Writing(ip, d0, off, src[..tot])
      {
        var o := off + tot;
        var k := PartLength(o, |src| - tot);
        ok := WritePart(ip, o, src[tot..tot + k], d0, off, src[..tot]);
        if !ok {
          FallsShortLater(d0, ip.inum, o + k, off + |src|);
          return;
        }
        assert src[..tot] + src[tot..tot + k] == src[..tot + k];
        tot := tot + k;
      }
      assert src[..|src|] == src;
      WritingSpace(ip, d0, off, src);
      ok := true;
    }

    lemma WritingShape(ip: Inode, d0: D.Disk, off: nat, done: seq<byte>)
      requires Writing(ip, d0, off, done)
      ensures ip.inum < |inodes| && D.Shaped(d0) && ip.inum < |d0.inodes| && off <= d0.inodes[ip.inum].size
      ensures Underway(d0, Virtual(ip, Max(off + |done|, ip.size)), owner, ip.inum, off, done)
      ensures ip.size == d0.inodes[ip.inum].size
    {
      hide Underway, D.Shaped;
    }

    lemma WritingSpace(ip: Inode, d0: D.Disk, off: nat, done: seq<byte>)
      requires Writing(ip, d0, off, done)
      ensures !FallsShort(d0, ip.inum, off + |done|)
    {
      UnderwaySpace(d0, Virtual(ip, Max(off + |done|, ip.size)), owner, ip.inum, off, done);
    }

    // One iteration of writei: w at o, within a block, after `done` was written at off.
    method WritePart(ip: Inode, o: nat, w: seq<byte>, ghost d0: D.Disk, ghost off: nat, ghost done: seq<byte>)
      returns (ok: bool)
      requires Writing(ip, d0, off, done)
      requires o == off + |done| && 0 < |w| && o % BSIZE + |w| <= BSIZE && o + |w| <= D.MAXFILE * BSIZE
      modifies this`bits, this`blocks, this`owner, ip`addrs
      ensures D.Shaped(d0) && ip.inum < |d0.inodes|
      ensures if ok then Writing(ip, d0, off, done + w) else FallsShort(d0, ip.inum, o + |w|)
    {
      hide Underway, D.Shaped, Bmap, FallsShort, D.Ptr, Writing, PartOk, PartStored, Max, FreeFrom;
      WritingShape(ip, d0, off, done);
      ghost var i, size := ip.inum, Max(o, ip.size);
      ghost var v := Virtual(ip, size);
      ghost var owner1 := PartPrepared(d0, v, owner, i, off, done, o, w);
      PartOkParts(d0, v, owner1, i, off, done, o, w);
      var addr := BmapBlock(ip, o / BSIZE, size);
      if addr.None? {
        return false;
      }
      ghost var d1 := Virtual(ip, size);
      blocks := blocks[addr.value := Patch(blocks[addr.value], o % BSIZE, w)];
      owner := owner1;
      PartStoredSize(d1, i, o, w, ip.size);
      assert Virtual(ip, Max(o + |w|, ip.size)) == PartStored(d1, i, o, w);
      WritingIntro(ip, d0, off, done + w);
      ok := true;
    }

    lemma WritingIntro(ip: Inode, d0: D.Disk, off: nat, done: seq<byte>)
      requires ip.inum < |inodes| && D.Shaped(d0) && ip.inum < |d0.inodes| && off <= d0.inodes[ip.inum].size
      requires ip.size == d0.inodes[ip.inum].size
      requires Underway(d0, Virtual(ip, Max(off + |done|, ip.size)), owner, ip.inum, off, done)
      ensures Writing(ip, d0, off, done)
    {
      hide Underway, D.Shaped;
    }

    // The loop of readi: n bytes at off, all below the size.
    method ReadAll(ip: Inode, off: nat, n: nat) returns (out: seq<byte>)
      requires Valid() && Coherent(ip) && off + n <= ip.size
      modifies this`bits, this`blocks, ip`addrs
      ensures Value() == old(Value()) && ip.Value() == old(ip.Value())
      ensures D.Shaped(old(Value())) && out == D.Content(old(Value()), ip.inum)[off..off + n]
    {
      hide D.Sound, D.Content, D.Shaped, PartLength, FileSystem.Valid, FileSystem.Coherent;
      var tot := 0;
      out := [];
      ghost var d, v, i := Value(), ip.Value(), ip.inum;
      ghost var c := ContentOf(ip);
      assert c[off..off + 0] == [];
      while tot < n
        invariant 0 <= tot <= n && Value() == d && ip.Value() == v
        invariant Valid() && Coherent(ip)
        invariant out == c[off..off + tot]
      {
        var o := off + tot;
        var k := PartLength(o, n - tot);
        var piece := ReadPart(ip, o, k);
        SliceAppend(c, off, o, o + k);
        out := out + piece;
        tot := tot + k;
      }
    }

    // The content of the file that readi begins to read.
    ghost function ContentOf(ip: Inode): (c: seq<byte>)
      requires Valid() && Coherent(ip)
      reads this, ip
      ensures D.Shaped(Value()) && ip.inum < |inodes| && c == D.Content(Value(), ip.inum) && |c| == ip.size
    {
      SoundParts(Value(), owner, ip.inum);
      D.Content(Value(), ip.inum)
    }

    // One iteration of readi: k bytes at o, within a block.
    method ReadPart(ip: Inode, o: nat, k: nat) returns (piece: seq<byte>)
      requires Valid() && Coherent(ip) && 0 < k && o + k <= ip.size && o % BSIZE + k <= BSIZE
      modifies this`bits, this`blocks, ip`addrs
      ensures Value() == old(Value()) && ip.Value() == old(ip.Value())
      ensures Valid() && Coherent(ip)
      ensures D.Shaped(old(Value())) && piece == D.Content(old(Value()), ip.inum)[o..o + k]
    {
      ghost var d, i := Value(), ip.inum;
      ReadFacts(d, owner, i, o);
      ReadSlice(d, owner, i, o, k);
      assert Virtual(ip, ip.size) == d;
      assert |ip.addrs| == D.NDIRECT + 1;
      hide D.Sound, D.Content, D.Shaped, Bmap, D.Ptr;
      var addr := BmapBlock(ip, o / BSIZE, ip.size);
      assert Virtual(ip, ip.size) == d;
      assert Value().inodes == d.inodes;
      assert inodes[i] == Virtual(ip, ip.size).inodes[i];
      piece := blocks[addr.value][o % BSIZE..o % BSIZE + k];
    }
  }

  /** What bmap needs to know in the middle of a write. */
  lemma UnderwayFacts(d0: D.Disk, v: D.Disk, o: D.Owner, i: nat, off: nat, done: seq<byte>)
    requires D.Shaped(d0) && i < |d0.inodes| && off <= d0.inodes[i].size && Underway(d0, v, o, i, off, done)
    ensures D.Shaped(v) && i < |v.inodes| && v.bits[0] && |v.inodes[i].addrs| == D.NDIRECT + 1
    ensures v.inodes[i].addrs[D.NDIRECT] < |v.blocks|
  {
    SoundParts(v, o, i);
    var o' := BmapExtends(v, o, i, 0);
  }

  lemma BmapInRange(d0: D.Disk, v: D.Disk, o: D.Owner, i: nat, off: nat, done: seq<byte>, bn: nat)
    requires D.Shaped(d0) && i < |d0.inodes| && off <= d0.inodes[i].size && Underway(d0, v, o, i, off, done)
    requires bn < D.MAXFILE
    ensures D.Shaped(v) && i < |v.inodes|
    ensures Bmap(v, i, bn).Some? ==> D.Ptr(Bmap(v, i, bn).value, i, bn) < |v.blocks|
  {
    SoundParts(v, o, i);
    var o' := BmapExtends(v, o, i, bn);
    if Bmap(v, i, bn).Some? {
      D.PointersDistinct(Bmap(v, i, bn).value, o', i, bn, i, bn);
    }
  }

  lemma UnderwaySpace(d0: D.Disk, v: D.Disk, o: D.Owner, i: nat, off: nat, done: seq<byte>)
    requires D.Shaped(d0) && i < |d0.inodes| && off <= d0.inodes[i].size && Underway(d0, v, o, i, off, done)
    ensures !FallsShort(d0, i, off + |done|)
  {
    WroteSize(d0, v, i, off, done);
  }

  /** The first k pointers are gone. */
  ghost predicate Cleared(addrs: seq<nat>, now: seq<nat>, k: nat) {
    && |now| == |addrs| == D.NDIRECT + 1
    && forall x :: 0 <= x <= D.NDIRECT ==> now[x] == if x < k then 0 else addrs[x]
  }

  lemma ClearedNone(addrs: seq<nat>)
    requires |addrs| == D.NDIRECT + 1
    ensures Cleared(addrs, addrs, 0)
  {
  }

  lemma ClearedNext(addrs: seq<nat>, now: seq<nat>, k: nat)
    requires Cleared(addrs, now, k) && k < D.NDIRECT
    ensures |now| == |addrs| == D.NDIRECT + 1 && now[k] == addrs[k]
    ensures Cleared(addrs, if now[k] == 0 then now else now[k := 0], k + 1)
  {
  }

  lemma ClearedAll(addrs: seq<nat>, now: seq<nat>)
    requires Cleared(addrs, now, D.NDIRECT)
    ensures |now| == |addrs| == D.NDIRECT + 1 && now[D.NDIRECT] == addrs[D.NDIRECT]
    ensures forall k :: 0 <= k < D.NDIRECT ==> now[k] == 0
  {
  }

  lemma AllZero(addrs: seq<nat>)
    requires |addrs| == D.NDIRECT + 1 && addrs[D.NDIRECT] == 0 && forall k :: 0 <= k < D.NDIRECT ==> addrs[k] == 0
    ensures addrs == NO_ADDRS
  {
  }

  lemma UnderwayDone(d0: D.Disk, v: D.Disk, o: D.Owner, i: nat, off: nat, done: seq<byte>)
    requires D.Shaped(d0) && i < |d0.inodes| && off <= d0.inodes[i].size && Underway(d0, v, o, i, off, done)
    ensures D.Sound(v, o) && Wrote(d0, v, i, off, done) && Grew(d0, v, i)
    ensures off + |done| <= d0.inodes[i].size ==> v.inodes[i].addrs == d0.inodes[i].addrs
  {
    WroteSize(d0, v, i, off, done);
  }

  /** The disk after the piece w went to slot at / BSIZE of inode i, which has a block. */
  ghost function PartStored(d1: D.Disk, i: nat, at: nat, w: seq<byte>): D.Disk
    requires D.Shaped(d1) && i < |d1.inodes| && at / BSIZE < D.MAXFILE && at % BSIZE + |w| <= BSIZE
    requires D.Ptr(d1, i, at / BSIZE) < |d1.blocks|
  {
    var p := D.Ptr(d1, i, at / BSIZE);
    d1.(blocks := d1.blocks[p := Patch(d1.blocks[p], at % BSIZE, w)],
        inodes := d1.inodes[i := d1.inodes[i].(size := Max(at + |w|, d1.inodes[i].size))])
  }

  /** All that one iteration of writei relies on, and what it achieves. */
  ghost predicate PartOk(d0: D.Disk, v: D.Disk, o1: D.Owner, i: nat, off: nat, done: seq<byte>, at: nat, w: seq<byte>)
    requires D.Shaped(d0) && i < |d0.inodes| && off <= d0.inodes[i].size
    requires at / BSIZE < D.MAXFILE && at % BSIZE + |w| <= BSIZE
  {
    && D.Shaped(v) && i < |v.inodes| && v.bits[0] && |v.inodes[i].addrs| == D.NDIRECT + 1
    && v.inodes[i].addrs[D.NDIRECT] < |v.blocks|
    && match Bmap(v, i, at / BSIZE)
       case None => FallsShort(d0, i, at + |w|)
       case Some(d1) =>
         && D.Ptr(d1, i, at / BSIZE) < |d1.blocks|
         && Underway(d0, PartStored(d1, i, at, w), o1, i, off, done + w)
  }

  lemma PartOkParts(d0: D.Disk, v: D.Disk, o1: D.Owner, i: nat, off: nat, done: seq<byte>, at: nat, w: seq<byte>)
    requires D.Shaped(d0) && i < |d0.inodes| && off <= d0.inodes[i].size
    requires at / BSIZE < D.MAXFILE && at % BSIZE + |w| <= BSIZE && PartOk(d0, v, o1, i, off, done, at, w)
    ensures D.Shaped(v) && i < |v.inodes| && v.bits[0] && |v.inodes[i].addrs| == D.NDIRECT + 1
    ensures v.inodes[i].addrs[D.NDIRECT] < |v.blocks|
    ensures Bmap(v, i, at / BSIZE).None? ==> FallsShort(d0, i, at + |w|)
    ensures Bmap(v, i, at / BSIZE).Some? ==>
              var d1 := Bmap(v, i, at / BSIZE).value;
              D.Ptr(d1, i, at / BSIZE) < |d1.blocks| && Underway(d0, PartStored(d1, i, at, w), o1, i, off, done + w)
  {
    hide Underway, D.Shaped, Bmap, FallsShort, D.Ptr, PartStored;
  }

  lemma PartStoredSize(d1: D.Disk, i: nat, at: nat, w: seq<byte>, size: nat)
    requires D.Shaped(d1) && i < |d1.inodes| && at / BSIZE < D.MAXFILE && at % BSIZE + |w| <= BSIZE
    requires D.Ptr(d1, i, at / BSIZE) < |d1.blocks| && d1.inodes[i].size == Max(at, size)
    ensures var p := D.Ptr(d1, i, at / BSIZE);
            PartStored(d1, i, at, w)
            == d1.(blocks := d1.blocks[p := Patch(d1.blocks[p], at % BSIZE, w)],
                   inodes := d1.inodes[i := d1.inodes[i].(size := Max(at + |w|, size))])
  {
  }

  lemma {:induction false} PartPrepared(d0: D.Disk, v: D.Disk, o: D.Owner, i: nat, off: nat, done: seq<byte>, at: nat,
                                        w: seq<byte>)
    returns (o1: D.Owner)
    requires D.Shaped(d0) && i < |d0.inodes| && off <= d0.inodes[i].size && Underway(d0, v, o, i, off, done)
    requires 0 < |w| && at == off + |done| && at % BSIZE + |w| <= BSIZE && at / BSIZE < D.MAXFILE
    ensures PartOk(d0, v, o1, i, off, done, at, w)
  {
    hide Underway, FallsShort, D.Shaped, Bmap;
    UnderwayFacts(d0, v, o, i, off, done);
    BmapInRange(d0, v, o, i, off, done, at / BSIZE);
    o1 := UnderwayStep(d0, v, o, i, off, done, w);
  }

  lemma AddrsLength(d: D.Disk, i: nat)
    requires D.Shaped(d) && i < |d.inodes|
    ensures |d.inodes[i].addrs| == D.NDIRECT + 1
  {
  }

  lemma PtrOfDirect(d: D.Disk, i: nat, k: nat)
    requires D.Shaped(d) && i < |d.inodes| && k < D.NDIRECT
    ensures k < |d.inodes[i].addrs| && D.Ptr(d, i, k) == d.inodes[i].addrs[k]
  {
  }

  lemma PtrOfIndirect(d: D.Disk, i: nat)
    requires D.Shaped(d) && i < |d.inodes|
    ensures D.NDIRECT < |d.inodes[i].addrs| && D.Ptr(d, i, D.INDIRECT) == d.inodes[i].addrs[D.NDIRECT]
  {
  }

  lemma PtrOfEntry(d: D.Disk, i: nat, j: nat)
    requires D.Shaped(d) && i < |d.inodes| && j < NINDIRECT && 0 < D.Ptr(d, i, D.INDIRECT) < |d.blocks|
    ensures D.Ptr(d, i, D.NDIRECT + j) == Word(d.blocks[D.Ptr(d, i, D.INDIRECT)], j)
  {
  }

  lemma TruncatedIs(d: D.Disk, i: nat)
    requires D.Shaped(d) && i < |d.inodes|
    ensures Truncated(d, i)
              == Freed(d, BlocksOf(d, i)).(inodes := d.inodes[i := d.inodes[i].(size := 0, addrs := NO_ADDRS)])
  {
  }

  lemma SoundSize(d: D.Disk, o: D.Owner, i: nat)
    requires D.Sound(d, o) && i < |d.inodes|
    ensures D.Shaped(d) && d.inodes[i].size <= D.MAXFILE * BSIZE
  {
    SoundParts(d, o, i);
  }

  /** Below its size a file has its block, so bmap allocates nothing: readi does not change the disk. */
  lemma ReadFacts(d: D.Disk, owner: D.Owner, i: nat, o: nat)
    requires D.Sound(d, owner) && i < |d.inodes| && o < d.inodes[i].size
    ensures D.Shaped(d) && o / BSIZE < D.MAXFILE && d.bits[0] && d.inodes[i].addrs[D.NDIRECT] < |d.blocks|
    ensures Bmap(d, i, o / BSIZE) == Some(d) && D.Ptr(d, i, o / BSIZE) < |d.blocks|
  {
    SoundParts(d, owner, i);
    var owner' := BmapExtends(d, owner, i, o / BSIZE);
    assert o / BSIZE * BSIZE < d.inodes[i].size;
    D.PointersDistinct(d, owner, i, o / BSIZE, i, o / BSIZE);
  }

  lemma SliceAppend(c: seq<byte>, a: nat, b: nat, e: nat)
    requires a <= b <= e <= |c|
    ensures c[a..b] + c[b..e] == c[a..e]
  {
  }

  lemma ContentLength(d: D.Disk, i: nat)
    requires D.Shaped(d) && i < |d.inodes|
    ensures |D.Content(d, i)| == d.inodes[i].size
  {
  }

  /** Byte o + x of a file, in the block of byte o. */
  lemma ContentByte(d: D.Disk, i: nat, o: nat, x: nat)
    requires D.Shaped(d) && i < |d.inodes| && o + x < d.inodes[i].size == |D.Content(d, i)| && o % BSIZE + x < BSIZE
    requires o / BSIZE < D.MAXFILE && D.Ptr(d, i, o / BSIZE) < |d.blocks|
    ensures D.Content(d, i)[o + x] == d.blocks[D.Ptr(d, i, o / BSIZE)][o % BSIZE + x]
  {
    hide D.Shaped, D.Ptr;
    assert (o + x) / BSIZE == o / BSIZE && (o + x) % BSIZE == o % BSIZE + x;
  }

  lemma ReadSlice(d: D.Disk, owner: D.Owner, i: nat, o: nat, k: nat)
    requires D.Sound(d, owner) && i < |d.inodes| && o + k <= d.inodes[i].size && 0 < k && o % BSIZE + k <= BSIZE
    ensures D.Shaped(d) && o / BSIZE < D.MAXFILE && D.Ptr(d, i, o / BSIZE) < |d.blocks|
    ensures d.blocks[D.Ptr(d, i, o / BSIZE)][o % BSIZE..o % BSIZE + k] == D.Content(d, i)[o..o + k]
  {
    hide D.Sound, D.Shaped, D.Ptr, D.Content;
    ReadFacts(d, owner, i, o);
    ContentLength(d, i);
    var b, c := d.blocks[D.Ptr(d, i, o / BSIZE)][o % BSIZE..o % BSIZE + k], D.Content(d, i)[o..o + k];
    forall x | 0 <= x < k ensures b[x] == c[x] {
      ContentByte(d, i, o, x);
    }
  }
}
