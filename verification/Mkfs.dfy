/** Building the first file system image (p2b/tools/mkfs.c): the state in which the invariants of `FsDisk` start. */
module Mkfs {
  import opened Basics
  import opened FsBlock
  import D = FsDisk
  import opened FsMap
  import opened FsWrite
  import opened FsTrunc
  import Fs

  const IPB := 8

  /** A bitmap whose first f bits are set: mkfs allocates blocks in increasing order. */
  function Prefix(n: nat, f: nat): (bits: seq<bool>)
    ensures |bits| == n && forall b :: 0 <= b < n ==> (bits[b] <==> b < f)
  {
    seq(n, b => b < f)
  }

  lemma {:induction false} FirstOfPrefix(n: nat, f: nat)
    requires f <= n
    ensures FreeFrom(Prefix(n, f), 0) == f
    ensures f < n ==> Prefix(n, f)[f := true] == Prefix(n, f + 1)
  {
    var b := FreeFrom(Prefix(n, f), 0);
    if f < n {
      assert !Prefix(n, f)[f];
    }
  }

  const NO_INODE := D.Inode(0, 0, 0, NO_ADDRS)

  /** What a file is to its users. */
  datatype FileView = FileView(kind: int, nlink: int, content: seq<byte>)

  ghost function View(d: D.Disk, i: nat): FileView
    requires D.Shaped(d) && i < |d.inodes|
  {
    FileView(d.inodes[i].kind, d.inodes[i].nlink, D.Content(d, i))
  }

  ghost function Views(d: D.Disk): (v: seq<FileView>)
    requires D.Shaped(d)
    ensures |v| == |d.inodes| && forall i :: 0 <= i < |v| ==> v[i] == View(d, i)
  {
    seq(|d.inodes|, (i: nat) requires i < |d.inodes| => View(d, i))
  }

  // ------------------------------------------------------------------ the steps, on values

  function Blank(start: nat, ninodes: nat, size: nat): D.Disk {
    D.Disk(start, Prefix(D.BPB * ((size + D.BPB - 1) / D.BPB), start),
           seq(ninodes, _ => NO_INODE), seq(size, _ => ZERO_BLOCK))
  }

  /** mkfs() leaves a sound image of empty files. */
  lemma BlankSound(start: nat, ninodes: nat, size: nat)
    requires 0 < start <= size <= UINT
    ensures D.Sound(Blank(start, ninodes, size), map[])
  {
    var d := Blank(start, ninodes, size);
    forall i, s | 0 <= i < |d.inodes| && 0 <= s <= D.INDIRECT ensures D.Shaped(d) && D.Ptr(d, i, s) == 0 {
    }
    hide D.Ptr;
  }

  lemma BlankShaped(start: nat, ninodes: nat, size: nat)
    requires 0 < start <= size <= UINT
    ensures D.Shaped(Blank(start, ninodes, size))
    ensures |Blank(start, ninodes, size).blocks| == size <= |Blank(start, ninodes, size).bits|
    ensures forall b :: 0 <= b < size ==> (Blank(start, ninodes, size).bits[b] <==> b < start)
  {
  }

  lemma BlankFree(start: nat, ninodes: nat, size: nat)
    requires 0 < start <= size <= UINT
    ensures D.Shaped(Blank(start, ninodes, size)) && |FreeSet(Blank(start, ninodes, size))| == size - start
  {
    BlankShaped(start, ninodes, size);
    hide Blank, D.Shaped;
    assert FreeSet(Blank(start, ninodes, size)) == Interval(start, size);
  }

  ghost function Interval(lo: nat, hi: nat): (s: set<nat>)
    requires lo <= hi
    ensures |s| == hi - lo && forall b :: b in s <==> lo <= b < hi
  {
    if lo == hi then {} else Interval(lo, hi - 1) + {hi - 1}
  }

  /** Giving an inode a type and a link count. */
  function Typed(d: D.Disk, i: nat, kind: int, nlink: int): D.Disk
    requires i < |d.inodes|
  {
    d.(inodes := d.inodes[i := d.inodes[i].(kind := kind, nlink := nlink)])
  }

  lemma TypedPtr(d: D.Disk, i: nat, kind: int, nlink: int)
    requires D.Shaped(d) && i < |d.inodes|
    ensures var d' := Typed(d, i, kind, nlink);
            D.Shaped(d') && forall j, s :: 0 <= j < |d.inodes| && 0 <= s <= D.INDIRECT ==>
                D.Ptr(d', j, s) == D.Ptr(d, j, s)
  {
  }

  lemma TypedSound(d: D.Disk, owner: D.Owner, i: nat, kind: int, nlink: int)
    requires D.Sound(d, owner) && i < |d.inodes|
    ensures D.Sound(Typed(d, i, kind, nlink), owner) && FreeSet(Typed(d, i, kind, nlink)) == FreeSet(d)
    ensures Views(Typed(d, i, kind, nlink)) == Views(d)[i := FileView(kind, nlink, D.Content(d, i))]
  {
    hide D.Ptr;
    TypedPtr(d, i, kind, nlink);
    var d' := Typed(d, i, kind, nlink);
    forall j: nat | j < |d.inodes| ensures D.Exact(d', j) && D.TailIsZero(d', j) {
      assert D.Exact(d, j) && D.TailIsZero(d, j);
    }
    SameContents(d, d');
  }

  // Contents depend on nothing but the pointers, the blocks and the sizes.
  lemma SameContents(d: D.Disk, d': D.Disk)
    requires D.Shaped(d) && D.Shaped(d') && |d'.inodes| == |d.inodes| && d'.blocks == d.blocks
    requires forall j, s :: 0 <= j < |d.inodes| && 0 <= s <= D.INDIRECT ==> D.Ptr(d', j, s) == D.Ptr(d, j, s)
    ensures forall j, k: nat :: 0 <= j < |d.inodes| ==> D.ByteAt(d', j, k) == D.ByteAt(d, j, k)
    ensures forall j :: 0 <= j < |d.inodes| && d'.inodes[j].size == d.inodes[j].size ==>
              D.Content(d', j) == D.Content(d, j)
  {
    hide D.Ptr;
    forall j, k: nat | 0 <= j < |d.inodes| ensures D.ByteAt(d', j, k) == D.ByteAt(d, j, k) {
    }
    hide D.ByteAt;
  }

  /** add_dir's "fix size of inode": the next multiple of 512 behind the size. */
  function Rounded(size: nat): nat {
    (size / BSIZE + 1) * BSIZE
  }

  function WithSize(d: D.Disk, i: nat, size: nat): D.Disk
    requires i < |d.inodes|
  {
    d.(inodes := d.inodes[i := d.inodes[i].(size := size)])
  }

  lemma WithSizePtr(d: D.Disk, i: nat, size: nat)
    requires D.Shaped(d) && i < |d.inodes|
    ensures var d' := WithSize(d, i, size);
            D.Shaped(d') && forall j, s :: 0 <= j < |d.inodes| && 0 <= s <= D.INDIRECT ==>
                D.Ptr(d', j, s) == D.Ptr(d, j, s)
  {
  }

  lemma RoundedTooFar(d: D.Disk, i: nat)
    requires D.Shaped(d) && i < |d.inodes| && D.Exact(d, i) && d.inodes[i].size % BSIZE == 0
    ensures var d' := WithSize(d, i, Rounded(d.inodes[i].size)); D.Shaped(d') && !D.Exact(d', i)
  {
    hide D.Ptr;
    var size, d' := d.inodes[i].size, WithSize(d, i, Rounded(d.inodes[i].size));
    WithSizePtr(d, i, Rounded(size));
    var s := size / BSIZE;
    if s < D.MAXFILE {
      assert D.Ptr(d', i, s) == 0 && s * BSIZE < d'.inodes[i].size;
    }
  }

  lemma RoundedFile(d: D.Disk, i: nat, j: nat)
    requires D.Shaped(d) && i < |d.inodes| && j < |d.inodes| && D.Exact(d, j) && D.TailIsZero(d, j)
    requires d.inodes[i].size % BSIZE != 0
    ensures var d' := WithSize(d, i, Rounded(d.inodes[i].size));
            D.Shaped(d') && D.Exact(d', j) && D.TailIsZero(d', j)
  {
    hide D.Ptr;
    WithSizePtr(d, i, Rounded(d.inodes[i].size));
    if j == i {
      RoundedExact(d, i);
    }
  }

  /** The rounding is sound exactly when the directory does not already end on a block boundary: there it claims
      a block that the directory does not have. */
  lemma RoundingSound(d: D.Disk, owner: D.Owner, i: nat)
    requires D.Sound(d, owner) && i < |d.inodes|
    ensures D.Sound(WithSize(d, i, Rounded(d.inodes[i].size)), owner) <==> d.inodes[i].size % BSIZE != 0
  {
    hide D.Ptr, D.Exact, D.TailIsZero;
    WithSizePtr(d, i, Rounded(d.inodes[i].size));
    SoundParts(d, owner, i);
    if d.inodes[i].size % BSIZE == 0 {
      RoundedTooFar(d, i);
    } else {
      forall j: nat | j < |d.inodes|
        ensures var d' := WithSize(d, i, Rounded(d.inodes[i].size)); D.Exact(d', j) && D.TailIsZero(d', j)
      {
        RoundedFile(d, i, j);
      }
    }
  }

  lemma RoundedExact(d: D.Disk, i: nat)
    requires D.Shaped(d) && i < |d.inodes| && D.Exact(d, i) && d.inodes[i].size % BSIZE != 0
    ensures D.Shaped(WithSize(d, i, Rounded(d.inodes[i].size))) && D.Exact(WithSize(d, i, Rounded(d.inodes[i].size)), i)
    ensures BlocksFor(Rounded(d.inodes[i].size)) == BlocksFor(d.inodes[i].size)
  {
    var size, d' := d.inodes[i].size, WithSize(d, i, Rounded(d.inodes[i].size));
    WithSizePtr(d, i, Rounded(size));
    hide D.Ptr;
    forall s: nat ensures s * BSIZE < Rounded(size) <==> s * BSIZE < size {
    }
  }

  /** The rounded directory has the same entries, followed by unused ones. */
  lemma RoundedViews(d: D.Disk, owner: D.Owner, i: nat)
    requires D.Sound(d, owner) && i < |d.inodes| && d.inodes[i].size % BSIZE != 0
    ensures var d' := WithSize(d, i, Rounded(d.inodes[i].size));
            && D.Shaped(d') && FreeSet(d') == FreeSet(d)
            && Views(d') == Views(d)[i := View(d, i).(content := Filled(D.Content(d, i)))]
  {
    hide D.Ptr, D.Exact, D.TailIsZero, D.FilesOk;
    var size, d' := d.inodes[i].size, WithSize(d, i, Rounded(d.inodes[i].size));
    SoundParts(d, owner, i);
    WithSizePtr(d, i, Rounded(size));
    SameContents(d, d');
    forall k | size <= k < Rounded(size) ensures D.ByteAt(d', i, k) == 0 {
      TailByte(d, i, k);
    }
    assert D.Content(d', i) == Filled(D.Content(d, i));
    assert FreeSet(d') == FreeSet(d);
    assert View(d', i) == View(d, i).(content := Filled(D.Content(d, i)));
    hide D.Content;
    var v, v' := Views(d)[i := View(d, i).(content := Filled(D.Content(d, i)))], Views(d');
    forall j | 0 <= j < |v| ensures v'[j] == v[j] {
      assert j != i ==> View(d', j) == View(d, j);
    }
  }

  lemma TailByte(d: D.Disk, i: nat, k: nat)
    requires D.Shaped(d) && i < |d.inodes| && D.TailIsZero(d, i) && D.Exact(d, i)
    requires k / BSIZE * BSIZE < d.inodes[i].size <= k
    ensures D.ByteAt(d, i, k) == 0
  {
    assert D.Ptr(d, i, k / BSIZE) != 0;
    assert k == k / BSIZE * BSIZE + k % BSIZE;
  }

  /** c, filled up with zeros to a multiple of the block size. */
  function Filled(c: seq<byte>): (f: seq<byte>)
    ensures |f| == Rounded(|c|)
  {
    c + Zeros(Rounded(|c|) - |c|)
  }

  /** The content that the blocks of a rounded directory hold. */
  function Completed(c: seq<byte>): seq<byte> {
    if |c| % BSIZE == 0 then c else Filled(c)
  }

  // ------------------------------------------------------------------ directories that end on a block boundary

  /** The inodes with the sizes that `full` directories, which end on a block boundary, had before the rounding. */
  function Lean(inodes: seq<D.Inode>, full: set<nat>): (r: seq<D.Inode>)
    ensures |r| == |inodes|
  {
    seq(|inodes|, (i: nat) requires i < |inodes| =>
      if i in full && inodes[i].size >= BSIZE then inodes[i].(size := inodes[i].size - BSIZE) else inodes[i])
  }

  lemma LeanUpdate(inodes: seq<D.Inode>, full: set<nat>, i: nat, din: D.Inode)
    requires i < |inodes| && i !in full
    ensures Lean(inodes[i := din], full) == Lean(inodes, full)[i := din] && Lean(inodes, full)[i] == inodes[i]
  {
  }

  lemma FullKept(inodes: seq<D.Inode>, full: set<nat>, i: nat, din: D.Inode, from: nat, from': nat)
    requires FullOk(inodes, full, from) && i < |inodes| && i !in full && from <= from'
    ensures FullOk(inodes[i := din], full, from')
  {
  }

  lemma FullBelow(inodes: seq<D.Inode>, full: set<nat>, from: nat)
    requires FullOk(inodes, full, from)
    ensures forall i :: i in full ==> i < from
  {
  }

  lemma LeanNone(inodes: seq<D.Inode>)
    ensures Lean(inodes, {}) == inodes
  {
  }

  lemma FullMore(inodes: seq<D.Inode>, full: set<nat>, i: nat, from: nat)
    requires FullOk(inodes, full, from) && i < |inodes| && i < from && i !in full && inodes[i].size % BSIZE == 0
    ensures FullOk(inodes[i := inodes[i].(size := Rounded(inodes[i].size))], full + {i}, from)
  {
  }

  /** The rounding of a directory that ends on a block boundary leaves the sizes of before. */
  lemma LeanFull(inodes: seq<D.Inode>, full: set<nat>, i: nat)
    requires i < |inodes| && i !in full && inodes[i].size % BSIZE == 0
    ensures var din := inodes[i].(size := Rounded(inodes[i].size));
            din.size == inodes[i].size + BSIZE && Lean(inodes[i := din], full + {i}) == Lean(inodes, full)
  {
    var din := inodes[i].(size := Rounded(inodes[i].size));
    var a, b := Lean(inodes[i := din], full + {i}), Lean(inodes, full);
    forall j | 0 <= j < |inodes| ensures a[j] == b[j] {
    }
  }

  ghost predicate FullOk(inodes: seq<D.Inode>, full: set<nat>, from: nat) {
    forall i :: i in full ==> i < from && i < |inodes| && BSIZE <= inodes[i].size && inodes[i].size % BSIZE == 0
  }

  /** A disk whose `full` directories have been given a block too many is sound, with any owners, exactly when there
      is no such directory. */
  lemma FullSound(d: D.Disk, owner: D.Owner, inodes: seq<D.Inode>, full: set<nat>, from: nat)
    requires D.Sound(d, owner) && d.inodes == Lean(inodes, full) && FullOk(inodes, full, from)
    ensures (exists o :: D.Sound(d.(inodes := inodes), o)) <==> full == {}
  {
    if full == {} {
      LeanNone(inodes);
      assert d.(inodes := inodes) == d;
      assert D.Sound(d.(inodes := inodes), owner);
    }
    forall o, i | i in full ensures !D.Sound(d.(inodes := inodes), o) {
      OneTooMany(d, owner, inodes, i, o);
    }
  }

  lemma OneTooMany(d: D.Disk, owner: D.Owner, inodes: seq<D.Inode>, i: nat, o: D.Owner)
    requires D.Sound(d, owner) && |inodes| == |d.inodes| && i < |inodes|
    requires d.inodes[i].size % BSIZE == 0 && inodes[i] == d.inodes[i].(size := d.inodes[i].size + BSIZE)
    ensures !D.Sound(d.(inodes := inodes), o)
  {
    var d', s := d.(inodes := inodes), d.inodes[i].size / BSIZE;
    hide D.Sound, D.Owned, D.FreeIsZero, D.TailIsZero;
    SoundParts(d, owner, i);
    assert s * BSIZE == d.inodes[i].size;
    if D.Shaped(d') && s < D.MAXFILE {
      assert D.Ptr(d', i, s) == D.Ptr(d, i, s) == 0;
    }
    if D.Sound(d', o) {
      SoundParts(d', o, i);
      assert false;
    }
  }

  // ------------------------------------------------------------------ the image

  ghost predicate Unallocated(inodes: seq<D.Inode>, from: nat) {
    forall j :: from <= j < |inodes| ==> inodes[j] == NO_INODE
  }

  /** On a bitmap that is a prefix, the kernel's balloc would allocate the very block that mkfs takes. */
  lemma {:induction false} PrefixAlloc(d: D.Disk, f: nat)
    requires D.Shaped(d) && d.bits == Prefix(|d.bits|, f) && f <= |d.blocks|
    ensures Alloc(d) == if f < |d.blocks| then Some(f) else None
    ensures f < |d.bits| ==> d.bits[f := true] == Prefix(|d.bits|, f + 1)
  {
    FirstOfPrefix(|d.bits|, f);
  }

  lemma StillUnallocated(inodes: seq<D.Inode>, from: nat, i: nat, din: D.Inode)
    requires Unallocated(inodes, from) && i < from && i < |inodes|
    ensures Unallocated(inodes[i := din], from)
  {
  }

  class Image {
    const start: nat
    const size: nat
    const nbits: nat
    var inodes: seq<D.Inode>
    var blocks: seq<Block>
    var freeblock: nat
    var usedblocks: nat
    var freeinode: nat
    ghost var owner: D.Owner
    ghost var full: set<nat>   // rounded directories that had ended on a block boundary

    /** The image, with the bitmap that balloc will write at the end, and before the rounding of full directories. */
    ghost function Value(): D.Disk
      reads this
    {
      D.Disk(start, Prefix(nbits, freeblock), Lean(inodes, full), blocks)
    }

    ghost predicate Valid()
      reads this
    {
      && D.Sound(Value(), owner) && freeblock <= |blocks| == size && usedblocks == freeblock
      && Unallocated(inodes, freeinode) && FullOk(inodes, full, freeinode)
    }

    ghost function Files(): (v: seq<FileView>)
      requires Valid()
      reads this
      ensures |v| == |inodes|
    {
      Views(Value())
    }

    ghost function Free(): nat
      requires Valid()
      reads this
    {
      |FreeSet(Value())|
    }

    /** The image as it would be with the inode din in place of inode i. */
    ghost function Virtual(i: nat, din: D.Inode, size: nat): D.Disk
      requires i < |inodes|
      reads this
    {
      Value().(inodes := Value().inodes[i := din.(size := size)])
    }

    /** mkfs() of an image of `size` blocks: all sectors are written with zeros. */
    constructor (nblocks: nat, ninodes: nat, size: nat)
      requires size <= UINT && nblocks + (ninodes / IPB + 3 + (size / D.BPB + 1)) == size
      ensures Value() == Blank(size - nblocks, ninodes, size) && Valid() && freeinode == 1
      ensures usedblocks == size - nblocks
      ensures |inodes| == ninodes && Free() == nblocks && full == {}
    {
      this.size := size;
      start := ninodes / IPB + 3 + (size / D.BPB + 1);
      nbits := D.BPB * ((size + D.BPB - 1) / D.BPB);
      inodes := seq(ninodes, _ => NO_INODE);
      blocks := seq(size, _ => ZERO_BLOCK);
      freeblock := ninodes / IPB + 3 + (size / D.BPB + 1);
      usedblocks := ninodes / IPB + 3 + (size / D.BPB + 1);
      freeinode := 1;
      owner := map[];
      full := {};
      new;
      LeanNone(inodes);
      BlankSound(start, ninodes, size);
      BlankFree(start, ninodes, size);
      hide D.Sound;
    }

    /** ialloc.  The original does not check that the table has an inode left. */
    method Ialloc(kind: int) returns (inum: nat)
      requires Valid() && freeinode < |inodes|
      modifies this`inodes, this`freeinode
      ensures Valid() && inum == old(freeinode) && freeinode == inum + 1 && |inodes| == old(|inodes|) && inum !in full
      ensures Files() == old(Files())[inum := FileView(kind, 1, [])] && Free() == old(Free())
    {
      hide D.Sound, D.Shaped, D.Content, FreeSet, Lean, FullOk;
      FullBelow(inodes, full, freeinode);
      ghost var d := Value();
      inum := freeinode;
      SoundParts(d, owner, inum);
      LeanUpdate(inodes, full, inum, D.Inode(kind, 1, 0, NO_ADDRS));
      FullKept(inodes, full, inum, D.Inode(kind, 1, 0, NO_ADDRS), freeinode, freeinode + 1);
      freeinode := freeinode + 1;
      inodes := inodes[inum := D.Inode(kind, 1, 0, NO_ADDRS)];
      assert Value() == Typed(d, inum, kind, 1);
      TypedSound(d, owner, inum, kind, 1);
      SoundParts(Value(), owner, inum);
      assert |D.Content(d, inum)| == 0;
    }

    method Fresh() returns (b: nat)
      modifies this`freeblock, this`usedblocks
      ensures b == old(freeblock) && freeblock == b + 1 && usedblocks == old(usedblocks) + 1
    {
      b := freeblock;
      freeblock := freeblock + 1;
      usedblocks := usedblocks + 1;
    }

    /** The block of slot bn: what the kernel's bmap would do.  None where reading past the end of the image fails. */
    method Place(ghost i: nat, din: D.Inode, bn: nat, ghost size: nat) returns (x: Option<nat>, din2: D.Inode)
      requires i < |inodes| && D.Shaped(Virtual(i, din, size)) && bn < D.MAXFILE
      requires |din.addrs| == D.NDIRECT + 1 && din.addrs[D.NDIRECT] < |blocks|
      requires freeblock == usedblocks && 0 < freeblock <= |blocks|
      modifies this`freeblock, this`usedblocks, this`blocks
      ensures old(freeblock) <= freeblock
      ensures match Bmap(old(Virtual(i, din, size)), i, bn)
              case None => x.None?
              case Some(d1) =>
                && D.Shaped(Virtual(i, din2, size)) && Virtual(i, din2, size) == d1
                && x == Some(D.Ptr(d1, i, bn)) && usedblocks == freeblock <= |blocks|
                && din2.kind == din.kind && din2.nlink == din.nlink
    {
      hide Lean, FullOk;
      ghost var v := Virtual(i, din, size);
      din2 := din;
      if bn < D.NDIRECT {
        PrefixAlloc(v, freeblock);
        if din.addrs[bn] == 0 {
          var b := Fresh();
          din2 := din.(addrs := din.addrs[bn := b]);
          if b >= |blocks| {
            return None, din2;
          }
          assert Virtual(i, din2, size) == D.WithDirect(v, i, bn, b);
        }
        return Some(din2.addrs[bn]), din2;
      }
      x, din2 := PlaceEntry(i, din, bn, size);
    }

    // The indirect half.
    method PlaceEntry(ghost i: nat, din: D.Inode, bn: nat, ghost size: nat) returns (x: Option<nat>, din2: D.Inode)
      requires i < |inodes| && D.Shaped(Virtual(i, din, size)) && D.NDIRECT <= bn < D.MAXFILE
      requires |din.addrs| == D.NDIRECT + 1 && din.addrs[D.NDIRECT] < |blocks|
      requires freeblock == usedblocks && 0 < freeblock <= |blocks|
      modifies this`freeblock, this`usedblocks, this`blocks
      ensures old(freeblock) <= freeblock
      ensures match Bmap(old(Virtual(i, din, size)), i, bn)
              case None => x.None?
              case Some(d1) =>
                && D.Shaped(Virtual(i, din2, size)) && Virtual(i, din2, size) == d1
                && x == Some(D.Ptr(d1, i, bn)) && usedblocks == freeblock <= |blocks|
                && din2.kind == din.kind && din2.nlink == din.nlink
    {
      hide Lean, FullOk;
      ghost var v := Virtual(i, din, size);
      PrefixAlloc(v, freeblock);
      din2 := din;
      if din.addrs[D.NDIRECT] == 0 {
        var b := Fresh();
        din2 := din.(addrs := din.addrs[D.NDIRECT := b]);
        if b >= |blocks| {
          return None, din2;
        }
        assert Virtual(i, din2, size) == D.WithIndirect(v, i, b);
      }
      assert AllocIndirect(v, i) == Some(Virtual(i, din2, size));
      hide AllocIndirect;
      x := PlaceWord(i, din2, bn, size);
    }

    method PlaceWord(ghost i: nat, din: D.Inode, bn: nat, ghost size: nat) returns (x: Option<nat>)
      requires i < |inodes| && D.Shaped(Virtual(i, din, size)) && D.NDIRECT <= bn < D.MAXFILE
      requires |din.addrs| == D.NDIRECT + 1 && 0 < din.addrs[D.NDIRECT] < |blocks|
      requires freeblock == usedblocks && 0 < freeblock <= |blocks|
      modifies this`freeblock, this`usedblocks, this`blocks
      ensures old(freeblock) <= freeblock
      ensures match AllocEntry(old(Virtual(i, din, size)), i, bn)
              case None => x.None?
              case Some(d1) =>
                && D.Shaped(Virtual(i, din, size)) && Virtual(i, din, size) == d1
                && x == Some(D.Ptr(d1, i, bn)) && usedblocks == freeblock <= |blocks|
    {
      hide Lean, FullOk;
      ghost var v := Virtual(i, din, size);
      PrefixAlloc(v, freeblock);
      var addr, n := din.addrs[D.NDIRECT], bn - D.NDIRECT;
      var indirect := blocks[addr];
      if Word(indirect, n) == 0 {
        var b := Fresh();
        if b >= |blocks| {
          return None;
        }
        WordOfSetWord(indirect, n, b, n);
        blocks := blocks[addr := SetWord(indirect, n, b)];
        assert Virtual(i, din, size) == D.WithEntry(v, i, bn, b);
      }
      x := Some(Word(blocks[addr], n));
    }

    /** `done` has been appended to inode i since the image was d0; din is its inode so far, not yet written back. */
    ghost predicate Appending(i: nat, din: D.Inode, d0: D.Disk, done: seq<byte>)
      reads this
    {
      && i < |inodes| && D.Shaped(d0) && i < |d0.inodes| && usedblocks == freeblock <= |blocks| == size
      && Underway(d0, Virtual(i, din, d0.inodes[i].size + |done|), owner, i, d0.inodes[i].size, done)
    }

    lemma AppendingShape(i: nat, din: D.Inode, d0: D.Disk, done: seq<byte>)
      requires Appending(i, din, d0, done)
      ensures i < |inodes| && D.Shaped(d0) && i < |d0.inodes| && usedblocks == freeblock <= |blocks| == size
      ensures Underway(d0, Virtual(i, din, d0.inodes[i].size + |done|), owner, i, d0.inodes[i].size, done)
    {
      hide Underway, D.Shaped, Lean;
    }

    lemma AppendingIntro(i: nat, din: D.Inode, d0: D.Disk, done: seq<byte>)
      requires i < |inodes| && D.Shaped(d0) && i < |d0.inodes| && usedblocks == freeblock <= |blocks| == size
      requires Underway(d0, Virtual(i, din, d0.inodes[i].size + |done|), owner, i, d0.inodes[i].size, done)
      ensures Appending(i, din, d0, done)
    {
      hide Underway, D.Shaped, Lean;
    }

    // One iteration of iappend: w at `at`, within a block.
    method AppendPart(i: nat, din: D.Inode, at: nat, w: seq<byte>, ghost d0: D.Disk, ghost done: seq<byte>)
      returns (ok: bool, din2: D.Inode)
      requires Appending(i, din, d0, done) && 0 < freeblock
      requires at == d0.inodes[i].size + |done| && 0 < |w| && at % BSIZE + |w| <= BSIZE && at / BSIZE < D.MAXFILE
      modifies this`freeblock, this`usedblocks, this`blocks, this`owner
      ensures D.Shaped(d0) && i < |d0.inodes| && 0 < freeblock
      ensures if ok then Appending(i, din2, d0, done + w) else FallsShort(d0, i, at + |w|)
    {
      hide Underway, D.Shaped, Bmap, FallsShort, D.Ptr, Appending, Fs.PartOk, Fs.PartStored, FreeFrom, Prefix, Lean;
      AppendingShape(i, din, d0, done);
      ghost var off := d0.inodes[i].size;
      ghost var v := Virtual(i, din, at);
      ghost var owner1 := Fs.PartPrepared(d0, v, owner, i, off, done, at, w);
      Fs.PartOkParts(d0, v, owner1, i, off, done, at, w);
      assert v.inodes[i].addrs == din.addrs;
      var x;
      x, din2 := Place(i, din, at / BSIZE, at);
      if x.None? {
        return false, din2;
      }
      ghost var d1 := Virtual(i, din2, at);
      blocks := blocks[x.value := Patch(blocks[x.value], at % BSIZE, w)];
      owner := owner1;
      Fs.PartStoredSize(d1, i, at, w, at);
      assert Virtual(i, din2, at + |w|) == Fs.PartStored(d1, i, at, w);
      AppendingIntro(i, din2, d0, done + w);
      ok := true;
    }

    /** iappend: w is appended to the file, unless the largest file is too small or the image too full for it. */
    method Iappend(i: nat, w: seq<byte>) returns (ok: bool)
      requires Valid() && i < freeinode && i < |inodes| && i !in full
      modifies this`freeblock, this`usedblocks, this`blocks, this`owner, this`inodes
      ensures var c := old(Files()[i].content);
              ok <==> |c + w| <= D.MAXFILE * BSIZE && BlocksFor(|c + w|) <= old(Free()) + BlocksFor(|c|)
      ensures ok ==> var f := old(Files()[i]);
                && Valid() && |inodes| == old(|inodes|)
                && Files() == old(Files())[i := f.(content := f.content + w)]
                && Free() + BlocksFor(|f.content + w|) == old(Free()) + BlocksFor(|f.content|)
    {
      hide D.Sound, D.Shaped, D.Content, FallsShort, Fs.Updated, FreeSet, BlocksFor, Views, Unallocated, Lean, FullOk;
      ghost var d := Value();
      LeanUpdate(inodes, full, i, inodes[i]);
      SoundParts(d, owner, i);
      ok := AppendAt(i, w);
      ShortOf(d, i, w);
      if ok {
        UpdatedViews(d, Value(), i, w);
      }
    }

    // iappend, in terms of the disk.
    method AppendAt(i: nat, w: seq<byte>) returns (ok: bool)
      requires Valid() && i < freeinode && i < |inodes| && i !in full
      modifies this`freeblock, this`usedblocks, this`blocks, this`owner, this`inodes
      ensures D.Shaped(old(Value()))
      ensures ok <==>
                var end := old(inodes[i].size) + |w|;
                end <= D.MAXFILE * BSIZE && !FallsShort(old(Value()), i, end)
      ensures ok ==>
                Valid() && Fs.Updated(old(Value()), Value(), i, old(inodes[i].size), w) && |inodes| == old(|inodes|)
    {
      hide D.Sound, D.Shaped, Wrote, Grew, FallsShort, Underway, Appending, Prefix, Unallocated, Lean, FullOk;
      ghost var d0 := Value();
      var din := inodes[i];
      var off := din.size;
      AppendingStart(i);
      ok, din := AppendAll(i, din, w, d0);
      if ok {
        FinishAppend(i, din, off, w, d0);
      }
    }

    lemma AppendingStart(i: nat)
      requires Valid() && i < |inodes| && i !in full
      ensures D.Shaped(Value()) && Value().inodes[i] == inodes[i] && 0 < freeblock
      ensures Appending(i, inodes[i], Value(), [])
    {
      hide D.Sound, D.Shaped, Underway, Appending, Prefix, Unallocated, Lean, FullOk;
      LeanUpdate(inodes, full, i, inodes[i]);
      SoundParts(Value(), owner, i);
      StartPositive(Value(), freeblock);
      UnderwayInit(Value(), owner, i, inodes[i].size);
      assert Virtual(i, inodes[i], inodes[i].size) == Value();
      AppendingIntro(i, inodes[i], Value(), []);
    }

    // The end of iappend: the inode is written back with its new size.
    method FinishAppend(i: nat, din: D.Inode, off: nat, w: seq<byte>, ghost d0: D.Disk)
      requires Appending(i, din, d0, w) && i < freeinode && i !in full
      requires Unallocated(inodes, freeinode) && FullOk(inodes, full, freeinode)
      requires i < |d0.inodes| && off == d0.inodes[i].size
      modifies this`inodes
      ensures D.Shaped(d0) && i < |d0.inodes| && |inodes| == old(|inodes|)
      ensures Valid() && Fs.Updated(d0, Value(), i, d0.inodes[i].size, w)
    {
      hide D.Sound, D.Shaped, Wrote, Grew, Underway, Appending, Prefix, Unallocated, Lean, FullOk;
      AppendingShape(i, din, d0, w);
      var end := off + |w|;
      Fs.UnderwayDone(d0, Virtual(i, din, end), owner, i, d0.inodes[i].size, w);
      var din2 := din.(size := end);
      LeanUpdate(inodes, full, i, din2);
      FullKept(inodes, full, i, din2, freeinode, freeinode);
      StillUnallocated(inodes, freeinode, i, din2);
      inodes := inodes[i := din2];
      assert Value() == old(Virtual(i, din, d0.inodes[i].size + |w|));
    }

    /** The last step of add_dir.  A directory that ends on a block boundary gets a size for which it has no block. */
    method RoundSize(i: nat)
      requires Valid() && i < freeinode && i < |inodes| && i !in full
      modifies this`inodes, this`full
      ensures Valid() && |inodes| == old(|inodes|) && Free() == old(Free())
      ensures var f := old(Files()[i]);
              && Files() == old(Files())[i := f.(content := Completed(f.content))]
              && full == old(full) + if |f.content| % BSIZE == 0 then {i} else {}
      ensures inodes == old(inodes)[i := old(inodes[i]).(size := Rounded(old(inodes[i]).size))]
    {
      hide D.Sound, D.Shaped, D.Content, FreeSet, Unallocated, Lean, FullOk;
      ghost var d := Value();
      SoundParts(d, owner, i);
      var din := inodes[i];
      LeanUpdate(inodes, full, i, din.(size := Rounded(din.size)));
      assert din.size == |D.Content(d, i)|;
      StillUnallocated(inodes, freeinode, i, din.(size := Rounded(din.size)));
      if din.size % BSIZE == 0 {
        LeanFull(inodes, full, i);
        FullMore(inodes, full, i, freeinode);
        full := full + {i};
        inodes := inodes[i := din.(size := Rounded(din.size))];
        assert Value() == d;
      } else {
        RoundingSound(d, owner, i);
        RoundedViews(d, owner, i);
        FullKept(inodes, full, i, din.(size := Rounded(din.size)), freeinode, freeinode);
        inodes := inodes[i := din.(size := Rounded(din.size))];
        assert Value() == WithSize(d, i, Rounded(din.size));
      }
    }

    // The loop of iappend.
    method AppendAll(i: nat, din0: D.Inode, w: seq<byte>, ghost d0: D.Disk) returns (ok: bool, din: D.Inode)
      requires Appending(i, din0, d0, []) && 0 < freeblock && din0.size == d0.inodes[i].size
      modifies this`freeblock, this`usedblocks, this`blocks, this`owner
      ensures D.Shaped(d0) && i < |d0.inodes|
      ensures ok <==> d0.inodes[i].size + |w| <= D.MAXFILE * BSIZE && !FallsShort(d0, i, d0.inodes[i].size + |w|)
      ensures ok ==> Appending(i, din, d0, w)
    {
      hide FallsShort, D.Shaped, D.Sound, Wrote, Grew, Underway, Appending, Fs.PartLength, Lean;
      AppendingShape(i, din0, d0, []);
      din := din0;
      var off, done := din.size, 0;
      assert w[..0] == [];
      while done < |w|
        invariant 0 <= done <= |w| && off == d0.inodes[i].size + done && 0 < freeblock
        invariant Appending(i, din, d0, w[..done])
      {
        if off / BSIZE >= D.MAXFILE {
          return false, din;
        }
        var n1 := Fs.PartLength(off, |w| - done);
        ok, din := AppendPart(i, din, off, w[done..done + n1], d0, w[..done]);
        if !ok {
          FallsShortLater(d0, i, off + n1, d0.inodes[i].size + |w|);
          return;
        }
        assert w[..done] + w[done..done + n1] == w[..done + n1];
        off, done := off + n1, done + n1;
      }
      assert w[..|w|] == w;
      AppendingShape(i, din, d0, w);
      Fs.UnderwaySpace(d0, Virtual(i, din, off), owner, i, d0.inodes[i].size, w);
      Fs.UnderwayDone(d0, Virtual(i, din, off), owner, i, d0.inodes[i].size, w);
      Fs.SoundSize(Virtual(i, din, off), owner, i);
      ok := true;
    }
  }

  /** The space that w needs behind file i, by its content. */
  lemma ShortOf(d: D.Disk, i: nat, w: seq<byte>)
    requires D.Shaped(d) && i < |d.inodes|
    ensures var c := Views(d)[i].content;
            && c == D.Content(d, i) && |c| == d.inodes[i].size && |c + w| == |c| + |w|
            && (FallsShort(d, i, |c| + |w|) <==> BlocksFor(|c + w|) > |FreeSet(d)| + BlocksFor(|c|))
  {
    hide BlocksFor, FreeSet;
  }

  lemma UpdatedViews(d: D.Disk, d2: D.Disk, i: nat, w: seq<byte>)
    requires D.Shaped(d) && i < |d.inodes| && Fs.Updated(d, d2, i, d.inodes[i].size, w)
    ensures D.Shaped(d2) && Views(d2) == Views(d)[i := View(d, i).(content := D.Content(d, i) + w)]
    ensures |FreeSet(d)| + BlocksFor(|D.Content(d, i)|) == |FreeSet(d2)| + BlocksFor(|D.Content(d, i) + w|)
  {
    hide D.Content, FreeSet, D.Shaped;
    var c := D.Content(d, i);
    assert Splice(c, |c|, w) == c + w;
    assert |D.Content(d2, i)| == d2.inodes[i].size;
    var v, v' := Views(d)[i := View(d, i).(content := c + w)], Views(d2);
    forall j | 0 <= j < |v| ensures v'[j] == v[j] {
    }
  }

  lemma StartPositive(d: D.Disk, f: nat)
    requires D.Shaped(d) && d.bits == Prefix(|d.bits|, f)
    requires exists owner :: D.Owned(d, owner)
    ensures 0 < f
  {
    var owner :| D.Owned(d, owner);
    assert d.bits[0];
  }

  /** balloc: the bitmap with the first `used` bits set, in its first block. */
  method Balloc(nbits: nat, used: nat) returns (bits: seq<bool>)
    requires used < D.BPB <= nbits
    ensures bits == Prefix(nbits, used)
  {
    bits := seq(nbits, _ => false);
    var i := 0;
    while i < used
      invariant 0 <= i <= used && bits == Prefix(nbits, i)
    {
      bits := bits[i := true];
      i := i + 1;
    }
  }
}
