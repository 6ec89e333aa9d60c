/** dirlookup and dirlink (p2b/kernel/fs.c:455-523), and the clearing of an entry by sys_unlink, against
    the map that a directory stands for. */
module FsDir {
  import opened Basics
  import opened FsBlock
  import D = FsDisk
  import opened FsMap
  import opened FsWrite
  import opened FsDirMap
  import opened Fs

  /** namecmp(s, t) == 0: strncmp over at most 14 characters. */
  method NamesEqual(name: Name, field: seq<byte>) returns (eq: bool)
    requires |field| == DIRSIZ
    ensures eq <==> Canon(field) == name
  {
    hide Canon;
    CanonUnique(field, name);
    var i := 0;
    while i < DIRSIZ && i < |name| && name[i] == field[i]
      invariant 0 <= i <= DIRSIZ && i <= |name|
      invariant forall j :: 0 <= j < i ==> field[j] == name[j]
    {
      i := i + 1;
    }
    if i == DIRSIZ {
      return true;
    }
    eq := (if i < |name| then name[i] else 0) == field[i];
  }

  /** Entry e of data block s, which dirlookup reads even behind the end of the directory: an entry of the
      directory, or zeros. */
  lemma {:induction false} BlockEntry(d: D.Disk, owner: D.Owner, i: nat, s: nat, e: nat)
    requires D.Sound(d, owner) && i < |d.inodes| && s * BSIZE < d.inodes[i].size && d.inodes[i].size % ENTRY == 0
    requires e < BSIZE / ENTRY
    ensures D.Shaped(d) && s < D.MAXFILE && D.Ptr(d, i, s) < |d.blocks|
    ensures var b, c, k := d.blocks[D.Ptr(d, i, s)], D.Content(d, i), s * (BSIZE / ENTRY) + e;
            if k < Len(c) then Inum(b, e) == Inum(c, k) && NameField(b, e) == NameField(c, k) else Inum(b, e) == 0
  {
    hide D.Shaped, D.Sound, D.Content, D.Owned, D.Ptr;
    BlockByte(d, owner, i, s, 0);
    var b, c, k := d.blocks[D.Ptr(d, i, s)], D.Content(d, i), s * (BSIZE / ENTRY) + e;
    var f := b[ENTRY * e..ENTRY * e + ENTRY];
    forall x | 0 <= x < ENTRY ensures f[x] == if k < Len(c) then c[ENTRY * k + x] else 0 {
      BlockByte(d, owner, i, s, ENTRY * e + x);
    }
    assert Inum(b, e) == Inum(f, 0);
    if k < Len(c) {
      assert f == c[ENTRY * k..ENTRY * k + ENTRY];
      assert NameField(b, e) == f[2..] == NameField(c, k);
    }
  }

  lemma {:induction false} BlockByte(d: D.Disk, owner: D.Owner, i: nat, s: nat, x: nat)
    requires D.Sound(d, owner) && i < |d.inodes| && s * BSIZE < d.inodes[i].size && x < BSIZE
    ensures D.Shaped(d) && s < D.MAXFILE && D.Ptr(d, i, s) < |d.blocks|
    ensures d.blocks[D.Ptr(d, i, s)][x]
            == if s * BSIZE + x < d.inodes[i].size then D.Content(d, i)[s * BSIZE + x] else 0
  {
    SoundParts(d, owner, i);
    D.PointersDistinct(d, owner, i, s, i, s);
    assert (s * BSIZE + x) / BSIZE == s && (s * BSIZE + x) % BSIZE == x;
    if s * BSIZE + x < d.inodes[i].size {
      assert D.Content(d, i)[s * BSIZE + x] == D.ByteAt(d, i, s * BSIZE + x);
    }
  }

  /** What dirlookup returns for an entry found in content c. */
  function Looked(c: seq<byte>, f: Found): Option<(nat, nat)>
    requires f.At? ==> f.k < Len(c)
  {
    match f
    case Absent => None
    case At(k) => Some((Inum(c, k), ENTRY * k))
  }

  /** dirlookup in bytes: the first entry in use that carries the name, with its number and its offset. */
  lemma {:induction false} LookupMeaning(c: seq<byte>, n: Name)
    requires |c| % 16 == 0
    ensures match Looked(c, Find(c, n, 0))
            case Some((i, o)) =>
              && o % 16 == 0 && Carries(c, o, n) && i == c[o] as int + 256 * c[o + 1] as int
              && forall p :: 0 <= p < o && p % 16 == 0 ==> !Carries(c, p, n)
            case None => forall p: nat :: p % 16 == 0 ==> !Carries(c, p, n)
  {
    hide Names, Carries, Inum;
    forall k: nat | k < Len(c)
      ensures Names(c, k, n) <==> Carries(c, 16 * k, n)
      ensures 16 * k + 16 <= |c| && Inum(c, k) == c[16 * k] as int + 256 * c[16 * k + 1] as int
    {
      NamesCarries(c, k, n);
    }
    forall p: nat | p % 16 == 0 ensures p == 16 * (p / 16) && (Carries(c, p, n) ==> p / 16 < Len(c)) {
      CarriesInside(c, p, n);
    }
  }

  lemma CarriesInside(c: seq<byte>, p: nat, n: Name)
    requires p % 16 == 0
    ensures p == 16 * (p / 16) && (Carries(c, p, n) ==> p / 16 < Len(c))
  {
  }

  /** No entry before k carries the name. */
  ghost predicate NoneBefore(c: seq<byte>, n: seq<byte>, k: nat) {
    forall j :: 0 <= j < Len(c) && j < k ==> !Names(c, j, n)
  }

  lemma NoneStart(c: seq<byte>, n: seq<byte>)
    ensures NoneBefore(c, n, 0)
  {
  }

  lemma NoneNext(c: seq<byte>, n: seq<byte>, k: nat, b: Block, e: nat)
    requires NoneBefore(c, n, k) && e < BSIZE / ENTRY && (Inum(b, e) != 0 ==> Canon(NameField(b, e)) != n)
    requires k < Len(c) ==> Inum(b, e) == Inum(c, k) && NameField(b, e) == NameField(c, k)
    ensures NoneBefore(c, n, k + 1)
  {
    forall j | 0 <= j < Len(c) && j < k + 1 ensures !Names(c, j, n) {
      if j == k {
        assert NameField(b, e) == NameField(c, k);
      }
    }
  }

  lemma FirstIs(c: seq<byte>, n: seq<byte>, k: nat, b: Block, e: nat)
    requires NoneBefore(c, n, k) && e < BSIZE / ENTRY && Inum(b, e) != 0 && Canon(NameField(b, e)) == n
    requires k < Len(c) && Inum(b, e) == Inum(c, k) && NameField(b, e) == NameField(c, k)
    ensures Find(c, n, 0) == At(k)
  {
    hide Inum, Canon, Find;
    assert NameField(b, e) == NameField(c, k);
    assert Names(c, k, n);
  }

  lemma NoneFound(c: seq<byte>, n: seq<byte>, k: nat)
    requires NoneBefore(c, n, k) && k * ENTRY >= |c|
    ensures Find(c, n, 0) == Absent
  {
    hide Names, Find;
  }

  /** dirlookup: the inode number and the byte offset of the entry. */
  method Dirlookup(fs: FileSystem, dp: Inode, name: Name) returns (r: Option<(nat, nat)>)
    requires fs.Valid() && fs.Coherent(dp) && dp.size % ENTRY == 0
    modifies fs`bits, fs`blocks, dp`addrs
    ensures fs.Value() == old(fs.Value()) && dp.Value() == old(dp.Value())
    ensures D.Shaped(old(fs.Value()))
    ensures var c := D.Content(old(fs.Value()), dp.inum);
            r == Looked(c, Find(c, name, 0))
  {
    hide D.Sound, D.Shaped, D.Content, Inum, NameField, Canon, Find, Names, NoneBefore;
    ghost var d, v, i := fs.Value(), dp.Value(), dp.inum;
    SoundParts(d, fs.owner, i);
    ghost var c := D.Content(d, i);
    NoneStart(c, name);
    var off := 0;
    ghost var s := 0;
    while off < dp.size
      invariant fs.Value() == d && dp.Value() == v && D.Sound(d, fs.owner)
      invariant off == BSIZE * s && NoneBefore(c, name, s * (BSIZE / ENTRY))
    {
      var b := ReadBlock(fs, dp, off / BSIZE);
      var e := 0;
      while e < BSIZE / ENTRY
        invariant 0 <= e <= BSIZE / ENTRY && fs.Value() == d && dp.Value() == v
        invariant NoneBefore(c, name, s * (BSIZE / ENTRY) + e)
      {
        BlockEntry(d, fs.owner, i, s, e);
        if Inum(b, e) != 0 {
          var eq := NamesEqual(name, NameField(b, e));
          if eq {
            FirstIs(c, name, s * (BSIZE / ENTRY) + e, b, e);
            return Some((Inum(b, e), off + ENTRY * e));
          }
        }
        NoneNext(c, name, s * (BSIZE / ENTRY) + e, b, e);
        e := e + 1;
      }
      off := off + BSIZE;
      s := s + 1;
    }
    NoneFound(c, name, s * (BSIZE / ENTRY));
    r := None;
  }

  // bread(dp->dev, bmap(dp, s)) for a block of the directory: the bytes of the block.
  method ReadBlock(fs: FileSystem, dp: Inode, s: nat) returns (b: Block)
    requires fs.Valid() && fs.Coherent(dp) && s * BSIZE < dp.size
    modifies fs`bits, fs`blocks, dp`addrs
    ensures fs.Value() == old(fs.Value()) && dp.Value() == old(dp.Value())
    ensures var d := old(fs.Value());
            && D.Shaped(d) && s < D.MAXFILE && D.Ptr(d, dp.inum, s) < |d.blocks|
            && b == d.blocks[D.Ptr(d, dp.inum, s)]
  {
    hide D.Sound, D.Shaped, Bmap, D.Ptr;
    ghost var d := fs.Value();
    ReadFacts(d, fs.owner, dp.inum, s * BSIZE);
    AddrsLength(d, dp.inum);
    assert fs.Virtual(dp, dp.size) == d;
    var addr := fs.BmapBlock(dp, s, dp.size);
    assert fs.Virtual(dp, dp.size) == d;
    assert fs.Value().inodes == d.inodes;
    assert fs.inodes[dp.inum] == fs.Virtual(dp, dp.size).inodes[dp.inum];
    b := fs.blocks[addr.value];
  }

  datatype LinkResult = Exists | Linked | Full | OutOfSpace

  /** From d to d2, the content of directory i became c2, and no other file changed. */
  ghost predicate DirChanged(d: D.Disk, d2: D.Disk, i: nat, c2: seq<byte>)
    requires D.Shaped(d) && D.Shaped(d2) && i < |d.inodes| == |d2.inodes|
  {
    && D.Content(d2, i) == c2 && OthersSame(d, d2, i)
    && d2.inodes[i].kind == d.inodes[i].kind && d2.inodes[i].nlink == d.inodes[i].nlink
  }

  /** dirlink.  Full stands for the panic on a directory of the largest size, OutOfSpace for a full disk. */
  method Dirlink(fs: FileSystem, dp: Inode, name: Name, inum: nat) returns (r: LinkResult)
    requires fs.Valid() && fs.Coherent(dp) && dp.size % ENTRY == 0 && dp.kind != T_DEV
    modifies fs`bits, fs`blocks, fs`inodes, fs`owner, dp`addrs, dp`size
    ensures D.Shaped(old(fs.Value()))
    ensures var d := old(fs.Value());
            var c := D.Content(d, dp.inum);
            var slot := FreeSlot(c, 0);
            && (r == if Find(c, name, 0).At? then Exists
                     else if ENTRY * slot >= D.MAXFILE * BSIZE then Full
                     else if FallsShort(d, dp.inum, ENTRY * slot + ENTRY) then OutOfSpace
                     else Linked)
            && (r.Exists? ==> fs.Value() == d && dp.Value() == old(dp.Value()))
            && (r.Linked? ==>
                  && fs.Valid() && fs.Coherent(dp) && |fs.Value().inodes| == |d.inodes|
                  && DirChanged(d, fs.Value(), dp.inum, Splice(c, ENTRY * slot, Entry(name, inum))))
  {
    hide D.Sound, D.Shaped, D.Content, DirChanged, Find, FreeSlot, Updated, FallsShort, Inum;
    ghost var d, i := fs.Value(), dp.inum;
    SoundSize(d, fs.owner, i);
    ghost var c := D.Content(d, i);
    var found := Dirlookup(fs, dp, name);
    if found.Some? {
      return Exists;
    }
    var off := FreeOffset(fs, dp);
    SlotFits(c);
    var w := fs.Writei(dp, Entry(name, inum), off);
    match w
    case Written(n) =>
      if n != ENTRY {
        return Full;
      }
      assert Entry(name, inum)[..ENTRY] == Entry(name, inum);
      UpdatedDirectory(d, fs.Value(), i, off, Entry(name, inum));
      r := Linked;
    case NoSpace =>
      r := if off >= D.MAXFILE * BSIZE then Full else OutOfSpace;
    case _ =>
      assert false;
      r := Full;
  }

  // The search for an empty dirent: its offset, or the size of the directory.
  method FreeOffset(fs: FileSystem, dp: Inode) returns (off: nat)
    requires fs.Valid() && fs.Coherent(dp) && dp.size % ENTRY == 0 && dp.kind != T_DEV
    modifies fs`bits, fs`blocks, dp`addrs
    ensures fs.Value() == old(fs.Value()) && dp.Value() == old(dp.Value())
    ensures D.Shaped(old(fs.Value())) && off == ENTRY * FreeSlot(D.Content(old(fs.Value()), dp.inum), 0)
  {
    hide D.Sound, D.Shaped, D.Content, Inum;
    ghost var d, v, i := fs.Value(), dp.Value(), dp.inum;
    SoundSize(d, fs.owner, i);
    ghost var c := D.Content(d, i);
    off := 0;
    while off < dp.size
      invariant fs.Value() == d && dp.Value() == v && D.Sound(d, fs.owner)
      invariant off % ENTRY == 0 && off <= dp.size
      invariant FreeSlot(c, 0) == FreeSlot(c, off / ENTRY)
    {
      var e := fs.Readi(dp, off, ENTRY);
      EntryAt(c, off / ENTRY);
      if Inum(e.bytes, 0) == 0 {
        break;
      }
      off := off + ENTRY;
    }
  }

  lemma {:induction false} EntryAt(c: seq<byte>, k: nat)
    requires k < Len(c)
    ensures Inum(c[ENTRY * k..ENTRY * k + ENTRY], 0) == Inum(c, k)
  {
  }

  lemma {:induction false} SlotFits(c: seq<byte>)
    ensures ENTRY * FreeSlot(c, 0) <= |c|
  {
  }

  lemma UpdatedDirectory(d: D.Disk, d2: D.Disk, i: nat, off: nat, e: seq<byte>)
    requires D.Shaped(d) && i < |d.inodes| && off <= d.inodes[i].size && Updated(d, d2, i, off, e)
    ensures D.Shaped(d2) && |d2.inodes| == |d.inodes| && DirChanged(d, d2, i, Splice(D.Content(d, i), off, e))
  {
  }

  /** sys_unlink's write over the entry at off (p2b/kernel/sysfile.c:198-200): it never needs space. */
  method ClearEntry(fs: FileSystem, dp: Inode, off: nat)
    requires fs.Valid() && fs.Coherent(dp) && dp.kind != T_DEV && off + ENTRY <= dp.size
    modifies fs`bits, fs`blocks, fs`inodes, fs`owner, dp`addrs, dp`size
    ensures fs.Valid() && fs.Coherent(dp) && D.Shaped(old(fs.Value())) && |fs.inodes| == |old(fs.inodes)|
    ensures DirChanged(old(fs.Value()), fs.Value(), dp.inum, Splice(D.Content(old(fs.Value()), dp.inum), off, NO_ENTRY))
  {
    hide D.Sound, D.Shaped, D.Content, DirChanged, Updated;
    ghost var d, i := fs.Value(), dp.inum;
    SoundSize(d, fs.owner, i);
    var w := fs.Writei(dp, NO_ENTRY, off);
    assert NO_ENTRY[..ENTRY] == NO_ENTRY;
    UpdatedDirectory(d, fs.Value(), i, off, NO_ENTRY);
  }
}
