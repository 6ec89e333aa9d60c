/** The directories of a disk as the tree of `Links`: what dirlink and the clearing of an entry do to the bytes of a
    directory is what the steps of `LinkRuns` do to the tree (p2b/kernel/fs.c:495-523, p2b/kernel/sysfile.c:164-210). */
module FsLinks {
  import opened Basics
  import D = FsDisk
  import opened FsWrite
  import opened FsDirMap
  import opened Fs
  import FsDir
  import L = Links
  import R = LinkRuns

  function KindOf(kind: int): L.Kind {
    if kind == 0 then L.FREE else if kind == T_DIR then L.DIR else if kind == T_DEV then L.DEV else L.FILE
  }

  predicate IsDot(n: seq<byte>) {
    n == DOT || n == DOT_DOT
  }

  /** The entries of all directories, without "." and "..". */
  ghost function Keys(d: D.Disk): set<L.Key>
    requires D.Shaped(d)
  {
    set i, n | 0 <= i < |d.inodes| && n in Children(d, i) :: (i, n)
  }

  ghost function Children(d: D.Disk, i: nat): set<seq<byte>>
    requires D.Shaped(d) && i < |d.inodes|
  {
    if d.inodes[i].kind != T_DIR then {} else set n | n in DirMap(D.Content(d, i)) && !IsDot(n)
  }

  ghost function Entries(d: D.Disk): map<L.Key, nat>
    requires D.Shaped(d)
  {
    map k | k in Keys(d) :: if k.0 < |d.inodes| then InumOf(D.Content(d, k.0), k.1) else 0
  }

  ghost function Inodes(d: D.Disk): seq<L.Inode> {
    seq(|d.inodes|, (i: nat) requires i < |d.inodes| => L.Inode(KindOf(d.inodes[i].kind), d.inodes[i].nlink))
  }

  /** The tree on the disk. */
  ghost function Tree(d: D.Disk): L.Disk
    requires D.Shaped(d)
  {
    L.Disk(Inodes(d), Entries(d))
  }

  /** Inode i is a directory without two entries of one name. */
  ghost predicate DirOk(d: D.Disk, i: nat) {
    && D.Shaped(d) && i < |d.inodes| && d.inodes[i].kind == T_DIR
    && |D.Content(d, i)| % ENTRY == 0 && OneEach(D.Content(d, i))
  }

  lemma KeyMeaning(d: D.Disk, k: L.Key)
    requires D.Shaped(d)
    ensures k in Entries(d)
            <==> k.0 < |d.inodes| && d.inodes[k.0].kind == T_DIR && !IsDot(k.1) && k.1 in DirMap(D.Content(d, k.0))
    ensures k in Entries(d) ==> Entries(d)[k] == DirMap(D.Content(d, k.0))[k.1]
  {
    if k.0 < |d.inodes| && k.1 in Children(d, k.0) {
      assert k in Keys(d);
    }
  }

  /** From d to d2 only directory i changed, and its map became m2. */
  ghost predicate MapChanged(d: D.Disk, d2: D.Disk, i: nat, m2: map<seq<byte>, nat>) {
    && D.Shaped(d) && D.Shaped(d2) && i < |d.inodes| == |d2.inodes| && d.inodes[i].kind == T_DIR
    && FsDir.DirChanged(d, d2, i, D.Content(d2, i)) && DirMap(D.Content(d2, i)) == m2
  }

  lemma OthersKeep(d: D.Disk, d2: D.Disk, i: nat, m2: map<seq<byte>, nat>, k: L.Key)
    requires MapChanged(d, d2, i, m2) && k.0 != i
    ensures k in Entries(d2) <==> k in Entries(d)
    ensures k in Entries(d) ==> Entries(d2)[k] == Entries(d)[k]
  {
    hide D.Shaped, D.Content, DirMap, Entries;
    KeyMeaning(d, k);
    KeyMeaning(d2, k);
  }

  lemma OwnEntry(d: D.Disk, d2: D.Disk, i: nat, m2: map<seq<byte>, nat>, n: seq<byte>)
    requires MapChanged(d, d2, i, m2)
    ensures (i, n) in Entries(d2) <==> !IsDot(n) && n in m2
    ensures (i, n) in Entries(d2) ==> Entries(d2)[(i, n)] == m2[n]
    ensures (i, n) in Entries(d) <==> !IsDot(n) && n in DirMap(D.Content(d, i))
    ensures (i, n) in Entries(d) ==> Entries(d)[(i, n)] == DirMap(D.Content(d, i))[n]
  {
    hide D.Shaped, D.Content, DirMap, Entries;
    KeyMeaning(d, (i, n));
    KeyMeaning(d2, (i, n));
  }

  lemma SameInodes(d: D.Disk, d2: D.Disk, i: nat, m2: map<seq<byte>, nat>)
    requires MapChanged(d, d2, i, m2)
    ensures Inodes(d2) == Inodes(d)
  {
    hide D.Shaped, D.Content, DirMap;
    forall j: nat | j < |d.inodes| ensures Inodes(d2)[j] == Inodes(d)[j] {
    }
  }

  lemma EntriesAdded(d: D.Disk, d2: D.Disk, i: nat, n: seq<byte>, inum: nat)
    requires D.Shaped(d) && D.Shaped(d2) && i < |d.inodes| && !IsDot(n)
    requires MapChanged(d, d2, i, DirMap(D.Content(d, i))[n := inum])
    ensures Entries(d2) == Entries(d)[(i, n) := inum]
  {
    hide D.Shaped, D.Content, DirMap, Entries, MapChanged;
    var m2 := DirMap(D.Content(d, i))[n := inum];
    forall k: L.Key
      ensures k in Entries(d2) <==> k == (i, n) || k in Entries(d)
      ensures k in Entries(d2) ==> Entries(d2)[k] == if k == (i, n) then inum else Entries(d)[k]
    {
      if k.0 == i {
        OwnEntry(d, d2, i, m2, k.1);
      } else {
        OthersKeep(d, d2, i, m2, k);
      }
    }
  }

  lemma EntriesDropped(d: D.Disk, d2: D.Disk, i: nat, n: seq<byte>)
    requires D.Shaped(d) && D.Shaped(d2) && i < |d.inodes|
    requires MapChanged(d, d2, i, DirMap(D.Content(d, i)) - {n})
    ensures Entries(d2) == Entries(d) - {(i, n)}
  {
    hide D.Shaped, D.Content, DirMap, Entries, MapChanged;
    var m2 := DirMap(D.Content(d, i)) - {n};
    forall k: L.Key
      ensures k in Entries(d2) <==> k != (i, n) && k in Entries(d)
      ensures k in Entries(d2) ==> Entries(d2)[k] == Entries(d)[k]
    {
      if k.0 == i {
        OwnEntry(d, d2, i, m2, k.1);
      } else {
        OthersKeep(d, d2, i, m2, k);
      }
    }
  }

  /** dirlink of a new name adds exactly this entry to the tree. */
  lemma EnterTree(d: D.Disk, d2: D.Disk, i: nat, n: Name, inum: nat)
    requires DirOk(d, i) && D.Shaped(d2) && |d2.inodes| == |d.inodes| && !IsDot(n) && 0 < inum < 65536
    requires var c := D.Content(d, i);
             Find(c, n, 0) == Absent && FsDir.DirChanged(d, d2, i, Splice(c, ENTRY * FreeSlot(c, 0), Entry(n, inum)))
    ensures (i, n) !in Tree(d).entries && Tree(d2) == Tree(d).(entries := Tree(d).entries[(i, n) := inum])
    ensures DirOk(d2, i)
  {
    hide D.Shaped, D.Content, DirMap, Entries, OneEach, Find, FreeSlot;
    var c := D.Content(d, i);
    LinkMap(c, n, inum);
    var m2 := DirMap(c)[n := inum];
    assert MapChanged(d, d2, i, m2);
    OwnEntry(d, d2, i, m2, n);
    SameInodes(d, d2, i, m2);
    EntriesAdded(d, d2, i, n, inum);
  }

  /** Clearing the entry of a name removes exactly this entry from the tree. */
  lemma ClearTree(d: D.Disk, d2: D.Disk, i: nat, n: seq<byte>, k: nat)
    requires DirOk(d, i) && D.Shaped(d2) && |d2.inodes| == |d.inodes|
    requires var c := D.Content(d, i);
             Find(c, n, 0) == At(k) && FsDir.DirChanged(d, d2, i, Splice(c, ENTRY * k, NO_ENTRY))
    ensures Tree(d2) == Tree(d).(entries := Tree(d).entries - {(i, n)}) && DirOk(d2, i)
  {
    hide D.Shaped, D.Content, DirMap, Entries, OneEach, Find;
    var c := D.Content(d, i);
    UnlinkMap(c, n, k);
    var m2 := DirMap(c) - {n};
    assert MapChanged(d, d2, i, m2);
    SameInodes(d, d2, i, m2);
    EntriesDropped(d, d2, i, n);
  }

  /** A name that dirlookup finds is an entry of the tree, with the inode number that dirlookup returns. */
  lemma FoundEntry(d: D.Disk, i: nat, n: seq<byte>)
    requires DirOk(d, i) && !IsDot(n)
    ensures (i, n) in Tree(d).entries <==> Find(D.Content(d, i), n, 0).At?
    ensures var r := Find(D.Content(d, i), n, 0);
            r.At? ==> Tree(d).entries[(i, n)] == Inum(D.Content(d, i), r.k)
  {
    hide D.Shaped, D.Content, Entries, NamesOf, Find, Inum, OneEach;
    KeyMeaning(d, (i, n));
    NamesOfMeaning(D.Content(d, i), n);
  }

  /** isdirempty looks behind the first two entries. */
  ghost predicate EmptyFrom2(c: seq<byte>) {
    forall k :: 2 <= k < Len(c) ==> Inum(c, k) == 0
  }

  /** A directory that starts with "." and ".." and is empty from there on has no entry in the tree. */
  lemma EmptyMeaning(d: D.Disk, i: nat)
    requires DirOk(d, i)
    requires var c := D.Content(d, i); Len(c) >= 2 && Names(c, 0, DOT) && Names(c, 1, DOT_DOT)
    ensures EmptyFrom2(D.Content(d, i)) <==> R.EmptyDir(Tree(d), i)
  {
    hide D.Shaped, D.Content, Entries, NamesOf, Find, Inum, NameField, Canon;
    var c := D.Content(d, i);
    if EmptyFrom2(c) {
      forall k | k in Tree(d).entries ensures k.0 != i {
        KeyMeaning(d, k);
        if k.0 == i {
          NamesOfMeaning(c, k.1);
          assert false;
        }
      }
    } else {
      var k :| 2 <= k < Len(c) && Inum(c, k) != 0;
      var n := Canon(NameField(c, k));
      FindIs(c, n, k);
      NamesOfMeaning(c, n);
      KeyMeaning(d, (i, n));
    }
  }

  /** isdirempty. */
  method IsDirEmpty(fs: FileSystem, dp: Inode) returns (empty: bool)
    requires fs.Valid() && fs.Coherent(dp) && dp.size % ENTRY == 0 && dp.kind != T_DEV
    modifies fs`bits, fs`blocks, dp`addrs
    ensures fs.Value() == old(fs.Value()) && dp.Value() == old(dp.Value())
    ensures D.Shaped(old(fs.Value())) && (empty <==> EmptyFrom2(D.Content(old(fs.Value()), dp.inum)))
  {
    hide D.Sound, D.Shaped, D.Content, Inum;
    ghost var d, v, i := fs.Value(), dp.Value(), dp.inum;
    SoundSize(d, fs.owner, i);
    ghost var c := D.Content(d, i);
    var off := 2 * ENTRY;
    while off < dp.size
      invariant fs.Value() == d && dp.Value() == v && D.Sound(d, fs.owner)
      invariant off % ENTRY == 0
      invariant forall k :: 2 <= k < Len(c) && k < off / ENTRY ==> Inum(c, k) == 0
    {
      var e := fs.Readi(dp, off, ENTRY);
      FsDir.EntryAt(c, off / ENTRY);
      if Inum(e.bytes, 0) != 0 {
        return false;
      }
      off := off + ENTRY;
    }
    empty := true;
  }

  // ------------------------------------------------------------------ link counts

  function WithCount(d: D.Disk, i: nat, n: int): D.Disk
    requires i < |d.inodes|
  {
    d.(inodes := d.inodes[i := d.inodes[i].(nlink := n)])
  }

  lemma CountPtr(d: D.Disk, i: nat, n: int, j: nat, s: nat)
    requires D.Shaped(d) && i < |d.inodes| && j < |d.inodes| && s <= D.INDIRECT
    ensures D.Shaped(WithCount(d, i, n)) && D.Ptr(WithCount(d, i, n), j, s) == D.Ptr(d, j, s)
  {
  }

  lemma CountKeeps(d: D.Disk, i: nat, n: int, j: nat)
    requires D.Shaped(d) && i < |d.inodes| && j < |d.inodes|
    ensures D.Shaped(WithCount(d, i, n)) && D.Content(WithCount(d, i, n), j) == D.Content(d, j)
    ensures D.Exact(d, j) && D.TailIsZero(d, j)
            ==> D.Exact(WithCount(d, i, n), j) && D.TailIsZero(WithCount(d, i, n), j)
  {
    hide D.Shaped, D.Ptr;
    CountPtr(d, i, n, j, 0);
    forall s: nat | s <= D.INDIRECT ensures D.Ptr(WithCount(d, i, n), j, s) == D.Ptr(d, j, s) {
      CountPtr(d, i, n, j, s);
    }
    forall k | 0 <= k < d.inodes[j].size ensures D.ByteAt(WithCount(d, i, n), j, k) == D.ByteAt(d, j, k) {
    }
  }

  lemma CountOwned(d: D.Disk, owner: D.Owner, i: nat, n: int)
    requires D.Shaped(d) && D.Owned(d, owner) && i < |d.inodes|
    ensures D.Shaped(WithCount(d, i, n)) && D.Owned(WithCount(d, i, n), owner)
  {
    hide D.Shaped, D.Ptr;
    CountPtr(d, i, n, i, 0);
    forall j: nat, s: nat | j < |d.inodes| && s <= D.INDIRECT
      ensures D.Ptr(WithCount(d, i, n), j, s) == D.Ptr(d, j, s)
    {
      CountPtr(d, i, n, j, s);
    }
  }

  lemma CountSound(d: D.Disk, owner: D.Owner, i: nat, n: int)
    requires D.Sound(d, owner) && i < |d.inodes|
    ensures D.Sound(WithCount(d, i, n), owner)
  {
    hide D.Shaped, D.Owned, D.Exact, D.TailIsZero;
    CountOwned(d, owner, i, n);
    forall j | 0 <= j < |d.inodes| ensures D.Exact(WithCount(d, i, n), j) && D.TailIsZero(WithCount(d, i, n), j) {
      CountKeeps(d, i, n, j);
    }
  }

  /** A changed link count changes this count in the tree, and nothing else. */
  lemma CountTree(d: D.Disk, i: nat, n: int)
    requires D.Shaped(d) && i < |d.inodes|
    ensures D.Shaped(WithCount(d, i, n)) && Tree(WithCount(d, i, n)) == L.WithLinks(Tree(d), i, n)
  {
    hide D.Shaped, D.Content, Entries;
    var d2 := WithCount(d, i, n);
    CountKeeps(d, i, n, i);
    assert Inodes(d2) == L.WithLinks(Tree(d), i, n).inodes;
    forall k: L.Key
      ensures k in Entries(d2) <==> k in Entries(d)
      ensures k in Entries(d2) ==> Entries(d2)[k] == Entries(d)[k]
    {
      KeyMeaning(d, k);
      KeyMeaning(d2, k);
      if k.0 < |d.inodes| {
        CountKeeps(d, i, n, k.0);
      }
    }
  }

  /** ip->nlink = n; iupdate(ip). */
  method SetLinks(fs: FileSystem, ip: Inode, n: int)
    requires fs.Valid() && fs.Coherent(ip)
    modifies fs`inodes, ip`nlink
    ensures fs.Valid() && fs.Coherent(ip) && D.Shaped(old(fs.Value()))
    ensures fs.Value() == WithCount(old(fs.Value()), ip.inum, n)
    ensures Tree(fs.Value()) == L.WithLinks(Tree(old(fs.Value())), ip.inum, n)
  {
    hide D.Sound, D.Shaped, Tree;
    ghost var d := fs.Value();
    SoundSize(d, fs.owner, ip.inum);
    CountTree(d, ip.inum, n);
    CountSound(d, fs.owner, ip.inum, n);
    ip.nlink := n;
    fs.Iupdate(ip);
  }

  // ------------------------------------------------------------------ the steps

  /** The state after a write to directory i that ends in disk d. */
  ghost function Now(s: R.State, d: D.Disk): R.State
    requires D.Shaped(d)
  {
    s.(disk := Tree(d))
  }

  /** Process p writes the entry that its call still has to write. */
  lemma EnterStep(s: R.State, p: nat, d: D.Disk, d2: D.Disk, i: nat, n: seq<byte>)
    requires D.Shaped(d) && D.Shaped(d2) && s.disk == Tree(d) && p in s.calls && s.calls[p].Adding?
    requires (i, n) !in Tree(d).entries
    requires Tree(d2) == Tree(d).(entries := Tree(d).entries[(i, n) := s.calls[p].i])
    ensures R.Step(s, R.Enter(p, i, n), Now(s, d2).(calls := s.calls - {p}))
  {
    hide D.Shaped, Tree;
  }

  /** The step of sys_unlink that removes entry k, and the state it leads to. */
  ghost function Removal(s: R.State, p: nat, k: L.Key): R.Action
    requires k in s.disk.entries && s.disk.entries[k] < |s.disk.inodes|
  {
    if s.disk.inodes[s.disk.entries[k]].kind == L.DIR then R.RemoveDir(k.0, k.1) else R.Remove(p, k.0, k.1)
  }

  ghost function Removed(s: R.State, p: nat, k: L.Key, d2: D.Disk): R.State
    requires D.Shaped(d2) && k in s.disk.entries && s.disk.entries[k] < |s.disk.inodes|
  {
    var i := s.disk.entries[k];
    if s.disk.inodes[i].kind == L.DIR then Now(s, d2).(removed := s.removed + {i})
    else Now(s, d2).(calls := s.calls[p := R.Removing(i)])
  }

  /** What sys_unlink has checked before it clears the entry k: the inode is in use, and empty if a directory. */
  ghost predicate Removable(s: R.State, k: L.Key) {
    k in s.disk.entries ==>
      var i := s.disk.entries[k];
      && i < |s.disk.inodes| && s.disk.inodes[i].kind != L.FREE
      && (s.disk.inodes[i].kind == L.DIR ==> R.EmptyDir(s.disk, i))
  }

  lemma RemovalStep(s: R.State, p: nat, d: D.Disk, d2: D.Disk, k: L.Key)
    requires D.Shaped(d) && D.Shaped(d2) && s.disk == Tree(d) && p !in s.calls
    requires k in s.disk.entries && Removable(s, k)
    requires Tree(d2) == Tree(d).(entries := Tree(d).entries - {k})
    ensures R.Step(s, Removal(s, p, k), Removed(s, p, k, d2))
  {
    hide D.Shaped, Tree, R.EmptyDir;
  }

  /** dirlink on the disk is the step Enter on the tree, and finds the name taken exactly when the tree has it. */
  method Dirlink(fs: FileSystem, dp: Inode, name: Name, inum: nat, ghost s: R.State, ghost p: nat)
    returns (r: FsDir.LinkResult)
    requires fs.Valid() && fs.Coherent(dp) && DirOk(fs.Value(), dp.inum) && !IsDot(name) && 0 < inum < 65536
    requires s.disk == Tree(fs.Value()) && p in s.calls && s.calls[p].Adding? && s.calls[p].i == inum
    modifies fs`bits, fs`blocks, fs`inodes, fs`owner, dp`addrs, dp`size
    ensures r.Exists? <==> (dp.inum, name) in s.disk.entries
    ensures r.Exists? ==> fs.Value() == old(fs.Value())
    ensures r.Linked? ==>
              && fs.Valid() && fs.Coherent(dp) && DirOk(fs.Value(), dp.inum)
              && R.Step(s, R.Enter(p, dp.inum, name), Now(s, fs.Value()).(calls := s.calls - {p}))
  {
    hide D.Sound, D.Shaped, D.Content, Tree, OneEach, R.Step, Find, FreeSlot, FsDir.DirChanged;
    ghost var d := fs.Value();
    FoundEntry(d, dp.inum, name);
    r := FsDir.Dirlink(fs, dp, name, inum);
    if r.Linked? {
      SoundSize(fs.Value(), fs.owner, dp.inum);
      EnterTree(d, fs.Value(), dp.inum, name, inum);
      EnterStep(s, p, d, fs.Value(), dp.inum, name);
    }
  }

  /** dirlookup and the clearing of the entry it found, as sys_unlink does them: the step Remove or RemoveDir. */
  method Unlink(fs: FileSystem, dp: Inode, name: Name, ghost s: R.State, ghost p: nat) returns (r: Option<nat>)
    requires fs.Valid() && fs.Coherent(dp) && DirOk(fs.Value(), dp.inum) && !IsDot(name)
    requires s.disk == Tree(fs.Value()) && p !in s.calls && Removable(s, (dp.inum, name))
    modifies fs`bits, fs`blocks, fs`inodes, fs`owner, dp`addrs, dp`size
    ensures fs.Valid() && fs.Coherent(dp) && DirOk(fs.Value(), dp.inum)
    ensures var k := (dp.inum, name);
            && r == (if k in s.disk.entries then Some(s.disk.entries[k]) else None)
            && (r.None? ==> fs.Value() == old(fs.Value()))
            && (r.Some? ==> R.Step(s, Removal(s, p, k), Removed(s, p, k, fs.Value())))
  {
    hide D.Sound, D.Shaped, D.Content, Tree, OneEach, R.Step, Find, Inum, FsDir.DirChanged;
    ghost var d := fs.Value();
    FoundEntry(d, dp.inum, name);
    var found := FsDir.Dirlookup(fs, dp, name);
    if found.None? {
      return None;
    }
    FsDir.ClearEntry(fs, dp, found.value.1);
    SoundSize(fs.Value(), fs.owner, dp.inum);
    ClearTree(d, fs.Value(), dp.inum, name, Find(D.Content(d, dp.inum), name, 0).k);
    RemovalStep(s, p, d, fs.Value(), (dp.inum, name));
    r := Some(found.value.0);
  }
}
