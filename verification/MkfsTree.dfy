/** Copying a host directory tree onto a fresh image (add_dir and main of p2b/tools/mkfs.c). */
module MkfsTree {
  import opened Basics
  import opened FsBlock
  import D = FsDisk
  import opened FsMap
  import opened FsWrite
  import opened FsDirMap
  import opened Mkfs

  const MAXBYTES := 71680   // MAXFILE * BSIZE

  type HostName = n: seq<byte> | forall i :: 0 <= i < |n| ==> n[i] != 0

  /** A tree of files on the host, as opendir, readdir and read present it. */
  datatype Host = File(name: HostName, bytes: seq<byte>) | Dir(name: HostName, entries: seq<Host>)

  /** strncpy keeps the first 14 bytes of a name. */
  function Cut(n: HostName): (c: Name)
    ensures c <= n && |c| == if |n| > 14 then 14 else |n|
  {
    if |n| <= DIRSIZ then n else n[..DIRSIZ]
  }

  /** The inodes that a tree takes. */
  function Count(h: Host): (n: nat)
    ensures n > 0
    decreases h
  {
    match h
    case File(_, _) => 1
    case Dir(_, es) => 1 + CountAll(es)
  }

  function CountAll(es: seq<Host>): nat
    decreases es
  {
    if es == [] then 0 else CountAll(es[..|es| - 1]) + Count(es[|es| - 1])
  }

  /** The bytes of a directory before its size is rounded: ".", "..", and an entry for each host entry. */
  function Entries(es: seq<Host>, first: nat): (b: seq<byte>)
    ensures |b| == ENTRY * |es|
  {
    if es == [] then [] else
    Entries(es[..|es| - 1], first) + Entry(Cut(es[|es| - 1].name), first + CountAll(es[..|es| - 1]))
  }

  function DirBytes(es: seq<Host>, cur: nat, parent: nat, first: nat): (b: seq<byte>)
    ensures |b| == ENTRY * (|es| + 2)
  {
    Entry(DOT, cur) + Entry(DOT_DOT, parent) + Entries(es, first)
  }

  /** The files v hold the host tree h at inode i, inodes numbered in the order of the walk. */
  ghost predicate Holds(v: seq<FileView>, h: Host, i: nat, parent: nat)
    decreases h
  {
    i < |v| &&
    match h
    case File(_, bytes) => v[i] == FileView(T_FILE, 1, bytes)
    case Dir(_, es) =>
      v[i] == FileView(T_DIR, 1, Completed(DirBytes(es, i, parent, i + 1))) && HoldsAll(v, es, i, i + 1)
  }

  ghost predicate HoldsAll(v: seq<FileView>, es: seq<Host>, parent: nat, first: nat)
    decreases es
  {
    es != [] ==>
      && HoldsAll(v, es[..|es| - 1], parent, first)
      && Holds(v, es[|es| - 1], first + CountAll(es[..|es| - 1]), parent)
  }

  ghost predicate SameOn(v: seq<FileView>, v': seq<FileView>, lo: nat, hi: nat) {
    |v| == |v'| && forall j :: lo <= j < hi && j < |v| ==> v'[j] == v[j]
  }

  lemma {:induction false} HoldsFrame(v: seq<FileView>, v': seq<FileView>, h: Host, i: nat, parent: nat)
    requires Holds(v, h, i, parent) && SameOn(v, v', i, i + Count(h))
    ensures Holds(v', h, i, parent)
    decreases h
  {
    match h
    case File(_, _) =>
    case Dir(_, es) => HoldsAllFrame(v, v', es, i, i + 1);
  }

  lemma {:induction false} HoldsAllFrame(v: seq<FileView>, v': seq<FileView>, es: seq<Host>, parent: nat, first: nat)
    requires HoldsAll(v, es, parent, first) && SameOn(v, v', first, first + CountAll(es))
    ensures HoldsAll(v', es, parent, first)
    decreases es
  {
    hide Holds, DirBytes, Entries, Entry, Completed, Count;
    if es != [] {
      HoldsAllFrame(v, v', es[..|es| - 1], parent, first);
      HoldsFrame(v, v', es[|es| - 1], first + CountAll(es[..|es| - 1]), parent);
    }
  }

  // ------------------------------------------------------------------ what a tree needs

  /** The blocks that a tree takes. */
  function Needs(h: Host): nat
    decreases h
  {
    match h
    case File(_, bytes) => BlocksFor(|bytes|)
    case Dir(_, es) => NeedsDir(es)
  }

  function NeedsDir(es: seq<Host>): nat
    decreases es, 1
  {
    BlocksFor(ENTRY * (|es| + 2)) + NeedsAll(es)
  }

  function NeedsAll(es: seq<Host>): nat
    decreases es, 0
  {
    if es == [] then 0 else NeedsAll(es[..|es| - 1]) + Needs(es[|es| - 1])
  }

  /** No file and no directory of the tree is longer than the largest file. */
  predicate Fits(h: Host)
    decreases h
  {
    match h
    case File(_, bytes) => |bytes| <= MAXBYTES
    case Dir(_, es) => FitsDir(es)
  }

  predicate FitsDir(es: seq<Host>)
    decreases es, 1
  {
    ENTRY * (|es| + 2) <= MAXBYTES && FitsAll(es)
  }

  predicate FitsAll(es: seq<Host>)
    decreases es, 0
  {
    es == [] || (FitsAll(es[..|es| - 1]) && Fits(es[|es| - 1]))
  }

  /** No directory of the tree ends on a block boundary: see `RoundingSound`. */
  predicate Rounds(h: Host)
    decreases h
  {
    h.Dir? ==> RoundsDir(h.entries)
  }

  predicate RoundsDir(es: seq<Host>)
    decreases es, 1
  {
    (ENTRY * (|es| + 2)) % BSIZE != 0 && RoundsAll(es)
  }

  predicate RoundsAll(es: seq<Host>)
    decreases es, 0
  {
    forall k :: 0 <= k < |es| ==> Rounds(es[k])
  }

  /** Directories that end on a block boundary have been added, none of them below inode `first`, unless the tree
      has none. */
  ghost predicate FullGrows(full: set<nat>, full': set<nat>, first: nat, none: bool) {
    && (forall i: nat :: i < first ==> (i in full' <==> i in full))
    && (full' == {} <==> full == {} && none)
  }

  lemma GrowsNone(full: set<nat>, first: nat, none: bool)
    requires none
    ensures FullGrows(full, full, first, none)
  {
  }

  lemma {:induction false} GrowsMore(full: set<nat>, full1: set<nat>, full2: set<nat>, first: nat, next: nat,
                                     es: seq<Host>, h: Host)
    requires FullGrows(full, full1, first, RoundsAll(es)) && FullGrows(full1, full2, next, Rounds(h)) && first <= next
    ensures FullGrows(full, full2, first, RoundsAll(es + [h]))
  {
    hide Rounds;
    assert (es + [h])[|es|] == h && forall k :: 0 <= k < |es| ==> (es + [h])[k] == es[k];
  }

  lemma GrowsKeeps(full: set<nat>, full': set<nat>, first: nat, i: nat, none: bool)
    requires FullGrows(full, full', first, none) && i < first && i !in full
    ensures i !in full'
  {
  }

  lemma {:induction false} GrowsDir(full: set<nat>, full': set<nat>, cur: nat, es: seq<Host>)
    requires FullGrows(full, full' - {cur}, cur + 1, RoundsAll(es)) && cur !in full
    requires cur in full' <==> (ENTRY * (|es| + 2)) % BSIZE == 0
    ensures FullGrows(full, full', cur, RoundsDir(es))
  {
    hide RoundsAll;
    assert cur !in full' ==> full' - {cur} == full';
  }

  lemma {:induction false} AllPrefix(es: seq<Host>, k: nat)
    requires k < |es|
    ensures CountAll(es[..k]) + Count(es[k]) == CountAll(es[..k + 1]) <= CountAll(es)
    ensures NeedsAll(es[..k]) + Needs(es[k]) == NeedsAll(es[..k + 1]) <= NeedsAll(es)
    ensures FitsAll(es) ==> FitsAll(es[..k + 1])
    ensures FitsAll(es[..k + 1]) <==> FitsAll(es[..k]) && Fits(es[k])
    decreases |es|
  {
    assert es[..k + 1][..k] == es[..k] && es[..k + 1][k] == es[k];
    if k + 1 < |es| {
      var fs := es[..|es| - 1];
      AllPrefix(fs, k);
      assert fs[..k + 1] == es[..k + 1] && fs[..k] == es[..k];
    } else {
      assert es[..k + 1] == es;
    }
  }

  // ------------------------------------------------------------------ the walk

  /** The loop of add_dir over a host file, in reads of at most 512 bytes. */
  method CopyFile(img: Image, bytes: seq<byte>, inum: nat) returns (ok: bool)
    requires img.Valid() && inum < img.freeinode && inum < |img.inodes| && inum !in img.full
    requires img.Files()[inum].content == []
    modifies img`freeblock, img`usedblocks, img`blocks, img`owner, img`inodes
    ensures ok <==> |bytes| <= MAXBYTES && BlocksFor(|bytes|) <= old(img.Free())
    ensures ok ==> img.Valid() && |img.inodes| == old(|img.inodes|)
    ensures ok ==> img.Files() == old(img.Files())[inum := old(img.Files()[inum]).(content := bytes)]
    ensures ok ==> img.Free() + BlocksFor(|bytes|) == old(img.Free())
  {
    hide BlocksFor, Image.Valid, Image.Files, Image.Free;
    ghost var files, free := img.Files(), img.Free();
    var r := 0;
    assert bytes[..0] == [];
    NoBlocks();
    while r < |bytes|
      invariant 0 <= r <= |bytes| && (r > 0 ==> r <= MAXBYTES)
      invariant img.Valid() && |img.inodes| == |files|
      invariant img.Files() == files[inum := files[inum].(content := bytes[..r])]
      invariant img.Free() + BlocksFor(r) == free
    {
      var m := if |bytes| - r < BSIZE then |bytes| - r else BSIZE;
      ok := img.Iappend(inum, bytes[r..r + m]);
      assert bytes[..r] + bytes[r..r + m] == bytes[..r + m];
      BlocksForGrows(r + m, |bytes|);
      if !ok {
        return;
      }
      r := r + m;
    }
    assert bytes[..|bytes|] == bytes;
    ok := true;
  }

  lemma NoBlocks()
    ensures BlocksFor(0) == 0
  {
  }

  /** The files v, k entries into the walk of directory cur: v0 is what there was before. */
  ghost predicate Walked(v0: seq<FileView>, v: seq<FileView>, es: seq<Host>, cur: nat, parent: nat, first: nat) {
    && |v| == |v0| && cur < |v| && cur < first
    && v[cur] == FileView(T_DIR, 1, DirBytes(es, cur, parent, first)) && HoldsAll(v, es, cur, first)
    && SameOn(v0, v, 0, cur) && SameOn(v0, v, cur + 1, first)
  }

  lemma {:induction false} WalkedStart(v0: seq<FileView>, v: seq<FileView>, cur: nat, parent: nat, first: nat)
    requires cur < |v0| && v0[cur] == FileView(T_DIR, 1, []) && cur < first
    requires v == v0[cur := FileView(T_DIR, 1, [] + Entry(DOT, cur) + Entry(DOT_DOT, parent))]
    ensures Walked(v0, v, [], cur, parent, first)
  {
    assert DirBytes([], cur, parent, first) == [] + Entry(DOT, cur) + Entry(DOT_DOT, parent);
  }

  lemma {:induction false} WalkedStep(v0: seq<FileView>, v: seq<FileView>, v1: seq<FileView>, v2: seq<FileView>,
                                      es: seq<Host>, h: Host, cur: nat, parent: nat, first: nat)
    requires Walked(v0, v, es, cur, parent, first)
    requires var f := first + CountAll(es);
             && Holds(v1, h, f, cur) && SameOn(v, v1, 0, f) && cur < |v1|
             && v2 == v1[cur := v1[cur].(content := v1[cur].content + Entry(Cut(h.name), f))]
    ensures Walked(v0, v2, es + [h], cur, parent, first)
  {
    hide Holds, HoldsAll, Count, CountAll, Entry, Cut, DirBytes;
    var f := first + CountAll(es);
    OneMoreEntry(es, h, cur, parent, first);
    HoldsAllFrame(v, v2, es, cur, first);
    HoldsFrame(v1, v2, h, f, cur);
    HoldsAllMore(v2, es, h, cur, first);
  }

  lemma {:induction false} OneMoreEntry(es: seq<Host>, h: Host, cur: nat, parent: nat, first: nat)
    ensures DirBytes(es + [h], cur, parent, first)
         == DirBytes(es, cur, parent, first) + Entry(Cut(h.name), first + CountAll(es))
  {
    hide Count, Entry, Cut;
    assert (es + [h])[..|es + [h]| - 1] == es;
  }

  lemma {:induction false} HoldsAllMore(v: seq<FileView>, es: seq<Host>, h: Host, parent: nat, first: nat)
    requires HoldsAll(v, es, parent, first) && Holds(v, h, first + CountAll(es), parent)
    ensures HoldsAll(v, es + [h], parent, first)
  {
    hide Holds, Count;
    assert (es + [h])[..|es + [h]| - 1] == es;
  }

  lemma {:induction false} WalkedEnd(v0: seq<FileView>, v: seq<FileView>, v': seq<FileView>, es: seq<Host>,
                                     cur: nat, parent: nat, first: nat)
    requires Walked(v0, v, es, cur, parent, first) && v' == v[cur := v[cur].(content := Completed(v[cur].content))]
    ensures v'[cur] == FileView(T_DIR, 1, Completed(DirBytes(es, cur, parent, first))) && HoldsAll(v', es, cur, first)
    ensures SameOn(v0, v', 0, cur) && SameOn(v0, v', cur + 1, first)
  {
    hide Holds, HoldsAll, DirBytes, Completed;
    HoldsAllFrame(v, v', es, cur, first);
  }

  /** add_dir's handling of one host entry: the file or directory itself, before its name is entered. */
  method AddChild(img: Image, h: Host, cur: nat) returns (ok: bool, inum: nat)
    requires img.Valid() && img.freeinode + Count(h) <= |img.inodes|
    modifies img
    ensures inum == old(img.freeinode)
    ensures ok <==> Fits(h) && Needs(h) <= old(img.Free())
    ensures ok ==> img.Valid() && img.freeinode == inum + Count(h) && img.Free() + Needs(h) == old(img.Free())
    ensures ok ==> Holds(img.Files(), h, inum, cur) && SameOn(old(img.Files()), img.Files(), 0, inum)
    ensures ok ==> FullGrows(old(img.full), img.full, inum, Rounds(h))
    decreases h, 0
  {
    hide BlocksFor, DirBytes, HoldsAll, Completed, FitsDir, NeedsDir, RoundsDir, RoundsAll, CountAll, FullGrows,
      Image.Valid, Image.Files, Image.Free;
    ghost var full := img.full;
    match h
    case File(_, bytes) =>
      inum := img.Ialloc(T_FILE);
      GrowsNone(full, inum, Rounds(h));
      ok := CopyFile(img, bytes, inum);
    case Dir(_, es) =>
      inum := img.Ialloc(T_DIR);
      ok := AddDir(img, es, inum, cur);
      if ok {
        GrowsDir(full, img.full, inum, es);
      }
  }

  /** add_dir: the directory at inode cur and everything below it.  It succeeds exactly when every file fits and
      the tree does not need more blocks than there are, and then the image holds the tree. */
  method AddDir(img: Image, es: seq<Host>, cur: nat, parent: nat) returns (ok: bool)
    requires img.Valid() && cur < img.freeinode && img.freeinode + CountAll(es) <= |img.inodes| && cur !in img.full
    requires cur < |img.inodes| && img.Files()[cur] == FileView(T_DIR, 1, [])
    modifies img
    ensures ok <==> FitsDir(es) && NeedsDir(es) <= old(img.Free())
    ensures ok ==>
              && img.Valid() && img.freeinode == old(img.freeinode) + CountAll(es)
              && img.Free() + NeedsDir(es) == old(img.Free())
              && cur < |img.Files()| == old(|img.inodes|)
              && img.Files()[cur] == FileView(T_DIR, 1, Completed(DirBytes(es, cur, parent, old(img.freeinode))))
              && HoldsAll(img.Files(), es, cur, old(img.freeinode))
              && SameOn(old(img.Files()), img.Files(), 0, cur)
              && SameOn(old(img.Files()), img.Files(), cur + 1, old(img.freeinode))
              && FullGrows(old(img.full), img.full - {cur}, old(img.freeinode), RoundsAll(es))
              && (cur in img.full <==> (ENTRY * (|es| + 2)) % BSIZE == 0)
    decreases es
  {
    hide BlocksFor, Walked, FitsAll, NeedsAll, CountAll, Entry, HoldsAll, DirBytes, Completed, SameOn, Rounds, Fits,
      Needs, Count, Image.Valid, Image.Files, Image.Free, RoundsAll, FullGrows;
    ghost var v0, first, free, full := img.Files(), img.freeinode, img.Free(), img.full;
    ok := AddDots(img, cur, parent);
    BlocksForGrows(ENTRY * 2, ENTRY * (|es| + 2));
    if !ok {
      return;
    }
    WalkedStart(v0, img.Files(), cur, parent, first);
    assert es[..0] == [];
    AllNone();
    GrowsNone(full, first, RoundsAll([]));
    for k := 0 to |es|
      invariant img.Valid() && |img.inodes| == |v0| && img.freeinode == first + CountAll(es[..k])
      invariant Walked(v0, img.Files(), es[..k], cur, parent, first)
      invariant img.Free() + BlocksFor(ENTRY * (k + 2)) + NeedsAll(es[..k]) == free
      invariant FitsAll(es[..k]) && ENTRY * (k + 2) <= MAXBYTES
      invariant cur !in img.full && FullGrows(full, img.full, first, RoundsAll(es[..k]))
    {
      AllPrefix(es, k);
      BlocksForGrows(ENTRY * (k + 2), ENTRY * (|es| + 2));
      BlocksForGrows(ENTRY * (k + 3), ENTRY * (|es| + 2));
      ghost var full1, next := img.full, img.freeinode;
      ok := AddEntry(img, es[..k], es[k], cur, parent, first, v0);
      if !ok {
        return;
      }
      GrowsMore(full, full1, img.full, first, next, es[..k], es[k]);
      GrowsKeeps(full1, img.full, next, cur, Rounds(es[k]));
      assert es[..k] + [es[k]] == es[..k + 1];
    }
    assert es[..|es|] == es;
    WalkedSize(v0, img.Files(), es, cur, parent, first);
    ghost var v := img.Files();
    ghost var full1 := img.full;
    img.RoundSize(cur);
    assert img.full - {cur} == full1;
    WalkedEnd(v0, v, img.Files(), es, cur, parent, first);
  }

  lemma {:induction false} WalkedSize(v0: seq<FileView>, v: seq<FileView>, es: seq<Host>, cur: nat, parent: nat,
                                      first: nat)
    requires Walked(v0, v, es, cur, parent, first)
    ensures |v| == |v0| && cur < |v| && cur < first && |v[cur].content| == ENTRY * (|es| + 2)
  {
  }

  lemma {:induction false} AllNone()
    ensures CountAll([]) == 0 && NeedsAll([]) == 0 && FitsAll([]) && RoundsAll([])
  {
  }

  // The "." and ".." entries.
  method AddDots(img: Image, cur: nat, parent: nat) returns (ok: bool)
    requires img.Valid() && cur < img.freeinode && cur < |img.inodes| && img.Files()[cur] == FileView(T_DIR, 1, [])
    requires cur !in img.full
    modifies img`freeblock, img`usedblocks, img`blocks, img`owner, img`inodes
    ensures ok <==> BlocksFor(ENTRY * 2) <= old(img.Free())
    ensures ok ==>
              img.Valid() && |img.inodes| == old(|img.inodes|) && img.Free() + BlocksFor(ENTRY * 2) == old(img.Free())
    ensures ok ==>
              img.Files() == old(img.Files())[cur := FileView(T_DIR, 1, [] + Entry(DOT, cur) + Entry(DOT_DOT, parent))]
  {
    hide BlocksFor, Entry, Image.Valid, Image.Files, Image.Free;
    NoBlocks();
    BlocksForGrows(ENTRY, ENTRY * 2);
    ok := img.Iappend(cur, Entry(DOT, cur));
    if ok {
      ok := img.Iappend(cur, Entry(DOT_DOT, parent));
    }
  }

  // One turn of add_dir's loop, after the entries es.
  method AddEntry(img: Image, es: seq<Host>, h: Host, cur: nat, parent: nat, ghost first: nat, ghost v0: seq<FileView>)
    returns (ok: bool)
    requires img.Valid() && |img.inodes| == |v0| && img.freeinode == first + CountAll(es)
    requires img.freeinode + Count(h) <= |img.inodes| && cur !in img.full
    requires Walked(v0, img.Files(), es, cur, parent, first)
    modifies img
    ensures var size := ENTRY * (|es| + 2);
            ok <==> Fits(h) && size + ENTRY <= MAXBYTES
                    && Needs(h) + BlocksFor(size + ENTRY) <= old(img.Free()) + BlocksFor(size)
    ensures ok ==>
              var size := ENTRY * (|es| + 2);
              && img.Valid() && |img.inodes| == |v0| && img.freeinode == old(img.freeinode) + Count(h)
              && Walked(v0, img.Files(), es + [h], cur, parent, first)
              && img.Free() + Needs(h) + BlocksFor(size + ENTRY) == old(img.Free()) + BlocksFor(size)
              && FullGrows(old(img.full), img.full, old(img.freeinode), Rounds(h))
    decreases h, 1
  {
    hide BlocksFor, Walked, Entry, Holds, Fits, Needs, Rounds, FullGrows, Image.Valid, Image.Files, Image.Free;
    ghost var v := img.Files();
    WalkedSize(v0, v, es, cur, parent, first);
    BlocksForGrows(ENTRY * (|es| + 2), ENTRY * (|es| + 3));
    var inum;
    ghost var full := img.full;
    ok, inum := AddChild(img, h, cur);
    if !ok {
      return;
    }
    GrowsKeeps(full, img.full, inum, cur, Rounds(h));
    ghost var v1 := img.Files();
    ok := img.Iappend(cur, Entry(Cut(h.name), inum));
    if ok {
      WalkedStep(v0, v, v1, img.Files(), es, h, cur, parent, first);
    }
  }

  /** mkfs of a host directory: 1024 blocks, 995 of them for data, and 200 inodes.  With the bitmap that balloc wrote
      the result is a sound disk, which holds the tree, if and only if no directory ends on a block boundary. */
  method MakeImage(root: seq<Host>) returns (ok: bool, img: Image, bitmap: seq<bool>)
    requires CountAll(root) <= 198
    ensures fresh(img)
    ensures ok <==> FitsDir(root) && NeedsDir(root) <= 995
    ensures ok ==>
              var d := D.Disk(img.start, bitmap, img.inodes, img.blocks);
              (exists o :: D.Sound(d, o)) <==> RoundsDir(root)
    ensures ok && RoundsDir(root) ==>
              var d := D.Disk(img.start, bitmap, img.inodes, img.blocks);
              && D.Sound(d, img.owner) && |FreeSet(d)| == 995 - NeedsDir(root)
              && Holds(Views(d), Dir([], root), 1, 1)
  {
    hide D.Sound, FitsDir, NeedsDir, RoundsAll, CountAll, Blank, HoldsAll, DirBytes, Completed, FreeSet, Lean, FullOk;
    img := new Image(995, 200, 1024);
    assert img.start == 29 && img.size == 1024 && img.nbits == D.BPB by { BlankShape(img.Value(), 29, 200, 1024); }
    var inum := img.Ialloc(T_DIR);
    ok := AddDir(img, root, inum, inum);
    bitmap := [];
    if ok {
      UsedBound(img.Value(), img.owner);
      bitmap := Balloc(img.nbits, img.usedblocks);
      FullSound(img.Value(), img.owner, img.inodes, img.full, img.freeinode);
      LeanNone(img.inodes);
      assert img.full == {} <==> RoundsDir(root) by { RootRounds(img.full, inum); }
    }
  }

  /** n empty files, with names of one letter. */
  function Empties(n: nat): seq<Host>
    requires n <= 100
  {
    seq(n, (k: nat) requires k < n => File([97 + k], []))
  }

  lemma {:induction false} EmptiesFit(n: nat)
    requires n <= 100
    ensures CountAll(Empties(n)) == n && NeedsAll(Empties(n)) == 0 && FitsAll(Empties(n))
  {
    hide BlocksFor;
    NoBlocks();
    if n > 0 {
      EmptiesFit(n - 1);
      assert Empties(n)[..n - 1] == Empties(n - 1);
    }
  }

  /** Thirty files in the root, which take 512 bytes with "." and "..": mkfs succeeds, and the image is not sound. */
  lemma {:induction false} ThirtyFiles()
    ensures var root := Empties(30);
            && CountAll(root) <= 198 && FitsDir(root) && NeedsDir(root) <= 995   // MakeImage succeeds
            && !RoundsDir(root)
  {
    hide Rounds;
    EmptiesFit(30);
  }

  lemma RootRounds(full: set<nat>, i: nat)
    ensures full == {} <==> full - {i} == {} && i !in full
  {
    assert i !in full ==> full - {i} == full;
  }

  lemma BlankShape(d: D.Disk, start: nat, ninodes: nat, size: nat)
    requires d == Blank(start, ninodes, size)
    ensures d.start == start && |d.bits| == D.BPB * ((size + D.BPB - 1) / D.BPB) && |d.blocks| == size
  {
  }

  lemma UsedBound(d: D.Disk, owner: D.Owner)
    requires D.Sound(d, owner)
    ensures |d.blocks| <= |d.bits| < |d.blocks| + D.BPB
  {
  }
}
