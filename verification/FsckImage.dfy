/** A file-system image as xfsck reads it (p5/xxxxfsck.c, p5/FS_checker/fs.h), and what its checks mean. */
module FsckImage {

  const NDIRECT := 12
  const NINDIRECT := 128
  const BSIZE := 512
  const IPB := 8
  const ENTRIES := 32
  const T_DIR := 1
  const T_FILE := 2
  const NUL := '\0'

  /** A directory entry: an inode number and the 14 bytes of the name. */
  datatype Dirent = Dirent(inum: nat, name: seq<char>)

  datatype Inode = Inode(kind: int, nlink: int, size: int, addrs: seq<nat>)

  /** The two ways in which a block is read: as 128 block numbers, or as 32 directory entries. */
  datatype Block = Block(words: seq<nat>, entries: seq<Dirent>)

  datatype Image = Image(size: nat, nblocks: nat, inodes: seq<Inode>, bits: seq<bool>, blocks: seq<Block>)

  // strcmp(name, ".") == 0 and strcmp(name, "..") == 0
  predicate IsDot(name: seq<char>) {
    |name| > 1 && name[0] == '.' && name[1] == NUL
  }

  predicate IsDotDot(name: seq<char>) {
    |name| > 2 && name[0] == '.' && name[1] == '.' && name[2] == NUL
  }

  /** The entries that xfsck counts as references. */
  predicate Counts(e: Dirent) {
    e.inum != 0 && !IsDot(e.name) && !IsDotDot(e.name)
  }

  /** The file holds the blocks and inodes that its superblock announces. */
  ghost predicate Complete(img: Image) {
    && |img.inodes| >= 2 && |img.blocks| == img.size == |img.bits| && img.size > 0
    && (forall i :: 0 <= i < |img.inodes| ==> |img.inodes[i].addrs| == NDIRECT + 1)
    && (forall b :: 0 <= b < |img.blocks| ==> |img.blocks[b].words| == NINDIRECT && |img.blocks[b].entries| == ENTRIES)
  }

  // ------------------------------------------------------------------ block references

  /** A use of a block by an inode; `direct` uses are the ones that must be new. */
  datatype Ref = Ref(addr: nat, direct: bool)

  function RefsOf(addrs: seq<nat>, direct: bool): seq<Ref> {
    if addrs == [] then []
    else
      var n := |addrs| - 1;
      RefsOf(addrs[..n], direct) + if addrs[n] == 0 then [] else [Ref(addrs[n], direct)]
  }

  /** The uses that inode i makes, in the order of the scan; the indirect block must lie in the image. */
  function InodeRefs(img: Image, i: nat): seq<Ref>
    requires i < |img.inodes| && |img.inodes[i].addrs| == NDIRECT + 1
  {
    var ip := img.inodes[i];
    if ip.kind <= 0 then []
    else RefsOf(ip.addrs[..NDIRECT], true) + IndirectRefs(img, ip.addrs[NDIRECT])
  }

  function IndirectRefs(img: Image, a: nat): seq<Ref> {
    if a == 0 || a >= |img.blocks| then [] else [Ref(a, false)] + RefsOf(img.blocks[a].words, false)
  }

  function Refs(img: Image, n: nat): seq<Ref>
    requires n <= |img.inodes| && forall i :: 0 <= i < |img.inodes| ==> |img.inodes[i].addrs| == NDIRECT + 1
  {
    if n == 0 then [] else Refs(img, n - 1) + InodeRefs(img, n - 1)
  }

  function Uses(refs: seq<Ref>, b: nat): nat {
    if refs == [] then 0
    else Uses(refs[..|refs| - 1], b) + if refs[|refs| - 1].addr == b then 1 else 0
  }

  /** No direct use repeats an earlier use. */
  ghost predicate DirectUsesNew(refs: seq<Ref>) {
    forall j, k :: 0 <= j < k < |refs| && refs[k].direct ==> refs[j].addr != refs[k].addr
  }

  lemma {:induction false} UsesPositive(refs: seq<Ref>, b: nat)
    ensures Uses(refs, b) > 0 <==> exists k :: 0 <= k < |refs| && refs[k].addr == b
  {
    if refs != [] {
      var n := |refs| - 1;
      UsesPositive(refs[..n], b);
      if Uses(refs[..n], b) > 0 {
        var k :| 0 <= k < n && refs[..n][k].addr == b;
        assert refs[k].addr == b;
      }
      if k :| 0 <= k < |refs| && refs[k].addr == b && k < n {
        assert refs[..n][k].addr == b;
      }
    }
  }

  lemma {:induction false} UsesAppend(refs: seq<Ref>, r: Ref, b: nat)
    ensures Uses(refs + [r], b) == Uses(refs, b) + if r.addr == b then 1 else 0
  {
    assert (refs + [r])[..|refs|] == refs;
  }

  lemma DirectUsesNewAppend(refs: seq<Ref>, r: Ref)
    ensures DirectUsesNew(refs + [r]) <==>
            DirectUsesNew(refs) && (r.direct ==> forall k :: 0 <= k < |refs| ==> refs[k].addr != r.addr)
  {
    var s := refs + [r];
    if DirectUsesNew(s) {
      forall j, k | 0 <= j < k < |refs| && refs[k].direct ensures refs[j].addr != refs[k].addr {
        assert s[j] == refs[j] && s[k] == refs[k];
      }
      forall k | r.direct && 0 <= k < |refs| ensures refs[k].addr != r.addr {
        assert s[k] == refs[k] && s[|refs|] == r;
      }
    }
  }

  // ------------------------------------------------------------------ directory links

  /** An entry other than "." and ".." of directory `parent` that names inode `child`. */
  datatype Link = Link(parent: nat, child: nat)

  function EntryLinks(i: nat, es: seq<Dirent>): seq<Link> {
    if es == [] then []
    else
      var n := |es| - 1;
      EntryLinks(i, es[..n]) + if Counts(es[n]) then [Link(i, es[n].inum)] else []
  }

  function BlockLinks(img: Image, i: nat, addrs: seq<nat>): seq<Link> {
    if addrs == [] then []
    else
      var n := |addrs| - 1;
      BlockLinks(img, i, addrs[..n]) +
      if addrs[n] == 0 || addrs[n] >= |img.blocks| then [] else EntryLinks(i, img.blocks[addrs[n]].entries)
  }

  function DirLinks(img: Image, i: nat): seq<Link>
    requires i < |img.inodes| && |img.inodes[i].addrs| == NDIRECT + 1
  {
    var ip := img.inodes[i];
    if ip.kind != T_DIR then []
    else BlockLinks(img, i, ip.addrs[..NDIRECT]) + IndirectLinks(img, i, ip.addrs[NDIRECT])
  }

  function IndirectLinks(img: Image, i: nat, a: nat): seq<Link> {
    if a == 0 || a >= |img.blocks| then [] else BlockLinks(img, i, img.blocks[a].words)
  }

  /** The links of the first n inodes, in the order of the scan. */
  function Links(img: Image, n: nat): seq<Link>
    requires n <= |img.inodes| && forall i :: 0 <= i < |img.inodes| ==> |img.inodes[i].addrs| == NDIRECT + 1
  {
    if n == 0 then [] else Links(img, n - 1) + DirLinks(img, n - 1)
  }

  function Count(links: seq<Link>, t: nat): nat {
    if links == [] then 0
    else Count(links[..|links| - 1], t) + if links[|links| - 1].child == t then 1 else 0
  }

  /** The parent of the last link to t, or 0. */
  function LastParent(links: seq<Link>, t: nat): nat {
    if links == [] then 0
    else if links[|links| - 1].child == t then links[|links| - 1].parent
    else LastParent(links[..|links| - 1], t)
  }

  lemma {:induction false} LinkAppend(links: seq<Link>, l: Link, t: nat)
    ensures Count(links + [l], t) == Count(links, t) + if l.child == t then 1 else 0
    ensures LastParent(links + [l], t) == if l.child == t then l.parent else LastParent(links, t)
  {
    assert (links + [l])[..|links|] == links;
  }

  /** With exactly one link to t, its parent is the recorded one, and it is the only link to t. */
  lemma {:induction false} OneLink(links: seq<Link>, t: nat)
    requires Count(links, t) == 1
    ensures exists k :: 0 <= k < |links| && links[k] == Link(LastParent(links, t), t)
    ensures forall j, k :: 0 <= j < |links| && 0 <= k < |links| && links[j].child == t == links[k].child ==> j == k
  {
    var n := |links| - 1;
    if links[n].child == t {
      NoLink(links[..n], t);
      assert forall j :: 0 <= j < n ==> links[j] == links[..n][j];
      assert links[n] == Link(LastParent(links, t), t);
    } else {
      OneLink(links[..n], t);
      assert forall j :: 0 <= j < n ==> links[j] == links[..n][j];
      var k :| 0 <= k < n && links[..n][k] == Link(LastParent(links[..n], t), t);
      assert links[k] == Link(LastParent(links, t), t);
    }
  }

  lemma {:induction false} NoLink(links: seq<Link>, t: nat)
    requires Count(links, t) == 0
    ensures forall k :: 0 <= k < |links| ==> links[k].child != t
  {
    if links != [] {
      var n := |links| - 1;
      NoLink(links[..n], t);
      assert forall j :: 0 <= j < n ==> links[j] == links[..n][j];
    }
  }
}
