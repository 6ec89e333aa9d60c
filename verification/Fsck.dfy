/** What xfsck (p5/xxxxfsck.c) checks, as properties of the image, and what acceptance means for the directory tree.
    The loops that decide the properties are in `FsckScan`. */
module Fsck {
  import opened FsckImage

  // ------------------------------------------------------------------ the checked properties

  function UsedBlocks(img: Image): nat {
    |img.inodes| / IPB + 1 + (img.size / (BSIZE * 8) + 1)
  }

  predicate InData(img: Image, a: nat)
    requires |img.inodes| >= 2 && |img.inodes[1].addrs| == NDIRECT + 1
  {
    img.inodes[1].addrs[0] <= a < img.size
  }

  ghost predicate AddressesOk(img: Image, addrs: seq<nat>)
    requires |img.inodes| >= 2 && |img.inodes[1].addrs| == NDIRECT + 1
  {
    forall j :: 0 <= j < |addrs| ==> addrs[j] == 0 || InData(img, addrs[j])
  }

  /** The first block of a directory starts with "." naming it, and "..". */
  predicate Formatted(img: Image, i: nat)
    requires Complete(img) && i < |img.inodes|
  {
    var a := img.inodes[i].addrs[0];
    a < img.size &&
    var es := img.blocks[a].entries;
    IsDot(es[0].name) && IsDotDot(es[1].name) && es[0].inum == i
  }

  /** Checks 2, 3 and 4 for inode i. */
  ghost predicate InodeOk(img: Image, i: nat)
    requires Complete(img) && i < |img.inodes|
  {
    var ip := img.inodes[i];
    && 0 <= ip.kind <= 3
    && (ip.kind > 0 ==> AddressesOk(img, ip.addrs[..NDIRECT]) && IndirectOk(img, ip.addrs[NDIRECT]))
    && (ip.kind == T_DIR ==> Formatted(img, i))
  }

  ghost predicate IndirectOk(img: Image, a: nat)
    requires Complete(img)
  {
    a != 0 ==> InData(img, a) && AddressesOk(img, img.blocks[a].words)
  }

  /** Checks 5 and 6. */
  ghost predicate BitmapOk(img: Image)
    requires Complete(img)
  {
    forall b :: img.inodes[1].addrs[0] <= b < img.size ==> (img.bits[b] <==> Uses(Refs(img, |img.inodes|), b) > 0)
  }

  function NonZero(addrs: seq<nat>): nat {
    if addrs == [] then 0 else NonZero(addrs[..|addrs| - 1]) + if addrs[|addrs| - 1] != 0 then 1 else 0
  }

  function DataBlocks(img: Image, i: nat): nat
    requires Complete(img) && i < |img.inodes|
  {
    var addrs := img.inodes[i].addrs;
    var a := addrs[NDIRECT];
    NonZero(addrs[..NDIRECT]) + if a != 0 && a < img.size then NonZero(img.blocks[a].words) else 0
  }

  /** Check 8: a file has exactly the blocks that its size needs. */
  predicate SizeOk(img: Image, i: nat)
    requires Complete(img) && i < |img.inodes|
  {
    img.inodes[i].kind == T_FILE ==>
      (DataBlocks(img, i) - 1) * BSIZE < img.inodes[i].size <= DataBlocks(img, i) * BSIZE
  }

  ghost function AllLinks(img: Image): seq<Link>
    requires Complete(img)
  {
    Links(img, |img.inodes|)
  }

  /** References to inode i; the root has one for free. */
  ghost function References(img: Image, i: nat): nat
    requires Complete(img)
  {
    Count(AllLinks(img), i) + if i == 1 then 1 else 0
  }

  /** All links name inodes below n. */
  ghost predicate Below(links: seq<Link>, n: nat) {
    forall k :: 0 <= k < |links| ==> links[k].child < n
  }

  ghost predicate InumsBelow(img: Image)
    requires Complete(img)
  {
    Below(AllLinks(img), |img.inodes|)
  }

  /** Checks 9, 10, 11 and 12 for an inode with `refs` references. */
  predicate RefsOk(ip: Inode, refs: nat) {
    && (ip.kind > 0 ==> refs > 0)
    && (ip.kind == 0 ==> refs == 0)
    && (ip.kind == T_FILE ==> ip.nlink == refs)
    && (ip.kind == T_DIR ==> refs <= 1)
  }

  /** The parent that the second pass over the directories records. */
  ghost function ParentOf(img: Image, i: nat): nat
    requires Complete(img)
  {
    if i == 1 then 1 else LastParent(AllLinks(img), i)
  }

  ghost function Parents(img: Image): (s: seq<nat>)
    requires Complete(img)
    ensures |s| == |img.inodes| && forall i :: 0 <= i < |s| ==> s[i] == ParentOf(img, i)
  {
    seq(|img.inodes|, (i: nat) requires i < |img.inodes| => ParentOf(img, i))
  }

  /** The entry ".." of directory i names its parent. */
  predicate DotDotIs(img: Image, i: nat, p: nat)
    requires Complete(img) && i < |img.inodes|
  {
    var a := img.inodes[i].addrs[0];
    a < img.size && img.blocks[a].entries[1].inum == p
  }

  /** The k-th inode on the walk from i towards the root. */
  function Up(parent: seq<nat>, i: nat, k: nat): nat {
    if k == 0 then i
    else
      var p := Up(parent, i, k - 1);
      if p < |parent| then parent[p] else p
  }

  ghost predicate ReachesRoot(parent: seq<nat>, i: nat) {
    exists k: nat :: Up(parent, i, k) == 1
  }

  /** Checks 2 to 8. */
  ghost predicate BlocksClean(img: Image)
    requires Complete(img)
  {
    && (forall i :: 0 <= i < |img.inodes| ==> InodeOk(img, i))
    && DirectUsesNew(Refs(img, |img.inodes|))
    && BitmapOk(img)
    && (forall i :: 0 <= i < |img.inodes| ==> SizeOk(img, i))
  }

  /** Checks 9 to 12, "..", and the walks to the root. */
  ghost predicate LinksClean(img: Image)
    requires Complete(img)
  {
    && InumsBelow(img)
    && (forall i :: 0 <= i < |img.inodes| ==> RefsOk(img.inodes[i], References(img, i)))
    && (forall i :: 0 <= i < |img.inodes| && img.inodes[i].kind == T_DIR ==> DotDotIs(img, i, ParentOf(img, i)))
    && (forall i :: 0 <= i < |img.inodes| && img.inodes[i].kind == T_DIR ==> ReachesRoot(Parents(img), i))
  }

  ghost predicate Clean(img: Image)
    requires Complete(img)
  {
    img.size > UsedBlocks(img) + img.nblocks && BlocksClean(img) && LinksClean(img)
  }

  // ------------------------------------------------------------------ what acceptance means

  /** Link k is the only one to directory i; it is in a directory, ".." of i and the recorded parent agree with
      it, and the chain of parents from i ends at inode 1. */
  ghost predicate OnlyLink(img: Image, i: nat, k: int)
    requires Complete(img) && i < |img.inodes|
  {
    var links := AllLinks(img);
    && 0 <= k < |links| && links[k].child == i
    && (forall j :: 0 <= j < |links| && links[j].child == i ==> j == k)
    && links[k].parent < |img.inodes| && img.inodes[links[k].parent].kind == T_DIR
    && DotDotIs(img, i, links[k].parent)
    && Parents(img)[i] == links[k].parent && ReachesRoot(Parents(img), i)
  }

  /** The directories of a clean image form a tree rooted at inode 1: every other directory has exactly one
      entry besides "." and "..", that entry is in a directory, ".." names that directory, the chain of parents
      ends at inode 1, and nothing names inode 1. */
  ghost predicate DirectoryTree(img: Image)
    requires Complete(img)
  {
    var links := AllLinks(img);
    && (forall i :: 1 < i < |img.inodes| && img.inodes[i].kind == T_DIR ==> exists k :: OnlyLink(img, i, k))
    && img.inodes[0].kind == 0
    && (img.inodes[1].kind == T_DIR ==> DotDotIs(img, 1, 1) && forall j :: 0 <= j < |links| ==> links[j].child != 1)
    && (links != [] ==> img.inodes[1].kind == T_DIR)
  }

  ghost predicate LinksFrom(links: seq<Link>, i: nat) {
    forall k :: 0 <= k < |links| ==> links[k].parent == i && links[k].child != 0
  }

  lemma {:induction false} EntryLinksFrom(i: nat, es: seq<Dirent>)
    ensures LinksFrom(EntryLinks(i, es), i)
  {
    if es != [] {
      EntryLinksFrom(i, es[..|es| - 1]);
    }
  }

  lemma {:induction false} BlockLinksFrom(img: Image, i: nat, addrs: seq<nat>)
    ensures LinksFrom(BlockLinks(img, i, addrs), i)
  {
    if addrs != [] {
      var a := addrs[|addrs| - 1];
      BlockLinksFrom(img, i, addrs[..|addrs| - 1]);
      if 0 < a < |img.blocks| {
        EntryLinksFrom(i, img.blocks[a].entries);
      }
    }
  }

  lemma {:induction false} DirLinksFrom(img: Image, i: nat)
    requires Complete(img) && i < |img.inodes|
    ensures LinksFrom(DirLinks(img, i), i)
    ensures img.inodes[i].kind != T_DIR ==> DirLinks(img, i) == []
  {
    var addrs := img.inodes[i].addrs;
    BlockLinksFrom(img, i, addrs[..NDIRECT]);
    if 0 < addrs[NDIRECT] < |img.blocks| {
      BlockLinksFrom(img, i, img.blocks[addrs[NDIRECT]].words);
    }
  }

  ghost predicate FromDirectories(inodes: seq<Inode>, links: seq<Link>) {
    forall k :: 0 <= k < |links| ==>
      links[k].parent < |inodes| && inodes[links[k].parent].kind == T_DIR && links[k].child != 0
  }

  lemma FromDirectoriesAppend(inodes: seq<Inode>, before: seq<Link>, own: seq<Link>, i: nat)
    requires FromDirectories(inodes, before) && LinksFrom(own, i) && i < |inodes|
    requires inodes[i].kind == T_DIR || own == []
    ensures FromDirectories(inodes, before + own)
  {
  }

  lemma NoLinksFromDirectories(inodes: seq<Inode>)
    ensures FromDirectories(inodes, [])
  {
  }

  lemma {:induction false} LinksFromDirectories(img: Image, n: nat)
    requires Complete(img) && n <= |img.inodes|
    ensures FromDirectories(img.inodes, Links(img, n))
    decreases n
  {
    hide DirLinks, LinksFrom, FromDirectories;
    if n == 0 {
      NoLinksFromDirectories(img.inodes);
    } else {
      LinksFromDirectories(img, n - 1);
      DirLinksFrom(img, n - 1);
      FromDirectoriesAppend(img.inodes, Links(img, n - 1), DirLinks(img, n - 1), n - 1);
    }
  }

  /** Links come from directories, and never name inode 0. */
  lemma {:induction false} LinkFromDirectory(img: Image, k: nat)
    requires Complete(img) && k < |AllLinks(img)|
    ensures var l := AllLinks(img)[k]; l.parent < |img.inodes| && img.inodes[l.parent].kind == T_DIR && l.child != 0
  {
    LinksFromDirectories(img, |img.inodes|);
  }

  lemma {:induction false} Unnamed(links: seq<Link>, t: nat)
    requires forall k :: 0 <= k < |links| ==> links[k].child != t
    ensures Count(links, t) == 0
  {
    if links != [] {
      Unnamed(links[..|links| - 1], t);
    }
  }

  lemma {:induction false} DirectoryHasParent(img: Image, i: nat) returns (k: nat)
    requires Complete(img) && Clean(img) && 0 < i < |img.inodes| && i != 1 && img.inodes[i].kind == T_DIR
    ensures k < |AllLinks(img)| && AllLinks(img)[k] == Link(ParentOf(img, i), i)
    ensures forall j :: 0 <= j < |AllLinks(img)| && AllLinks(img)[j].child == i ==> j == k
    ensures ParentOf(img, i) < |img.inodes| && img.inodes[ParentOf(img, i)].kind == T_DIR
  {
    var links := AllLinks(img);
    assert RefsOk(img.inodes[i], References(img, i));
    OneLink(links, i);
    k :| 0 <= k < |links| && links[k] == Link(LastParent(links, i), i);
    LinkFromDirectory(img, k);
  }

  lemma {:induction false} InodeZeroFree(img: Image)
    requires Complete(img) && Clean(img)
    ensures img.inodes[0].kind == 0
  {
    var links := AllLinks(img);
    forall k | 0 <= k < |links| ensures links[k].child != 0 {
      LinkFromDirectory(img, k);
    }
    Unnamed(links, 0);
    assert RefsOk(img.inodes[0], References(img, 0));
    assert InodeOk(img, 0);
  }

  /** The walk from a directory visits directories only. */
  lemma {:induction false} WalkStaysInDirectories(img: Image, p: nat, k: nat)
    requires Complete(img) && Clean(img) && 0 < p < |img.inodes| && img.inodes[p].kind == T_DIR
    ensures var q := Up(Parents(img), p, k); 0 < q < |img.inodes| && img.inodes[q].kind == T_DIR
    decreases k
  {
    if k > 0 {
      WalkStaysInDirectories(img, p, k - 1);
      ParentIsDirectory(img, Up(Parents(img), p, k - 1));
      hide Clean, ParentOf, Complete;
    }
  }

  lemma {:induction false} ParentIsDirectory(img: Image, q: nat)
    requires Complete(img) && Clean(img) && 0 < q < |img.inodes| && img.inodes[q].kind == T_DIR
    ensures 0 < ParentOf(img, q) < |img.inodes| && img.inodes[ParentOf(img, q)].kind == T_DIR
  {
    InodeZeroFree(img);
    hide Clean, AllLinks;
    if q != 1 {
      var j := DirectoryHasParent(img, q);
    }
  }

  /** What an accepted image looks like. */
  lemma {:induction false} CleanMeansTree(img: Image)
    requires Complete(img) && Clean(img)
    ensures DirectoryTree(img)
  {
    hide Clean, References, OnlyLink, DotDotIs, AllLinks;
    InodeZeroFree(img);
    forall i | 1 < i < |img.inodes| && img.inodes[i].kind == T_DIR
      ensures exists k :: OnlyLink(img, i, k)
    {
      OneParent(img, i);
    }
    if img.inodes[1].kind == T_DIR {
      RootUnnamed(img);
    }
    if AllLinks(img) != [] {
      LinksNeedRoot(img);
    }
  }

  lemma {:induction false} OneParent(img: Image, i: nat)
    requires Complete(img) && Clean(img) && 1 < i < |img.inodes| && img.inodes[i].kind == T_DIR
    ensures exists k :: OnlyLink(img, i, k)
  {
    var k := DirectoryHasParent(img, i);
    assert OnlyLink(img, i, k);
  }

  lemma {:induction false} RootUnnamed(img: Image)
    requires Complete(img) && Clean(img) && img.inodes[1].kind == T_DIR
    ensures DotDotIs(img, 1, 1) && forall j :: 0 <= j < |AllLinks(img)| ==> AllLinks(img)[j].child != 1
  {
    assert RefsOk(img.inodes[1], References(img, 1));
    NoLink(AllLinks(img), 1);
  }

  lemma {:induction false} LinksNeedRoot(img: Image)
    requires Complete(img) && Clean(img) && AllLinks(img) != []
    ensures img.inodes[1].kind == T_DIR
  {
    hide Clean, AllLinks, Parents, Up;
    InodeZeroFree(img);
    LinkFromDirectory(img, 0);
    var p := AllLinks(img)[0].parent;
    DirectoryReaches(img, p);
    var k: nat :| Up(Parents(img), p, k) == 1;
    WalkStaysInDirectories(img, p, k);
  }

  lemma {:induction false} DirectoryReaches(img: Image, p: nat)
    requires Complete(img) && Clean(img) && p < |img.inodes| && img.inodes[p].kind == T_DIR
    ensures ReachesRoot(Parents(img), p)
  {
    hide ReachesRoot;
  }
}
