/** The loops of xfsck over inodes, blocks and directory entries (p5/xxxxfsck.c:64-248). */
module FsckScan {
  import opened FsckImage
  import opened Fsck

  // ------------------------------------------------------------------ block uses, checks 2 to 8

  /** block_used holds the number of uses of every block. */
  ghost predicate UsedOk(used: seq<nat>, seen: seq<Ref>) {
    forall b :: 0 <= b < |used| ==> used[b] == Uses(seen, b)
  }

  lemma {:induction false} UsedOkAppend(used: seq<nat>, seen: seq<Ref>, r: Ref)
    requires UsedOk(used, seen) && r.addr < |used|
    ensures UsedOk(used[r.addr := used[r.addr] + 1], seen + [r])
    ensures used[r.addr] > 0 <==> exists k :: 0 <= k < |seen| && seen[k].addr == r.addr
  {
    UsesPositive(seen, r.addr);
    forall b | 0 <= b < |used| ensures used[r.addr := used[r.addr] + 1][b] == Uses(seen + [r], b) {
      UsesAppend(seen, r, b);
    }
  }

  lemma {:induction false} RefsOfStep(addrs: seq<nat>, j: nat, direct: bool)
    requires j < |addrs|
    ensures RefsOf(addrs[..j + 1], direct)
         == RefsOf(addrs[..j], direct) + if addrs[j] == 0 then [] else [Ref(addrs[j], direct)]
  {
    assert addrs[..j + 1][..j] == addrs[..j];
  }

  lemma {:induction false} RefsOfKeepsClash(seen: seq<Ref>, addrs: seq<nat>, j: nat, direct: bool)
    requires j <= |addrs| && !DirectUsesNew(seen + RefsOf(addrs[..j], direct))
    ensures !DirectUsesNew(seen + RefsOf(addrs, direct))
    decreases |addrs| - j
  {
    if j == |addrs| {
      assert addrs[..j] == addrs;
    } else {
      RefsOfStep(addrs, j, direct);
      if addrs[j] != 0 {
        var before := seen + RefsOf(addrs[..j], direct);
        DirectUsesNewAppend(before, Ref(addrs[j], direct));
        assert seen + RefsOf(addrs[..j + 1], direct) == before + [Ref(addrs[j], direct)];
      } else {
        assert RefsOf(addrs[..j + 1], direct) == RefsOf(addrs[..j], direct);
      }
      RefsOfKeepsClash(seen, addrs, j + 1, direct);
    }
  }

  lemma {:induction false} NoRefs(img: Image, addrs: seq<nat>, direct: bool)
    requires Complete(img)
    ensures RefsOf(addrs[..0], direct) == [] && AddressesOk(img, addrs[..0])
  {
  }

  lemma {:induction false} AddressesNext(img: Image, addrs: seq<nat>, j: nat)
    requires Complete(img) && j < |addrs| && AddressesOk(img, addrs[..j])
    ensures if addrs[j] == 0 || InData(img, addrs[j]) then AddressesOk(img, addrs[..j + 1])
              else !AddressesOk(img, addrs)
    ensures InData(img, addrs[j]) ==> addrs[j] < img.size
  {
    assert addrs[..j + 1] == addrs[..j] + [addrs[j]];
  }

  method UseBlocks(img: Image, addrs: seq<nat>, direct: bool, used: array<nat>, ghost seen: seq<Ref>) returns (ok: bool)
    requires Complete(img) && used.Length == img.size && UsedOk(used[..], seen) && DirectUsesNew(seen)
    modifies used
    ensures ok <==> AddressesOk(img, addrs) && DirectUsesNew(seen + RefsOf(addrs, direct))
    ensures ok ==> UsedOk(used[..], seen + RefsOf(addrs, direct))
  {
    hide UsedOk, DirectUsesNew, RefsOf, AddressesOk, InData;
    ghost var refs := seen;
    NoRefs(img, addrs, direct);
    assert seen + [] == seen;
    for j := 0 to |addrs|
      invariant refs == seen + RefsOf(addrs[..j], direct)
      invariant AddressesOk(img, addrs[..j]) && DirectUsesNew(refs) && UsedOk(used[..], refs)
    {
      var a := addrs[j];
      AddressesNext(img, addrs, j);
      if a != 0 && !InData(img, a) {
        return false;
      }
      RefsOfStep(addrs, j, direct);
      if a != 0 {
        ghost var r := Ref(a, direct);
        UsedOkAppend(used[..], refs, r);
        DirectUsesNewAppend(refs, r);
        assert refs + [r] == seen + RefsOf(addrs[..j + 1], direct);
        used[a] := used[a] + 1;
        refs := refs + [r];
        if direct && used[a] > 1 {
          RefsOfKeepsClash(seen, addrs, j + 1, direct);
          return false;
        }
      } else {
        assert seen + RefsOf(addrs[..j + 1], direct) == refs;
      }
    }
    assert addrs[..|addrs|] == addrs;
    ok := true;
  }

  lemma {:induction false} IndirectUsesHarmless(seen: seq<Ref>, words: seq<nat>)
    ensures DirectUsesNew(seen + RefsOf(words, false)) <==> DirectUsesNew(seen)
    decreases |words|
  {
    if words == [] {
      assert seen + [] == seen;
    } else {
      var n := |words| - 1;
      var before := seen + RefsOf(words[..n], false);
      IndirectUsesHarmless(seen, words[..n]);
      if words[n] != 0 {
        DirectUsesNewAppend(before, Ref(words[n], false));
        assert seen + RefsOf(words, false) == before + [Ref(words[n], false)];
      } else {
        assert RefsOf(words, false) == RefsOf(words[..n], false);
      }
    }
  }

  /** The indirect block of an inode in use, and the blocks it lists. */
  method UseIndirect(img: Image, a: nat, used: array<nat>, ghost seen: seq<Ref>) returns (ok: bool)
    requires Complete(img) && used.Length == img.size && UsedOk(used[..], seen) && DirectUsesNew(seen)
    modifies used
    ensures ok <==> IndirectOk(img, a)
    ensures ok ==> UsedOk(used[..], seen + IndirectRefs(img, a)) && DirectUsesNew(seen + IndirectRefs(img, a))
  {
    if a == 0 {
      assert seen + [] == seen;
      return true;
    }
    if !InData(img, a) {
      return false;
    }
    ghost var r := Ref(a, false);
    UsedOkAppend(used[..], seen, r);
    DirectUsesNewAppend(seen, r);
    used[a] := used[a] + 1;
    IndirectUsesHarmless(seen + [r], img.blocks[a].words);
    ok := UseBlocks(img, img.blocks[a].words, false, used, seen + [r]);
    assert seen + [r] + RefsOf(img.blocks[a].words, false) == seen + IndirectRefs(img, a);
  }

  /** Checks 2, 3, 4 and 7 for inode i. */
  method CheckInode(img: Image, i: nat, used: array<nat>, ghost seen: seq<Ref>) returns (ok: bool)
    requires Complete(img) && i < |img.inodes|
    requires used.Length == img.size && UsedOk(used[..], seen) && DirectUsesNew(seen)
    modifies used
    ensures ok <==> InodeOk(img, i) && DirectUsesNew(seen + InodeRefs(img, i))
    ensures ok ==> UsedOk(used[..], seen + InodeRefs(img, i))
  {
    var ip := img.inodes[i];
    if ip.kind > 3 || ip.kind < 0 {
      return false;
    }
    assert seen + [] == seen;
    if ip.kind > 0 {
      ghost var direct := seen + RefsOf(ip.addrs[..NDIRECT], true);
      InodeRefsParts(img, i, seen);
      ok := UseBlocks(img, ip.addrs[..NDIRECT], true, used, seen);
      if !ok {
        return;
      }
      ok := UseIndirect(img, ip.addrs[NDIRECT], used, direct);
      if !ok {
        return;
      }
    }
    ok := ip.kind != T_DIR || Formatted(img, i);
  }

  lemma {:induction false} InodeRefsParts(img: Image, i: nat, seen: seq<Ref>)
    requires Complete(img) && i < |img.inodes| && img.inodes[i].kind > 0
    ensures var addrs := img.inodes[i].addrs;
            && seen + InodeRefs(img, i) == seen + RefsOf(addrs[..NDIRECT], true) + IndirectRefs(img, addrs[NDIRECT])
            && (InodeOk(img, i) ==> AddressesOk(img, addrs[..NDIRECT]) && IndirectOk(img, addrs[NDIRECT]))
            && (!DirectUsesNew(seen + RefsOf(addrs[..NDIRECT], true)) ==> !DirectUsesNew(seen + InodeRefs(img, i)))
  {
    var addrs := img.inodes[i].addrs;
    var direct := RefsOf(addrs[..NDIRECT], true);
    assert seen + InodeRefs(img, i) == seen + direct + IndirectRefs(img, addrs[NDIRECT]);
    if !DirectUsesNew(seen + direct) {
      PrefixClash(seen + direct, IndirectRefs(img, addrs[NDIRECT]));
    }
  }

  lemma {:induction false} RefsKeepClash(img: Image, n: nat)
    requires Complete(img) && n <= |img.inodes| && !DirectUsesNew(Refs(img, n))
    ensures !DirectUsesNew(Refs(img, |img.inodes|))
    decreases |img.inodes| - n
  {
    hide InodeRefs, DirectUsesNew;
    if n < |img.inodes| {
      PrefixClash(Refs(img, n), InodeRefs(img, n));
      RefsKeepClash(img, n + 1);
    }
  }

  lemma PrefixClash(s: seq<Ref>, t: seq<Ref>)
    requires !DirectUsesNew(s)
    ensures !DirectUsesNew(s + t)
  {
    var j, k :| 0 <= j < k < |s| && s[k].direct && s[j].addr == s[k].addr;
    assert (s + t)[j] == s[j] && (s + t)[k] == s[k];
  }

  method CheckInodes(img: Image, used: array<nat>) returns (ok: bool)
    requires Complete(img) && used.Length == img.size && forall b :: 0 <= b < used.Length ==> used[b] == 0
    modifies used
    ensures ok <==> (forall i :: 0 <= i < |img.inodes| ==> InodeOk(img, i)) && DirectUsesNew(Refs(img, |img.inodes|))
    ensures ok ==> UsedOk(used[..], Refs(img, |img.inodes|))
  {
    hide InodeOk, InodeRefs;
    for i := 0 to |img.inodes|
      invariant forall k :: 0 <= k < i ==> InodeOk(img, k)
      invariant DirectUsesNew(Refs(img, i)) && UsedOk(used[..], Refs(img, i))
    {
      ok := CheckInode(img, i, used, Refs(img, i));
      if !ok {
        if !DirectUsesNew(Refs(img, i + 1)) { RefsKeepClash(img, i + 1); }
        return;
      }
    }
    ok := true;
  }

  /** Checks 5 and 6. */
  method CheckBitmap(img: Image, used: array<nat>) returns (ok: bool)
    requires Complete(img) && used.Length == img.size && UsedOk(used[..], Refs(img, |img.inodes|))
    ensures ok <==> BitmapOk(img)
  {
    hide Refs;
    var b := img.inodes[1].addrs[0];
    while b < img.size
      invariant forall c :: img.inodes[1].addrs[0] <= c < b && c < img.size ==>
                  (img.bits[c] <==> Uses(Refs(img, |img.inodes|), c) > 0)
    {
      assert used[..][b] == Uses(Refs(img, |img.inodes|), b);
      if img.bits[b] && used[b] == 0 {
        return false;
      }
      if !img.bits[b] && used[b] > 0 {
        return false;
      }
      b := b + 1;
    }
    ok := true;
  }

  method CountNonZero(addrs: seq<nat>) returns (n: nat)
    ensures n == NonZero(addrs)
  {
    n := 0;
    for j := 0 to |addrs|
      invariant n == NonZero(addrs[..j])
    {
      assert addrs[..j + 1][..j] == addrs[..j];
      if addrs[j] != 0 {
        n := n + 1;
      }
    }
    assert addrs[..|addrs|] == addrs;
  }

  /** Check 8. */
  method CheckSizes(img: Image) returns (ok: bool)
    requires Complete(img) && forall i :: 0 <= i < |img.inodes| ==> InodeOk(img, i)
    ensures ok <==> forall i :: 0 <= i < |img.inodes| ==> SizeOk(img, i)
  {
    for i := 0 to |img.inodes|
      invariant forall k :: 0 <= k < i ==> SizeOk(img, k)
    {
      var ip := img.inodes[i];
      if ip.kind == T_FILE {
        assert InodeOk(img, i);
        var blocks := CountNonZero(ip.addrs[..NDIRECT]);
        if ip.addrs[NDIRECT] != 0 {
          var more := CountNonZero(img.blocks[ip.addrs[NDIRECT]].words);
          blocks := blocks + more;
        }
        if !(ip.size > (blocks - 1) * BSIZE && ip.size <= blocks * BSIZE) {
          assert !SizeOk(img, i);
          return false;
        }
      }
    }
    ok := true;
  }

  // ------------------------------------------------------------------ links, checks 9 to 12 and the parents

  /** ck9_inodes_used and parent after the links seen so far. */
  ghost predicate TablesOk(counts: seq<nat>, parent: seq<nat>, seen: seq<Link>) {
    && |counts| == |parent|
    && forall t :: 0 <= t < |counts| ==> counts[t] == Count(seen, t) && parent[t] == LastParent(seen, t)
  }

  lemma {:induction false} TablesOkAppend(counts: seq<nat>, parent: seq<nat>, seen: seq<Link>, l: Link)
    requires TablesOk(counts, parent, seen) && l.child < |counts|
    ensures TablesOk(counts[l.child := counts[l.child] + 1], parent[l.child := l.parent], seen + [l])
  {
    forall t | 0 <= t < |counts|
      ensures counts[l.child := counts[l.child] + 1][t] == Count(seen + [l], t)
      ensures parent[l.child := l.parent][t] == LastParent(seen + [l], t)
    {
      LinkAppend(seen, l, t);
    }
  }

  /** One block of directory i; ok is false when an entry names an inode beyond the tables. */
  method ScanEntries(i: nat, es: seq<Dirent>, counts: array<nat>, parent: array<nat>, ghost seen: seq<Link>)
    returns (ok: bool)
    requires counts != parent && TablesOk(counts[..], parent[..], seen)
    modifies counts, parent
    ensures ok <==> Below(EntryLinks(i, es), counts.Length)
    ensures ok ==> TablesOk(counts[..], parent[..], seen + EntryLinks(i, es))
  {
    assert seen + EntryLinks(i, es[..0]) == seen;
    for j := 0 to |es|
      invariant Below(EntryLinks(i, es[..j]), counts.Length)
      invariant TablesOk(counts[..], parent[..], seen + EntryLinks(i, es[..j]))
    {
      EntryLinksStep(i, es, j);
      var e := es[j];
      if Counts(e) {
        if e.inum >= counts.Length {
          assert EntryLinks(i, es[..j + 1])[|EntryLinks(i, es[..j])|].child >= counts.Length;
          EntryLinksPrefix(i, es, j + 1);
          return false;
        }
        ghost var before := seen + EntryLinks(i, es[..j]);
        TablesOkAppend(counts[..], parent[..], before, Link(i, e.inum));
        assert seen + EntryLinks(i, es[..j + 1]) == before + [Link(i, e.inum)];
        counts[e.inum] := counts[e.inum] + 1;
        parent[e.inum] := i;
      } else {
        assert EntryLinks(i, es[..j + 1]) == EntryLinks(i, es[..j]);
      }
    }
    assert es[..|es|] == es;
    ok := true;
  }

  lemma {:induction false} EntryLinksStep(i: nat, es: seq<Dirent>, j: nat)
    requires j < |es|
    ensures EntryLinks(i, es[..j + 1]) == EntryLinks(i, es[..j]) + if Counts(es[j]) then [Link(i, es[j].inum)] else []
  {
    assert es[..j + 1][..j] == es[..j];
  }

  lemma {:induction false} EntryLinksPrefix(i: nat, es: seq<Dirent>, j: nat)
    requires j <= |es|
    ensures EntryLinks(i, es[..j]) <= EntryLinks(i, es)
    decreases |es| - j
  {
    if j == |es| {
      assert es[..j] == es;
    } else {
      EntryLinksStep(i, es, j);
      EntryLinksPrefix(i, es, j + 1);
    }
  }

  lemma {:induction false} BlockLinksStep(img: Image, i: nat, addrs: seq<nat>, j: nat)
    requires j < |addrs| && (addrs[j] == 0 || addrs[j] < |img.blocks|)
    ensures BlockLinks(img, i, addrs[..j + 1])
            == BlockLinks(img, i, addrs[..j])
             + if addrs[j] == 0 then [] else EntryLinks(i, img.blocks[addrs[j]].entries)
  {
    assert addrs[..j + 1][..j] == addrs[..j];
  }

  lemma {:induction false} BlockLinksPrefix(img: Image, i: nat, addrs: seq<nat>, j: nat)
    requires j <= |addrs| && forall k :: 0 <= k < |addrs| ==> addrs[k] == 0 || addrs[k] < |img.blocks|
    ensures BlockLinks(img, i, addrs[..j]) <= BlockLinks(img, i, addrs)
    decreases |addrs| - j
  {
    if j == |addrs| {
      assert addrs[..j] == addrs;
    } else {
      BlockLinksStep(img, i, addrs, j);
      BlockLinksPrefix(img, i, addrs, j + 1);
    }
  }

  lemma BelowConcat(s: seq<Link>, t: seq<Link>, n: nat)
    ensures Below(s + t, n) <==> Below(s, n) && Below(t, n)
  {
    if Below(s + t, n) {
      assert forall k :: 0 <= k < |s| ==> s[k] == (s + t)[k];
      assert forall k :: 0 <= k < |t| ==> t[k] == (s + t)[|s| + k];
    }
  }

  lemma BelowPrefix(s: seq<Link>, t: seq<Link>, n: nat)
    requires s <= t && !Below(s, n)
    ensures !Below(t, n)
  {
    var k :| 0 <= k < |s| && s[k].child >= n;
    assert t[k] == s[k];
  }

  method ScanBlocks(img: Image, i: nat, addrs: seq<nat>, counts: array<nat>, parent: array<nat>, ghost seen: seq<Link>)
    returns (ok: bool)
    requires forall k :: 0 <= k < |addrs| ==> addrs[k] == 0 || addrs[k] < |img.blocks|
    requires counts != parent && TablesOk(counts[..], parent[..], seen)
    modifies counts, parent
    ensures ok <==> Below(BlockLinks(img, i, addrs), counts.Length)
    ensures ok ==> TablesOk(counts[..], parent[..], seen + BlockLinks(img, i, addrs))
  {
    hide EntryLinks, TablesOk;
    assert seen + BlockLinks(img, i, addrs[..0]) == seen;
    for j := 0 to |addrs|
      invariant Below(BlockLinks(img, i, addrs[..j]), counts.Length)
      invariant TablesOk(counts[..], parent[..], seen + BlockLinks(img, i, addrs[..j]))
    {
      BlockLinksStep(img, i, addrs, j);
      ghost var before := BlockLinks(img, i, addrs[..j]);
      if addrs[j] != 0 {
        ghost var own := EntryLinks(i, img.blocks[addrs[j]].entries);
        ok := ScanEntries(i, img.blocks[addrs[j]].entries, counts, parent, seen + before);
        BelowConcat(before, own, counts.Length);
        assert seen + before + own == seen + BlockLinks(img, i, addrs[..j + 1]);
        if !ok {
          BlockLinksPrefix(img, i, addrs, j + 1);
          BelowPrefix(before + own, BlockLinks(img, i, addrs), counts.Length);
          return;
        }
      } else {
        assert BlockLinks(img, i, addrs[..j + 1]) == before;
      }
    }
    assert addrs[..|addrs|] == addrs;
    ok := true;
  }

  /** The direct and indirect blocks of directory i. */
  method ScanDirectory(img: Image, i: nat, counts: array<nat>, parent: array<nat>, ghost seen: seq<Link>)
    returns (ok: bool)
    requires Complete(img) && i < |img.inodes| && img.inodes[i].kind == T_DIR && InodeOk(img, i)
    requires counts != parent && TablesOk(counts[..], parent[..], seen)
    modifies counts, parent
    ensures ok <==> Below(DirLinks(img, i), counts.Length)
    ensures ok ==> TablesOk(counts[..], parent[..], seen + DirLinks(img, i))
  {
    var addrs := img.inodes[i].addrs;
    ghost var direct := BlockLinks(img, i, addrs[..NDIRECT]);
    ghost var indirect := IndirectLinks(img, i, addrs[NDIRECT]);
    BelowConcat(direct, indirect, counts.Length);
    assert seen + direct + indirect == seen + DirLinks(img, i);
    hide BlockLinks, TablesOk, Below;
    ok := ScanBlocks(img, i, addrs[..NDIRECT], counts, parent, seen);
    if !ok {
      return;
    }
    if addrs[NDIRECT] != 0 {
      ok := ScanBlocks(img, i, img.blocks[addrs[NDIRECT]].words, counts, parent, seen + direct);
    } else {
      assert seen + direct + [] == seen + direct;
      NoLinksBelow(counts.Length);
    }
  }

  lemma NoLinksBelow(n: nat)
    ensures Below([], n)
  {
  }

  lemma {:induction false} LinksKeepHigh(img: Image, n: nat, m: nat)
    requires Complete(img) && n <= |img.inodes| && !Below(Links(img, n), m)
    ensures !Below(Links(img, |img.inodes|), m)
    decreases |img.inodes| - n
  {
    hide DirLinks, Below;
    if n < |img.inodes| {
      BelowPrefix(Links(img, n), Links(img, n) + DirLinks(img, n), m);
      LinksKeepHigh(img, n + 1, m);
    }
  }

  // One inode's turn in the two passes.
  method ScanInode(img: Image, i: nat, counts: array<nat>, parent: array<nat>) returns (ok: bool)
    requires Complete(img) && i < |img.inodes| && InodeOk(img, i) && counts != parent
    requires Below(Links(img, i), counts.Length) && TablesOk(counts[..], parent[..], Links(img, i))
    modifies counts, parent
    ensures ok <==> Below(Links(img, i + 1), counts.Length)
    ensures ok ==> TablesOk(counts[..], parent[..], Links(img, i + 1))
  {
    hide TablesOk, Below, DirLinks, InodeOk, Links;
    ok := true;
    if img.inodes[i].kind == T_DIR {
      LinksNext(img, i);
      BelowConcat(Links(img, i), DirLinks(img, i), counts.Length);
      ok := ScanDirectory(img, i, counts, parent, Links(img, i));
    } else {
      NotADirectory(img, i);
    }
  }

  lemma {:induction false} LinksNext(img: Image, i: nat)
    requires Complete(img) && i < |img.inodes|
    ensures Links(img, i + 1) == Links(img, i) + DirLinks(img, i)
  {
    hide DirLinks;
  }

  lemma {:induction false} NoLinks(img: Image, counts: seq<nat>, parent: seq<nat>)
    requires Complete(img) && |counts| == |parent| == |img.inodes|
    requires forall t :: 0 <= t < |counts| ==> counts[t] == 0 && parent[t] == 0
    ensures TablesOk(counts, parent, Links(img, 0)) && Below(Links(img, 0), |counts|)
  {
  }

  /** The two passes over all directories. */
  method ScanLinks(img: Image, counts: array<nat>, parent: array<nat>) returns (ok: bool)
    requires Complete(img) && forall i :: 0 <= i < |img.inodes| ==> InodeOk(img, i)
    requires counts != parent && counts.Length == parent.Length == |img.inodes|
    requires forall t :: 0 <= t < counts.Length ==> counts[t] == 0 && parent[t] == 0
    modifies counts, parent
    ensures ok <==> InumsBelow(img)
    ensures ok ==> TablesOk(counts[..], parent[..], AllLinks(img))
  {
    hide TablesOk, Below, DirLinks, InodeOk, Links;
    NoLinks(img, counts[..], parent[..]);
    for i := 0 to |img.inodes|
      invariant Below(Links(img, i), counts.Length)
      invariant TablesOk(counts[..], parent[..], Links(img, i))
    {
      ok := ScanInode(img, i, counts, parent);
      if !ok {
        LinksKeepHigh(img, i + 1, counts.Length);
        return;
      }
    }
    ok := true;
  }

  lemma {:induction false} NotADirectory(img: Image, i: nat)
    requires Complete(img) && i < |img.inodes| && img.inodes[i].kind != T_DIR
    ensures Links(img, i + 1) == Links(img, i)
  {
    assert DirLinks(img, i) == [];
  }

  // ------------------------------------------------------------------ the walks to the root

  predicate InRange(parent: seq<nat>) {
    forall i :: 0 <= i < |parent| ==> parent[i] < |parent|
  }

  /** Two visits to the same inode repeat for ever. */
  lemma {:induction false} UpRepeats(parent: seq<nat>, i: nat, m: nat, k: nat, d: nat)
    requires Up(parent, i, m) == Up(parent, i, k)
    ensures Up(parent, i, m + d) == Up(parent, i, k + d)
    decreases d
  {
    if d > 0 {
      UpRepeats(parent, i, m, k, d - 1);
    }
  }

  /** A walk that comes back to an inode before it has met the root never meets it. */
  lemma {:induction false} LoopMissesRoot(parent: seq<nat>, i: nat, m: nat, k: nat, n: nat)
    requires m < k && Up(parent, i, m) == Up(parent, i, k)
    requires forall j: nat :: j < k ==> Up(parent, i, j) != 1
    ensures Up(parent, i, n) != 1
    decreases n
  {
    if n >= k {
      UpRepeats(parent, i, m, k, n - k);
      assert Up(parent, i, n) == Up(parent, i, m + (n - k));
      LoopMissesRoot(parent, i, m, k, m + (n - k));
    }
  }

  lemma {:induction false} BoundedSet(s: set<nat>, n: nat)
    requires forall x :: x in s ==> x < n
    ensures |s| <= n
    decreases n
  {
    if n > 0 {
      BoundedSet(s - {n - 1}, n - 1);
      assert |s| <= |s - {n - 1}| + 1;
    } else {
      assert s == {};
    }
  }

  /** met are the inodes that `steps` steps up from i have left, the root not among them. */
  ghost predicate Trail(up: seq<nat>, i: nat, steps: nat, met: set<nat>) {
    && InRange(up) && i < |up| && |met| == steps <= |up| && Up(up, i, steps) < |up|
    && (forall x :: x in met ==> x < |up| && exists j: nat :: j < steps && Up(up, i, j) == x)
    && forall j: nat :: j < steps ==> Up(up, i, j) != 1
  }

  lemma {:induction false} TrailStart(up: seq<nat>, i: nat)
    requires InRange(up) && i < |up|
    ensures Trail(up, i, 0, {}) && Up(up, i, 0) == i
  {
  }

  lemma {:induction false} TrailNext(up: seq<nat>, i: nat, steps: nat, met: set<nat>, p: nat)
    requires Trail(up, i, steps, met) && p == Up(up, i, steps) && p != 1 && p !in met
    ensures p < |up| && up[p] == Up(up, i, steps + 1) && steps < |up| && Trail(up, i, steps + 1, met + {p})
  {
    BoundedSet(met + {p}, |up|);
    forall x | x in met + {p} ensures exists j: nat :: j < steps + 1 && Up(up, i, j) == x {
      if x in met {
        var j: nat :| j < steps && Up(up, i, j) == x;
        assert j < steps + 1;
      }
    }
  }

  lemma {:induction false} TrailLoops(up: seq<nat>, i: nat, steps: nat, met: set<nat>)
    requires Trail(up, i, steps, met) && Up(up, i, steps) in met
    ensures !ReachesRoot(up, i) && steps <= |up|
  {
    var m: nat :| m < steps && Up(up, i, m) == Up(up, i, steps);
    forall n: nat ensures Up(up, i, n) != 1 {
      LoopMissesRoot(up, i, m, steps, n);
    }
  }

  lemma {:induction false} TrailEnds(up: seq<nat>, i: nat, steps: nat, met: set<nat>)
    requires Trail(up, i, steps, met)
    ensures Up(up, i, steps) < |up| && steps <= |up| && (Up(up, i, steps) == 1 ==> ReachesRoot(up, i))
  {
  }

  /** The walk from i: it meets the root or an inode for the second time, within as many steps as there are inodes. */
  method Walk(parent: array<nat>, trace: array<nat>, i: nat) returns (ok: bool, steps: nat)
    requires parent != trace && InRange(parent[..]) && i < parent.Length == trace.Length
    modifies trace
    ensures ok <==> ReachesRoot(parent[..], i)
    ensures steps <= parent.Length
  {
    hide Trail, ReachesRoot, InRange, Up;
    for j := 0 to trace.Length
      invariant forall x :: 0 <= x < j ==> trace[x] == 0
    {
      trace[j] := 0;
    }
    ghost var up, met: set<nat> := parent[..], {};
    var p := i;
    steps := 0;
    TrailStart(up, i);
    while p != 1
      invariant parent[..] == up && p == Up(up, i, steps) && p < parent.Length && steps <= parent.Length
      invariant Trail(up, i, steps, met)
      invariant forall x :: 0 <= x < trace.Length ==> trace[x] == if x in met then 1 else 0
      decreases parent.Length - steps
    {
      trace[p] := trace[p] + 1;
      if trace[p] > 1 {
        TrailLoops(up, i, steps, met);
        return false, steps;
      }
      TrailNext(up, i, steps, met, p);
      met := met + {p};
      p := parent[p];
      steps := steps + 1;
      TrailEnds(up, i, steps, met);
    }
    TrailEnds(up, i, steps, met);
    ok := true;
  }

  // ------------------------------------------------------------------ main

  /** Checks 9, 10, 11 and 12. */
  method CheckRefs(img: Image, counts: array<nat>) returns (ok: bool)
    requires Complete(img) && counts.Length == |img.inodes|
    requires forall i :: 0 <= i < counts.Length ==> counts[i] == References(img, i)
    ensures ok <==> forall i :: 0 <= i < |img.inodes| ==> RefsOk(img.inodes[i], References(img, i))
  {
    hide References;
    for i := 0 to |img.inodes|
      invariant forall k :: 0 <= k < i ==> RefsOk(img.inodes[k], References(img, k))
    {
      var ip := img.inodes[i];
      if ip.kind > 0 && counts[i] == 0 {
        return false;
      }
      if ip.kind == 0 && counts[i] > 0 {
        return false;
      }
      if ip.kind == T_FILE {
        if ip.nlink != counts[i] {
          return false;
        }
      }
      if ip.kind == T_DIR {
        if counts[i] > 1 {
          return false;
        }
      }
    }
    ok := true;
  }

  /** ".." against the recorded parent. */
  method CheckDotDots(img: Image, parent: array<nat>) returns (ok: bool)
    requires Complete(img) && parent.Length == |img.inodes|
    requires forall i :: 0 <= i < |img.inodes| ==> InodeOk(img, i)
    ensures ok <==> forall i :: 0 <= i < |img.inodes| && img.inodes[i].kind == T_DIR ==> DotDotIs(img, i, parent[i])
  {
    for i := 0 to |img.inodes|
      invariant forall k :: 0 <= k < i && img.inodes[k].kind == T_DIR ==> DotDotIs(img, k, parent[k])
    {
      if img.inodes[i].kind == T_DIR {
        assert InodeOk(img, i);
        if img.blocks[img.inodes[i].addrs[0]].entries[1].inum != parent[i] {
          return false;
        }
      }
    }
    ok := true;
  }

  /** Every directory against the walk to the root. */
  method CheckWalks(img: Image, parent: array<nat>) returns (ok: bool)
    requires Complete(img) && parent.Length == |img.inodes| && InRange(parent[..])
    ensures ok <==> forall i :: 0 <= i < |img.inodes| && img.inodes[i].kind == T_DIR ==> ReachesRoot(parent[..], i)
  {
    hide ReachesRoot, InRange;
    var trace := new nat[|img.inodes|];
    ghost var up := parent[..];
    for i := 0 to |img.inodes|
      invariant parent[..] == up
      invariant forall k :: 0 <= k < i && img.inodes[k].kind == T_DIR ==> ReachesRoot(up, k)
    {
      if img.inodes[i].kind == T_DIR {
        var found, steps := Walk(parent, trace, i);
        if !found {
          return false;
        }
      }
    }
    ok := true;
  }

  lemma {:induction false} LastParentBelow(links: seq<Link>, n: nat, t: nat)
    requires n > 0 && forall k :: 0 <= k < |links| ==> links[k].parent < n
    ensures LastParent(links, t) < n
  {
    if links != [] {
      LastParentBelow(links[..|links| - 1], n, t);
    }
  }

  lemma {:induction false} ParentsInRange(img: Image)
    requires Complete(img)
    ensures InRange(Parents(img))
  {
    LinksFromDirectories(img, |img.inodes|);
    forall i | 0 <= i < |img.inodes| ensures Parents(img)[i] < |img.inodes| {
      LastParentBelow(AllLinks(img), |img.inodes|, i);
    }
  }

  method CheckBlocks(img: Image) returns (ok: bool)
    requires Complete(img)
    ensures ok <==> BlocksClean(img)
  {
    hide InodeOk, SizeOk, BitmapOk, Refs, UsedOk;
    var used := new nat[img.size](_ => 0);
    ok := CheckInodes(img, used);
    if !ok { return; }
    ok := CheckBitmap(img, used);
    if !ok { return; }
    ok := CheckSizes(img);
  }

  method CheckLinks(img: Image) returns (ok: bool)
    requires Complete(img) && BlocksClean(img)
    ensures ok <==> LinksClean(img)
  {
    hide InodeOk, SizeOk, BitmapOk, DirectUsesNew, RefsOk, DotDotIs, ReachesRoot;
    var counts, parent := new nat[|img.inodes|](_ => 0), new nat[|img.inodes|](_ => 0);
    ok := ScanLinks(img, counts, parent);
    if !ok { return; }
    AddRoot(img, counts[..], parent[..]);
    hide TablesOk, References, AllLinks;
    counts[1] := counts[1] + 1;
    ok := CheckRefs(img, counts);
    if !ok { return; }
    parent[1] := 1;
    ParentsInRange(img);
    assert parent[..] == Parents(img);
    ok := CheckDotDots(img, parent);
    if !ok { return; }
    ok := CheckWalks(img, parent);
  }

  lemma AddRoot(img: Image, counts: seq<nat>, parent: seq<nat>)
    requires Complete(img) && TablesOk(counts, parent, AllLinks(img)) && |counts| == |img.inodes|
    ensures forall i :: 0 <= i < |counts| ==> counts[i] + (if i == 1 then 1 else 0) == References(img, i)
    ensures forall i :: 0 <= i < |parent| ==> (if i == 1 then 1 else parent[i]) == ParentOf(img, i)
  {
  }

  /** xfsck on a complete image: exit status 0 exactly for clean images.  Entry numbers beyond the inode table,
      with which the original would write beyond its arrays, count as rejection here. */
  method Xfsck(img: Image) returns (status: int)
    requires Complete(img)
    ensures status == (if Clean(img) then 0 else 1)
    ensures status == 0 ==> DirectoryTree(img)
  {
    hide BlocksClean, LinksClean, DirectoryTree;
    if img.size <= UsedBlocks(img) + img.nblocks {
      return 1;
    }
    var ok := CheckBlocks(img);
    if !ok {
      return 1;
    }
    ok := CheckLinks(img);
    if !ok {
      return 1;
    }
    CleanMeansTree(img);
    return 0;
  }
}
