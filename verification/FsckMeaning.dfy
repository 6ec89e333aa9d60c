/** What the checks of xfsck (p5/xxxxfsck.c) say about the slots and entries of an image, without the order in which
    the loops visit them. */
module FsckMeaning {
  import opened FsckImage
  import opened Fsck

  /** The block number in data slot s of inode i: 12 direct ones, then those of the indirect block; 0 is none. */
  function SlotOf(img: Image, i: nat, s: nat): nat
    requires Complete(img) && i < |img.inodes| && s < 140
  {
    var addrs := img.inodes[i].addrs;
    if s < 12 then addrs[s]
    else if 0 < addrs[12] < img.size then img.blocks[addrs[12]].words[s - 12]
    else 0
  }

  // ------------------------------------------------------------------ check 8

  ghost function InUse(addrs: seq<nat>, base: nat): set<nat> {
    set j | 0 <= j < |addrs| && addrs[j] != 0 :: base + j
  }

  lemma {:induction false} NonZeroMeaning(addrs: seq<nat>, base: nat)
    ensures NonZero(addrs) == |set j | 0 <= j < |addrs| && addrs[j] != 0 :: base + j|
  {
    if addrs == [] {
      assert InUse(addrs, base) == {};
    } else {
      var n := |addrs| - 1;
      NonZeroMeaning(addrs[..n], base);
      InUseLast(addrs, base);
    }
  }

  lemma {:induction false} InUseLast(addrs: seq<nat>, base: nat)
    requires addrs != []
    ensures var n := |addrs| - 1;
            && InUse(addrs, base) == InUse(addrs[..n], base) + (if addrs[n] != 0 then {base + n} else {})
            && base + n !in InUse(addrs[..n], base)
  {
    var n := |addrs| - 1;
    forall s | s in InUse(addrs[..n], base) ensures s in InUse(addrs, base) {
      var j :| 0 <= j < n && addrs[..n][j] != 0 && s == base + j;
      assert addrs[j] != 0;
    }
    forall s | s in InUse(addrs, base) && s != base + n ensures s in InUse(addrs[..n], base) {
      var j :| 0 <= j < |addrs| && addrs[j] != 0 && s == base + j;
      assert addrs[..n][j] != 0;
    }
    if addrs[n] != 0 {
      assert base + n in InUse(addrs, base);
    }
  }

  lemma InUseMeaning(addrs: seq<nat>, base: nat, s: nat)
    ensures s in InUse(addrs, base) <==> base <= s < base + |addrs| && addrs[s - base] != 0
  {
    if base <= s < base + |addrs| && addrs[s - base] != 0 {
      assert s == base + (s - base);
    }
  }

  ghost function SlotsInUse(img: Image, i: nat): set<nat>
    requires Complete(img) && i < |img.inodes|
  {
    set s | 0 <= s < 140 && SlotOf(img, i, s) != 0
  }

  lemma SlotsMeaning(img: Image, i: nat, s: nat)
    requires Complete(img) && i < |img.inodes|
    ensures var addrs := img.inodes[i].addrs;
            s in SlotsInUse(img, i) <==>
            || s in InUse(addrs[..12], 0)
            || (0 < addrs[12] < img.size && s in InUse(img.blocks[addrs[12]].words, 12))
  {
    var addrs := img.inodes[i].addrs;
    InUseMeaning(addrs[..12], 0, s);
    if 0 < addrs[12] < img.size {
      InUseMeaning(img.blocks[addrs[12]].words, 12, s);
    }
  }

  /** Check 8 looks at regular files only, and compares the size with the number of slots in use. */
  lemma DataBlocksMeaning(img: Image, i: nat)
    requires Complete(img) && i < |img.inodes|
    ensures DataBlocks(img, i) == |set s | 0 <= s < 140 && SlotOf(img, i, s) != 0|
    ensures SizeOk(img, i) <==>
            (img.inodes[i].kind == 2 ==>
               var n := |set s | 0 <= s < 140 && SlotOf(img, i, s) != 0|;
               (n - 1) * 512 < img.inodes[i].size <= n * 512)
  {
    hide DataBlocks, SlotOf;
    DataBlocksIs(img, i);
    assert SlotsInUse(img, i) == set s | 0 <= s < 140 && SlotOf(img, i, s) != 0;
  }

  lemma DataBlocksIs(img: Image, i: nat)
    requires Complete(img) && i < |img.inodes|
    ensures DataBlocks(img, i) == |SlotsInUse(img, i)|
  {
    hide NonZero, InUse, SlotsInUse;
    var addrs := img.inodes[i].addrs;
    NonZeroIs(addrs[..12], 0);
    forall s: nat ensures s in SlotsInUse(img, i) <==>
                          || s in InUse(addrs[..12], 0)
                          || (0 < addrs[12] < img.size && s in InUse(img.blocks[addrs[12]].words, 12)) {
      SlotsMeaning(img, i, s);
    }
    if 0 < addrs[12] < img.size {
      var words := img.blocks[addrs[12]].words;
      NonZeroIs(words, 12);
      forall s: nat ensures s !in InUse(addrs[..12], 0) || s !in InUse(words, 12) {
        InUseMeaning(addrs[..12], 0, s);
        InUseMeaning(words, 12, s);
      }
      assert InUse(addrs[..12], 0) !! InUse(words, 12);
      assert SlotsInUse(img, i) == InUse(addrs[..12], 0) + InUse(words, 12);
    } else {
      assert SlotsInUse(img, i) == InUse(addrs[..12], 0);
    }
  }

  lemma NonZeroIs(addrs: seq<nat>, base: nat)
    ensures NonZero(addrs) == |InUse(addrs, base)|
  {
    NonZeroMeaning(addrs, base);
  }

  /** Slots 0 to n - 1 are those in use, if the slots are filled from the front. */
  lemma {:induction false} FrontFilled(img: Image, i: nat, n: nat) returns (m: nat)
    requires Complete(img) && i < |img.inodes| && n <= 140
    requires forall s, t :: 0 <= s < t < 140 && SlotOf(img, i, t) != 0 ==> SlotOf(img, i, s) != 0
    ensures m <= n && forall s :: 0 <= s < n ==> (SlotOf(img, i, s) != 0 <==> s < m)
  {
    m := 0;
    if n > 0 {
      m := FrontFilled(img, i, n - 1);
      if SlotOf(img, i, n - 1) != 0 {
        m := n;
      }
    }
  }

  ghost function Upto(n: nat): (r: set<nat>)
    ensures |r| == n && forall s :: s in r <==> 0 <= s < n
  {
    if n == 0 then {} else Upto(n - 1) + {n - 1}
  }

  /** Check 8 for a file whose slots are filled from the front: the slots in use are exactly those that begin below
      its size.  The size is taken as signed, and sizes between -511 and 0 pass for an empty file. */
  lemma SizeMeaning(img: Image, i: nat)
    requires Complete(img) && i < |img.inodes|
    requires forall s, t :: 0 <= s < t < 140 && SlotOf(img, i, t) != 0 ==> SlotOf(img, i, s) != 0
    ensures var size := img.inodes[i].size;
            SizeOk(img, i) <==>
            (img.inodes[i].kind == 2 ==>
               -512 < size <= 140 * 512 && forall s :: 0 <= s < 140 ==> (SlotOf(img, i, s) != 0 <==> s * 512 < size))
  {
    hide SlotOf, DataBlocks;
    DataBlocksMeaning(img, i);
    var m := FrontFilled(img, i, 140);
    assert (set s | 0 <= s < 140 && SlotOf(img, i, s) != 0) == Upto(m);
    if img.inodes[i].kind == 2 {
      SizeByCount(img, i, m);
    }
  }

  lemma SizeByCount(img: Image, i: nat, m: nat)
    requires Complete(img) && i < |img.inodes| && DataBlocks(img, i) == m <= 140 && img.inodes[i].kind == 2
    requires forall s :: 0 <= s < 140 ==> (SlotOf(img, i, s) != 0 <==> s < m)
    ensures var size := img.inodes[i].size;
            SizeOk(img, i) <==>
            -512 < size <= 140 * 512 && forall s :: 0 <= s < 140 ==> (SlotOf(img, i, s) != 0 <==> s * 512 < size)
  {
    hide SlotOf, DataBlocks;
    var size := img.inodes[i].size;
    if -512 < size <= 140 * 512 && forall s :: 0 <= s < 140 ==> (SlotOf(img, i, s) != 0 <==> s * 512 < size) {
      if m < 140 {
        assert SlotOf(img, i, m) == 0;
      }
      if m > 0 {
        assert SlotOf(img, i, m - 1) != 0;
      }
    }
  }

  // ------------------------------------------------------------------ checks 5, 6 and 7

  /** Inode i is in use and has block b in a direct slot, as its indirect block, or in a slot of that block. */
  predicate Has(img: Image, i: nat, b: nat)
    requires Complete(img) && i < |img.inodes|
  {
    var addrs := img.inodes[i].addrs;
    && img.inodes[i].kind > 0 && b != 0
    && (b in addrs[..12] || (0 < addrs[12] < img.size && (addrs[12] == b || b in img.blocks[addrs[12]].words)))
  }

  ghost predicate Mentions(refs: seq<Ref>, b: nat) {
    exists k :: 0 <= k < |refs| && refs[k].addr == b
  }

  lemma MentionsConcat(xs: seq<Ref>, ys: seq<Ref>, b: nat)
    ensures Mentions(xs + ys, b) <==> Mentions(xs, b) || Mentions(ys, b)
  {
    if Mentions(xs, b) {
      var k :| 0 <= k < |xs| && xs[k].addr == b;
      assert (xs + ys)[k].addr == b;
    }
    if Mentions(ys, b) {
      var k :| 0 <= k < |ys| && ys[k].addr == b;
      assert (xs + ys)[|xs| + k].addr == b;
    }
  }

  lemma MentionsOne(a: nat, direct: bool, b: nat)
    ensures Mentions([Ref(a, direct)], b) <==> a == b
  {
    assert [Ref(a, direct)][0].addr == a;
  }

  lemma {:induction false} RefsOfMeaning(addrs: seq<nat>, direct: bool, b: nat)
    ensures Mentions(RefsOf(addrs, direct), b) <==> b != 0 && b in addrs
    ensures forall k :: 0 <= k < |RefsOf(addrs, direct)| ==> RefsOf(addrs, direct)[k].direct == direct
  {
    if addrs != [] {
      var n := |addrs| - 1;
      RefsOfMeaning(addrs[..n], direct, b);
      assert addrs == addrs[..n] + [addrs[n]];
      hide Mentions;
      MentionsOne(addrs[n], direct, b);
      MentionsConcat(RefsOf(addrs[..n], direct), [Ref(addrs[n], direct)], b);
      assert RefsOf(addrs[..n], direct) + [] == RefsOf(addrs[..n], direct);
    }
  }

  lemma {:induction false} InodeRefsMeaning(img: Image, i: nat, b: nat)
    requires Complete(img) && i < |img.inodes|
    ensures Mentions(InodeRefs(img, i), b) <==> Has(img, i, b)
  {
    hide RefsOf, Mentions;
    var addrs := img.inodes[i].addrs;
    RefsOfMeaning(addrs[..12], true, b);
    RefsOfMeaning([], true, b);
    MentionsConcat(RefsOf(addrs[..12], true), IndirectRefs(img, addrs[12]), b);
    assert Mentions([], b) == false by { MentionsNothing(b); }
    if 0 < addrs[12] < img.size {
      var words := img.blocks[addrs[12]].words;
      RefsOfMeaning(words, false, b);
      MentionsOne(addrs[12], false, b);
      MentionsConcat([Ref(addrs[12], false)], RefsOf(words, false), b);
    }
  }

  lemma MentionsNothing(b: nat)
    ensures !Mentions([], b)
  {
  }

  /** The counter of a block is positive exactly when an inode in use has the block. */
  lemma {:induction false} UsesMeaning(img: Image, n: nat, b: nat)
    requires Complete(img) && n <= |img.inodes|
    ensures Uses(Refs(img, n), b) > 0 <==> Mentions(Refs(img, n), b)
    ensures Uses(Refs(img, n), b) > 0 <==> exists i :: 0 <= i < n && Has(img, i, b)
  {
    hide Has, InodeRefs, Mentions;
    assert Uses(Refs(img, n), b) > 0 <==> Mentions(Refs(img, n), b) by { MentionsUses(Refs(img, n), b); }
    if n == 0 {
      MentionsNothing(b);
    } else {
      UsesMeaning(img, n - 1, b);
      InodeRefsMeaning(img, n - 1, b);
      MentionsConcat(Refs(img, n - 1), InodeRefs(img, n - 1), b);
    }
  }

  lemma {:induction false} MentionsUses(refs: seq<Ref>, b: nat)
    ensures Uses(refs, b) > 0 <==> Mentions(refs, b)
  {
    UsesPositive(refs, b);
  }

  /** Checks 5 and 6: from the first data block on, the bitmap marks exactly the blocks that inodes in use have. */
  lemma BitmapMeaning(img: Image)
    requires Complete(img)
    ensures BitmapOk(img) <==>
            forall b :: img.inodes[1].addrs[0] <= b < img.size ==>
              (img.bits[b] <==> exists i :: 0 <= i < |img.inodes| && Has(img, i, b))
  {
    hide Has, Uses, Refs;
    forall b: nat | b < img.size
      ensures Uses(Refs(img, |img.inodes|), b) > 0 <==> exists i :: 0 <= i < |img.inodes| && Has(img, i, b)
    {
      UsesMeaning(img, |img.inodes|, b);
    }
  }

  lemma NewConcat(xs: seq<Ref>, ys: seq<Ref>)
    ensures DirectUsesNew(xs + ys) <==>
            && DirectUsesNew(xs) && DirectUsesNew(ys)
            && forall j, k :: 0 <= j < |xs| && 0 <= k < |ys| && ys[k].direct ==> xs[j].addr != ys[k].addr
  {
    var s := xs + ys;
    if DirectUsesNew(s) {
      forall j, k | 0 <= j < k < |xs| && xs[k].direct ensures xs[j].addr != xs[k].addr {
        assert s[j] == xs[j] && s[k] == xs[k];
      }
      forall j, k | 0 <= j < k < |ys| && ys[k].direct ensures ys[j].addr != ys[k].addr {
        assert s[|xs| + j] == ys[j] && s[|xs| + k] == ys[k];
      }
      forall j, k | 0 <= j < |xs| && 0 <= k < |ys| && ys[k].direct ensures xs[j].addr != ys[k].addr {
        assert s[j] == xs[j] && s[|xs| + k] == ys[k];
      }
    }
  }

  lemma NewOne(refs: seq<Ref>, r: Ref)
    requires r.direct
    ensures DirectUsesNew(refs + [r]) <==> DirectUsesNew(refs) && !Mentions(refs, r.addr)
  {
    DirectUsesNewAppend(refs, r);
  }

  lemma {:induction false} DirectNew(addrs: seq<nat>)
    ensures DirectUsesNew(RefsOf(addrs, true)) <==>
            forall j, k :: 0 <= j < k < |addrs| && addrs[k] != 0 ==> addrs[j] != addrs[k]
  {
    hide DirectUsesNew, Mentions;
    if addrs == [] {
      NoneNew();
    } else {
      var n := |addrs| - 1;
      DirectNew(addrs[..n]);
      NewOne(RefsOf(addrs[..n], true), Ref(addrs[n], true));
      RefsOfMeaning(addrs[..n], true, addrs[n]);
      assert RefsOf(addrs[..n], true) + [] == RefsOf(addrs[..n], true);
      assert forall j :: 0 <= j < n ==> addrs[..n][j] == addrs[j];
    }
  }

  lemma NoneNew()
    ensures DirectUsesNew([])
  {
  }

  /** Uses that need not be new do not spoil anything. */
  lemma NewIndirect(xs: seq<Ref>, ys: seq<Ref>)
    requires forall k :: 0 <= k < |ys| ==> !ys[k].direct
    ensures DirectUsesNew(xs + ys) <==> DirectUsesNew(xs)
  {
    NewConcat(xs, ys);
  }

  /** Direct uses that come later must differ from all uses before. */
  lemma NewDirect(xs: seq<Ref>, ys: seq<Ref>)
    requires forall k :: 0 <= k < |ys| ==> ys[k].direct
    ensures DirectUsesNew(xs + ys) <==>
            DirectUsesNew(xs) && DirectUsesNew(ys) && forall a :: Mentions(ys, a) ==> !Mentions(xs, a)
  {
    NewConcat(xs, ys);
    if DirectUsesNew(xs + ys) {
      forall a | Mentions(ys, a) ensures !Mentions(xs, a) {
      }
    } else if DirectUsesNew(xs) && DirectUsesNew(ys) {
      var j, k :| 0 <= j < |xs| && 0 <= k < |ys| && xs[j].addr == ys[k].addr;
      assert Mentions(xs, xs[j].addr) && Mentions(ys, xs[j].addr);
    }
  }

  /** The direct addresses of inode i, if it is in use, differ from one another and from every block that an inode
      before it has. */
  ghost predicate DirectsFresh(img: Image, i: nat)
    requires Complete(img) && i < |img.inodes|
  {
    var addrs := img.inodes[i].addrs;
    img.inodes[i].kind > 0 ==>
      && (forall j, k :: 0 <= j < k < 12 && addrs[k] != 0 ==> addrs[j] != addrs[k])
      && forall k, p :: 0 <= k < 12 && addrs[k] != 0 && 0 <= p < i ==> !Has(img, p, addrs[k])
  }

  lemma {:induction false} FreshBefore(img: Image, i: nat)
    requires Complete(img) && i < |img.inodes|
    ensures var addrs := img.inodes[i].addrs;
            (forall a :: Mentions(RefsOf(addrs[..12], true), a) ==> !Mentions(Refs(img, i), a)) <==>
            forall k, p :: 0 <= k < 12 && addrs[k] != 0 && 0 <= p < i ==> !Has(img, p, addrs[k])
  {
    hide RefsOf, Refs, Mentions, Has, Uses;
    var addrs := img.inodes[i].addrs;
    var ds, xs := RefsOf(addrs[..12], true), Refs(img, i);
    if forall a :: Mentions(ds, a) ==> !Mentions(xs, a) {
      forall k, p | 0 <= k < 12 && addrs[k] != 0 && 0 <= p < i ensures !Has(img, p, addrs[k]) {
        assert addrs[k] in addrs[..12];
        RefsOfMeaning(addrs[..12], true, addrs[k]);
        UsesMeaning(img, i, addrs[k]);
      }
    }
    if forall k, p :: 0 <= k < 12 && addrs[k] != 0 && 0 <= p < i ==> !Has(img, p, addrs[k]) {
      forall a | Mentions(ds, a) ensures !Mentions(xs, a) {
        RefsOfMeaning(addrs[..12], true, a);
        UsesMeaning(img, i, a);
      }
    }
  }

  lemma {:induction false} RefsNext(img: Image, i: nat)
    requires Complete(img) && i < |img.inodes|
    ensures var addrs := img.inodes[i].addrs;
            Refs(img, i + 1) == if img.inodes[i].kind <= 0 then Refs(img, i)
                                else (Refs(img, i) + RefsOf(addrs[..12], true)) + IndirectRefs(img, addrs[12])
  {
    hide RefsOf, IndirectRefs;
    assert Refs(img, i) + [] == Refs(img, i);
  }

  lemma {:induction false} InodeNew(img: Image, i: nat)
    requires Complete(img) && i < |img.inodes|
    ensures DirectUsesNew(Refs(img, i + 1)) <==> DirectUsesNew(Refs(img, i)) && DirectsFresh(img, i)
  {
    hide DirectUsesNew, RefsOf, IndirectRefs, Refs, Mentions, Has;
    RefsNext(img, i);
    if img.inodes[i].kind > 0 {
      UsedNew(img, i);
    }
  }

  lemma {:induction false} UsedNew(img: Image, i: nat)
    requires Complete(img) && i < |img.inodes| && img.inodes[i].kind > 0
    ensures var addrs := img.inodes[i].addrs;
            DirectUsesNew((Refs(img, i) + RefsOf(addrs[..12], true)) + IndirectRefs(img, addrs[12])) <==>
            DirectUsesNew(Refs(img, i)) && DirectsFresh(img, i)
  {
    hide DirectUsesNew, RefsOf, IndirectRefs, Refs, Mentions, Has;
    var addrs, xs := img.inodes[i].addrs, Refs(img, i);
    var ds := RefsOf(addrs[..12], true);
    IndirectLate(img, addrs[12]);
    NewIndirect(xs + ds, IndirectRefs(img, addrs[12]));
    RefsOfMeaning(addrs[..12], true, 0);
    NewDirect(xs, ds);
    DirectNew(addrs[..12]);
    assert forall k :: 0 <= k < 12 ==> addrs[..12][k] == addrs[k];
    FreshBefore(img, i);
  }

  lemma {:induction false} IndirectLate(img: Image, a: nat)
    ensures forall k :: 0 <= k < |IndirectRefs(img, a)| ==> !IndirectRefs(img, a)[k].direct
  {
    if 0 < a < |img.blocks| {
      RefsOfMeaning(img.blocks[a].words, false, 0);
    }
  }

  lemma {:induction false} NoRefsNew(img: Image)
    requires Complete(img)
    ensures DirectUsesNew(Refs(img, 0))
  {
  }

  /** Check 7, as the code does it: the direct addresses of every inode in use are new. */
  lemma {:induction false} Check7Meaning(img: Image, n: nat)
    requires Complete(img) && n <= |img.inodes|
    ensures DirectUsesNew(Refs(img, n)) <==> forall i :: 0 <= i < n ==> DirectsFresh(img, i)
  {
    hide DirectUsesNew, DirectsFresh, Refs;
    if n == 0 {
      NoRefsNew(img);
    } else {
      Check7Meaning(img, n - 1);
      InodeNew(img, n - 1);
    }
  }

  // ------------------------------------------------------------------ checks 2, 3 and 4

  /** Checks 2, 3 and 4: the type is known; the addresses of an inode in use, those in its indirect block included,
      are 0 or data blocks of the image; and a directory begins with "." and "..", and "." names it. */
  lemma InodeMeaning(img: Image, i: nat)
    requires Complete(img) && i < |img.inodes|
    ensures var ip, first := img.inodes[i], img.inodes[1].addrs[0];
            InodeOk(img, i) <==>
              && (ip.kind == 0 || ip.kind == 1 || ip.kind == 2 || ip.kind == 3)
              && (ip.kind != 0 ==> forall a :: a in ip.addrs && a != 0 ==> first <= a < img.size)
              && (ip.kind != 0 && 0 < ip.addrs[12] < img.size ==>
                    forall a :: a in img.blocks[ip.addrs[12]].words && a != 0 ==> first <= a < img.size)
              && (ip.kind == 1 ==>
                    && ip.addrs[0] < img.size
                    && var es := img.blocks[ip.addrs[0]].entries;
                       && |es[0].name| > 1 && es[0].name[..2] == ".\0" && es[0].inum == i
                       && |es[1].name| > 2 && es[1].name[..3] == "..\0")
  {
    hide AddressesOk, Formatted;
    var ip := img.inodes[i];
    AddressesMeaning(img, ip.addrs[..12]);
    assert ip.addrs == ip.addrs[..12] + [ip.addrs[12]];
    assert ip.addrs[12] in ip.addrs && forall a :: a in ip.addrs[..12] ==> a in ip.addrs;
    if 0 < ip.addrs[12] < img.size {
      AddressesMeaning(img, img.blocks[ip.addrs[12]].words);
    }
    FormattedMeaning(img, i);
  }

  lemma AddressesMeaning(img: Image, addrs: seq<nat>)
    requires |img.inodes| >= 2 && |img.inodes[1].addrs| == NDIRECT + 1
    ensures AddressesOk(img, addrs) <==>
            forall a :: a in addrs && a != 0 ==> img.inodes[1].addrs[0] <= a < img.size
  {
    if forall a :: a in addrs && a != 0 ==> img.inodes[1].addrs[0] <= a < img.size {
      forall j | 0 <= j < |addrs| ensures addrs[j] == 0 || InData(img, addrs[j]) {
        assert addrs[j] in addrs;
      }
    }
  }

  lemma FormattedMeaning(img: Image, i: nat)
    requires Complete(img) && i < |img.inodes|
    ensures var ip := img.inodes[i];
            Formatted(img, i) <==>
              && ip.addrs[0] < img.size
              && var es := img.blocks[ip.addrs[0]].entries;
                 && |es[0].name| > 1 && es[0].name[..2] == ".\0" && es[0].inum == i
                 && |es[1].name| > 2 && es[1].name[..3] == "..\0"
  {
  }

  // ------------------------------------------------------------------ checks 9 to 12

  /** Entry e of slot s of directory i names inode t, and is neither "." nor "..". */
  predicate Names(img: Image, i: nat, s: nat, e: nat, t: nat)
    requires Complete(img) && i < |img.inodes| && s < 140 && e < 32
  {
    img.inodes[i].kind == 1 && 0 < SlotOf(img, i, s) < img.size &&
    var d := img.blocks[SlotOf(img, i, s)].entries[e];
    d.inum == t != 0 && !(|d.name| > 1 && d.name[..2] == ".\0") && !(|d.name| > 2 && d.name[..3] == "..\0")
  }

  /** The entries of slot s that name t. */
  ghost function Namers(i: nat, s: nat, es: seq<Dirent>, t: nat): set<(nat, nat, nat)> {
    set e | 0 <= e < |es| && Counts(es[e]) && es[e].inum == t :: (i, s, e)
  }

  lemma {:induction false} EntriesMeaning(i: nat, s: nat, es: seq<Dirent>, t: nat)
    ensures Count(EntryLinks(i, es), t) == |Namers(i, s, es, t)|
  {
    if es != [] {
      var n := |es| - 1;
      EntriesMeaning(i, s, es[..n], t);
      NamersLast(i, s, es, t);
      assert EntryLinks(i, es[..n]) + [] == EntryLinks(i, es[..n]);
      LinkAppend(EntryLinks(i, es[..n]), Link(i, es[n].inum), t);
    } else {
      assert Namers(i, s, es, t) == {};
    }
  }

  lemma {:induction false} NamersLast(i: nat, s: nat, es: seq<Dirent>, t: nat)
    requires es != []
    ensures var n := |es| - 1;
            && Namers(i, s, es, t)
               == Namers(i, s, es[..n], t) + (if Counts(es[n]) && es[n].inum == t then {(i, s, n)} else {})
            && (i, s, n) !in Namers(i, s, es[..n], t)
  {
    var n := |es| - 1;
    forall x | x in Namers(i, s, es[..n], t) ensures x in Namers(i, s, es, t) {
      assert es[..n][x.2] == es[x.2];
    }
    forall x | x in Namers(i, s, es, t) && x != (i, s, n) ensures x in Namers(i, s, es[..n], t) {
      assert es[..n][x.2] == es[x.2];
    }
  }

  lemma {:induction false} CountConcat(xs: seq<Link>, ys: seq<Link>, t: nat)
    ensures Count(xs + ys, t) == Count(xs, t) + Count(ys, t)
  {
    if ys == [] {
      assert xs + ys == xs;
    } else {
      var n := |ys| - 1;
      CountConcat(xs, ys[..n], t);
      assert xs + ys == (xs + ys[..n]) + [ys[n]] && ys == ys[..n] + [ys[n]];
      LinkAppend(xs + ys[..n], ys[n], t);
      LinkAppend(ys[..n], ys[n], t);
    }
  }

  /** The entries of the blocks `addrs`, which are the slots from `base` on, that name t. */
  ghost function BlockNamers(img: Image, i: nat, addrs: seq<nat>, base: nat, t: nat): set<(nat, nat, nat)> {
    if addrs == [] then {} else BlockNamers(img, i, addrs[..|addrs| - 1], base, t) + LastNamers(img, i, addrs, base, t)
  }

  ghost function LastNamers(img: Image, i: nat, addrs: seq<nat>, base: nat, t: nat): set<(nat, nat, nat)>
    requires addrs != []
  {
    var a, s := addrs[|addrs| - 1], base + |addrs| - 1;
    if 0 < a < |img.blocks| then Namers(i, s, img.blocks[a].entries, t) else {}
  }

  lemma {:induction false} BlockNamersMeaning(img: Image, i: nat, addrs: seq<nat>, base: nat, t: nat,
                                              x: (nat, nat, nat))
    ensures x in BlockNamers(img, i, addrs, base, t) <==>
              && x.0 == i && base <= x.1 < base + |addrs|
              && var a := addrs[x.1 - base]; 0 < a < |img.blocks| && x in Namers(i, x.1, img.blocks[a].entries, t)
  {
    if addrs != [] {
      var n := |addrs| - 1;
      BlockNamersMeaning(img, i, addrs[..n], base, t, x);
      if x in LastNamers(img, i, addrs, base, t) {
        assert x.0 == i && x.1 == base + n;
      }
    }
  }

  lemma {:induction false} LastNew(img: Image, i: nat, addrs: seq<nat>, base: nat, t: nat)
    requires addrs != []
    ensures BlockNamers(img, i, addrs[..|addrs| - 1], base, t) !! LastNamers(img, i, addrs, base, t)
  {
    hide BlockNamers;
    var init := addrs[..|addrs| - 1];
    forall x | x in LastNamers(img, i, addrs, base, t) ensures x !in BlockNamers(img, i, init, base, t) {
      BlockNamersMeaning(img, i, init, base, t, x);
    }
  }

  lemma {:induction false} LastCount(img: Image, i: nat, addrs: seq<nat>, base: nat, t: nat)
    requires addrs != []
    ensures Count(BlockLinks(img, i, addrs), t)
            == Count(BlockLinks(img, i, addrs[..|addrs| - 1]), t) + |LastNamers(img, i, addrs, base, t)|
  {
    hide EntryLinks, Namers, Count;
    var n := |addrs| - 1;
    var init := BlockLinks(img, i, addrs[..n]);
    assert init + [] == init;
    if 0 < addrs[n] < |img.blocks| {
      CountConcat(init, EntryLinks(i, img.blocks[addrs[n]].entries), t);
      EntriesMeaning(i, base + n, img.blocks[addrs[n]].entries, t);
    }
  }

  lemma {:induction false} BlocksMeaning(img: Image, i: nat, addrs: seq<nat>, base: nat, t: nat)
    ensures Count(BlockLinks(img, i, addrs), t) == |BlockNamers(img, i, addrs, base, t)|
  {
    hide BlockLinks, LastNamers;
    if addrs == [] {
      NoBlockLinks(img, i, t);
    } else {
      BlocksMeaning(img, i, addrs[..|addrs| - 1], base, t);
      LastCount(img, i, addrs, base, t);
      LastNew(img, i, addrs, base, t);
    }
  }

  lemma {:induction false} NoBlockLinks(img: Image, i: nat, t: nat)
    ensures Count(BlockLinks(img, i, []), t) == 0
  {
  }

  // ------------------------------------------------------------------ all directories

  ghost function DirNamers(img: Image, i: nat, t: nat): set<(nat, nat, nat)>
    requires Complete(img) && i < |img.inodes|
  {
    var ip := img.inodes[i];
    if ip.kind != T_DIR then {}
    else
      BlockNamers(img, i, ip.addrs[..12], 0, t)
      + if 0 < ip.addrs[12] < |img.blocks| then BlockNamers(img, i, img.blocks[ip.addrs[12]].words, 12, t) else {}
  }

  lemma {:induction false} DirNamersMeaning(img: Image, i: nat, t: nat, x: (nat, nat, nat))
    requires Complete(img) && i < |img.inodes| && t != 0
    ensures x in DirNamers(img, i, t) <==> x.0 == i && x.1 < 140 && x.2 < 32 && Names(img, i, x.1, x.2, t)
  {
    hide BlockNamers;
    var ip := img.inodes[i];
    if ip.kind == T_DIR {
      BlockNamersMeaning(img, i, ip.addrs[..12], 0, t, x);
      if 0 < ip.addrs[12] < |img.blocks| {
        BlockNamersMeaning(img, i, img.blocks[ip.addrs[12]].words, 12, t, x);
      }
    }
  }

  lemma {:induction false} DirMeaning(img: Image, i: nat, t: nat)
    requires Complete(img) && i < |img.inodes|
    ensures Count(DirLinks(img, i), t) == |DirNamers(img, i, t)|
  {
    hide BlockNamers, BlockLinks, Count;
    var ip := img.inodes[i];
    NoLinksCount(t);
    if ip.kind == T_DIR {
      var direct := BlockLinks(img, i, ip.addrs[..12]);
      BlocksMeaning(img, i, ip.addrs[..12], 0, t);
      assert direct + [] == direct;
      if 0 < ip.addrs[12] < |img.blocks| {
        var words := img.blocks[ip.addrs[12]].words;
        BlocksMeaning(img, i, words, 12, t);
        CountConcat(direct, BlockLinks(img, i, words), t);
        forall x | x in BlockNamers(img, i, words, 12, t) ensures x !in BlockNamers(img, i, ip.addrs[..12], 0, t) {
          BlockNamersMeaning(img, i, words, 12, t, x);
          BlockNamersMeaning(img, i, ip.addrs[..12], 0, t, x);
        }
      }
    }
  }

  lemma {:induction false} NoLinksCount(t: nat)
    ensures Count([], t) == 0
  {
  }

  ghost function AllNamers(img: Image, n: nat, t: nat): set<(nat, nat, nat)>
    requires Complete(img) && n <= |img.inodes|
  {
    if n == 0 then {} else AllNamers(img, n - 1, t) + DirNamers(img, n - 1, t)
  }

  lemma {:induction false} AllNamersMeaning(img: Image, n: nat, t: nat, x: (nat, nat, nat))
    requires Complete(img) && n <= |img.inodes| && t != 0
    ensures x in AllNamers(img, n, t) <==> x.0 < n && x.1 < 140 && x.2 < 32 && Names(img, x.0, x.1, x.2, t)
  {
    hide DirNamers, Names;
    if n > 0 {
      AllNamersMeaning(img, n - 1, t, x);
      DirNamersMeaning(img, n - 1, t, x);
    }
  }

  lemma {:induction false} LinksMeaning(img: Image, n: nat, t: nat)
    requires Complete(img) && n <= |img.inodes| && t != 0
    ensures Count(Links(img, n), t) == |AllNamers(img, n, t)|
  {
    hide DirNamers, DirLinks, Count;
    NoLinksCount(t);
    if n > 0 {
      LinksMeaning(img, n - 1, t);
      DirMeaning(img, n - 1, t);
      CountConcat(Links(img, n - 1), DirLinks(img, n - 1), t);
      DirNamersNew(img, n - 1, t);
    }
  }

  lemma {:induction false} DirNamersNew(img: Image, n: nat, t: nat)
    requires Complete(img) && n < |img.inodes| && t != 0
    ensures DirNamers(img, n, t) !! AllNamers(img, n, t)
  {
    hide DirNamers, AllNamers, Names;
    var own := DirNamers(img, n, t);
    forall x | x in own ensures x !in AllNamers(img, n, t) {
      DirNamersMeaning(img, n, t, x);
      AllNamersMeaning(img, n, t, x);
    }
  }

  /** The references to inode t are the entries, other than "." and "..", that name it, wherever they are; the root has
      one more. */
  lemma {:induction false} ReferencesMeaning(img: Image, t: nat)
    requires Complete(img) && 0 < t < |img.inodes|
    ensures References(img, t)
            == |set i, s, e | 0 <= i < |img.inodes| && 0 <= s < 140 && 0 <= e < 32
                              && Names(img, i, s, e, t) :: (i, s, e)| + if t == 1 then 1 else 0
  {
    hide Names, Links, Count, AllNamers;
    var all := set i, s, e | 0 <= i < |img.inodes| && 0 <= s < 140 && 0 <= e < 32
                             && Names(img, i, s, e, t) :: (i, s, e);
    LinksMeaning(img, |img.inodes|, t);
    forall x: (nat, nat, nat) ensures x in all <==> x in AllNamers(img, |img.inodes|, t) {
      AllNamersMeaning(img, |img.inodes|, t, x);
    }
    assert all == AllNamers(img, |img.inodes|, t);
  }

  /** Every counted entry names an inode of the table. */
  lemma {:induction false} InumsMeaning(img: Image)
    requires Complete(img)
    ensures InumsBelow(img) <==>
            forall i, s, e, t: nat :: 0 <= i < |img.inodes| && 0 <= s < 140 && 0 <= e < 32 && Names(img, i, s, e, t) ==>
              t < |img.inodes|
  {
    hide Names, Links, AllNamers;
    var links := AllLinks(img);
    if InumsBelow(img) {
      forall i, s, e, t: nat | 0 <= i < |img.inodes| && 0 <= s < 140 && 0 <= e < 32 && Names(img, i, s, e, t)
        ensures t < |img.inodes|
      {
        var k := NamedLink(img, i, s, e, t);
      }
    }
    if forall i, s, e, t: nat :: 0 <= i < |img.inodes| && 0 <= s < 140 && 0 <= e < 32 && Names(img, i, s, e, t) ==>
         t < |img.inodes| {
      forall k | 0 <= k < |links| ensures links[k].child < |img.inodes| {
        var i, s, e := LinkNamed(img, k);
      }
    }
  }

  lemma NamesPositive(img: Image, i: nat, s: nat, e: nat, t: nat)
    requires Complete(img) && i < |img.inodes| && s < 140 && e < 32 && Names(img, i, s, e, t)
    ensures t != 0
  {
  }

  /** An entry that counts is a link. */
  lemma {:induction false} NamedLink(img: Image, i: nat, s: nat, e: nat, t: nat) returns (k: nat)
    requires Complete(img) && i < |img.inodes| && s < 140 && e < 32 && Names(img, i, s, e, t)
    ensures t != 0 && k < |AllLinks(img)| && AllLinks(img)[k] == Link(i, t)
  {
    NamesPositive(img, i, s, e, t);
    hide Names, Links, DirNamers, Count;
    DirNamersMeaning(img, i, t, (i, s, e));
    DirMeaning(img, i, t);
    var own := DirLinks(img, i);
    assert (i, s, e) in DirNamers(img, i, t);
    if forall j :: 0 <= j < |own| ==> own[j].child != t {
      Unnamed(own, t);
    }
    var j :| 0 <= j < |own| && own[j].child == t;
    DirLinksFrom(img, i);
    k := LinkKept(img, |img.inodes|, i, j);
  }

  lemma {:induction false} LinkKept(img: Image, n: nat, i: nat, j: nat) returns (k: nat)
    requires Complete(img) && i < n <= |img.inodes| && j < |DirLinks(img, i)|
    ensures k < |Links(img, n)| && Links(img, n)[k] == DirLinks(img, i)[j]
  {
    hide DirLinks;
    if i == n - 1 {
      k := |Links(img, n - 1)| + j;
    } else {
      k := LinkKept(img, n - 1, i, j);
    }
  }

  /** And every link is such an entry. */
  lemma {:induction false} LinkNamed(img: Image, k: nat) returns (i: nat, s: nat, e: nat)
    requires Complete(img) && k < |AllLinks(img)|
    ensures i < |img.inodes| && s < 140 && e < 32 && Names(img, i, s, e, AllLinks(img)[k].child)
  {
    hide Names, Links, AllNamers, Count;
    var t := AllLinks(img)[k].child;
    LinkFromDirectory(img, k);
    LinksMeaning(img, |img.inodes|, t);
    CountedLink(AllLinks(img), k);
    var x :| x in AllNamers(img, |img.inodes|, t);
    AllNamersMeaning(img, |img.inodes|, t, x);
    i, s, e := x.0, x.1, x.2;
  }

  lemma {:induction false} CountedLink(links: seq<Link>, k: nat)
    requires k < |links|
    ensures Count(links, links[k].child) > 0
  {
    if k < |links| - 1 {
      CountedLink(links[..|links| - 1], k);
    }
  }

  /** The parent on record for a directory with one reference is the directory of the entry that names it; that of
      inode 1 is itself. */
  lemma {:induction false} ParentMeaning(img: Image, i: nat, p: nat, s: nat, e: nat)
    requires Complete(img) && 1 < i < |img.inodes| && References(img, i) == 1
    requires p < |img.inodes| && s < 140 && e < 32 && Names(img, p, s, e, i)
    ensures ParentOf(img, i) == p && ParentOf(img, 1) == 1
  {
    hide Names, Links, Count;
    var k := NamedLink(img, p, s, e, i);
    OneLink(AllLinks(img), i);
  }

  // ------------------------------------------------------------------ the walk to the root

  /** Inode 1 is reached exactly when a chain of recorded parents leads to it. */
  lemma {:induction false} WalkMeaning(parent: seq<nat>, i: nat)
    requires |parent| > 1
    ensures ReachesRoot(parent, i) <==>
            exists path: seq<nat> ::
              && |path| > 0 && path[0] == i && path[|path| - 1] == 1
              && forall k :: 0 <= k < |path| - 1 ==> path[k] < |parent| && path[k + 1] == parent[path[k]]
  {
    if ReachesRoot(parent, i) {
      var k: nat :| Up(parent, i, k) == 1;
      var path := Chain(parent, i, k);
    }
    if path: seq<nat> :| && |path| > 0 && path[0] == i && path[|path| - 1] == 1
                         && forall k :: 0 <= k < |path| - 1 ==> path[k] < |parent| && path[k + 1] == parent[path[k]]
    {
      ChainUp(parent, path, |path| - 1);
    }
  }

  lemma {:induction false} ChainUp(parent: seq<nat>, path: seq<nat>, n: nat)
    requires n < |path| && forall k :: 0 <= k < |path| - 1 ==> path[k] < |parent| && path[k + 1] == parent[path[k]]
    ensures Up(parent, path[0], n) == path[n]
  {
    if n > 0 {
      ChainUp(parent, path, n - 1);
    }
  }

  lemma {:induction false} Chain(parent: seq<nat>, i: nat, n: nat) returns (path: seq<nat>)
    requires |parent| > 1 && Up(parent, i, n) < |parent|
    ensures |path| > 0 && path[0] == i && path[|path| - 1] == Up(parent, i, n)
    ensures forall k :: 0 <= k < |path| - 1 ==> path[k] < |parent| && path[k + 1] == parent[path[k]]
  {
    if n == 0 {
      path := [i];
    } else {
      assert Up(parent, i, n - 1) < |parent|;
      path := Chain(parent, i, n - 1);
      path := path + [Up(parent, i, n)];
    }
  }

  // ------------------------------------------------------------------ the verdict

  /** What xfsck accepts, check by check. */
  lemma {:induction false} CleanMeaning(img: Image)
    requires Complete(img)
    ensures Clean(img) <==>
      && img.size > |img.inodes| / 8 + 1 + (img.size / 4096 + 1) + img.nblocks
      && (forall i :: 0 <= i < |img.inodes| ==> InodeOk(img, i) && DirectsFresh(img, i) && SizeOk(img, i))
      && (forall b :: img.inodes[1].addrs[0] <= b < img.size ==>
            (img.bits[b] <==> exists i :: 0 <= i < |img.inodes| && Has(img, i, b)))
      && (forall i, s, e, t: nat :: 0 <= i < |img.inodes| && 0 <= s < 140 && 0 <= e < 32 && Names(img, i, s, e, t) ==>
            t < |img.inodes|)
      && img.inodes[0].kind == 0
      && (forall t :: 0 < t < |img.inodes| ==>
            var ip, n := img.inodes[t], References(img, t);
            && (ip.kind == 0 <==> n == 0) && (ip.kind == 2 ==> ip.nlink == n) && (ip.kind == 1 ==> n == 1))
      && (forall i :: 0 < i < |img.inodes| && img.inodes[i].kind == 1 ==>
            && img.inodes[i].addrs[0] < img.size
            && img.blocks[img.inodes[i].addrs[0]].entries[1].inum == ParentOf(img, i)
            && ReachesRoot(Parents(img), i))
  {
    hide InodeOk, DirectsFresh, SizeOk, Has, Names, References, ParentOf, Parents, ReachesRoot, Refs,
      DirectUsesNew, BitmapOk, InumsBelow;
    Check7Meaning(img, |img.inodes|);
    BitmapMeaning(img);
    InumsMeaning(img);
    NothingNamesZero(img);
    assert forall i :: 0 <= i < |img.inodes| && InodeOk(img, i) ==> 0 <= img.inodes[i].kind <= 3 by {
      forall i | 0 <= i < |img.inodes| && InodeOk(img, i) ensures 0 <= img.inodes[i].kind <= 3 {
        KindOf(img, i);
      }
    }
  }

  lemma KindOf(img: Image, i: nat)
    requires Complete(img) && i < |img.inodes| && InodeOk(img, i)
    ensures 0 <= img.inodes[i].kind <= 3
  {
  }

  lemma {:induction false} NothingNamesZero(img: Image)
    requires Complete(img)
    ensures References(img, 0) == 0
  {
    hide Links;
    var links := AllLinks(img);
    forall k | 0 <= k < |links| ensures links[k].child != 0 {
      LinkFromDirectory(img, k);
    }
    Unnamed(links, 0);
  }
}
