/** What the names on a fresh image lead to: following them from the root finds every file of the host tree
    (p2b/tools/mkfs.c:128-190, read with the directory layer of p2b/kernel/fs.c). */
module MkfsNames {
  import opened Basics
  import opened FsBlock
  import opened FsWrite
  import opened FsDirMap
  import opened Mkfs
  import opened MkfsTree

  // ------------------------------------------------------------------ one directory

  /** The map that add_dir builds, entry by entry. */
  function NameMap(es: seq<Host>, cur: nat, parent: nat, first: nat): map<seq<byte>, nat> {
    if es == [] then map[DOT := cur][DOT_DOT := parent]
    else
      var init := es[..|es| - 1];
      NameMap(init, cur, parent, first)[Cut(es[|es| - 1].name) := first + CountAll(init)]
  }

  /** The first 14 bytes of the names differ, and none is "." or "..". */
  predicate Distinct(es: seq<Host>) {
    && (forall j, k :: 0 <= j < k < |es| ==> Cut(es[j].name) != Cut(es[k].name))
    && (forall k :: 0 <= k < |es| ==> Cut(es[k].name) != DOT && Cut(es[k].name) != DOT_DOT)
  }

  lemma DistinctPrefix(es: seq<Host>)
    requires Distinct(es) && es != []
    ensures Distinct(es[..|es| - 1])
    ensures var n := Cut(es[|es| - 1].name);
            n != DOT && n != DOT_DOT && forall k :: 0 <= k < |es| - 1 ==> Cut(es[k].name) != n
  {
  }

  lemma {:induction false} NameMapKeys(es: seq<Host>, cur: nat, parent: nat, first: nat, n: seq<byte>)
    ensures n in NameMap(es, cur, parent, first) <==>
            n == DOT || n == DOT_DOT || exists k :: 0 <= k < |es| && Cut(es[k].name) == n
  {
    hide Cut, CountAll;
    if es != [] {
      var init := es[..|es| - 1];
      NameMapKeys(init, cur, parent, first, n);
      if k :| 0 <= k < |init| && Cut(init[k].name) == n {
        assert Cut(es[k].name) == n;
      }
      if k :| 0 <= k < |es| && Cut(es[k].name) == n && k < |init| {
        assert Cut(init[k].name) == n;
      }
    }
  }

  lemma {:induction false} NameMapAt(es: seq<Host>, cur: nat, parent: nat, first: nat, k: nat)
    requires Distinct(es) && k < |es|
    ensures var m, n := NameMap(es, cur, parent, first), Cut(es[k].name);
            n in m && m[n] == first + CountAll(es[..k])
  {
    hide Cut, CountAll, Distinct;
    var init := es[..|es| - 1];
    DistinctPrefix(es);
    if k < |init| {
      NameMapAt(init, cur, parent, first, k);
      assert init[k] == es[k] && init[..k] == es[..k];
    }
  }

  lemma {:induction false} NameMapDots(es: seq<Host>, cur: nat, parent: nat, first: nat)
    requires Distinct(es)
    ensures var m := NameMap(es, cur, parent, first);
            DOT in m && DOT_DOT in m && m[DOT] == cur && m[DOT_DOT] == parent
  {
    hide Cut, CountAll, Distinct;
    if es != [] {
      DistinctPrefix(es);
      NameMapDots(es[..|es| - 1], cur, parent, first);
    }
  }

  /** A directory without holes, which the next entry extends. */
  ghost predicate Dense(c: seq<byte>) {
    |c| % ENTRY == 0 && OneEach(c) && forall k :: 0 <= k < Len(c) ==> Inum(c, k) != 0
  }

  lemma {:induction false} Appended(c: seq<byte>, n: Name, inum: nat)
    requires Dense(c) && n !in DirMap(c) && 0 < inum < 65536
    ensures Dense(c + Entry(n, inum)) && DirMap(c + Entry(n, inum)) == DirMap(c)[n := inum]
  {
    hide Inum, NameField, Canon, OneEach, NamesOf, InumOf, Entry, Find;
    NamesOfMeaning(c, n);
    assert FreeSlot(c, 0) == Len(c);
    LinkMap(c, n, inum);
    assert Splice(c, ENTRY * FreeSlot(c, 0), Entry(n, inum)) == c + Entry(n, inum);
    var c' := c + Entry(n, inum);
    EntryFields(n, inum);
    forall k: nat | k < Len(c') ensures Inum(c', k) != 0 {
      EntriesAfter(c, Len(c), Entry(n, inum), k);
    }
  }

  lemma EmptyDense()
    ensures Dense([]) && DirMap([]) == map[]
  {
  }

  lemma {:induction false} BytesMap(es: seq<Host>, cur: nat, parent: nat, first: nat)
    requires Distinct(es) && 0 < cur < 65536 && 0 < parent < 65536 && 0 < first && first + CountAll(es) <= 65536
    ensures Dense(DirBytes(es, cur, parent, first))
    ensures DirMap(DirBytes(es, cur, parent, first)) == NameMap(es, cur, parent, first)
  {
    hide Dense, DirMap, Entry, Cut, Distinct, Count, NameMap, DirBytes, CountAll;
    if es == [] {
      DotsMap(cur, parent, first);
    } else {
      DistinctPrefix(es);
      LastFits(es, first);
      BytesMap(es[..|es| - 1], cur, parent, first);
      LastMap(es, cur, parent, first);
    }
  }

  lemma {:induction false} DotsMap(cur: nat, parent: nat, first: nat)
    requires 0 < cur < 65536 && 0 < parent < 65536
    ensures Dense(DirBytes([], cur, parent, first))
    ensures DirMap(DirBytes([], cur, parent, first)) == NameMap([], cur, parent, first)
  {
    hide Dense, DirMap, Entry, Cut, Distinct, Count;
    EmptyDense();
    Appended([], DOT, cur);
    assert [] + Entry(DOT, cur) == Entry(DOT, cur);
    Appended(Entry(DOT, cur), DOT_DOT, parent);
    assert DirBytes([], cur, parent, first) == Entry(DOT, cur) + Entry(DOT_DOT, parent);
  }

  lemma {:induction false} LastMap(es: seq<Host>, cur: nat, parent: nat, first: nat)
    requires es != [] && Distinct(es) && 0 < first && first + CountAll(es[..|es| - 1]) < 65536
    requires Dense(DirBytes(es[..|es| - 1], cur, parent, first))
    requires DirMap(DirBytes(es[..|es| - 1], cur, parent, first)) == NameMap(es[..|es| - 1], cur, parent, first)
    ensures Dense(DirBytes(es, cur, parent, first))
    ensures DirMap(DirBytes(es, cur, parent, first)) == NameMap(es, cur, parent, first)
  {
    hide Dense, DirMap, Entry, Cut, Distinct, Count, CountAll;
    var init, n := es[..|es| - 1], Cut(es[|es| - 1].name);
    DistinctPrefix(es);
    NameMapKeys(init, cur, parent, first, n);
    assert forall k :: 0 <= k < |init| ==> Cut(init[k].name) == Cut(es[k].name);
    Appended(DirBytes(init, cur, parent, first), n, first + CountAll(init));
    assert DirBytes(es, cur, parent, first)
        == DirBytes(init, cur, parent, first) + Entry(n, first + CountAll(init));
  }

  lemma {:induction false} LastFits(es: seq<Host>, first: nat)
    requires es != []
    ensures CountAll(es) == CountAll(es[..|es| - 1]) + Count(es[|es| - 1]) > CountAll(es[..|es| - 1])
  {
  }

  /** f has the entries of c, and unused ones behind them. */
  ghost predicate Padding(c: seq<byte>, f: seq<byte>) {
    && Len(c) <= Len(f)
    && forall i: nat :: i < Len(f) ==>
         if i < Len(c) then Inum(f, i) == Inum(c, i) && NameField(f, i) == NameField(c, i) else Inum(f, i) == 0
  }

  lemma {:induction false} CompletedPads(c: seq<byte>)
    requires |c| % ENTRY == 0
    ensures |Completed(c)| % ENTRY == 0 && Padding(c, Completed(c))
  {
    hide Completed, Inum, NameField;
    CompletedShape(c);
    forall i: nat | i < Len(Completed(c))
      ensures if i < Len(c) then Inum(Completed(c), i) == Inum(c, i) && NameField(Completed(c), i) == NameField(c, i)
              else Inum(Completed(c), i) == 0
    {
      PaddedEntry(c, Completed(c), i);
    }
  }

  lemma {:induction false} CompletedShape(c: seq<byte>)
    requires |c| % ENTRY == 0
    ensures c <= Completed(c) && |Completed(c)| % ENTRY == 0
    ensures forall k :: |c| <= k < |Completed(c)| ==> Completed(c)[k] == 0
  {
    hide Rounded;
    RoundedEntries(|c|);
  }

  lemma RoundedEntries(size: nat)
    ensures Rounded(size) >= size && Rounded(size) % ENTRY == 0
  {
    var q := size / BSIZE + 1;
    assert Rounded(size) == BSIZE * q == ENTRY * (32 * q);
  }

  lemma {:induction false} PaddedEntry(c: seq<byte>, f: seq<byte>, i: nat)
    requires |c| % ENTRY == 0 && c <= f && (forall k :: |c| <= k < |f| ==> f[k] == 0) && i < Len(f)
    ensures if i < Len(c) then Inum(f, i) == Inum(c, i) && NameField(f, i) == NameField(c, i) else Inum(f, i) == 0
  {
    if i < Len(c) {
      assert ENTRY * i + ENTRY <= |c|;
      assert c == f[..|c|];
    } else {
      assert ENTRY * i >= |c|;
    }
  }

  lemma {:induction false} PaddedOneEach(c: seq<byte>, f: seq<byte>)
    requires OneEach(c) && Padding(c, f)
    ensures OneEach(f)
  {
    hide Inum, NameField, Canon;
  }

  lemma {:induction false} PaddedNames(c: seq<byte>, f: seq<byte>, n: seq<byte>)
    requires Padding(c, f)
    ensures n in NamesOf(f) <==> n in NamesOf(c)
  {
    hide Inum, NameField, Canon;
  }

  lemma {:induction false} PaddedNumber(c: seq<byte>, f: seq<byte>, n: seq<byte>)
    requires Padding(c, f) && OneEach(c) && OneEach(f) && n in NamesOf(c)
    ensures InumOf(f, n) == InumOf(c, n)
  {
    hide OneEach, NamesOf, InumOf;
    NamesOfMeaning(c, n);
    FindIs(c, n, Find(c, n, 0).k);
    FindIs(f, n, Find(c, n, 0).k);
  }

  /** Zeros behind the entries change no name. */
  lemma {:induction false} PaddedMap(c: seq<byte>, f: seq<byte>)
    requires Padding(c, f) && OneEach(c)
    ensures OneEach(f) && DirMap(f) == DirMap(c)
  {
    hide NamesOf, InumOf, OneEach, Padding;
    PaddedOneEach(c, f);
    forall n ensures n in NamesOf(f) <==> n in NamesOf(c) {
      PaddedNames(c, f, n);
    }
    forall n | n in NamesOf(c) ensures InumOf(f, n) == InumOf(c, n) {
      PaddedNumber(c, f, n);
    }
  }

  lemma {:induction false} DirectoryMap(v: seq<FileView>, name: HostName, es: seq<Host>, i: nat, parent: nat)
    requires Holds(v, Dir(name, es), i, parent) && 0 < i && 0 < parent < 65536 && i + 1 + CountAll(es) <= 65536
    requires Distinct(es)
    ensures i < |v| && v[i].kind == T_DIR && v[i].nlink == 1 && HoldsAll(v, es, i, i + 1)
    ensures |v[i].content| % ENTRY == 0 && OneEach(v[i].content)
    ensures DirMap(v[i].content) == NameMap(es, i, parent, i + 1)
  {
    hide Dense, DirMap, NameMap, Cut, Distinct, Count, OneEach, Completed, DirBytes, HoldsAll, Padding;
    var c := DirBytes(es, i, parent, i + 1);
    BytesMap(es, i, parent, i + 1);
    DenseShape(c);
    CompletedPads(c);
    PaddedMap(c, Completed(c));
  }

  lemma {:induction false} KeyReads(es: seq<Host>, i: nat, parent: nat, n: seq<byte>)
    ensures n in NameMap(es, i, parent, i + 1) <==>
            n == DOT || n == DOT_DOT
            || exists k :: 0 <= k < |es| && n == if |es[k].name| <= 14 then es[k].name else es[k].name[..14]
  {
    hide NameMap;
    NameMapKeys(es, i, parent, i + 1, n);
  }

  lemma {:induction false} ChildReads(v: seq<FileView>, es: seq<Host>, i: nat, parent: nat, k: nat)
    requires HoldsAll(v, es, i, i + 1) && Distinct(es) && k < |es|
    ensures var m, n := NameMap(es, i, parent, i + 1), Cut(es[k].name);
            n in m && i < m[n] && m[n] + Count(es[k]) <= i + 1 + CountAll(es) && Holds(v, es[k], m[n], i)
  {
    hide NameMap, Distinct, HoldsAll, Holds, Cut, Count;
    NameMapAt(es, i, parent, i + 1, k);
    AllPrefix(es, k);
    HoldsEach(v, es, i, i + 1, k);
  }

  /** A directory of the image, at inode i, read with the directory layer of the kernel: its names are "." and "..",
      and the first 14 bytes of the names on the host, and each of these leads to the inode that holds that child. */
  lemma {:induction false} DirectoryReads(v: seq<FileView>, name: HostName, es: seq<Host>, i: nat, parent: nat)
    requires Holds(v, Dir(name, es), i, parent) && 0 < i && 0 < parent < 65536 && i + 1 + CountAll(es) <= 65536
    requires Distinct(es)
    ensures i < |v| && v[i].kind == T_DIR && v[i].nlink == 1
    ensures var c := v[i].content;
            && |c| % ENTRY == 0 && OneEach(c)
            && (forall n :: n in DirMap(c) <==>
                  n == DOT || n == DOT_DOT
                  || exists k :: 0 <= k < |es| && n == if |es[k].name| <= 14 then es[k].name else es[k].name[..14])
            && DOT in DirMap(c) && DirMap(c)[DOT] == i && DOT_DOT in DirMap(c) && DirMap(c)[DOT_DOT] == parent
            && forall k :: 0 <= k < |es| ==>
                 && Cut(es[k].name) in DirMap(c)
                 && var j := DirMap(c)[Cut(es[k].name)];
                    i < j && j + Count(es[k]) <= i + 1 + CountAll(es) && Holds(v, es[k], j, i)
  {
    hide DirMap, NameMap, Cut, Distinct, Count, CountAll, OneEach, Holds, HoldsAll;
    DirectoryMap(v, name, es, i, parent);
    NameMapDots(es, i, parent, i + 1);
    var m := NameMap(es, i, parent, i + 1);
    forall n ensures n in m <==>
        n == DOT || n == DOT_DOT
        || exists k :: 0 <= k < |es| && n == if |es[k].name| <= 14 then es[k].name else es[k].name[..14] {
      KeyReads(es, i, parent, n);
    }
    forall k | 0 <= k < |es|
      ensures var m, n := NameMap(es, i, parent, i + 1), Cut(es[k].name);
              n in m && i < m[n] && m[n] + Count(es[k]) <= i + 1 + CountAll(es) && Holds(v, es[k], m[n], i)
    {
      ChildReads(v, es, i, parent, k);
    }
  }

  lemma {:induction false} DenseShape(c: seq<byte>)
    requires Dense(c)
    ensures |c| % ENTRY == 0 && OneEach(c)
  {
  }

  lemma {:induction false} HoldsEach(v: seq<FileView>, es: seq<Host>, parent: nat, first: nat, k: nat)
    requires HoldsAll(v, es, parent, first) && k < |es|
    ensures Holds(v, es[k], first + CountAll(es[..k]), parent)
  {
    hide Holds, CountAll;
    var init := es[..|es| - 1];
    if k < |init| {
      HoldsEach(v, init, parent, first, k);
      assert init[k] == es[k] && init[..k] == es[..k];
    }
  }

  // ------------------------------------------------------------------ paths

  /** Names differ in every directory of the tree. */
  predicate AllDistinct(es: seq<Host>)
    decreases es
  {
    Distinct(es) && forall k :: 0 <= k < |es| && es[k].Dir? ==> AllDistinct(es[k].entries)
  }

  /** A walk on the host: the first of `path` is in directory es, and each next one in the one before it. */
  ghost predicate Leads(es: seq<Host>, path: seq<Host>)
    decreases |path|
  {
    path != [] ==> path[0] in es && (|path| > 1 ==> path[0].Dir? && Leads(path[0].entries, path[1..]))
  }

  /** Looking up the names of a path, one after the other, from inode i. */
  ghost function Resolve(v: seq<FileView>, i: nat, path: seq<Host>): Option<nat>
    decreases |path|
  {
    if path == [] then Some(i)
    else if i < |v| && v[i].kind == T_DIR && Cut(path[0].name) in DirMap(v[i].content)
    then Resolve(v, DirMap(v[i].content)[Cut(path[0].name)], path[1..])
    else None
  }

  /** Every path of the host resolves on the image, and leads to a file with the same bytes, or to a directory. */
  lemma {:induction false} PathReads(v: seq<FileView>, name: HostName, es: seq<Host>, i: nat, parent: nat,
                                     path: seq<Host>)
    requires Holds(v, Dir(name, es), i, parent) && 0 < i && 0 < parent < 65536 && i + 1 + CountAll(es) <= 65536
    requires AllDistinct(es) && Leads(es, path) && path != []
    ensures var r, h := Resolve(v, i, path), path[|path| - 1];
            && r.Some? && r.value < |v|
            && match h
               case File(_, bytes) => v[r.value] == FileView(2, 1, bytes)
               case Dir(_, _) => v[r.value].kind == 1 && v[r.value].nlink == 1
    decreases |path|
  {
    hide DirMap, OneEach, Cut, Distinct, CountAll;
    DirectoryReads(v, name, es, i, parent);
    var k :| 0 <= k < |es| && es[k] == path[0];
    var j := DirMap(v[i].content)[Cut(es[k].name)];
    if |path| > 1 {
      PathReads(v, path[0].name, path[0].entries, j, i, path[1..]);
    }
  }

  /** The image that mkfs makes, as `MakeImage` describes it: every path of the host tree leads to its file. */
  lemma {:induction false} ImageReads(v: seq<FileView>, root: seq<Host>, path: seq<Host>)
    requires Holds(v, Dir([], root), 1, 1) && CountAll(root) <= 198 && AllDistinct(root)
    requires Leads(root, path) && path != [] && path[|path| - 1].File?
    ensures var r := Resolve(v, 1, path);
            r.Some? && r.value < |v| && v[r.value].content == path[|path| - 1].bytes
  {
    PathReads(v, [], root, 1, 1, path);
  }
}
