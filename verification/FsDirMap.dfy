/** Directories as byte strings and as maps (dirent of p2b/include/fs.h, p2b/kernel/fs.c:453-523). */
module FsDirMap {
  import opened Basics
  import opened FsBlock
  import opened FsWrite

  const DIRSIZ := 14
  const ENTRY := 16

  /** A file name as the kernel passes it: at most 14 bytes, none of them NUL. */
  type Name = n: seq<byte> | |n| <= DIRSIZ && forall i :: 0 <= i < |n| ==> n[i] != 0

  const DOT: Name := [46]
  const DOT_DOT: Name := [46, 46]

  datatype Found = Absent | At(k: nat)

  /** The number of 16-byte entries. */
  function Len(c: seq<byte>): nat {
    |c| / ENTRY
  }

  function Inum(c: seq<byte>, k: nat): nat
    requires k < Len(c)
  {
    var lo: int, hi: int := c[ENTRY * k], c[ENTRY * k + 1];
    lo + 256 * hi
  }

  function NameField(c: seq<byte>, k: nat): (b: seq<byte>)
    requires k < Len(c)
    ensures |b| == DIRSIZ
  {
    c[ENTRY * k + 2..ENTRY * k + ENTRY]
  }

  /** The name in a name field: the bytes before the first NUL. */
  function Canon(b: seq<byte>): (n: seq<byte>)
    ensures n <= b && (forall i :: 0 <= i < |n| ==> n[i] != 0) && (|n| < |b| ==> b[|n|] == 0)
  {
    if b == [] || b[0] == 0 then [] else [b[0]] + Canon(b[1..])
  }

  /** strncpy(field, name, 14): the name, padded with NULs. */
  function Padded(n: Name): (b: seq<byte>)
    ensures |b| == DIRSIZ && forall i :: 0 <= i < DIRSIZ ==> b[i] == if i < |n| then n[i] else 0
  {
    n + Zeros(DIRSIZ - |n|)
  }

  lemma {:induction false} CanonUnique(b: seq<byte>, n: Name)
    requires |b| == DIRSIZ
    ensures Canon(b) == n <==> forall i :: 0 <= i < DIRSIZ && i <= |n| ==> b[i] == if i < |n| then n[i] else 0
  {
    if forall i :: 0 <= i < DIRSIZ && i <= |n| ==> b[i] == if i < |n| then n[i] else 0 {
      CanonIs(b, |n|);
      assert b[..|n|] == n;
    }
  }

  lemma {:induction false} CanonIs(b: seq<byte>, k: nat)
    requires k <= |b| && (forall i :: 0 <= i < k ==> b[i] != 0) && (k < |b| ==> b[k] == 0)
    ensures Canon(b) == b[..k]
  {
    if k > 0 {
      CanonIs(b[1..], k - 1);
      assert b[..k] == [b[0]] + b[1..][..k - 1];
    }
  }

  lemma {:induction false} CanonOfPadded(n: Name)
    ensures Canon(Padded(n)) == n
  {
    CanonUnique(Padded(n), n);
  }

  /** Entry k is in use and carries the name n. */
  predicate Names(c: seq<byte>, k: nat, n: seq<byte>)
    requires k < Len(c)
  {
    Inum(c, k) != 0 && Canon(NameField(c, k)) == n
  }

  /** dirlookup: the first entry from k on that carries the name. */
  function Find(c: seq<byte>, n: seq<byte>, k: nat): (r: Found)
    requires k <= Len(c)
    ensures match r
            case At(j) => k <= j < Len(c) && Names(c, j, n) && forall i :: k <= i < j ==> !Names(c, i, n)
            case Absent => forall i :: k <= i < Len(c) ==> !Names(c, i, n)
    decreases Len(c) - k
  {
    if k == Len(c) then Absent else if Names(c, k, n) then At(k) else Find(c, n, k + 1)
  }

  /** dirlink's slot: the first unused entry from k on, or the end. */
  function FreeSlot(c: seq<byte>, k: nat): (r: nat)
    requires k <= Len(c)
    ensures k <= r <= Len(c) && (r < Len(c) ==> Inum(c, r) == 0) && forall i :: k <= i < r ==> Inum(c, i) != 0
    decreases Len(c) - k
  {
    if k == Len(c) || Inum(c, k) == 0 then k else FreeSlot(c, k + 1)
  }

  /** The bytes of an entry; the inode number is cut to 16 bits, as `ushort` does. */
  function Entry(n: Name, inum: nat): (e: seq<byte>)
    ensures |e| == ENTRY
  {
    [inum % 256, inum / 256 % 256] + Padded(n)
  }

  const NO_ENTRY: seq<byte> := Zeros(ENTRY)

  /** The sixteen bytes from o on are an entry in use, whose name field stands for n. */
  predicate Carries(c: seq<byte>, o: nat, n: Name) {
    && o + 16 <= |c| && (c[o] != 0 || c[o + 1] != 0)
    && forall i :: 0 <= i < 14 && i <= |n| ==> c[o + 2 + i] == if i < |n| then n[i] else 0
  }

  lemma {:induction false} NamesCarries(c: seq<byte>, k: nat, n: Name)
    requires k < Len(c)
    ensures Names(c, k, n) <==> Carries(c, 16 * k, n)
    ensures 16 * k + 16 <= |c| && Inum(c, k) == c[16 * k] as int + 256 * c[16 * k + 1] as int
  {
    var b := NameField(c, k);
    CanonUnique(b, n);
    hide Canon;
    assert forall i :: 0 <= i < 14 ==> b[i] == c[16 * k + 2 + i];
  }

  /** The bytes of the entry that dirlink writes: the number, lower byte first, and the name with NULs behind it. */
  lemma EntryLayout(n: Name, inum: nat)
    requires inum < 65536
    ensures var e := Entry(n, inum);
            && |e| == 16 && inum == e[0] as int + 256 * e[1] as int
            && forall i :: 0 <= i < 14 ==> e[2 + i] == if i < |n| then n[i] else 0
  {
  }

  // ------------------------------------------------------------------ the map

  ghost function NamesOf(c: seq<byte>): set<seq<byte>> {
    set k | 0 <= k < Len(c) && Inum(c, k) != 0 :: Canon(NameField(c, k))
  }

  lemma {:induction false} NamesOfMeaning(c: seq<byte>, n: seq<byte>)
    ensures n in NamesOf(c) <==> Find(c, n, 0).At?
  {
    if n in NamesOf(c) {
      var k :| 0 <= k < Len(c) && Inum(c, k) != 0 && Canon(NameField(c, k)) == n;
      assert Names(c, k, n);
    }
  }

  ghost function InumOf(c: seq<byte>, n: seq<byte>): nat {
    var r := Find(c, n, 0);
    if r.At? then Inum(c, r.k) else 0
  }

  /** What a directory with this content maps names to. */
  ghost function DirMap(c: seq<byte>): map<seq<byte>, nat> {
    map n | n in NamesOf(c) :: InumOf(c, n)
  }

  /** No two entries in use carry the same name. */
  ghost predicate OneEach(c: seq<byte>) {
    forall i, j :: 0 <= i < j < Len(c) && Inum(c, i) != 0 && Inum(c, j) != 0 ==>
      Canon(NameField(c, i)) != Canon(NameField(c, j))
  }

  lemma {:induction false} FindIs(c: seq<byte>, n: seq<byte>, k: nat)
    requires OneEach(c) && k < Len(c) && Names(c, k, n)
    ensures Find(c, n, 0) == At(k) && InumOf(c, n) == Inum(c, k)
  {
  }

  /** What replacing entry k does to each entry. */
  lemma {:induction false} EntriesAfter(c: seq<byte>, k: nat, e: seq<byte>, i: nat)
    requires |c| % ENTRY == 0 && |e| == ENTRY && k <= Len(c)
    ensures var c' := Splice(c, ENTRY * k, e);
            && |c'| % ENTRY == 0 && Len(c') == (if k == Len(c) then Len(c) + 1 else Len(c))
            && (i < Len(c') ==>
                  i == k || (i < Len(c) && Inum(c', i) == Inum(c, i) && NameField(c', i) == NameField(c, i)))
            && Inum(c', k) == Inum(e, 0) && NameField(c', k) == NameField(e, 0)
  {
    var c' := Splice(c, ENTRY * k, e);
    assert |c| == ENTRY * Len(c);
    assert NameField(c', k) == NameField(e, 0);
    if i < Len(c') && i != k {
      assert ENTRY * i + ENTRY <= ENTRY * k || ENTRY * k + ENTRY <= ENTRY * i;
      assert NameField(c', i) == NameField(c, i);
    }
  }

  lemma {:induction false} EntryFields(n: Name, inum: nat)
    ensures Inum(Entry(n, inum), 0) == inum % 65536 && NameField(Entry(n, inum), 0) == Padded(n)
    ensures Inum(NO_ENTRY, 0) == 0
  {
    assert NameField(Entry(n, inum), 0) == Padded(n);
    assert inum % 65536 == inum % 256 + 256 * (inum / 256 % 256) by {
      var q := inum / 65536;
      var r := inum % 65536;
      assert inum == 65536 * q + r;
      assert inum % 256 == r % 256 && inum / 256 == 256 * q + r / 256;
    }
  }

  /** c' has the entries of c, except for entry k. */
  ghost predicate SameBut(c: seq<byte>, c': seq<byte>, k: nat) {
    forall i: nat :: i < Len(c') && i != k ==>
        i < Len(c) && Inum(c', i) == Inum(c, i) && NameField(c', i) == NameField(c, i)
  }

  /** Adding an entry under a new name adds exactly that binding. */
  lemma {:induction false} LinkMap(c: seq<byte>, n: Name, inum: nat)
    requires |c| % ENTRY == 0 && OneEach(c) && Find(c, n, 0) == Absent && inum % 65536 != 0
    ensures var c' := Splice(c, ENTRY * FreeSlot(c, 0), Entry(n, inum));
            && |c'| % ENTRY == 0 && OneEach(c')
            && n !in DirMap(c) && DirMap(c') == DirMap(c)[n := inum % 65536]
  {
    var k := FreeSlot(c, 0);
    var e := Entry(n, inum);
    var c' := Splice(c, ENTRY * k, e);
    EntryFields(n, inum);
    CanonOfPadded(n);
    forall i: nat | i < Len(c') ensures i != k ==>
        i < Len(c) && Inum(c', i) == Inum(c, i) && NameField(c', i) == NameField(c, i) {
      EntriesAfter(c, k, e, i);
    }
    EntriesAfter(c, k, e, k);
    ReplacedMap(c, c', k, n, inum % 65536);
  }

  lemma {:induction false} SameEntry(c: seq<byte>, c': seq<byte>, k: nat, i: nat)
    requires SameBut(c, c', k) && i < Len(c') && i != k
    ensures i < Len(c) && Inum(c', i) == Inum(c, i) && NameField(c', i) == NameField(c, i)
  {
  }

  // c' has entry k for n, and otherwise the entries of c, where k was unused and n unknown.
  lemma {:induction false} ReplacedMap(c: seq<byte>, c': seq<byte>, k: nat, n: seq<byte>, inum: nat)
    requires OneEach(c) && Find(c, n, 0) == Absent && inum != 0
    requires Len(c) <= Len(c') && k < Len(c') && (k < Len(c) ==> Inum(c, k) == 0)
    requires Inum(c', k) == inum && Canon(NameField(c', k)) == n
    requires SameBut(c, c', k)
    ensures OneEach(c') && n !in DirMap(c) && DirMap(c') == DirMap(c)[n := inum]
  {
    hide OneEach, NamesOf, InumOf, SameBut;
    ReplacedOneEach(c, c', k, n);
    forall m ensures m in NamesOf(c') <==> m == n || m in NamesOf(c) {
      SameNames(c, c', k, n, m);
    }
    forall m | m in NamesOf(c') ensures InumOf(c', m) == if m == n then inum else InumOf(c, m) {
      NamesOfMeaning(c', m);
      var j := Find(c', m, 0).k;
      FindIs(c', m, j);
      if m == n {
        FindIs(c', n, k);
      } else {
        SameEntry(c, c', k, j);
        FindIs(c, m, j);
      }
    }
    NamesOfMeaning(c, n);
  }

  lemma {:induction false} ReplacedOneEach(c: seq<byte>, c': seq<byte>, k: nat, n: seq<byte>)
    requires OneEach(c) && Find(c, n, 0) == Absent
    requires Len(c) <= Len(c') && k < Len(c') && (k < Len(c) ==> Inum(c, k) == 0)
    requires Canon(NameField(c', k)) == n
    requires SameBut(c, c', k)
    ensures OneEach(c')
  {
    hide Inum, NameField, Canon;
    forall i: nat | i < Len(c) && Inum(c, i) != 0 ensures Canon(NameField(c, i)) != n {
      assert !Names(c, i, n);
    }
  }

  lemma {:induction false} SameNames(c: seq<byte>, c': seq<byte>, k: nat, n: seq<byte>, m: seq<byte>)
    requires Len(c) <= Len(c') && k < Len(c') && (k < Len(c) ==> Inum(c, k) == 0)
    requires Inum(c', k) != 0 && Canon(NameField(c', k)) == n
    requires SameBut(c, c', k)
    ensures m in NamesOf(c') <==> m == n || m in NamesOf(c)
  {
    if m in NamesOf(c) {
      var i :| 0 <= i < Len(c) && Inum(c, i) != 0 && Canon(NameField(c, i)) == m;
      assert Inum(c', i) != 0 && Canon(NameField(c', i)) == m;
    }
  }

  /** Clearing the entry of a name removes exactly that binding. */
  lemma {:induction false} UnlinkMap(c: seq<byte>, n: seq<byte>, k: nat)
    requires |c| % ENTRY == 0 && OneEach(c) && Find(c, n, 0) == At(k)
    ensures var c' := Splice(c, ENTRY * k, NO_ENTRY);
            && |c'| % ENTRY == 0 && OneEach(c') && DirMap(c') == DirMap(c) - {n}
  {
    var c' := Splice(c, ENTRY * k, NO_ENTRY);
    forall i: nat | i < Len(c') ensures i != k ==> Inum(c', i) == Inum(c, i) && NameField(c', i) == NameField(c, i) {
      EntriesAfter(c, k, NO_ENTRY, i);
    }
    EntriesAfter(c, k, NO_ENTRY, k);
    EntryFields([], 0);
    ClearedMap(c, c', k, n);
  }

  lemma {:induction false} ClearedMap(c: seq<byte>, c': seq<byte>, k: nat, n: seq<byte>)
    requires OneEach(c) && k < Len(c) == Len(c') && Names(c, k, n) && Inum(c', k) == 0
    requires SameBut(c, c', k)
    ensures OneEach(c') && DirMap(c') == DirMap(c) - {n}
  {
    hide OneEach, NamesOf, InumOf, SameBut;
    ClearedOneEach(c, c', k, n);
    forall m ensures m in NamesOf(c') <==> m != n && m in NamesOf(c) {
      FewerNames(c, c', k, n, m);
    }
    forall m | m in NamesOf(c') ensures InumOf(c', m) == InumOf(c, m) {
      NamesOfMeaning(c', m);
      var j := Find(c', m, 0).k;
      FindIs(c', m, j);
      SameEntry(c, c', k, j);
      FindIs(c, m, j);
    }
  }

  lemma {:induction false} ClearedOneEach(c: seq<byte>, c': seq<byte>, k: nat, n: seq<byte>)
    requires OneEach(c) && k < Len(c) == Len(c') && Names(c, k, n) && Inum(c', k) == 0
    requires SameBut(c, c', k)
    ensures OneEach(c')
  {
    hide Inum, NameField, Canon;
  }

  lemma {:induction false} FewerNames(c: seq<byte>, c': seq<byte>, k: nat, n: seq<byte>, m: seq<byte>)
    requires OneEach(c) && k < Len(c) == Len(c') && Names(c, k, n) && Inum(c', k) == 0
    requires SameBut(c, c', k)
    ensures m in NamesOf(c') <==> m != n && m in NamesOf(c)
  {
    if m in NamesOf(c) && m != n {
      var i :| 0 <= i < Len(c) && Inum(c, i) != 0 && Canon(NameField(c, i)) == m;
      assert Inum(c', i) != 0 && Canon(NameField(c', i)) == m;
    }
    if m in NamesOf(c') {
      var i :| 0 <= i < Len(c') && Inum(c', i) != 0 && Canon(NameField(c', i)) == m;
      assert Inum(c, i) != 0 && Canon(NameField(c, i)) == m;
    }
  }
}
