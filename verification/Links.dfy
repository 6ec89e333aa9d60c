/** Link counts and directory entries (sys_link, sys_unlink, create of p2b/kernel/sysfile.c), one disk write at a time.

    A directory is the map that `FsDirMap` makes of its content; the entries "." and ".." are left out, because they
    never name a file. */
module Links {
  import opened Basics
  import FsDirMap

  datatype Kind = FREE | DIR | FILE | DEV

  datatype Inode = Inode(kind: Kind, nlink: int)

  /** A directory entry: the directory and the name. */
  type Key = (nat, seq<byte>)

  /** What is on the disk. */
  datatype Disk = Disk(inodes: seq<Inode>, entries: map<Key, nat>)

  /** The entries that name inode i. */
  ghost function Naming(d: Disk, i: nat): set<Key> {
    set k | k in d.entries && d.entries[k] == i
  }

  predicate IsFile(n: Inode) {
    n.kind == FILE || n.kind == DEV
  }

  /** Entries name inodes that are in use. */
  ghost predicate WellNamed(d: Disk) {
    forall k :: k in d.entries ==> d.entries[k] < |d.inodes| && d.inodes[d.entries[k]].kind != FREE
  }

  /** No file has fewer links than names: what must hold at every disk write. */
  ghost predicate Covered(d: Disk) {
    WellNamed(d) && forall i :: 0 <= i < |d.inodes| && IsFile(d.inodes[i]) ==> d.inodes[i].nlink >= |Naming(d, i)|
  }

  /** Every file has as many links as names: what holds between system calls. */
  ghost predicate Exact(d: Disk) {
    WellNamed(d) && forall i :: 0 <= i < |d.inodes| && IsFile(d.inodes[i]) ==> d.inodes[i].nlink == |Naming(d, i)|
  }

  lemma ExactCovers(d: Disk)
    requires Exact(d)
    ensures Covered(d)
  {
  }

  lemma ExactCount(d: Disk, i: nat)
    requires Exact(d) && i < |d.inodes| && IsFile(d.inodes[i])
    ensures d.inodes[i].nlink == |Naming(d, i)|
  {
  }

  lemma NamingAdded(d: Disk, k: Key, i: nat, j: nat)
    requires k !in d.entries
    ensures var d' := d.(entries := d.entries[k := i]);
            |Naming(d', j)| == |Naming(d, j)| + if j == i then 1 else 0
  {
    var d' := d.(entries := d.entries[k := i]);
    assert Naming(d', j) == if j == i then Naming(d, j) + {k} else Naming(d, j);
  }

  lemma NamingRemoved(d: Disk, k: Key, j: nat)
    requires k in d.entries
    ensures var d' := d.(entries := d.entries - {k});
            |Naming(d, j)| == |Naming(d', j)| + if j == d.entries[k] then 1 else 0
  {
    var d' := d.(entries := d.entries - {k});
    assert Naming(d, j) == if j == d.entries[k] then Naming(d', j) + {k} else Naming(d', j);
  }

  lemma NamingSame(d: Disk, inodes: seq<Inode>, j: nat)
    ensures Naming(d.(inodes := inodes), j) == Naming(d, j)
  {
  }

  /** The link count of inode i becomes n. */
  function WithLinks(d: Disk, i: nat, n: int): Disk
    requires i < |d.inodes|
  {
    d.(inodes := d.inodes[i := d.inodes[i].(nlink := n)])
  }

  /** The disk after each write of sys_link, of a sys_link that is undone, of sys_unlink and of create. */
  function LinkWrites(d: Disk, i: nat, k: Key): seq<Disk>
    requires i < |d.inodes|
  {
    var d1 := WithLinks(d, i, d.inodes[i].nlink + 1);
    [d1, d1.(entries := d.entries[k := i])]
  }

  function UndoneWrites(d: Disk, i: nat): seq<Disk>
    requires i < |d.inodes|
  {
    var d1 := WithLinks(d, i, d.inodes[i].nlink + 1);
    [d1, WithLinks(d1, i, d1.inodes[i].nlink - 1)]
  }

  function UnlinkWrites(d: Disk, k: Key): seq<Disk>
    requires k in d.entries && d.entries[k] < |d.inodes| && k.0 < |d.inodes|
  {
    var i, d1 := d.entries[k], d.(entries := d.entries - {k});
    if d.inodes[i].kind == DIR then
      var d2 := WithLinks(d1, k.0, d1.inodes[k.0].nlink - 1);
      [d1, d2, WithLinks(d2, i, d2.inodes[i].nlink - 1)]
    else [d1, WithLinks(d1, i, d1.inodes[i].nlink - 1)]
  }

  function CreateWrites(d: Disk, i: nat, kind: Kind, k: Key): seq<Disk>
    requires i < |d.inodes| && k.0 < |d.inodes|
  {
    var d1 := d.(inodes := d.inodes[i := Inode(kind, 0)]);
    var d2 := WithLinks(d1, i, 1);
    var d3 := WithLinks(d2, k.0, d2.inodes[k.0].nlink + 1);
    if kind == DIR then [d1, d2, d3, d3.(entries := d.entries[k := i])]
    else [d1, d2, d2.(entries := d.entries[k := i])]
  }

  /** Raising a count covers; lowering it does where there is a name to spare. */
  lemma LinksCover(d: Disk, i: nat, n: int)
    requires Covered(d) && i < |d.inodes| && (IsFile(d.inodes[i]) ==> n >= |Naming(d, i)|)
    ensures Covered(WithLinks(d, i, n))
  {
    var d' := WithLinks(d, i, n);
    forall j | 0 <= j < |d'.inodes| ensures Naming(d', j) == Naming(d, j) {
      NamingSame(d, d'.inodes, j);
    }
  }

  lemma EntryCovers(d: Disk, k: Key, i: nat)
    requires Covered(d) && k !in d.entries && i < |d.inodes| && d.inodes[i].kind != FREE
    requires IsFile(d.inodes[i]) ==> d.inodes[i].nlink > |Naming(d, i)|
    ensures Covered(d.(entries := d.entries[k := i]))
  {
    var d' := d.(entries := d.entries[k := i]);
    forall j: nat | j < |d.inodes| ensures |Naming(d', j)| == |Naming(d, j)| + if j == i then 1 else 0 {
      NamingAdded(d, k, i, j);
    }
  }

  lemma RemovalCovers(d: Disk, k: Key)
    requires Covered(d) && k in d.entries
    ensures Covered(d.(entries := d.entries - {k}))
  {
    var d' := d.(entries := d.entries - {k});
    forall j: nat | j < |d.inodes| ensures |Naming(d, j)| >= |Naming(d', j)| {
      NamingRemoved(d, k, j);
    }
  }

  /** An entry names an inode in use, which has a link if it is a file. */
  lemma Named(d: Disk, k: Key)
    requires Exact(d) && k in d.entries
    ensures d.entries[k] < |d.inodes| && d.inodes[d.entries[k]].kind != FREE
    ensures IsFile(d.inodes[d.entries[k]]) ==> d.inodes[d.entries[k]].nlink == |Naming(d, d.entries[k])| >= 1
  {
    assert k in Naming(d, d.entries[k]);
  }

  // ------------------------------------------------------------------ the system calls

  datatype LinkResult = Linked | NoSource | IsDirectory | NoParent | Refused

  datatype UnlinkResult = Unlinked | DotName | NotFound | NotEmpty

  class Tree {
    var inodes: seq<Inode>
    var entries: map<Key, nat>
    ghost var writes: seq<Disk>   // the disk after every write so far

    ghost function Value(): Disk
      reads this
    {
      Disk(inodes, entries)
    }

    /** No write so far has left a file with fewer links than names. */
    ghost predicate Safe()
      reads this
    {
      forall w :: 0 <= w < |writes| ==> Covered(writes[w])
    }

    constructor (d: Disk)
      requires Exact(d)
      ensures Value() == d && Safe()
    {
      inodes, entries, writes := d.inodes, d.entries, [];
    }

    /** iupdate of a changed link count. */
    method Iupdate(i: nat, n: int)
      requires i < |inodes| && Safe() && Covered(WithLinks(Value(), i, n))
      modifies this
      ensures Value() == WithLinks(old(Value()), i, n) && Safe() && writes == old(writes) + [Value()]
    {
      inodes := inodes[i := inodes[i].(nlink := n)];
      writes := writes + [Value()];
    }

    /** dirlink: fails when the name is there. */
    method Dirlink(dp: nat, name: seq<byte>, i: nat) returns (ok: bool)
      requires Safe() && Covered(Value()) && i < |inodes| && inodes[i].kind != FREE
      requires IsFile(inodes[i]) ==> inodes[i].nlink > |Naming(Value(), i)|
      modifies this
      ensures ok <==> (dp, name) !in old(entries)
      ensures Value() == (if ok then old(Value()).(entries := old(entries)[(dp, name) := i]) else old(Value()))
      ensures Safe()
      ensures writes == old(writes) + if ok then [Value()] else []
    {
      if (dp, name) in entries {
        return false;
      }
      EntryCovers(Value(), (dp, name), i);
      entries := entries[(dp, name) := i];
      writes := writes + [Value()];
      ok := true;
    }

    /** sys_link of the inode that namei found, under a name in the directory that nameiparent found.  A link that
        cannot be entered is undone. */
    method Link(source: Option<nat>, parent: Option<nat>, sameDevice: bool, name: seq<byte>) returns (r: LinkResult)
      requires Exact(Value()) && Safe()
      requires (source.Some? ==> source.value < |inodes| && inodes[source.value].kind != FREE)
      modifies this
      ensures Exact(Value()) && Safe()
      ensures r == if source.None? then NoSource
                   else if old(inodes)[source.value].kind == DIR then IsDirectory
                   else if parent.None? then NoParent
                   else if !sameDevice || (parent.value, name) in old(entries) then Refused
                   else Linked
      ensures writes == old(writes) + if r == NoSource || r == IsDirectory then []
                                      else if r == Linked
                                      then LinkWrites(old(Value()), source.value, (parent.value, name))
                                      else UndoneWrites(old(Value()), source.value)
      ensures r != Linked ==> Value() == old(Value())
      ensures r == Linked ==> Value() == old(Value()).(entries := old(entries)[(parent.value, name) := source.value],
                                                       inodes := inodes) &&
                              var n := old(inodes)[source.value];
                              inodes == old(inodes)[source.value := n.(nlink := n.nlink + 1)]
    {
      hide Exact, Covered, Naming;
      if source.None? {
        return NoSource;
      }
      var i := source.value;
      if inodes[i].kind == DIR {
        return IsDirectory;
      }
      ghost var d := Value();
      ExactCovers(d);
      ExactCount(d, i);
      LinksCover(d, i, inodes[i].nlink + 1);
      Iupdate(i, inodes[i].nlink + 1);
      NamingSame(d, inodes, i);
      if parent.Some? && sameDevice {
        var ok := Dirlink(parent.value, name, i);
        if ok {
          LinkedExact(d, i, (parent.value, name));
          return Linked;
        }
      }
      r := if parent.None? then NoParent else Refused;
      LinksCover(Value(), i, inodes[i].nlink - 1);
      Iupdate(i, inodes[i].nlink - 1);
      assert inodes == d.inodes;
    }

    /** isdirempty, for a directory whose "." and ".." are left out. */
    method IsDirEmpty(dp: nat) returns (empty: bool)
      ensures empty <==> forall k :: k in entries ==> k.0 != dp
    {
      var keys := entries.Keys;
      while keys != {}
        invariant forall k :: k in entries && k !in keys ==> k.0 != dp
        invariant keys <= entries.Keys
        decreases keys
      {
        var k :| k in keys;
        if k.0 == dp {
          return false;
        }
        keys := keys - {k};
      }
      empty := true;
    }

    // The writes of sys_unlink: the entry, the count of the directory for a subdirectory, and the count of the inode.
    method RemoveEntry(dp: nat, name: seq<byte>, i: nat)
      requires Exact(Value()) && Safe() && dp < |inodes| && inodes[dp].kind == DIR
      requires (dp, name) in entries && entries[(dp, name)] == i < |inodes| && inodes[i].kind != FREE
      modifies this
      ensures Exact(Value()) && Safe()
      ensures writes == old(writes) + UnlinkWrites(old(Value()), (dp, name))
      ensures Value() == UnlinkWrites(old(Value()), (dp, name))[if old(inodes)[i].kind == DIR then 2 else 1]
    {
      hide Exact, Covered, Naming;
      ghost var d, k := Value(), (dp, name);
      ExactCovers(d);
      RemovalCovers(d, k);
      entries := entries - {(dp, name)};
      writes := writes + [Value()];
      if inodes[i].kind == DIR {
        LinksCover(Value(), dp, inodes[dp].nlink - 1);
        Iupdate(dp, inodes[dp].nlink - 1);
      } else {
        Named(d, k);
        NamingRemoved(d, k, i);
      }
      LinksCover(Value(), i, inodes[i].nlink - 1);
      Iupdate(i, inodes[i].nlink - 1);
      UnlinkedExact(d, Value(), k);
    }

    /** sys_unlink in the directory that nameiparent found.  The panic "unlink: nlink < 1" cannot happen to a file. */
    method Unlink(dp: nat, name: seq<byte>) returns (r: UnlinkResult)
      requires Exact(Value()) && Safe() && dp < |inodes| && inodes[dp].kind == DIR
      modifies this
      ensures Exact(Value()) && Safe()
      ensures r == if name == FsDirMap.DOT || name == FsDirMap.DOT_DOT then DotName
                   else if (dp, name) !in old(entries) then NotFound
                   else if old(inodes)[old(entries)[(dp, name)]].kind == DIR
                           && (exists k :: k in old(entries) && k.0 == old(entries)[(dp, name)]) then NotEmpty
                   else Unlinked
      ensures r != Unlinked ==> Value() == old(Value()) && writes == old(writes)
      ensures r == Unlinked ==>
                && old(entries)[(dp, name)] < |old(inodes)|
                && writes == old(writes) + UnlinkWrites(old(Value()), (dp, name))
      ensures r == Unlinked ==> entries == old(entries) - {(dp, name)}
      ensures r == Unlinked && IsFile(old(inodes)[old(entries)[(dp, name)]]) ==>
                var i := old(entries)[(dp, name)];
                inodes == old(inodes)[i := old(inodes)[i].(nlink := old(inodes)[i].nlink - 1)]
      ensures r == Unlinked && old(inodes)[old(entries)[(dp, name)]].kind == DIR ==>
                var i := old(entries)[(dp, name)];
                inodes == old(inodes)[dp := old(inodes)[dp].(nlink := old(inodes)[dp].nlink - 1)]
                                     [i := old(inodes)[i].(nlink := old(inodes)[i].nlink - 1)]
    {
      hide Exact, Covered, Naming;
      if name == FsDirMap.DOT || name == FsDirMap.DOT_DOT {
        return DotName;
      }
      if (dp, name) !in entries {
        return NotFound;
      }
      var i := entries[(dp, name)];
      Named(Value(), (dp, name));
      if inodes[i].kind == DIR {
        var empty := IsDirEmpty(i);
        if !empty {
          return NotEmpty;
        }
      } else {
        assert inodes[i].nlink >= 1;
      }
      RemoveEntry(dp, name, i);
      r := Unlinked;
    }

    /** ialloc: the first free inode gets its kind, and no links. */
    method Ialloc(kind: Kind) returns (r: Option<nat>)
      requires Covered(Value()) && Safe() && kind != FREE
      modifies this
      ensures Covered(Value()) && Safe()
      ensures r.None? ==> Value() == old(Value()) && writes == old(writes)
      ensures r.None? ==> forall i :: 1 <= i < |inodes| ==> inodes[i].kind != FREE
      ensures r.Some? ==>
                && r.value < |old(inodes)| && old(inodes)[r.value].kind == FREE && Naming(old(Value()), r.value) == {}
                && Value() == old(Value()).(inodes := old(inodes)[r.value := Inode(kind, 0)])
                && writes == old(writes) + [Value()]
    {
      hide Covered, Naming;
      var inum := 1;
      while inum < |inodes| && inodes[inum].kind != FREE
        invariant 1 <= inum && forall i :: 1 <= i < inum && i < |inodes| ==> inodes[i].kind != FREE
      {
        inum := inum + 1;
      }
      if inum >= |inodes| {
        return None;
      }
      FreshCovers(Value(), inum, kind);
      inodes := inodes[inum := Inode(kind, 0)];
      writes := writes + [Value()];
      r := Some(inum);
    }

    // What create writes after ialloc: the count of the new inode, that of the directory for a subdirectory, the entry.
    method EnterNew(dp: nat, name: seq<byte>, kind: Kind, inum: nat, ghost d: Disk)
      requires Exact(d) && Covered(Value()) && Safe() && dp < |d.inodes| && d.inodes[dp].kind == DIR && kind != FREE
      requires inum < |d.inodes| && d.inodes[inum].kind == FREE && Naming(d, inum) == {} && (dp, name) !in d.entries
      requires Value() == d.(inodes := d.inodes[inum := Inode(kind, 0)])
      modifies this
      ensures Exact(Value()) && Safe()
      ensures writes == old(writes) + CreateWrites(d, inum, kind, (dp, name))[1..]
      ensures Value() == CreateWrites(d, inum, kind, (dp, name))[if kind == DIR then 3 else 2]
    {
      hide Exact, Covered, Naming;
      NamingSame(d, inodes, inum);
      LinksCover(Value(), inum, 1);
      Iupdate(inum, 1);
      if kind == DIR {
        LinksCover(Value(), dp, inodes[dp].nlink + 1);
        Iupdate(dp, inodes[dp].nlink + 1);
      }
      NamingSame(d, inodes, inum);
      var ok := Dirlink(dp, name, inum);
      CreatedExact(d, Value(), inum, kind, (dp, name), dp);
    }

    /** create in the directory that nameiparent found.  None is failure, or the panic for want of inodes. */
    method Create(dp: nat, name: seq<byte>, kind: Kind) returns (r: Option<nat>)
      requires Exact(Value()) && Safe() && dp < |inodes| && inodes[dp].kind == DIR && kind != FREE
      modifies this
      ensures Exact(Value()) && Safe()
      ensures |inodes| == |old(inodes)|
      ensures (dp, name) in old(entries) ==>
                && Value() == old(Value()) && writes == old(writes)
                && r == (var i := old(entries)[(dp, name)];
                         if kind == FILE && old(inodes)[i].kind == FILE then Some(i) else None)
      ensures (dp, name) !in old(entries) && r.Some? ==>
                && r.value < |old(inodes)| && old(inodes)[r.value].kind == FREE
                && writes == old(writes) + CreateWrites(old(Value()), r.value, kind, (dp, name))
                && entries == old(entries)[(dp, name) := r.value]
                && inodes == old(inodes)[r.value := Inode(kind, 1)]
                          [dp := old(inodes)[dp].(nlink := old(inodes)[dp].nlink + if kind == DIR then 1 else 0)]
      ensures (dp, name) !in old(entries) && r.None? ==>
                && Value() == old(Value()) && writes == old(writes)
                && forall i :: 1 <= i < |inodes| ==> inodes[i].kind != FREE
    {
      hide Exact, Covered, Naming;
      if (dp, name) in entries {
        var i := entries[(dp, name)];
        Named(Value(), (dp, name));
        return if kind == FILE && inodes[i].kind == FILE then Some(i) else None;
      }
      ghost var d := Value();
      ExactCovers(d);
      var free := Ialloc(kind);
      if free.None? {
        return None;
      }
      EnterNew(dp, name, kind, free.value, d);
      r := free;
    }
  }

  /** ialloc writes an inode without links, and nothing names it. */
  lemma FreshCovers(d: Disk, i: nat, kind: Kind)
    requires Covered(d) && i < |d.inodes| && d.inodes[i].kind == FREE && kind != FREE
    ensures Naming(d, i) == {} && Covered(d.(inodes := d.inodes[i := Inode(kind, 0)]))
  {
    var d' := d.(inodes := d.inodes[i := Inode(kind, 0)]);
    forall j: nat | j < |d.inodes| ensures Naming(d', j) == Naming(d, j) {
      NamingSame(d, d'.inodes, j);
    }
  }

  lemma LinkedExact(d: Disk, i: nat, k: Key)
    requires Exact(d) && i < |d.inodes| && IsFile(d.inodes[i]) && k !in d.entries
    ensures Exact(WithLinks(d, i, d.inodes[i].nlink + 1).(entries := d.entries[k := i]))
  {
    var d' := WithLinks(d, i, d.inodes[i].nlink + 1).(entries := d.entries[k := i]);
    forall j: nat | j < |d.inodes| ensures |Naming(d', j)| == |Naming(d, j)| + if j == i then 1 else 0 {
      NamingAdded(d, k, i, j);
      NamingSame(d.(entries := d.entries[k := i]), d'.inodes, j);
    }
  }

  lemma UnlinkedExact(d: Disk, d': Disk, k: Key)
    requires Exact(d) && k in d.entries && d'.entries == d.entries - {k} && |d'.inodes| == |d.inodes|
    requires forall j :: 0 <= j < |d.inodes| ==>
               d'.inodes[j].kind == d.inodes[j].kind
               && (IsFile(d.inodes[j]) ==> d'.inodes[j].nlink == d.inodes[j].nlink - if j == d.entries[k] then 1 else 0)
    ensures Exact(d')
  {
    forall j: nat | j < |d.inodes| ensures |Naming(d, j)| == |Naming(d', j)| + if j == d.entries[k] then 1 else 0 {
      NamingRemoved(d, k, j);
      NamingSame(d.(entries := d.entries - {k}), d'.inodes, j);
    }
  }

  lemma CreatedExact(d: Disk, d': Disk, i: nat, kind: Kind, k: Key, dp: nat)
    requires Exact(d) && i < |d.inodes| && d.inodes[i].kind == FREE && kind != FREE && k !in d.entries
    requires dp < |d.inodes| && d.inodes[dp].kind == DIR
    requires d'.entries == d.entries[k := i] && |d'.inodes| == |d.inodes| && d'.inodes[i] == Inode(kind, 1)
    requires forall j :: 0 <= j < |d.inodes| && j != i && j != dp ==> d'.inodes[j] == d.inodes[j]
    requires d'.inodes[dp].kind == DIR
    ensures Exact(d')
  {
    forall j: nat | j < |d.inodes| ensures |Naming(d', j)| == |Naming(d, j)| + if j == i then 1 else 0 {
      NamingAdded(d, k, i, j);
      NamingSame(d.(entries := d.entries[k := i]), d'.inodes, j);
    }
    assert Naming(d, i) == {};
  }
}
