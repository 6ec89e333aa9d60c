/** Link counts when the calls of several processes interleave between their disk writes (p2b/kernel/sysfile.c). */
module LinkRuns {
  import opened Basics
  import opened Links

  /** A call in progress: create between ialloc and its first iupdate, create or link with an entry still to write,
      or unlink with a count still to lower. */
  datatype Call = Fresh(i: nat) | Adding(i: nat, created: bool) | Removing(i: nat)

  /** `removed` are directories that have been unlinked but not yet freed; `lost` lists, for each entry that
      vanished with such a directory, the inode it named. */
  datatype State = State(disk: Disk, calls: map<nat, Call>, removed: set<nat>, lost: multiset<nat>)

  datatype Action =
    | Count(p: nat, i: nat)                       // sys_link: ip->nlink++
    | Enter(p: nat, dir: nat, name: seq<byte>)    // dirlink
    | Undo(p: nat)                                // sys_link: bad
    | Remove(p: nat, dir: nat, name: seq<byte>)   // sys_unlink of a file: the entry
    | Uncount(p: nat)                             // sys_unlink: ip->nlink--
    | RemoveDir(dir: nat, name: seq<byte>)        // sys_unlink of an empty directory
    | Make(p: nat, i: nat, kind: Kind)            // create: ialloc
    | MakeCount(p: nat)                           // create: ip->nlink = 1
    | FreeFile(i: nat)                            // iput of a file without links
    | DropEntry(dir: nat, name: seq<byte>)        // iput of a removed directory: its content goes
    | FreeDir(dir: nat)
    | DirLinks(dir: nat, n: int)                  // create and sys_unlink: the count of a directory

  ghost function Holding(s: State, i: nat): set<nat> {
    set p | p in s.calls && s.calls[p].i == i
  }

  ghost function FreshFor(s: State, i: nat): set<nat> {
    set p | p in s.calls && s.calls[p] == Fresh(i)
  }

  ghost predicate EmptyDir(d: Disk, x: nat) {
    forall k :: k in d.entries ==> k.0 != x
  }

  ghost predicate Step(s: State, a: Action, t: State) {
    var d := s.disk;
    match a
    case Count(p, i) =>
      // create keeps its new inode locked until it is entered
      && p !in s.calls && i < |d.inodes| && IsFile(d.inodes[i]) && FreshFor(s, i) == {}
      && t == s.(disk := WithLinks(d, i, d.inodes[i].nlink + 1), calls := s.calls[p := Adding(i, false)])
    case Enter(p, dir, name) =>
      && p in s.calls && s.calls[p].Adding? && (dir, name) !in d.entries
      && t == s.(disk := d.(entries := d.entries[(dir, name) := s.calls[p].i]), calls := s.calls - {p})
    case Undo(p) =>
      && p in s.calls && s.calls[p].Adding? && !s.calls[p].created && s.calls[p].i < |d.inodes|
      && t == s.(disk := WithLinks(d, s.calls[p].i, d.inodes[s.calls[p].i].nlink - 1), calls := s.calls - {p})
    case Remove(p, dir, name) =>
      && p !in s.calls && (dir, name) in d.entries && d.entries[(dir, name)] < |d.inodes|
      && IsFile(d.inodes[d.entries[(dir, name)]])
      && t == s.(disk := d.(entries := d.entries - {(dir, name)}),
            calls := s.calls[p := Removing(d.entries[(dir, name)])])
    case Uncount(p) =>
      && p in s.calls && s.calls[p].Removing? && s.calls[p].i < |d.inodes|
      && t == s.(disk := WithLinks(d, s.calls[p].i, d.inodes[s.calls[p].i].nlink - 1), calls := s.calls - {p})
    case RemoveDir(dir, name) =>
      && (dir, name) in d.entries && d.entries[(dir, name)] < |d.inodes|
      && d.inodes[d.entries[(dir, name)]].kind == DIR && EmptyDir(d, d.entries[(dir, name)])
      && t == s.(disk := d.(entries := d.entries - {(dir, name)}), removed := s.removed + {d.entries[(dir, name)]})
    case Make(p, i, kind) =>
      && p !in s.calls && i < |d.inodes| && d.inodes[i].kind == FREE && kind != FREE
      && t == s.(disk := d.(inodes := d.inodes[i := Inode(kind, 0)]), calls := s.calls[p := Fresh(i)])
    case MakeCount(p) =>
      && p in s.calls && s.calls[p].Fresh? && s.calls[p].i < |d.inodes|
      && t == s.(disk := WithLinks(d, s.calls[p].i, 1), calls := s.calls[p := Adding(s.calls[p].i, true)])
    case FreeFile(i) =>
      && i < |d.inodes| && IsFile(d.inodes[i]) && d.inodes[i].nlink == 0 && Holding(s, i) == {}
      && t == s.(disk := d.(inodes := d.inodes[i := d.inodes[i].(kind := FREE)]))
    case DropEntry(dir, name) =>
      && dir in s.removed && (dir, name) in d.entries
      && t == s.(disk := d.(entries := d.entries - {(dir, name)}), lost := s.lost + multiset{d.entries[(dir, name)]})
    case FreeDir(dir) =>
      && dir in s.removed && dir < |d.inodes| && EmptyDir(d, dir)
      && t == s.(disk := d.(inodes := d.inodes[dir := d.inodes[dir].(kind := FREE)]), removed := s.removed - {dir})
    case DirLinks(dir, n) =>
      dir < |d.inodes| && d.inodes[dir].kind == DIR && t == s.(disk := WithLinks(d, dir, n))
  }

  // ------------------------------------------------------------------ the ledger

  /** Inode i's account: what its count stands for. */
  ghost predicate Account(s: State, i: nat)
    requires i < |s.disk.inodes|
  {
    var n := s.disk.inodes[i];
    var names, calls := |Naming(s.disk, i)|, |Holding(s, i)|;
    if n.kind == FREE then names == 0 && calls == 0 && i !in s.lost && i !in s.removed
    else if n.kind == DIR then names + calls + s.lost[i] + (if i in s.removed then 1 else 0) <= 1
    else
      && n.nlink + |FreshFor(s, i)| == names + calls + s.lost[i] && i !in s.removed
      && (|FreshFor(s, i)| > 0 ==> names == 0 && calls == 1 && s.lost[i] == 0)
  }

  ghost predicate CallsOk(s: State) {
    && (forall p :: p in s.calls ==> s.calls[p].i < |s.disk.inodes|)
    && (forall p :: p in s.calls && !(s.calls[p].Fresh? || (s.calls[p].Adding? && s.calls[p].created)) ==>
          IsFile(s.disk.inodes[s.calls[p].i]))
    && (forall x :: x in s.removed ==> x < |s.disk.inodes|)
    && (forall k :: k in s.disk.entries ==> s.disk.entries[k] < |s.disk.inodes|)
  }

  ghost predicate Ledger(s: State) {
    CallsOk(s) && forall i :: 0 <= i < |s.disk.inodes| ==> Account(s, i)
  }

  /** An entry's target, or a call's inode, is in use. */
  lemma InUse(s: State, i: nat)
    requires Ledger(s) && i < |s.disk.inodes| && (Naming(s.disk, i) != {} || Holding(s, i) != {})
    ensures s.disk.inodes[i].kind != FREE
  {
    assert Account(s, i);
  }

  lemma HoldingAdded(s: State, p: nat, c: Call, j: nat)
    requires p !in s.calls
    ensures var t := s.(calls := s.calls[p := c]);
            && |Holding(t, j)| == |Holding(s, j)| + (if j == c.i then 1 else 0)
            && |FreshFor(t, j)| == |FreshFor(s, j)| + if c == Fresh(j) then 1 else 0
  {
    hide Holding, FreshFor;
    HoldersAdded(s, p, c, j);
    FreshAdded(s, p, c, j);
  }

  lemma HoldersAdded(s: State, p: nat, c: Call, j: nat)
    requires p !in s.calls
    ensures var t := s.(calls := s.calls[p := c]);
            p !in Holding(s, j) && Holding(t, j) == if j == c.i then Holding(s, j) + {p} else Holding(s, j)
  {
  }

  lemma FreshAdded(s: State, p: nat, c: Call, j: nat)
    requires p !in s.calls
    ensures var t := s.(calls := s.calls[p := c]);
            p !in FreshFor(s, j) && FreshFor(t, j) == if c == Fresh(j) then FreshFor(s, j) + {p} else FreshFor(s, j)
  {
  }

  lemma HoldingDropped(s: State, p: nat, j: nat)
    requires p in s.calls
    ensures var t := s.(calls := s.calls - {p});
            && |Holding(s, j)| == |Holding(t, j)| + (if j == s.calls[p].i then 1 else 0)
            && |FreshFor(s, j)| == |FreshFor(t, j)| + if s.calls[p] == Fresh(j) then 1 else 0
  {
    hide Holding, FreshFor;
    var t, c := s.(calls := s.calls - {p}), s.calls[p];
    assert t.calls[p := c] == s.calls;
    HoldersAdded(t, p, c, j);
    FreshAdded(t, p, c, j);
  }

  /** Only the calls matter for who holds what. */
  lemma HoldingSame(s: State, t: State, j: nat)
    requires s.calls == t.calls
    ensures Holding(s, j) == Holding(t, j) && FreshFor(s, j) == FreshFor(t, j)
  {
  }

  lemma NamingOf(d: Disk, e: Disk, j: nat)
    requires d.entries == e.entries
    ensures Naming(d, j) == Naming(e, j)
  {
  }

  lemma CountAccount(s: State, p: nat, i: nat, t: State, j: nat)
    requires Ledger(s) && Step(s, Count(p, i), t) && j < |s.disk.inodes|
    ensures j < |t.disk.inodes| && Account(t, j)
  {
    assert Account(s, j);
    hide Holding, FreshFor, Naming;
    HoldingAdded(s, p, Adding(i, false), j);
    HoldingSame(t, s.(calls := t.calls), j);
    NamingOf(s.disk, t.disk, j);
  }

  lemma EnterAccount(s: State, p: nat, dir: nat, name: seq<byte>, t: State, j: nat)
    requires Ledger(s) && Step(s, Enter(p, dir, name), t) && j < |s.disk.inodes|
    ensures j < |t.disk.inodes| && Account(t, j)
  {
    assert Account(s, j);
    hide Holding, FreshFor, Naming;
    HoldingDropped(s, p, j);
    HoldingSame(t, s.(calls := t.calls), j);
    NamingAdded(s.disk, (dir, name), s.calls[p].i, j);
  }

  lemma UndoAccount(s: State, p: nat, t: State, j: nat)
    requires Ledger(s) && Step(s, Undo(p), t) && j < |s.disk.inodes|
    ensures j < |t.disk.inodes| && Account(t, j)
  {
    assert Account(s, j);
    hide Holding, FreshFor, Naming;
    HoldingDropped(s, p, j);
    HoldingSame(t, s.(calls := t.calls), j);
    NamingOf(s.disk, t.disk, j);
  }

  lemma RemoveAccount(s: State, p: nat, dir: nat, name: seq<byte>, t: State, j: nat)
    requires Ledger(s) && Step(s, Remove(p, dir, name), t) && j < |s.disk.inodes|
    ensures j < |t.disk.inodes| && Account(t, j)
  {
    assert Account(s, j);
    hide Holding, FreshFor, Naming;
    HoldingAdded(s, p, Removing(s.disk.entries[(dir, name)]), j);
    HoldingSame(t, s.(calls := t.calls), j);
    NamingRemoved(s.disk, (dir, name), j);
  }

  lemma UncountAccount(s: State, p: nat, t: State, j: nat)
    requires Ledger(s) && Step(s, Uncount(p), t) && j < |s.disk.inodes|
    ensures j < |t.disk.inodes| && Account(t, j)
  {
    assert Account(s, j);
    hide Holding, FreshFor, Naming;
    HoldingDropped(s, p, j);
    HoldingSame(t, s.(calls := t.calls), j);
    NamingOf(s.disk, t.disk, j);
  }

  lemma MakeAccount(s: State, p: nat, i: nat, kind: Kind, t: State, j: nat)
    requires Ledger(s) && Step(s, Make(p, i, kind), t) && j < |s.disk.inodes|
    ensures j < |t.disk.inodes| && Account(t, j)
  {
    assert Account(s, j);
    hide Holding, FreshFor, Naming;
    HoldingAdded(s, p, Fresh(i), j);
    HoldingSame(t, s.(calls := t.calls), j);
    NamingOf(s.disk, t.disk, j);
    if j == i {
      NoFresh(s, i);
    }
  }

  lemma MakeCountAccount(s: State, p: nat, t: State, j: nat)
    requires Ledger(s) && Step(s, MakeCount(p), t) && j < |s.disk.inodes|
    ensures j < |t.disk.inodes| && Account(t, j)
  {
    assert Account(s, j);
    hide Holding, FreshFor, Naming;
    HoldingMoved(s, p, j);
    FreshAmong(s, j);
    HoldingSame(t, s.(calls := t.calls), j);
    NamingOf(s.disk, t.disk, j);
  }

  lemma FreeFileAccount(s: State, i: nat, t: State, j: nat)
    requires Ledger(s) && Step(s, FreeFile(i), t) && j < |s.disk.inodes|
    ensures j < |t.disk.inodes| && Account(t, j)
  {
    assert Account(s, j);
    hide Holding, FreshFor, Naming;
    HoldingSame(t, s, j);
    NamingOf(s.disk, t.disk, j);
    NoFresh(s, i);
  }

  lemma DirsAccount(s: State, a: Action, t: State, j: nat)
    requires Ledger(s) && Step(s, a, t) && j < |s.disk.inodes|
    requires a.RemoveDir? || a.DropEntry? || a.FreeDir? || a.DirLinks?
    ensures j < |t.disk.inodes| && Account(t, j)
  {
    assert Account(s, j);
    hide Holding, FreshFor, Naming;
    HoldingSame(t, s, j);
    if a.FreeDir? || a.DirLinks? {
      NamingOf(s.disk, t.disk, j);
    } else {
      NamingRemoved(s.disk, (a.dir, a.name), j);
    }
  }

  lemma AccountAfter(s: State, a: Action, t: State, j: nat)
    requires Ledger(s) && Step(s, a, t) && j < |s.disk.inodes|
    ensures j < |t.disk.inodes| && Account(t, j)
  {
    hide Ledger, Step, Account;
    match a
    case Count(p, i) => CountAccount(s, p, i, t, j);
    case Enter(p, dir, name) => EnterAccount(s, p, dir, name, t, j);
    case Undo(p) => UndoAccount(s, p, t, j);
    case Remove(p, dir, name) => RemoveAccount(s, p, dir, name, t, j);
    case Uncount(p) => UncountAccount(s, p, t, j);
    case Make(p, i, kind) => MakeAccount(s, p, i, kind, t, j);
    case MakeCount(p) => MakeCountAccount(s, p, t, j);
    case FreeFile(i) => FreeFileAccount(s, i, t, j);
    case _ => DirsAccount(s, a, t, j);
  }

  lemma HoldingMoved(s: State, p: nat, j: nat)
    requires p in s.calls && s.calls[p].Fresh?
    ensures var t := s.(calls := s.calls[p := Adding(s.calls[p].i, true)]);
            && |Holding(t, j)| == |Holding(s, j)|
            && |FreshFor(s, j)| == |FreshFor(t, j)| + if s.calls[p].i == j then 1 else 0
  {
    var t := s.(calls := s.calls[p := Adding(s.calls[p].i, true)]);
    assert Holding(t, j) == Holding(s, j);
    assert FreshFor(s, j) == if s.calls[p].i == j then FreshFor(t, j) + {p} else FreshFor(t, j);
  }

  lemma NoFresh(s: State, i: nat)
    requires Holding(s, i) == {}
    ensures FreshFor(s, i) == {}
  {
    forall p | p in FreshFor(s, i) ensures p in Holding(s, i) {
    }
  }

  lemma CallsAfter(s: State, a: Action, t: State)
    requires Ledger(s) && Step(s, a, t)
    ensures CallsOk(t)
  {
    match a
    case Make(p, i, kind) =>
      forall q | q in s.calls && s.calls[q].i == i ensures false {
        assert q in Holding(s, i);
        InUse(s, i);
      }
    case FreeFile(i) =>
      forall q | q in s.calls ensures s.calls[q].i != i {
        assert q !in Holding(s, i);
      }
    case FreeDir(dir) =>
      assert Account(s, dir);
      forall q | q in s.calls ensures s.calls[q].i != dir {
        assert q !in Holding(s, dir);
      }
    case _ =>
  }

  /** Every disk write of every interleaving keeps the accounts. */
  lemma StepLedger(s: State, a: Action, t: State)
    requires Ledger(s) && Step(s, a, t)
    ensures Ledger(t)
  {
    CallsAfter(s, a, t);
    hide Step, Account;
    SameLength(s, a, t);
    forall j | 0 <= j < |t.disk.inodes| ensures Account(t, j) {
      AccountAfter(s, a, t, j);
    }
  }

  lemma SameLength(s: State, a: Action, t: State)
    requires Step(s, a, t)
    ensures |t.disk.inodes| == |s.disk.inodes|
  {
  }

  // ------------------------------------------------------------------ what the ledger says

  /** No file ever has fewer links than names, and no name ever leads to a free inode. */
  lemma LedgerCovers(s: State)
    requires Ledger(s)
    ensures Covered(s.disk)
  {
    forall i: nat | i < |s.disk.inodes| && IsFile(s.disk.inodes[i])
        ensures s.disk.inodes[i].nlink >= |Naming(s.disk, i)| {
      assert Account(s, i);
      FreshAmong(s, i);
    }
    forall k | k in s.disk.entries ensures s.disk.inodes[s.disk.entries[k]].kind != FREE {
      assert k in Naming(s.disk, s.disk.entries[k]);
      InUse(s, s.disk.entries[k]);
    }
  }

  lemma FreshAmong(s: State, i: nat)
    ensures |FreshFor(s, i)| <= |Holding(s, i)|
  {
    var rest := Holding(s, i) - FreshFor(s, i);
    assert Holding(s, i) == FreshFor(s, i) + rest;
  }

  /** Between calls, a file has exactly as many links as names if and only if none of its names vanished with a
      removed directory. */
  lemma QuietExact(s: State)
    requires Ledger(s) && s.calls == map[]
    ensures Exact(s.disk) <==> forall i :: 0 <= i < |s.disk.inodes| && IsFile(s.disk.inodes[i]) ==> i !in s.lost
  {
    LedgerCovers(s);
    forall i: nat | i < |s.disk.inodes| && IsFile(s.disk.inodes[i])
      ensures s.disk.inodes[i].nlink == |Naming(s.disk, i)| + s.lost[i]
    {
      assert Account(s, i);
      assert Holding(s, i) == {} && FreshFor(s, i) == {};
    }
    if Exact(s.disk) {
      forall i: nat | i < |s.disk.inodes| && IsFile(s.disk.inodes[i]) ensures i !in s.lost {
      }
    }
  }

  /** sys_unlink's panic "unlink: nlink < 1" does not happen to a file. */
  lemma NamedHasLink(s: State, k: Key)
    requires Ledger(s) && k in s.disk.entries
    ensures s.disk.entries[k] < |s.disk.inodes|
    ensures IsFile(s.disk.inodes[s.disk.entries[k]]) ==> s.disk.inodes[s.disk.entries[k]].nlink >= 1
  {
    LedgerCovers(s);
    assert k in Naming(s.disk, s.disk.entries[k]);
  }

  // ------------------------------------------------------------------ runs

  ghost predicate Run(ss: seq<State>, acts: seq<Action>) {
    |ss| == |acts| + 1 && forall i :: 0 <= i < |acts| ==> Step(ss[i], acts[i], ss[i + 1])
  }

  lemma {:induction false} RunCovers(ss: seq<State>, acts: seq<Action>, n: nat)
    requires Run(ss, acts) && Ledger(ss[0]) && n <= |acts|
    ensures Ledger(ss[n]) && Covered(ss[n].disk)
  {
    hide Step, Ledger, Covered;
    if n > 0 {
      RunCovers(ss, acts, n - 1);
      assert Step(ss[n - 1], acts[n - 1], ss[n - 1 + 1]);
      StepLedger(ss[n - 1], acts[n - 1], ss[n]);
    }
    LedgerCovers(ss[n]);
  }

  /** Nothing is created or linked in a directory that has been removed. */
  ghost predicate Careful(s: State, a: Action) {
    a.Enter? ==> a.dir !in s.removed
  }

  /** Removed directories are empty, and nothing has vanished with one. */
  ghost predicate Clean(s: State) {
    s.lost == multiset{} && forall k :: k in s.disk.entries ==> k.0 !in s.removed
  }

  lemma StepClean(s: State, a: Action, t: State)
    requires Clean(s) && Step(s, a, t) && Careful(s, a)
    ensures Clean(t)
  {
  }

  /** In such runs links and names agree whenever no call is in progress. */
  lemma {:induction false} RunExact(ss: seq<State>, acts: seq<Action>, n: nat)
    requires Run(ss, acts) && Ledger(ss[0]) && Clean(ss[0]) && n <= |acts|
    requires forall i :: 0 <= i < n ==> Careful(ss[i], acts[i])
    ensures Clean(ss[n]) && (ss[n].calls == map[] ==> Exact(ss[n].disk))
  {
    hide Step, Ledger, Careful;
    RunCovers(ss, acts, n);
    if n > 0 {
      RunExact(ss, acts, n - 1);
      assert Step(ss[n - 1], acts[n - 1], ss[n - 1 + 1]);
      StepClean(ss[n - 1], acts[n - 1], ss[n]);
    }
    if ss[n].calls == map[] {
      QuietExact(ss[n]);
    }
  }

  /** Between calls, with nothing removed or lost: links equal names, and no directory has two names. */
  ghost predicate Quiet(s: State) {
    && s.calls == map[] && s.removed == {} && s.lost == multiset{} && Exact(s.disk)
    && forall i :: 0 <= i < |s.disk.inodes| && s.disk.inodes[i].kind == DIR ==> |Naming(s.disk, i)| <= 1
  }

  /** Such a state is a start for both results about runs. */
  lemma QuietLedger(s: State)
    requires Quiet(s)
    ensures Ledger(s) && Clean(s)
  {
    forall i | 0 <= i < |s.disk.inodes| ensures Account(s, i) {
      assert Holding(s, i) == {} && FreshFor(s, i) == {};
      if s.disk.inodes[i].kind == FREE {
        assert Naming(s.disk, i) == {};
      }
    }
  }

  const F: seq<byte> := [102]
  const G: seq<byte> := [103]
  const H: seq<byte> := [104]

  /** A directory G and a file F in the root, and the states that follow when one process links the file in G
      while another one removes G. */
  function Careless(k: nat): State {
    var dir, f, g, h := Inode(DIR, 1), (0, F), (0, G), (1, H);
    if k == 0 then State(Disk([dir, dir, Inode(FILE, 1)], map[f := 2, g := 1]), map[], {}, multiset{})
    else
      var inodes := [dir, dir, Inode(FILE, 2)];
      if k == 1 then State(Disk(inodes, map[f := 2, g := 1]), map[7 := Adding(2, false)], {}, multiset{})
      else if k == 2 then State(Disk(inodes, map[f := 2]), map[7 := Adding(2, false)], {1}, multiset{})
      else if k == 3 then State(Disk(inodes, map[f := 2, h := 2]), map[], {1}, multiset{})
      else State(Disk(inodes, map[f := 2]), map[], {1}, multiset{2})
  }

  lemma CarelessCount()
    ensures Step(Careless(0), Count(7, 2), Careless(1))
  {
    assert FreshFor(Careless(0), 2) == {};
  }

  lemma CarelessRemove()
    ensures Step(Careless(1), RemoveDir(0, G), Careless(2))
  {
    assert Careless(1).disk.entries - {(0, G)} == Careless(2).disk.entries;
  }

  lemma CarelessEnter()
    ensures Step(Careless(2), Enter(7, 1, H), Careless(3))
  {
    assert Careless(2).calls - {7} == map[];
  }

  lemma CarelessDrop()
    ensures Step(Careless(3), DropEntry(1, H), Careless(4))
  {
    assert Careless(3).disk.entries - {(1, H)} == Careless(4).disk.entries;
  }

  /** A file linked in a directory that is removed meanwhile keeps a link that no name accounts for. */
  lemma CarelessLinkLeaks()
    ensures var ss := [Careless(0), Careless(1), Careless(2), Careless(3), Careless(4)];
            && Run(ss, [Count(7, 2), RemoveDir(0, G), Enter(7, 1, H), DropEntry(1, H)]) && Quiet(ss[0])
            && ss[4].calls == map[] && !Exact(ss[4].disk)
  {
    CarelessStart();
    CarelessEnd();
    CarelessCount();
    CarelessRemove();
    CarelessEnter();
    CarelessDrop();
    hide Careless, Step, Quiet, Exact;
  }

  lemma CarelessStart()
    ensures Quiet(Careless(0))
  {
    var d := Careless(0).disk;
    assert Naming(d, 0) == {} && Naming(d, 1) == {(0, G)} && Naming(d, 2) == {(0, F)};
  }

  lemma CarelessEnd()
    ensures Careless(4).calls == map[] && !Exact(Careless(4).disk)
  {
    assert Naming(Careless(4).disk, 2) == {(0, F)};
  }

  // ------------------------------------------------------------------ the system calls as steps

  /** The writes of a call that nobody interrupts, after those of others. */
  ghost predicate Writes(ss: seq<State>, acts: seq<Action>, ds: seq<Disk>) {
    Run(ss, acts) && |ds| == |acts| && forall k :: 0 <= k < |ds| ==> ss[k + 1].disk == ds[k]
  }

  lemma LinkSteps(s: State, p: nat, i: nat, k: Key) returns (ss: seq<State>, acts: seq<Action>)
    requires p !in s.calls && i < |s.disk.inodes| && IsFile(s.disk.inodes[i]) && FreshFor(s, i) == {}
    requires k !in s.disk.entries
    ensures Writes(ss, acts, LinkWrites(s.disk, i, k)) && ss[0] == s && ss[|acts|] == s.(disk := ss[|acts|].disk)
  {
    var s1 := s.(disk := LinkWrites(s.disk, i, k)[0], calls := s.calls[p := Adding(i, false)]);
    var s2 := s.(disk := LinkWrites(s.disk, i, k)[1]);
    assert s1.calls - {p} == s.calls;
    ss, acts := [s, s1, s2], [Count(p, i), Enter(p, k.0, k.1)];
  }

  lemma UndoneSteps(s: State, p: nat, i: nat) returns (ss: seq<State>, acts: seq<Action>)
    requires p !in s.calls && i < |s.disk.inodes| && IsFile(s.disk.inodes[i]) && FreshFor(s, i) == {}
    ensures Writes(ss, acts, UndoneWrites(s.disk, i)) && ss[0] == s && ss[|acts|] == s
  {
    var s1 := s.(disk := UndoneWrites(s.disk, i)[0], calls := s.calls[p := Adding(i, false)]);
    assert s1.calls - {p} == s.calls;
    assert UndoneWrites(s.disk, i)[1].inodes == s.disk.inodes;
    ss, acts := [s, s1, s], [Count(p, i), Undo(p)];
  }

  lemma UnlinkSteps(s: State, p: nat, k: Key) returns (ss: seq<State>, acts: seq<Action>)
    requires p !in s.calls && k in s.disk.entries && s.disk.entries[k] < |s.disk.inodes|
    requires k.0 < |s.disk.inodes| && s.disk.inodes[k.0].kind == DIR
    requires s.disk.inodes[s.disk.entries[k]].kind == DIR || IsFile(s.disk.inodes[s.disk.entries[k]])
    requires s.disk.inodes[s.disk.entries[k]].kind == DIR ==> EmptyDir(s.disk, s.disk.entries[k])
    ensures Writes(ss, acts, UnlinkWrites(s.disk, k)) && ss[0] == s && ss[|acts|].calls == s.calls
  {
    var i, ds := s.disk.entries[k], UnlinkWrites(s.disk, k);
    if s.disk.inodes[i].kind == DIR {
      var s1 := s.(disk := ds[0], removed := s.removed + {i});
      var s2, s3 := s1.(disk := ds[1]), s1.(disk := ds[2]);
      var n1, n2 := ds[1].inodes[k.0].nlink, ds[2].inodes[i].nlink;
      ss, acts := [s, s1, s2, s3], [RemoveDir(k.0, k.1), DirLinks(k.0, n1), DirLinks(i, n2)];
    } else {
      var s1, s2 := s.(disk := ds[0], calls := s.calls[p := Removing(i)]), s.(disk := ds[1]);
      assert s1.calls - {p} == s.calls;
      ss, acts := [s, s1, s2], [Remove(p, k.0, k.1), Uncount(p)];
    }
  }

  lemma CreateSteps(s: State, p: nat, i: nat, kind: Kind, k: Key) returns (ss: seq<State>, acts: seq<Action>)
    requires p !in s.calls && i < |s.disk.inodes| && s.disk.inodes[i].kind == FREE && kind != FREE
    requires k !in s.disk.entries && k.0 < |s.disk.inodes| && s.disk.inodes[k.0].kind == DIR
    ensures Writes(ss, acts, CreateWrites(s.disk, i, kind, k)) && ss[0] == s
    ensures ss[|acts|] == s.(disk := ss[|acts|].disk)
  {
    var ds := CreateWrites(s.disk, i, kind, k);
    var s1 := s.(disk := ds[0], calls := s.calls[p := Fresh(i)]);
    var s2 := s.(disk := ds[1], calls := s1.calls[p := Adding(i, true)]);
    var last := s.(disk := ds[|ds| - 1]);
    assert s2.calls - {p} == s.calls;
    if kind == DIR {
      var s3 := s2.(disk := ds[2]);
      ss, acts := [s, s1, s2, s3, last],
      [Make(p, i, kind), MakeCount(p), DirLinks(k.0, ds[2].inodes[k.0].nlink), Enter(p, k.0, k.1)];
    } else {
      ss, acts := [s, s1, s2, last], [Make(p, i, kind), MakeCount(p), Enter(p, k.0, k.1)];
    }
  }
}
