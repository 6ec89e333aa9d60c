/** The buffer cache (p2b/kernel/bio.c): a ring of NBUF buffers in order of their last release.

    Every method is one critical section under bcache.lock, or one sector transfer by the holder of a buffer. */
module Bio {
  import opened FsBlock

  const NBUF := 10
  const HEAD := NBUF        // the index that stands for bcache.head
  const NODEV := -1

  datatype Body = Body(dev: int, sector: nat, busy: bool, valid: bool, dirty: bool, data: Block)

  datatype GetResult = Got(b: nat) | Busy(b: nat) | NoBuffers

  // ------------------------------------------------------------------ the ring

  /** Position i of the ring: the head at both ends, the buffers in between. */
  function At(ring: seq<nat>, i: nat): nat
    requires i <= |ring| + 1
  {
    if i == 0 || i == |ring| + 1 then HEAD else ring[i - 1]
  }

  ghost predicate Distinct(ring: seq<nat>) {
    (forall i :: 0 <= i < |ring| ==> ring[i] < NBUF) && forall i, j :: 0 <= i < j < |ring| ==> ring[i] != ring[j]
  }

  /** The prev and next fields hold the ring. */
  ghost predicate Linked(prev: seq<nat>, next: seq<nat>, ring: seq<nat>) {
    |prev| == |next| == NBUF + 1 && Distinct(ring) && forall i :: 0 <= i <= |ring| ==> Joined(prev, next, ring, i)
  }

  ghost predicate Joined(prev: seq<nat>, next: seq<nat>, ring: seq<nat>, i: nat)
    requires |prev| == |next| == NBUF + 1 && i <= |ring|
  {
    && At(ring, i) <= NBUF && At(ring, i + 1) <= NBUF
    && next[At(ring, i)] == At(ring, i + 1) && prev[At(ring, i + 1)] == At(ring, i)
  }

  function Without(ring: seq<nat>, k: nat): seq<nat>
    requires k < |ring|
  {
    ring[..k] + ring[k + 1..]
  }

  lemma LinkAt(prev: seq<nat>, next: seq<nat>, ring: seq<nat>, i: nat)
    requires Linked(prev, next, ring) && i <= |ring|
    ensures At(ring, i) <= NBUF && At(ring, i + 1) <= NBUF
    ensures next[At(ring, i)] == At(ring, i + 1) && prev[At(ring, i + 1)] == At(ring, i)
  {
    assert Joined(prev, next, ring, i);
  }

  /** Going round from the head, or back to it, no place is visited twice. */
  lemma AtDistinct(ring: seq<nat>, i: nat, j: nat)
    requires Distinct(ring) && i < j <= |ring| + 1 && (0 < i || j <= |ring|)
    ensures At(ring, i) != At(ring, j)
  {
  }

  lemma UnlinkAt(prev: seq<nat>, next: seq<nat>, ring: seq<nat>, k: nat, i: nat)
    requires Linked(prev, next, ring) && k < |ring| && i <= |ring| - 1
    ensures next[ring[k]] <= NBUF && prev[ring[k]] <= NBUF
    ensures var r := Without(ring, k);
            var b := ring[k];
            Joined(prev[next[b] := prev[b]], next[prev[b] := next[b]], r, i)
  {
    var b, r := ring[k], Without(ring, k);
    LinkAt(prev, next, ring, k);
    LinkAt(prev, next, ring, k + 1);
    assert b == At(ring, k + 1);
    hide Linked, Distinct;
    if i == k {
      assert At(r, i) == At(ring, k) && At(r, i + 1) == At(ring, k + 2);
    } else {
      var o := if i < k then i else i + 1;
      assert At(r, i) == At(ring, o) && At(r, i + 1) == At(ring, o + 1);
      LinkAt(prev, next, ring, o);
      AtDistinct(ring, if o < k then o else k, if o < k then k else o);
      AtDistinct(ring, if o < k then o + 1 else k + 2, if o < k then k + 2 else o + 1);
    }
  }

  /** b->next->prev = b->prev; b->prev->next = b->next. */
  lemma Unlinks(prev: seq<nat>, next: seq<nat>, ring: seq<nat>, k: nat)
    requires Linked(prev, next, ring) && k < |ring|
    ensures var b := ring[k];
            && next[b] <= NBUF && prev[b] <= NBUF
            && Linked(prev[next[b] := prev[b]], next[prev[b] := next[b]], Without(ring, k)) && b !in Without(ring, k)
  {
    hide At, Joined;
    UnlinkAt(prev, next, ring, k, 0);
    var b, r := ring[k], Without(ring, k);
    var prev', next' := prev[next[b] := prev[b]], next[prev[b] := next[b]];
    forall i | 0 <= i <= |r| ensures Joined(prev', next', r, i) {
      UnlinkAt(prev, next, ring, k, i);
    }
  }

  /** Insertion behind the head. */
  lemma Inserts(prev: seq<nat>, next: seq<nat>, ring: seq<nat>, b: nat)
    requires Linked(prev, next, ring) && b < NBUF && b !in ring
    ensures next[HEAD] <= NBUF
    ensures Linked(prev[b := HEAD][next[HEAD] := b], next[b := next[HEAD]][HEAD := b], [b] + ring)
  {
    LinkAt(prev, next, ring, 0);
    hide At, Joined;
    var r, prev', next' := [b] + ring, prev[b := HEAD][next[HEAD] := b], next[b := next[HEAD]][HEAD := b];
    forall i | 0 <= i <= |r| ensures Joined(prev', next', r, i) {
      InsertAt(prev, next, ring, b, i);
    }
  }

  lemma InsertAt(prev: seq<nat>, next: seq<nat>, ring: seq<nat>, b: nat, i: nat)
    requires Linked(prev, next, ring) && b < NBUF && b !in ring && i <= |ring| + 1
    ensures next[HEAD] <= NBUF
    ensures Joined(prev[b := HEAD][next[HEAD] := b], next[b := next[HEAD]][HEAD := b], [b] + ring, i)
  {
    var r := [b] + ring;
    LinkAt(prev, next, ring, 0);
    assert Distinct(ring);
    hide Linked, Distinct;
    if i >= 2 {
      assert At(r, i) == At(ring, i - 1) && At(r, i + 1) == At(ring, i);
      LinkAt(prev, next, ring, i - 1);
      AtDistinct(ring, 0, i - 1);
      AtDistinct(ring, 1, i);
    } else {
      assert At(r, 2) == At(ring, 1) && At(r, 1) == b;
    }
  }

  // ------------------------------------------------------------------ looking up

  /** The first buffer of the ring from position k on that caches the sector, or NBUF. */
  function Cached(bodies: seq<Body>, ring: seq<nat>, dev: int, sector: nat, k: nat): (b: nat)
    requires k <= |ring| && |bodies| == NBUF && forall i :: 0 <= i < |ring| ==> ring[i] < NBUF
    ensures b < NBUF ==> b in ring[k..] && bodies[b].dev == dev && bodies[b].sector == sector
    ensures b >= NBUF ==> b == NBUF && forall i :: k <= i < |ring| ==>
              bodies[ring[i]].dev != dev || bodies[ring[i]].sector != sector
    decreases |ring| - k
  {
    if k == |ring| then NBUF
    else if bodies[ring[k]].dev == dev && bodies[ring[k]].sector == sector then ring[k]
    else Cached(bodies, ring, dev, sector, k + 1)
  }

  /** The last of the first k buffers of the ring that is not busy, or NBUF. */
  function Victim(bodies: seq<Body>, ring: seq<nat>, k: nat): (b: nat)
    requires k <= |ring| && |bodies| == NBUF && forall i :: 0 <= i < |ring| ==> ring[i] < NBUF
    ensures b < NBUF ==> b in ring[..k] && !bodies[b].busy
    ensures b >= NBUF ==> b == NBUF && forall i :: 0 <= i < k ==> bodies[ring[i]].busy
  {
    if k == 0 then NBUF
    else if !bodies[ring[k - 1]].busy then ring[k - 1]
    else Victim(bodies, ring, k - 1)
  }

  /** The ring holds every buffer once. */
  ghost predicate Whole(ring: seq<nat>) {
    |ring| == NBUF && Distinct(ring)
  }

  /** As many different numbers below NBUF as there are: they are all of them. */
  lemma {:induction false} WholeHasAll(ring: seq<nat>, b: nat)
    requires Whole(ring) && b < NBUF
    ensures b in ring
  {
    assert b in Upto(NBUF);
    if b !in ring {
      ElementsWithin(ring, b);
      hide Elements, Upto;
      NotMore(Elements(ring, |ring|), Upto(NBUF) - {b});
      OneLess(Upto(NBUF), b);
      assert false;
    }
  }

  lemma {:induction false} ElementsWithin(ring: seq<nat>, b: nat)
    requires Whole(ring) && b !in ring
    ensures Elements(ring, |ring|) <= Upto(NBUF) - {b} && |Elements(ring, |ring|)| == NBUF && |Upto(NBUF)| == NBUF
  {
    hide Elements, Upto;
    assert ring[..|ring|] == ring;
  }

  lemma OneLess(s: set<nat>, b: nat)
    requires b in s
    ensures |s - {b}| == |s| - 1
  {
  }

  lemma NotMore(a: set<nat>, b: set<nat>)
    requires a <= b
    ensures |a| <= |b|
  {
    assert b == a + (b - a);
  }

  ghost function Elements(ring: seq<nat>, n: nat): (s: set<nat>)
    requires Distinct(ring) && n <= |ring|
    ensures |s| == n && forall x :: x in s <==> x in ring[..n]
  {
    if n == 0 then {} else
    assert ring[..n] == ring[..n - 1] + [ring[n - 1]];
    Elements(ring, n - 1) + {ring[n - 1]}
  }

  ghost function Upto(n: nat): (s: set<nat>)
    ensures |s| == n && forall x :: x in s <==> 0 <= x < n
  {
    if n == 0 then {} else Upto(n - 1) + {n - 1}
  }

  // ------------------------------------------------------------------ the cache

  /** bget, as long as nobody else holds the lock. */
  function Get(bodies: seq<Body>, ring: seq<nat>, dev: int, sector: nat): (r: GetResult)
    requires |bodies| == NBUF && Whole(ring)
    ensures r.Got? || r.Busy? ==> r.b < NBUF
  {
    var c := Cached(bodies, ring, dev, sector, 0);
    if c < NBUF then if bodies[c].busy then Busy(c) else Got(c)
    else var v := Victim(bodies, ring, NBUF); if v < NBUF then Got(v) else NoBuffers
  }

  /** A place of the ring, or the head in front of or behind it. */
  lemma InRing(ring: seq<nat>, i: nat)
    requires Whole(ring) && i <= |ring| + 1
    ensures At(ring, i) == HEAD <==> i == 0 || i == |ring| + 1
    ensures 0 < i <= |ring| ==> At(ring, i) == ring[i - 1] < NBUF
  {
  }

  lemma {:induction false} CachedStep(bodies: seq<Body>, ring: seq<nat>, dev: int, sector: nat, k: nat)
    requires |bodies| == NBUF && Whole(ring) && k <= |ring|
    ensures Cached(bodies, ring, dev, sector, k)
         == if k == |ring| then NBUF
            else if bodies[ring[k]].dev == dev && bodies[ring[k]].sector == sector then ring[k]
            else Cached(bodies, ring, dev, sector, k + 1)
  {
  }

  lemma GetHit(bodies: seq<Body>, ring: seq<nat>, dev: int, sector: nat)
    requires |bodies| == NBUF && Whole(ring) && Cached(bodies, ring, dev, sector, 0) < NBUF
    ensures var c := Cached(bodies, ring, dev, sector, 0);
            && Get(bodies, ring, dev, sector) == (if bodies[c].busy then Busy(c) else Got(c))
            && Taken(bodies[c], dev, sector) == bodies[c].(busy := true)
  {
    hide Victim;
  }

  lemma GetMiss(bodies: seq<Body>, ring: seq<nat>, dev: int, sector: nat)
    requires |bodies| == NBUF && Whole(ring) && Cached(bodies, ring, dev, sector, 0) == NBUF
    ensures var v := Victim(bodies, ring, NBUF);
            && Get(bodies, ring, dev, sector) == (if v < NBUF then Got(v) else NoBuffers)
            && (v < NBUF ==> Taken(bodies[v], dev, sector) == Body(dev, sector, true, false, false, bodies[v].data))
  {
    var v := Victim(bodies, ring, NBUF);
    if v < NBUF {
      var i :| 0 <= i < |ring| && ring[i] == v;
    }
    hide Victim, Cached;
  }

  /** The body of a buffer that bget returns: taken over when it caches the sector, else given a new identity. */
  function Taken(body: Body, dev: int, sector: nat): Body {
    if body.dev == dev && body.sector == sector then body.(busy := true)
    else Body(dev, sector, true, false, false, body.data)
  }

  function Key(body: Body): (int, nat) {
    (body.dev, body.sector)
  }

  function OnDisk(disk: map<(int, nat), Block>, key: (int, nat)): Block {
    if key in disk then disk[key] else ZERO_BLOCK
  }

  /** The ring that binit leaves: the last buffer first. */
  function InitialRing(): (r: seq<nat>)
    ensures |r| == NBUF && forall i :: 0 <= i < NBUF ==> r[i] == NBUF - 1 - i
  {
    seq(NBUF, (i: nat) requires i < NBUF => NBUF - 1 - i)
  }

  class BufferCache {
    var bodies: seq<Body>
    var prev: seq<nat>
    var next: seq<nat>
    var disk: map<(int, nat), Block>
    ghost var ring: seq<nat>

    ghost predicate Valid()
      reads this
    {
      |bodies| == NBUF && Whole(ring) && Linked(prev, next, ring)
    }

    /** binit */
    constructor (disk: map<(int, nat), Block>)
      ensures Valid() && this.disk == disk && ring == InitialRing()
      ensures forall b :: 0 <= b < NBUF ==> bodies[b] == Body(NODEV, 0, false, false, false, ZERO_BLOCK)
    {
      this.disk := disk;
      bodies := seq(NBUF, _ => Body(NODEV, 0, false, false, false, ZERO_BLOCK));
      prev := seq(NBUF + 1, _ => HEAD);
      next := seq(NBUF + 1, _ => HEAD);
      ring := [];
      new;
      var b := 0;
      while b < NBUF
        invariant 0 <= b <= NBUF && |bodies| == NBUF && this.disk == disk
        invariant forall i :: 0 <= i < NBUF ==>
                    bodies[i].busy == bodies[i].valid == bodies[i].dirty == false && bodies[i].sector == 0
        invariant forall i :: 0 <= i < NBUF ==> bodies[i].dev == NODEV && bodies[i].data == ZERO_BLOCK
        invariant Linked(prev, next, ring) && |ring| == b && forall i :: 0 <= i < b ==> ring[i] == b - 1 - i
      {
        Inserts(prev, next, ring, b);
        bodies := bodies[b := bodies[b].(dev := NODEV)];
        next := next[b := next[HEAD]];
        prev := prev[b := HEAD];
        prev := prev[next[HEAD] := b];
        next := next[HEAD := b];
        ring := [b] + ring;
        b := b + 1;
      }
    }

    /** One attempt of bget: on Busy the caller sleeps and tries again, on NoBuffers the original panics. */
    method Bget(dev: int, sector: nat) returns (r: GetResult)
      requires Valid()
      modifies this`bodies
      ensures Valid() && r == Get(old(bodies), ring, dev, sector)
      ensures bodies == if r.Got? then old(bodies)[r.b := Taken(old(bodies)[r.b], dev, sector)] else old(bodies)
    {
      hide Joined, Cached, Victim, Get, Taken;
      var b := next[HEAD];
      ghost var k: nat := 0;
      LinkAt(prev, next, ring, 0);
      while b != HEAD
        invariant Valid() && bodies == old(bodies) && k <= |ring| && b == At(ring, k + 1)
        invariant Cached(bodies, ring, dev, sector, 0) == Cached(bodies, ring, dev, sector, k)
        decreases |ring| - k
      {
        InRing(ring, k + 1);
        CachedStep(bodies, ring, dev, sector, k);
        if bodies[b].dev == dev && bodies[b].sector == sector {
          GetHit(bodies, ring, dev, sector);
          if !bodies[b].busy {
            bodies := bodies[b := bodies[b].(busy := true)];
            return Got(b);
          }
          return Busy(b);
        }
        LinkAt(prev, next, ring, k + 1);
        b := next[b];
        k := k + 1;
      }
      InRing(ring, k + 1);
      CachedStep(bodies, ring, dev, sector, k);
      GetMiss(bodies, ring, dev, sector);
      r := Recycle(dev, sector);
    }

    // The second loop of bget.
    method Recycle(dev: int, sector: nat) returns (r: GetResult)
      requires Valid()
      modifies this`bodies
      ensures var v := Victim(old(bodies), ring, NBUF);
              && r == (if v < NBUF then Got(v) else NoBuffers)
              && bodies == if v >= NBUF then old(bodies)
                           else old(bodies)[v := Body(dev, sector, true, false, false, old(bodies)[v].data)]
    {
      hide Joined;
      LinkAt(prev, next, ring, |ring|);
      var b := prev[HEAD];
      ghost var k: nat := |ring|;
      while b != HEAD
        invariant Valid() && bodies == old(bodies) && k <= |ring| && b == At(ring, k)
        invariant Victim(bodies, ring, NBUF) == Victim(bodies, ring, k)
        decreases k
      {
        if !bodies[b].busy {
          bodies := bodies[b := Body(dev, sector, true, false, false, bodies[b].data)];
          return Got(b);
        }
        LinkAt(prev, next, ring, k - 1);
        b := prev[b];
        k := k - 1;
      }
      r := NoBuffers;
    }

    /** iderw by the holder of the buffer: one sector is written or read. */
    method Iderw(b: nat)
      requires Valid() && b < NBUF && bodies[b].busy && !(bodies[b].valid && !bodies[b].dirty)
      modifies this`bodies, this`disk
      ensures Valid() && disk == Transferred(old(bodies[b]), old(disk))
      ensures var body := old(bodies[b]);
              bodies == old(bodies)[b := body.(data := OnDisk(disk, Key(body)), valid := true, dirty := false)]
    {
      var body := bodies[b];
      if body.dirty {
        disk := disk[Key(body) := body.data];
      } else {
        bodies := bodies[b := bodies[b].(data := OnDisk(disk, Key(body)))];
      }
      bodies := bodies[b := bodies[b].(valid := true, dirty := false)];
    }

    /** bread, when the buffer can be had at once: the data is the sector's, or what the cache has for it. */
    method Bread(dev: int, sector: nat) returns (r: GetResult)
      requires Valid()
      requires forall b :: 0 <= b < NBUF && !bodies[b].busy ==> !bodies[b].dirty
      modifies this`bodies, this`disk
      ensures Valid() && r == Get(old(bodies), ring, dev, sector) && disk == old(disk)
      ensures r.Got? ==> r.b < NBUF && bodies[r.b].busy && bodies[r.b].valid && Key(bodies[r.b]) == (dev, sector)
      ensures r.Got? ==> bodies[r.b].data == (var was := old(bodies)[r.b];
                         if Key(was) == (dev, sector) && was.valid then was.data else OnDisk(disk, (dev, sector)))
      ensures forall b :: 0 <= b < NBUF && r != Got(b) ==> bodies[b] == old(bodies)[b]
    {
      r := Bget(dev, sector);
      if r.Got? && !bodies[r.b].valid {
        Iderw(r.b);
      }
    }

    /** bwrite: the holder's data goes to the disk. */
    method Bwrite(b: nat)
      requires Valid() && b < NBUF && bodies[b].busy
      modifies this`bodies, this`disk
      ensures Valid() && disk == old(disk)[Key(old(bodies[b])) := old(bodies[b].data)]
      ensures bodies == old(bodies)[b := old(bodies[b]).(valid := true, dirty := false)]
    {
      bodies := bodies[b := bodies[b].(dirty := true)];
      Iderw(b);
      assert bodies[b].data == old(bodies[b].data);
    }

    /** brelse: the buffer becomes free and moves to the front of the ring. */
    method Brelse(b: nat)
      requires Valid() && b < NBUF && bodies[b].busy
      modifies this`bodies, this`prev, this`next, this`ring
      ensures Valid() && ring == Fronted(old(ring), b)
      ensures bodies == old(bodies)[b := old(bodies[b]).(busy := false)]
    {
      ghost var k := Position(ring, b);
      Unlinks(prev, next, ring, k);
      var p, n := prev[b], next[b];
      prev := prev[n := p];
      next := next[p := n];
      ring := Without(ring, k);
      Inserts(prev, next, ring, b);
      next := next[b := next[HEAD]];
      prev := prev[b := HEAD];
      prev := prev[next[HEAD] := b];
      next := next[HEAD := b];
      ring := [b] + ring;
      bodies := bodies[b := bodies[b].(busy := false)];
    }
  }

  /** The place of a buffer in the ring. */
  ghost function Position(ring: seq<nat>, b: nat): (k: nat)
    requires Whole(ring) && b < NBUF
    ensures k < |ring| && ring[k] == b
  {
    WholeHasAll(ring, b);
    var k :| 0 <= k < |ring| && ring[k] == b;
    k
  }

  /** The ring with b moved to the front. */
  ghost function Fronted(ring: seq<nat>, b: nat): seq<nat>
    requires Whole(ring) && b < NBUF
  {
    [b] + Without(ring, Position(ring, b))
  }

  function Transferred(body: Body, disk: map<(int, nat), Block>): map<(int, nat), Block> {
    if body.dirty then disk[Key(body) := body.data] else disk
  }
}
