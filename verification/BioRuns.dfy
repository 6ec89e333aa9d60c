/** The buffer cache shared by processes that hold and release buffers in any order (p2b/kernel/bio.c:8-23). */
module BioRuns {
  import opened FsBlock
  import opened Bio

  /** `holder` says which process holds a busy buffer, `changed` which buffers differ from what was last read or
      written, `stamp` when a buffer was last released. */
  datatype State = State(bodies: seq<Body>, ring: seq<nat>, disk: map<(int, nat), Block>,
                         holder: map<nat, nat>, changed: set<nat>, stamp: seq<nat>, now: nat)

  /** bget, the read of bread, a change of the data, bwrite, brelse. */
  datatype Action =
    | Acquire(p: nat, dev: int, sector: nat)
    | Fill(p: nat, b: nat)
    | Change(p: nat, b: nat, data: Block)
    | WriteBack(p: nat, b: nat)
    | Release(p: nat, b: nat)

  ghost predicate Holds(s: State, p: nat, b: nat) {
    b < NBUF && b in s.holder && s.holder[b] == p
  }

  ghost predicate Shaped(s: State) {
    |s.bodies| == NBUF && Whole(s.ring) && |s.stamp| == NBUF
  }

  ghost predicate Step(s: State, a: Action, t: State)
    requires Shaped(s)
  {
    match a
    case Acquire(p, dev, sector) =>
      && dev != NODEV
      && var r := Get(s.bodies, s.ring, dev, sector);
         t == if !r.Got? then s else
              s.(bodies := s.bodies[r.b := Taken(s.bodies[r.b], dev, sector)], holder := s.holder[r.b := p])
    case Fill(p, b) =>
      && Holds(s, p, b) && !s.bodies[b].valid
      && t == s.(bodies := s.bodies[b := s.bodies[b].(data := OnDisk(s.disk, Key(s.bodies[b])), valid := true)])
    case Change(p, b, data) =>
      && Holds(s, p, b) && s.bodies[b].valid
      && t == s.(bodies := s.bodies[b := s.bodies[b].(data := data)], changed := s.changed + {b})
    case WriteBack(p, b) =>
      && Holds(s, p, b) && s.bodies[b].valid
      && t == s.(disk := s.disk[Key(s.bodies[b]) := s.bodies[b].data], changed := s.changed - {b})
    case Release(p, b) =>
      // Clients write what they changed before they release it.
      && Holds(s, p, b) && s.bodies[b].valid && b !in s.changed
      && t == s.(bodies := s.bodies[b := s.bodies[b].(busy := false)], ring := Fronted(s.ring, b),
                 holder := s.holder - {b}, stamp := s.stamp[b := s.now], now := s.now + 1)
  }

  // ------------------------------------------------------------------ the invariant

  /** No two buffers cache the same sector. */
  ghost predicate UniqueKeys(bodies: seq<Body>) {
    forall b, c :: 0 <= b < |bodies| && 0 <= c < |bodies| && b != c && bodies[b].dev != NODEV ==>
        Key(bodies[b]) != Key(bodies[c])
  }

  /** The ring runs from the latest release to the earliest. */
  ghost predicate Ordered(ring: seq<nat>, stamp: seq<nat>, now: nat)
    requires Distinct(ring) && |stamp| == NBUF
  {
    && (forall b :: 0 <= b < |stamp| ==> stamp[b] < now)
    && forall i, j :: 0 <= i < j < |ring| ==> stamp[ring[i]] > stamp[ring[j]]
  }

  /** A busy buffer has one holder, a free one none; an identity is given before a buffer is used. */
  ghost predicate HoldersOk(s: State)
    requires Shaped(s)
  {
    && (forall b :: 0 <= b < NBUF ==> (s.bodies[b].busy <==> b in s.holder) && !s.bodies[b].dirty)
    && (forall b :: 0 <= b < NBUF && (s.bodies[b].busy || s.bodies[b].valid) ==> s.bodies[b].dev != NODEV)
    && s.changed <= s.holder.Keys
  }

  /** A valid buffer that nobody has changed holds what is on the disk. */
  ghost predicate Agrees(s: State)
    requires Shaped(s)
  {
    forall b :: 0 <= b < NBUF && s.bodies[b].valid && b !in s.changed ==>
        s.bodies[b].data == OnDisk(s.disk, Key(s.bodies[b]))
  }

  ghost predicate Sound(s: State) {
    Shaped(s) && UniqueKeys(s.bodies) && Ordered(s.ring, s.stamp, s.now) && HoldersOk(s) && Agrees(s)
  }

  /** binit */
  function Initial(disk: map<(int, nat), Block>): State {
    State(seq(NBUF, _ => Body(NODEV, 0, false, false, false, ZERO_BLOCK)), InitialRing(), disk,
          map[], {}, seq(NBUF, (b: nat) => b), NBUF)
  }

  lemma InitialSound(disk: map<(int, nat), Block>)
    ensures Sound(Initial(disk))
  {
  }

  // ------------------------------------------------------------------ every action keeps it

  /** What bget returns: a buffer of the ring that nobody holds, and that alone caches the sector or none does. */
  lemma {:induction false} GetMeaning(s: State, dev: int, sector: nat)
    requires Sound(s)
    ensures var r := Get(s.bodies, s.ring, dev, sector);
            && (r.Got? ==> !s.bodies[r.b].busy && r.b !in s.holder)
            && (r.Got? && Key(s.bodies[r.b]) != (dev, sector) ==>
                  forall c :: 0 <= c < NBUF ==> Key(s.bodies[c]) != (dev, sector))
            && (r.Busy? ==> s.bodies[r.b].busy && Key(s.bodies[r.b]) == (dev, sector))
            && (r.NoBuffers? ==> forall c :: 0 <= c < NBUF ==> s.bodies[c].busy)
  {
    if Cached(s.bodies, s.ring, dev, sector, 0) >= NBUF {
      forall c: nat | c < NBUF ensures Key(s.bodies[c]) != (dev, sector) {
        assert s.ring[Position(s.ring, c)] == c;
      }
      if Victim(s.bodies, s.ring, NBUF) >= NBUF {
        forall c: nat | c < NBUF ensures s.bodies[c].busy {
          assert s.ring[Position(s.ring, c)] == c;
        }
      }
    }
  }

  lemma {:induction false} AcquireSound(s: State, p: nat, dev: int, sector: nat, t: State)
    requires Sound(s) && Step(s, Acquire(p, dev, sector), t)
    ensures Sound(t)
  {
    hide Get, Ordered, Whole;
    GetMeaning(s, dev, sector);
  }

  lemma {:induction false} FillSound(s: State, p: nat, b: nat, t: State)
    requires Sound(s) && Step(s, Fill(p, b), t)
    ensures Sound(t)
  {
    hide Ordered, Whole;
  }

  lemma {:induction false} ChangeSound(s: State, p: nat, b: nat, data: Block, t: State)
    requires Sound(s) && Step(s, Change(p, b, data), t)
    ensures Sound(t)
  {
    hide Ordered, Whole;
  }

  /** Writing a sector changes it under no other buffer, because no other buffer caches it. */
  lemma {:induction false} WriteBackSound(s: State, p: nat, b: nat, t: State)
    requires Sound(s) && Step(s, WriteBack(p, b), t)
    ensures Sound(t)
  {
    hide Ordered, Whole;
  }

  lemma {:induction false} ReleaseSound(s: State, p: nat, b: nat, t: State)
    requires Sound(s) && Step(s, Release(p, b), t)
    ensures Sound(t)
  {
    FrontedOrdered(s.ring, b, s.stamp, s.now);
    hide Ordered, Whole, Fronted;
  }

  lemma FrontedOrdered(ring: seq<nat>, b: nat, stamp: seq<nat>, now: nat)
    requires Whole(ring) && b < NBUF == |stamp| && Ordered(ring, stamp, now)
    ensures Whole(Fronted(ring, b)) && Ordered(Fronted(ring, b), stamp[b := now], now + 1)
  {
    var k, f, stamp' := Position(ring, b), Fronted(ring, b), stamp[b := now];
    hide Whole, Ordered;
    FrontedWhole(ring, b);
    forall i, j | 0 <= i < j < |f| ensures stamp'[f[i]] > stamp'[f[j]] {
      FrontedPair(ring, k, stamp, now, b, f, i, j);
    }
    OrderedIntro(f, stamp', now + 1, stamp, now, b, ring);
  }

  lemma FrontedWhole(ring: seq<nat>, b: nat)
    requires Whole(ring) && b < NBUF
    ensures Whole(Fronted(ring, b)) && forall i :: 0 <= i < NBUF ==> Fronted(ring, b)[i] < NBUF
  {
    var k := Position(ring, b);
    var r := Without(ring, k);
    assert forall i :: 0 <= i < |r| ==> r[i] == (if i < k then ring[i] else ring[i + 1]) && r[i] != b;
  }

  lemma FrontedPair(ring: seq<nat>, k: nat, stamp: seq<nat>, now: nat, b: nat, f: seq<nat>, i: nat, j: nat)
    requires Whole(ring) && b < NBUF == |stamp| && Ordered(ring, stamp, now)
    requires k < |ring| && ring[k] == b && f == [b] + Without(ring, k) && i < j < |f|
    ensures f[i] < NBUF && f[j] < NBUF && stamp[b := now][f[i]] > stamp[b := now][f[j]]
  {
    var y := if j - 1 < k then j - 1 else j;
    assert f[j] == ring[y] && ring[y] != b && stamp[ring[y]] < now;
    if i > 0 {
      var x := if i - 1 < k then i - 1 else i;
      assert f[i] == ring[x] && ring[x] != b;
    }
  }

  lemma OrderedIntro(f: seq<nat>, stamp': seq<nat>, now': nat, stamp: seq<nat>, now: nat, b: nat, ring: seq<nat>)
    requires Whole(f) && Whole(ring) && |stamp| == NBUF && Ordered(ring, stamp, now) && b < NBUF
    requires stamp' == stamp[b := now] && now' == now + 1
    requires forall i :: 0 <= i < |f| ==> f[i] < NBUF
    requires forall i, j :: 0 <= i < j < |f| ==> stamp'[f[i]] > stamp'[f[j]]
    ensures Ordered(f, stamp', now')
  {
  }

  lemma {:induction false} StepSound(s: State, a: Action, t: State)
    requires Sound(s) && Step(s, a, t)
    ensures Sound(t)
  {
    hide Sound, Step;
    match a
    case Acquire(p, dev, sector) => AcquireSound(s, p, dev, sector, t);
    case Fill(p, b) => FillSound(s, p, b, t);
    case Change(p, b, data) => ChangeSound(s, p, b, data, t);
    case WriteBack(p, b) => WriteBackSound(s, p, b, t);
    case Release(p, b) => ReleaseSound(s, p, b, t);
  }

  ghost predicate Run(ss: seq<State>, acts: seq<Action>) {
    |ss| == |acts| + 1 && forall i :: 0 <= i < |acts| ==> Shaped(ss[i]) && Step(ss[i], acts[i], ss[i + 1])
  }

  /** In every run from binit the invariant holds throughout. */
  lemma {:induction false} RunSound(ss: seq<State>, acts: seq<Action>, disk: map<(int, nat), Block>, n: nat)
    requires Run(ss, acts) && ss[0] == Initial(disk) && n <= |acts|
    ensures Sound(ss[n])
  {
    if n == 0 {
      InitialSound(disk);
    } else {
      RunSound(ss, acts, disk, n - 1);
      assert Step(ss[n - 1], acts[n - 1], ss[n - 1 + 1]);
      StepSound(ss[n - 1], acts[n - 1], ss[n]);
    }
  }

  // ------------------------------------------------------------------ what it means

  /** The buffer that a miss recycles was released before every other free buffer. */
  lemma {:induction false} VictimIsOldest(s: State, dev: int, sector: nat, c: nat)
    requires Sound(s) && Cached(s.bodies, s.ring, dev, sector, 0) == NBUF
    requires Get(s.bodies, s.ring, dev, sector).Got? && c < NBUF && !s.bodies[c].busy
    ensures var v := Get(s.bodies, s.ring, dev, sector).b; c != v ==> s.stamp[v] < s.stamp[c]
  {
    var k := Position(s.ring, c);
    VictimIsLast(s.bodies, s.ring, NBUF, k);
    var v := Victim(s.bodies, s.ring, NBUF);
    var j := Position(s.ring, v);
  }

  lemma {:induction false} VictimIsLast(bodies: seq<Body>, ring: seq<nat>, n: nat, k: nat)
    requires |bodies| == NBUF && Distinct(ring) && k < n <= |ring| && !bodies[ring[k]].busy
    ensures var v := Victim(bodies, ring, n);
            v < NBUF && exists j :: k <= j < n && ring[j] == v
  {
    if bodies[ring[n - 1]].busy {
      VictimIsLast(bodies, ring, n - 1, k);
    }
  }

  /** A free buffer that is valid equals its sector. */
  lemma FreeEqualsDisk(s: State, b: nat)
    requires Sound(s) && b < NBUF && !s.bodies[b].busy && s.bodies[b].valid
    ensures s.bodies[b].data == OnDisk(s.disk, Key(s.bodies[b]))
  {
    assert b !in s.holder;
  }

  /** bread gives its caller the sector as it is on the disk, from the cache or not. */
  lemma {:induction false} BreadReadsDisk(s: State, p: nat, dev: int, sector: nat, t: State, u: State)
    requires Sound(s) && Step(s, Acquire(p, dev, sector), t) && Get(s.bodies, s.ring, dev, sector).Got?
    requires var b := Get(s.bodies, s.ring, dev, sector).b;
             Shaped(t) && if t.bodies[b].valid then u == t else Step(t, Fill(p, b), u)
    ensures var b := Get(s.bodies, s.ring, dev, sector).b;
            Shaped(u) && Holds(u, p, b) && u.bodies[b].valid && u.bodies[b].data == OnDisk(s.disk, (dev, sector))
  {
    GetMeaning(s, dev, sector);
    hide Get;
  }
}
