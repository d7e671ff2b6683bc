/** Vector clocks and conflict resolution. */
module Clock {
  import opened ByteStrings

  /** A short peer identifier: eight bytes. */
  type PeerId = p: Bytes | |p| == 8 witness [0, 0, 0, 0, 0, 0, 0, 0]

  const U64_MAX := 0xFFFF_FFFF_FFFF_FFFF

  type Counter = n: nat | n <= U64_MAX

  type Counters = map<PeerId, Counter>

  datatype Ordering = Before | After | Concurrent | Equal

  /** A missing key counts as zero. */
  function Get(c: Counters, p: PeerId): Counter {
    if p in c then c[p] else 0
  }

  /** The causal order: component-wise, missing keys being zero. */
  predicate Leq(a: Counters, b: Counters) {
    forall p :: p in a ==> a[p] <= Get(b, p)
  }

  function Max(a: Counter, b: Counter): Counter {
    if a >= b then a else b
  }

  function Ticked(c: Counters, p: PeerId): Counters
    requires Get(c, p) < U64_MAX
  {
    c[p := Get(c, p) + 1]
  }

  function Merged(a: Counters, b: Counters): Counters {
    map p | p in a.Keys + b.Keys :: Max(Get(a, p), Get(b, p))
  }

  function Compared(a: Counters, b: Counters): Ordering {
    if Leq(a, b) then (if Leq(b, a) then Equal else Before)
    else (if Leq(b, a) then After else Concurrent)
  }

  class VectorClock {
    var counters: Counters

    constructor (c: Counters)
      ensures counters == c
    {
      counters := c;
    }

    method Tick(peer: PeerId)
      requires Get(counters, peer) < U64_MAX
      modifies this
      ensures counters == Ticked(old(counters), peer)
    {
      if peer !in counters {
        counters := counters[peer := 0];
      }
      counters := counters[peer := counters[peer] + 1];
    }

    method Merge(other: Counters)
      modifies this
      ensures counters == Merged(old(counters), other)
    {
      var todo := other.Keys;
      ghost var done: set<PeerId> := {};
      while todo != {}
        invariant done + todo == other.Keys
        invariant MergedSoFar(old(counters), other, done, counters)
        decreases |todo|
      {
        var peer :| peer in todo;
        MergeStep(old(counters), other, done, todo, counters, peer);
        var entry := if peer in counters then counters[peer] else 0;
        counters := counters[peer := Max(entry, other[peer])];
        todo, done := todo - {peer}, done + {peer};
      }
      MergeDone(old(counters), other, counters);
    }

    /** The loop stops as soon as both directions have been seen; its answer is the causal order. */
    method Compare(other: Counters) returns (o: Ordering)
      ensures o == Compared(counters, other)
    {
      var todo := counters.Keys + other.Keys;
      ghost var seen: set<PeerId> := {};
      var hasLess, hasGreater := false, false;
      while todo != {}
        invariant seen + todo == counters.Keys + other.Keys
        invariant hasLess <==> LessSomewhere(counters, other, seen)
        invariant hasGreater <==> LessSomewhere(other, counters, seen)
        invariant !(hasLess && hasGreater)
        decreases |todo|
      {
        var key :| key in todo;
        var a, b := Get(counters, key), Get(other, key);
        if a < b {
          hasLess := true;
        }
        if a > b {
          hasGreater := true;
        }
        LessSomewhereStep(counters, other, seen, key);
        LessSomewhereStep(other, counters, seen, key);
        todo, seen := todo - {key}, seen + {key};
        if hasLess && hasGreater {
          NotLeqIff(counters, other, seen);
          NotLeqIff(other, counters, seen);
          return Concurrent;
        }
      }
      NotLeqIff(counters, other, seen);
      NotLeqIff(other, counters, seen);
      o := if hasLess then Before else if hasGreater then After else Equal;
    }
  }

  /** `cur` is `base` with the entries of `other` at `done` merged in. */
  ghost predicate MergedSoFar(base: Counters, other: Counters, done: set<PeerId>, cur: Counters) {
    && cur.Keys == base.Keys + done
    && forall p :: p in cur ==>
      cur[p] == if p in done then Max(Get(base, p), Get(other, p)) else Get(base, p)
  }

  lemma MergeStep(base: Counters, other: Counters, done: set<PeerId>, todo: set<PeerId>, cur: Counters, key: PeerId)
    requires MergedSoFar(base, other, done, cur) && key in todo
    ensures (done + {key}) + (todo - {key}) == done + todo
    ensures MergedSoFar(base, other, done + {key}, cur[key := Max(Get(cur, key), Get(other, key))])
  {
  }

  lemma MergeDone(base: Counters, other: Counters, cur: Counters)
    requires MergedSoFar(base, other, other.Keys, cur)
    ensures cur == Merged(base, other)
  {
  }

  ghost predicate LessSomewhere(a: Counters, b: Counters, s: set<PeerId>) {
    exists p :: p in s && Get(a, p) < Get(b, p)
  }

  lemma LessSomewhereStep(a: Counters, b: Counters, s: set<PeerId>, key: PeerId)
    ensures LessSomewhere(a, b, s + {key}) <==> LessSomewhere(a, b, s) || Get(a, key) < Get(b, key)
  {
    if LessSomewhere(a, b, s) {
      var p :| p in s && Get(a, p) < Get(b, p);
      assert p in s + {key};
    }
    assert key in s + {key};
  }

  lemma NotLeqIff(a: Counters, b: Counters, s: set<PeerId>)
    ensures LessSomewhere(a, b, s) ==> !Leq(b, a)
    ensures b.Keys <= s && !LessSomewhere(a, b, s) ==> Leq(b, a)
  {
  }

  /** What the index remembers about a file besides its data. */
  datatype FileMeta = FileMeta(clock: Counters, modified: nat, modifiedBy: PeerId)

  // ---- The lattice ----

  lemma LeqPointwise(a: Counters, b: Counters)
    ensures Leq(a, b) <==> forall p: PeerId :: Get(a, p) <= Get(b, p)
  {
    assert forall p: PeerId :: p in a ==> Get(a, p) == a[p];
  }

  lemma LeqTransitive(a: Counters, b: Counters, c: Counters)
    requires Leq(a, b) && Leq(b, c)
    ensures Leq(a, c)
  {
    LeqPointwise(b, c);
  }

  /** Merging gives the least clock above both. */
  lemma MergeIsLeastUpperBound(a: Counters, b: Counters, c: Counters)
    ensures Leq(a, Merged(a, b)) && Leq(b, Merged(a, b))
    ensures Leq(a, c) && Leq(b, c) <==> Leq(Merged(a, b), c)
  {
    LeqPointwise(a, c);
    LeqPointwise(b, c);
    LeqPointwise(Merged(a, b), c);
    assert forall p: PeerId :: Get(Merged(a, b), p) == Max(Get(a, p), Get(b, p));
  }

  lemma MergeCommutative(a: Counters, b: Counters)
    ensures Merged(a, b) == Merged(b, a)
    ensures Merged(a, a) == a
  {
    var m, n := Merged(a, b), Merged(b, a);
    assert m.Keys == n.Keys;
    assert forall p :: p in m ==> m[p] == n[p];
  }

  lemma MergedGet(a: Counters, b: Counters, p: PeerId)
    ensures Get(Merged(a, b), p) == Max(Get(a, p), Get(b, p))
  {
  }

  lemma MergeAssociative(a: Counters, b: Counters, c: Counters)
    ensures Merged(Merged(a, b), c) == Merged(a, Merged(b, c))
  {
    var m, n := Merged(Merged(a, b), c), Merged(a, Merged(b, c));
    assert m.Keys == n.Keys;
    forall p | p in m
      ensures m[p] == n[p]
    {
      MergedGet(a, b, p);
      MergedGet(b, c, p);
    }
  }

  lemma TickStrictlyAbove(c: Counters, p: PeerId)
    requires Get(c, p) < U64_MAX
    ensures Compared(c, Ticked(c, p)) == Before
  {
    assert Get(Ticked(c, p), p) == Get(c, p) + 1;
    assert p in Ticked(c, p);
  }

  /** Adopting a later version leaves the local clock equal to the remote one. */
  lemma MergeAfterBefore(a: Counters, b: Counters)
    requires Compared(a, b) == Before
    ensures Compared(Merged(a, b), b) == Equal
  {
    MergeIsLeastUpperBound(a, b, b);
  }

  // ---- Resolution ----

  datatype Resolution = Accept | Reject | Conflict(loser: PeerId)

  function Resolve(local: Counters, remote: Counters, localTime: nat, remoteTime: nat,
                   remotePeer: PeerId, localPeer: PeerId): Resolution
  {
    match Compared(local, remote)
    case Before => Accept
    case After => Reject
    case Equal => Reject
    case Concurrent =>
      if remoteTime > localTime || (remoteTime == localTime && Less(localPeer, remotePeer))
      then Conflict(localPeer)
      else Conflict(remotePeer)
  }

  /** The incoming version replaces the local one at its own path. */
  predicate Adopts(r: Resolution, localPeer: PeerId) {
    r == Accept || r == Conflict(localPeer)
  }

  /** Two peers that see each other's concurrent versions name the same loser, ties included. */
  lemma ResolveSymmetric(a: Counters, b: Counters, timeA: nat, timeB: nat, peerA: PeerId, peerB: PeerId)
    requires Compared(a, b) == Concurrent && peerA != peerB
    ensures Resolve(a, b, timeA, timeB, peerB, peerA).Conflict?
    ensures Resolve(a, b, timeA, timeB, peerB, peerA) == Resolve(b, a, timeB, timeA, peerA, peerB)
  {
    LessTotal(peerA, peerB);
    if Less(peerA, peerB) {
      LessAsymmetric(peerA, peerB);
    } else {
      LessAsymmetric(peerB, peerA);
    }
  }

  /** Concurrent versions stamped alike: the peer whose identifier has the smaller byte at the first place
      where the two differ loses. */
  lemma TieBreak(local: Counters, remote: Counters, time: nat, remotePeer: PeerId, localPeer: PeerId)
    requires Compared(local, remote) == Concurrent && remotePeer != localPeer
    ensures Resolve(local, remote, time, time, remotePeer, localPeer) == Conflict(localPeer) <==>
      exists i: nat :: i < 8 && localPeer[..i] == remotePeer[..i] && localPeer[i] < remotePeer[i]
    ensures Resolve(local, remote, time, time, remotePeer, localPeer) == Conflict(remotePeer) <==>
      exists i: nat :: i < 8 && localPeer[..i] == remotePeer[..i] && remotePeer[i] < localPeer[i]
  {
    LessTotal(localPeer, remotePeer);
    SameLengthLess(localPeer, remotePeer);
    SameLengthLess(remotePeer, localPeer);
    if Less(localPeer, remotePeer) {
      LessAsymmetric(localPeer, remotePeer);
    }
  }

  lemma SameLengthLess(a: PeerId, b: PeerId)
    ensures Less(a, b) <==> exists i: nat :: i < 8 && a[..i] == b[..i] && a[i] < b[i]
  {
    LessIff(a, b);
    if Less(a, b) {
      var i :| LessAt(a, b, i);
      assert i < 8;
    }
    if i: nat :| i < 8 && a[..i] == b[..i] && a[i] < b[i] {
      assert LessAt(a, b, i);
    }
  }
}
