/** Order-independent convergence of the file-change protocol, fetches taking their time. */
module Convergence {
  import opened ByteStrings
  import opened Clock
  import opened Gossip

  /** A version may replace the one held: nothing has been seen yet, or nothing newer is held. */
  predicate MayReplace(l: Local, n: Note) {
    l.seen == {} || TimeOf(l) <= n.timestamp
  }

  /** Nobody stamps an edit earlier than the version it replaces, and no fetch completes after
      something newer has come to be held. */
  predicate OnTime(s: System, step: Step)
    requires Allowed(s, step)
  {
    match step
    case Edit(p, now) => now >= TimeOf(s.peers[p])
    case Apply(p, n) => MayReplace(s.peers[p], n)
    case Decide(_, _) => true
    case Deliver(_, _) => true
  }

  ghost predicate IsTimedRun(s: System, steps: seq<Step>)
    decreases steps
  {
    steps == [] || (Allowed(s, steps[0]) && OnTime(s, steps[0]) && IsTimedRun(Next(s, steps[0]), steps[1..]))
  }

  lemma {:induction false} TimedIsRun(s: System, steps: seq<Step>)
    requires IsTimedRun(s, steps)
    ensures IsRun(s, steps)
    decreases steps
  {
    if steps != [] {
      TimedIsRun(Next(s, steps[0]), steps[1..]);
    }
  }

  /** The edit that made the version. */
  function EditOf(n: Note): Event {
    Event(n.peer, Get(n.clock, n.peer))
  }

  /** A history that contains a version's edit contains the version's history and is not older. */
  ghost predicate Includes(h: set<Event>, time: nat, m: Note) {
    EditOf(m) in h ==> m.history <= h && m.timestamp <= time
  }

  ghost predicate NoteTimed(sent: set<Note>, n: Note) {
    && EditOf(n) in n.history
    && forall m :: m in sent ==> Includes(n.history, n.timestamp, m)
  }

  /** The peer holds version `n`, and has seen none with a greater timestamp. */
  ghost predicate Holds(l: Local, n: Note) {
    && n in l.seen && EditOf(n) in l.history
    && l.meta.Some? && l.meta.value.modified == n.timestamp && l.meta.value.modifiedBy == n.peer
    && forall m :: m in l.seen ==> m.timestamp <= n.timestamp
  }

  ghost predicate LocalTimed(sent: set<Note>, l: Local) {
    && l.seen <= sent
    && (l.seen == {} ==> l.history == {})
    && (l.seen != {} ==> exists n :: Holds(l, n))
    && forall m :: m in sent ==> Includes(l.history, TimeOf(l), m)
  }

  ghost predicate Chronological(s: System) {
    && Causal(s)
    && (forall n :: n in s.sent ==> NoteTimed(s.sent, n))
    && (forall p :: p in s.peers ==> LocalTimed(s.sent, s.peers[p]))
  }

  // ---- Edits ----

  lemma FreshEdit(s: System, p: PeerId)
    requires Causal(s) && p in s.peers
    ensures var e := Event(p, s.peers[p].edits + 1);
      && (forall n :: n in s.sent ==> e !in n.history)
      && (forall q :: q in s.peers ==> e !in s.peers[q].history)
  {
    var e := Event(p, s.peers[p].edits + 1);
    forall n | n in s.sent
      ensures e !in n.history
    {
      assert NoteOk(s, n);
    }
    forall q | q in s.peers
      ensures e !in s.peers[q].history
    {
      assert LocalOk(s, q);
    }
  }

  lemma EditedTimed(s: System, p: PeerId, now: nat)
    requires Chronological(s) && Allowed(s, Edit(p, now)) && OnTime(s, Edit(p, now))
    ensures var s' := Next(s, Edit(p, now));
      var a := Announcement(p, s'.peers[p]);
      && EditOf(a) == Event(p, s.peers[p].edits + 1)
      && NoteTimed(s'.sent, a)
      && LocalTimed(s'.sent, s'.peers[p])
  {
    var l, s' := s.peers[p], Next(s, Edit(p, now));
    var l' := s'.peers[p];
    var a := Announcement(p, l');
    assert LocalOk(s, p) && LocalTimed(s.sent, l);
    FreshEdit(s, p);
    forall m | m in s'.sent
      ensures Includes(a.history, a.timestamp, m)
    {
      if m in s.sent {
        assert NoteTimed(s.sent, m);
        assert Includes(l.history, TimeOf(l), m);
      }
    }
    assert Holds(l', a) by {
      forall m | m in l'.seen
        ensures m.timestamp <= now
      {
        if m in l.seen {
          var n :| Holds(l, n);
        }
      }
    }
  }

  /** A new announcement does not disturb histories that do not contain its edit. */
  lemma OthersTimed(sent: set<Note>, a: Note)
    ensures forall n :: NoteTimed(sent, n) && EditOf(a) !in n.history ==> NoteTimed(sent + {a}, n)
    ensures forall l :: LocalTimed(sent, l) && EditOf(a) !in l.history ==> LocalTimed(sent + {a}, l)
  {
    forall n | NoteTimed(sent, n) && EditOf(a) !in n.history
      ensures NoteTimed(sent + {a}, n)
    {
    }
    forall l | LocalTimed(sent, l) && EditOf(a) !in l.history
      ensures LocalTimed(sent + {a}, l)
    {
    }
  }

  lemma EditTimed(s: System, p: PeerId, now: nat)
    requires Chronological(s) && Allowed(s, Edit(p, now)) && OnTime(s, Edit(p, now))
    ensures Chronological(Next(s, Edit(p, now)))
  {
    var s' := Next(s, Edit(p, now));
    var a := Announcement(p, s'.peers[p]);
    StepCausal(s, Edit(p, now));
    EditedTimed(s, p, now);
    FreshEdit(s, p);
    OthersTimed(s.sent, a);
    forall n | n in s'.sent
      ensures NoteTimed(s'.sent, n)
    {
    }
    forall q | q in s'.peers
      ensures LocalTimed(s'.sent, s'.peers[q])
    {
    }
  }

  // ---- Deliveries ----

  /** The comparison behind a decision is inclusion of histories. */
  lemma HistoriesDecide(s: System, p: PeerId, n: Note)
    requires Causal(s) && p in s.peers && n in s.sent
    ensures Compared(ClockOf(s.peers[p]), n.clock) == HistoryOrder(s.peers[p].history, n.history)
  {
    var l := s.peers[p];
    assert LocalOk(s, p) && NoteOk(s, n);
    LeqIffIncluded(ClockOf(l), l.history, n.clock, n.history);
    LeqIffIncluded(n.clock, n.history, ClockOf(l), l.history);
  }

  /** What the decision says about the timestamps and histories on both sides. */
  lemma DecisionTimes(s: System, p: PeerId, n: Note)
    requires Chronological(s) && Allowed(s, Deliver(p, n))
    ensures var l := s.peers[p];
      var adopts := Adopts(Decision(p, l, n), p);
      && (adopts && l.seen != {} ==> TimeOf(l) <= n.timestamp)
      && (!adopts ==> l.seen != {} && n.timestamp <= TimeOf(l))
  {
    var l := s.peers[p];
    HistoriesDecide(s, p, n);
    assert LocalTimed(s.sent, l) && NoteTimed(s.sent, n);
    assert Includes(l.history, TimeOf(l), n);
    if l.seen != {} {
      var k :| Holds(l, k);
      assert Includes(n.history, n.timestamp, k);
    }
  }

  lemma DeliverTimed(s: System, p: PeerId, n: Note)
    requires Chronological(s) && Allowed(s, Deliver(p, n))
    ensures Chronological(Next(s, Deliver(p, n)))
  {
    StepCausal(s, Deliver(p, n));
    DeliveredTimed(s, p, n);
  }

  lemma DeliveredTimed(s: System, p: PeerId, n: Note)
    requires Chronological(s) && Allowed(s, Deliver(p, n))
    ensures LocalTimed(s.sent, Delivered(p, s.peers[p], n))
  {
    DecisionTimes(s, p, n);
    assert LocalTimed(s.sent, s.peers[p]) && NoteTimed(s.sent, n);
    if Adopts(Decision(p, s.peers[p], n), p) {
      AdoptedTimed(s.sent, s.peers[p], n);
    } else {
      KeptTimed(s.sent, s.peers[p], n);
    }
  }

  lemma AdoptedTimed(sent: set<Note>, l: Local, n: Note)
    requires LocalTimed(sent, l) && n in sent && NoteTimed(sent, n)
    requires l.seen != {} ==> TimeOf(l) <= n.timestamp
    ensures LocalTimed(sent, Adopted(l, n))
  {
    var l' := Adopted(l, n);
    forall m | m in sent
      ensures Includes(l'.history, TimeOf(l'), m)
    {
      assert Includes(l.history, TimeOf(l), m) && Includes(n.history, n.timestamp, m);
    }
    if l.seen != {} {
      var k :| Holds(l, k);
    }
    assert Holds(l', n);
  }

  lemma KeptTimed(sent: set<Note>, l: Local, n: Note)
    requires LocalTimed(sent, l) && n in sent && l.seen != {} && n.timestamp <= TimeOf(l)
    ensures LocalTimed(sent, l.(seen := l.seen + {n}))
  {
    var k :| Holds(l, k);
    assert Holds(l.(seen := l.seen + {n}), k);
  }

  lemma DecideTimed(s: System, p: PeerId, n: Note)
    requires Chronological(s) && Allowed(s, Decide(p, n))
    ensures Chronological(Next(s, Decide(p, n)))
  {
    if Adopts(Decision(p, s.peers[p], n), p) {
      StepCausal(s, Decide(p, n));
    } else {
      DeliverTimed(s, p, n);
    }
  }

  lemma ApplyTimed(s: System, p: PeerId, n: Note)
    requires Chronological(s) && Allowed(s, Apply(p, n)) && MayReplace(s.peers[p], n)
    ensures Chronological(Next(s, Apply(p, n)))
  {
    StepCausal(s, Apply(p, n));
    assert n in s.sent by {
      assert (p, n).1 in s.sent;
    }
    assert LocalTimed(s.sent, s.peers[p]) && NoteTimed(s.sent, n);
    AdoptedTimed(s.sent, s.peers[p], n);
  }

  /** Completing a fetch leaves the peer with a version of the greatest timestamp it has seen if and
      only if nothing newer has come to be held since the decision. */
  lemma ApplyKeepsGreatestIff(s: System, p: PeerId, n: Note)
    requires Chronological(s) && Allowed(s, Apply(p, n))
    ensures (exists k :: Holds(Next(s, Apply(p, n)).peers[p], k)) <==> MayReplace(s.peers[p], n)
  {
    var l := s.peers[p];
    var l' := Next(s, Apply(p, n)).peers[p];
    assert LocalTimed(s.sent, l);
    if MayReplace(l, n) {
      ApplyTimed(s, p, n);
      assert LocalTimed(s.sent, l');
    }
    if k :| Holds(l', k) {
      if l.seen != {} {
        var j :| Holds(l, j);
        assert j in l'.seen;
      }
    }
  }

  /** An edit leaves the peer with a version of the greatest timestamp it has seen if and only if it is
      not stamped earlier than the version it replaces. */
  lemma EditKeepsGreatestIff(s: System, p: PeerId, now: nat)
    requires Chronological(s) && Allowed(s, Edit(p, now))
    ensures (exists k :: Holds(Next(s, Edit(p, now)).peers[p], k)) <==>
      s.peers[p].seen == {} || now >= TimeOf(s.peers[p])
  {
    var l, l' := s.peers[p], Edited(p, s.peers[p], now);
    assert Next(s, Edit(p, now)).peers[p] == l';
    assert LocalTimed(s.sent, l) && LocalOk(s, p);
    if l.seen == {} {
      assert Holds(l', Announcement(p, l'));
    } else {
      var j :| Holds(l, j);
      if now >= TimeOf(l) {
        assert Holds(l', Announcement(p, l'));
      } else {
        assert j in l'.seen;
      }
    }
  }

  lemma StepTimed(s: System, step: Step)
    requires Chronological(s) && Allowed(s, step) && OnTime(s, step)
    ensures Chronological(Next(s, step))
  {
    match step
    case Edit(p, now) => EditTimed(s, p, now);
    case Deliver(p, n) => DeliverTimed(s, p, n);
    case Decide(p, n) => DecideTimed(s, p, n);
    case Apply(p, n) => ApplyTimed(s, p, n);
  }

  lemma {:induction false} RunTimed(s: System, steps: seq<Step>)
    requires Chronological(s) && IsTimedRun(s, steps)
    ensures IsRun(s, steps) && Chronological(Run(s, steps))
    decreases steps
  {
    TimedIsRun(s, steps);
    if steps != [] {
      StepTimed(s, steps[0]);
      RunTimed(Next(s, steps[0]), steps[1..]);
    }
  }

  lemma InitialTimed(s: System)
    requires Initial(s)
    ensures Chronological(s)
  {
    InitialCausal(s);
  }

  // ---- Convergence ----

  /** After any edits, deliveries, decisions and completed fetches, in any order and with repeats, a
      peer holds a version of the greatest timestamp among those it has made or been delivered. */
  lemma HoldsGreatest(s: System, steps: seq<Step>, p: PeerId) returns (n: Note)
    requires Initial(s) && IsTimedRun(s, steps)
    requires IsRun(s, steps) && p in Run(s, steps).peers && Run(s, steps).peers[p].seen != {}
    ensures Holds(Run(s, steps).peers[p], n)
  {
    InitialTimed(s);
    RunTimed(s, steps);
    var t := Run(s, steps);
    assert LocalTimed(t.sent, t.peers[p]);
    n :| Holds(t.peers[p], n);
  }

  /** The versions of greatest timestamp in `seen` all have one author. */
  ghost predicate OneGreatestAuthor(seen: set<Note>) {
    forall m, n :: m in seen && n in seen && m.peer != n.peer ==>
      exists k :: k in seen && (k.timestamp > m.timestamp || k.timestamp > n.timestamp)
  }

  /** Peers that have seen the same versions agree on time and author, whatever the order they
      saw them in, unless two authors tie for the greatest timestamp. */
  lemma SameSeenAgree(s: System, steps: seq<Step>, p: PeerId, q: PeerId)
    requires Initial(s) && IsTimedRun(s, steps) && IsRun(s, steps)
    requires p in Run(s, steps).peers && q in Run(s, steps).peers
    requires Run(s, steps).peers[p].seen == Run(s, steps).peers[q].seen != {}
    requires OneGreatestAuthor(Run(s, steps).peers[p].seen)
    ensures var a, b := Run(s, steps).peers[p].meta, Run(s, steps).peers[q].meta;
      && a.Some? && b.Some?
      && a.value.modified == b.value.modified && a.value.modifiedBy == b.value.modifiedBy
  {
    var m := HoldsGreatest(s, steps, p);
    var n := HoldsGreatest(s, steps, q);
  }

  /** In particular they agree when no two versions ever announced share a timestamp. */
  lemma DistinctTimestampsAgree(s: System, steps: seq<Step>, p: PeerId, q: PeerId)
    requires Initial(s) && IsTimedRun(s, steps) && IsRun(s, steps)
    requires p in Run(s, steps).peers && q in Run(s, steps).peers
    requires Run(s, steps).peers[p].seen == Run(s, steps).peers[q].seen != {}
    requires forall m, n :: m in Run(s, steps).sent && n in Run(s, steps).sent && m.timestamp == n.timestamp ==> m == n
    ensures var a, b := Run(s, steps).peers[p].meta, Run(s, steps).peers[q].meta;
      && a.Some? && b.Some?
      && a.value.modified == b.value.modified && a.value.modifiedBy == b.value.modifiedBy
  {
    var t := Run(s, steps);
    InitialTimed(s);
    RunTimed(s, steps);
    assert LocalTimed(t.sent, t.peers[p]);
    forall m, n | m in t.peers[p].seen && n in t.peers[p].seen && m.peer != n.peer
      ensures exists k :: k in t.peers[p].seen && (k.timestamp > m.timestamp || k.timestamp > n.timestamp)
    {
      assert m.timestamp > n.timestamp || n.timestamp > m.timestamp;
    }
    SameSeenAgree(s, steps, p, q);
  }

  // ---- A tie for the greatest timestamp breaks it ----

  lemma PrependStep(s: System, step: Step, rest: seq<Step>)
    requires Allowed(s, step) && OnTime(s, step) && IsTimedRun(Next(s, step), rest)
    ensures IsTimedRun(s, [step] + rest) && IsRun(s, [step] + rest) && IsRun(Next(s, step), rest)
    ensures Run(s, [step] + rest) == Run(Next(s, step), rest)
  {
    assert ([step] + rest)[1..] == rest;
    TimedIsRun(s, [step] + rest);
    TimedIsRun(Next(s, step), rest);
  }

  lemma ConcurrentTie(p: PeerId, l: Local, n: Note, own: PeerId, t: nat, h: set<Event>)
    requires n == Note(map[own := 1], t, own, h) && l.meta.Some?
    requires l.meta.value.clock.Keys == {l.meta.value.modifiedBy} && l.meta.value.clock[l.meta.value.modifiedBy] == 1
    requires l.meta.value.modified == t && l.meta.value.modifiedBy != own && own != p && !Less(p, own)
    ensures Delivered(p, l, n) == l.(seen := l.seen + {n})
  {
    assert own in n.clock && Get(ClockOf(l), own) == 0;
    assert Compared(ClockOf(l), n.clock) == Concurrent;
  }

  lemma FirstDelivery(p: PeerId, l: Local, n: Note)
    requires ClockOf(l) == map[] && exists q :: q in n.clock && n.clock[q] > 0
    ensures Delivered(p, l, n)
      == Local(Some(FileMeta(n.clock, n.timestamp, n.peer)), l.history + n.history, l.edits, l.seen + {n})
  {
    assert Compared(ClockOf(l), n.clock) == Before;
    assert Merged(ClockOf(l), n.clock) == n.clock;
  }

  /** Every fetch is atomic. */
  ghost predicate WithoutApply(steps: seq<Step>) {
    forall i :: 0 <= i < |steps| ==> !steps[i].Apply?
  }

  lemma Prepended(s: System, step: Step, rest: seq<Step>) returns (steps: seq<Step>)
    requires Allowed(s, step) && OnTime(s, step) && IsTimedRun(Next(s, step), rest)
    ensures steps == [step] + rest
    ensures IsTimedRun(s, steps) && IsRun(s, steps) && IsRun(Next(s, step), rest)
    ensures Run(s, steps) == Run(Next(s, step), rest)
  {
    steps := [step] + rest;
    PrependStep(s, step, rest);
  }

  /** `x` reaches a peer holding the tied `y`, then `x` and `y` reach one that holds nothing. */
  lemma TieDeliveries(s: System, a: PeerId, b: PeerId, c: PeerId, t: nat, x: Note, y: Note) returns (steps: seq<Step>)
    requires b in s.peers && c in s.peers && Less(a, b) && Less(b, c) && x in s.sent && y in s.sent
    requires x == Note(map[a := 1], t, a, x.history) && y == Note(map[b := 1], t, b, y.history)
    requires s.peers[b].meta == Some(FileMeta(map[b := 1], t, b)) && s.peers[b].seen == {y}
    requires ClockOf(s.peers[c]) == map[] && s.peers[c].seen == {}
    ensures IsTimedRun(s, steps) && IsRun(s, steps) && WithoutApply(steps)
    ensures b in Run(s, steps).peers && c in Run(s, steps).peers
    ensures var l, m := Run(s, steps).peers[b], Run(s, steps).peers[c];
      && l.seen == m.seen != {} && l.meta == Some(FileMeta(map[b := 1], t, b))
        && m.meta == Some(FileMeta(map[a := 1], t, a))
  {
    LessTransitive(a, b, c);
    LessAsymmetric(a, b);
    LessAsymmetric(b, c);
    LessAsymmetric(a, c);
    ConcurrentTie(b, s.peers[b], x, a, t, x.history);
    var s1 := Next(s, Deliver(b, x));
    assert a in x.clock;
    FirstDelivery(c, s1.peers[c], x);
    var s2 := Next(s1, Deliver(c, x));
    ConcurrentTie(c, s2.peers[c], y, b, t, y.history);
    steps := Prepended(s2, Deliver(c, y), []);
    steps := Prepended(s1, Deliver(c, x), steps);
    steps := Prepended(s, Deliver(b, x), steps);
  }

  /** With three peers two of which stamp concurrent edits alike, the second and the third see the
      same versions and disagree: the tie-break looks at the deciding peer, not at the author held. */
  lemma TieDiverges(s: System, a: PeerId, b: PeerId, c: PeerId, t: nat) returns (steps: seq<Step>)
    requires Initial(s) && a in s.peers && b in s.peers && c in s.peers
    requires Less(a, b) && Less(b, c)
    requires TimeOf(s.peers[a]) <= t && TimeOf(s.peers[b]) <= t
    ensures IsTimedRun(s, steps) && IsRun(s, steps) && WithoutApply(steps)
    ensures b in Run(s, steps).peers && c in Run(s, steps).peers
    ensures var l, m := Run(s, steps).peers[b], Run(s, steps).peers[c];
      && l.seen == m.seen != {} && l.meta.Some? && m.meta.Some?
      && l.meta.value.modified == m.meta.value.modified == t
      && l.meta.value.modifiedBy == b && m.meta.value.modifiedBy == a
  {
    LessTransitive(a, b, c);
    LessIrreflexive(a);
    LessIrreflexive(b);
    LessIrreflexive(c);
    var s1 := Next(s, Edit(a, t));
    var x := Announcement(a, s1.peers[a]);
    var s2 := Next(s1, Edit(b, t));
    var y := Announcement(b, s2.peers[b]);
    assert x == Note(map[a := 1], t, a, x.history) && y == Note(map[b := 1], t, b, y.history);
    assert s2.peers[b].seen == {y};
    steps := TieDeliveries(s2, a, b, c, t, x, y);
    steps := Prepended(s1, Edit(b, t), steps);
    steps := Prepended(s, Edit(a, t), steps);
  }

  // ---- So does a fetch that completes too late ----

  lemma PrependAny(s: System, step: Step, rest: seq<Step>)
    requires Allowed(s, step) && IsRun(Next(s, step), rest)
    ensures IsRun(s, [step] + rest) && Run(s, [step] + rest) == Run(Next(s, step), rest)
  {
    assert ([step] + rest)[1..] == rest;
  }

  /** The lock is dropped between decision and application: an edit made in between, with a later
      stamp, is overwritten by the older version when the fetch completes. */
  lemma SplitFetchLosesUpdate(s: System, p: PeerId, q: PeerId, t: nat, now: nat) returns (steps: seq<Step>, own: Note)
    requires Initial(s) && p in s.peers && q in s.peers && p != q && t < now
    ensures IsRun(s, steps) && p in Run(s, steps).peers
    ensures var l := Run(s, steps).peers[p];
      && own in l.seen && own.peer == p && own.timestamp == now
      && l.meta.Some? && l.meta.value.modified == t < own.timestamp && l.meta.value.modifiedBy == q
  {
    var s1 := Next(s, Edit(q, t));
    var n := Announcement(q, s1.peers[q]);
    assert n == Note(map[q := 1], t, q, {Event(q, 1)});
    assert q in n.clock;
    assert Compared(ClockOf(s1.peers[p]), n.clock) == Before;
    var s2 := Next(s1, Decide(p, n));
    assert (p, n) in s2.pending;
    var s3 := Next(s2, Edit(p, now));
    own := Announcement(p, s3.peers[p]);
    var s4 := Next(s3, Apply(p, n));
    PrependAny(s3, Apply(p, n), []);
    PrependAny(s2, Edit(p, now), [Apply(p, n)] + []);
    PrependAny(s1, Decide(p, n), [Edit(p, now)] + ([Apply(p, n)] + []));
    steps := [Edit(q, t)] + ([Decide(p, n)] + ([Edit(p, now)] + ([Apply(p, n)] + [])));
    PrependAny(s, Edit(q, t), [Decide(p, n)] + ([Edit(p, now)] + ([Apply(p, n)] + [])));
  }

  /** The greatest stamp is not the whole story. With an edit of the same stamp made in between, the
      step below is on time, and a fresh decision would keep the peer's own version as the winner; the
      completed fetch replaces it all the same. */
  lemma LateTieOverwrites(s: System, p: PeerId, q: PeerId, t: nat) returns (steps: seq<Step>, n: Note)
    requires Initial(s) && p in s.peers && q in s.peers && Less(q, p)
    requires TimeOf(s.peers[p]) <= t && TimeOf(s.peers[q]) <= t
    ensures IsTimedRun(s, steps) && IsRun(s, steps) && p in Run(s, steps).peers
    ensures var held := Run(s, steps).peers[p];
      && held.meta.Some? && held.meta.value.modified == t && held.meta.value.modifiedBy == p
      && Decision(p, held, n) == Conflict(q)
      && Allowed(Run(s, steps), Apply(p, n)) && OnTime(Run(s, steps), Apply(p, n))
    ensures var after := Next(Run(s, steps), Apply(p, n)).peers[p];
      after.meta.Some? && after.meta.value.modified == t && after.meta.value.modifiedBy == q
  {
    LessAsymmetric(q, p);
    LessIrreflexive(p);
    var s1 := Next(s, Edit(q, t));
    n := Announcement(q, s1.peers[q]);
    assert n == Note(map[q := 1], t, q, {Event(q, 1)});
    assert q in n.clock;
    assert Compared(ClockOf(s1.peers[p]), n.clock) == Before;
    var s2 := Next(s1, Decide(p, n));
    assert (p, n) in s2.pending;
    var s3 := Next(s2, Edit(p, t));
    assert ClockOf(s3.peers[p]) == map[p := 1];
    assert p in ClockOf(s3.peers[p]);
    assert Compared(ClockOf(s3.peers[p]), n.clock) == Concurrent;
    steps := Prepended(s2, Edit(p, t), []);
    steps := Prepended(s1, Decide(p, n), steps);
    steps := Prepended(s, Edit(q, t), steps);
  }
}
