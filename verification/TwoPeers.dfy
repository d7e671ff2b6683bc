/** Two peers converge even when their timestamps tie; more than two do not. */
module TwoPeers {
  import opened ByteStrings
  import opened Clock
  import opened Gossip
  import opened Convergence

  /** Deciding again would still adopt the version, or the version held has its stamp and author. */
  predicate StillWins(p: PeerId, l: Local, n: Note) {
    Adopts(Decision(p, l, n), p) || SameStamp(l, n)
  }

  predicate SameStamp(l: Local, n: Note) {
    l.meta.Some? && l.meta.value.modified == n.timestamp && l.meta.value.modifiedBy == n.peer
  }

  /** Nobody stamps an edit earlier than the version it replaces, and a fetch is completed only if its
      version still wins. */
  predicate Checked(s: System, step: Step)
    requires Allowed(s, step)
  {
    match step
    case Edit(p, now) => now >= TimeOf(s.peers[p])
    case Apply(p, n) => StillWins(p, s.peers[p], n)
    case Decide(_, _) => true
    case Deliver(_, _) => true
  }

  ghost predicate IsCheckedRun(s: System, steps: seq<Step>)
    decreases steps
  {
    steps == [] || (Allowed(s, steps[0]) && Checked(s, steps[0]) && IsCheckedRun(Next(s, steps[0]), steps[1..]))
  }

  // ---- Winners ----

  /** The later stamp wins; of versions stamped alike the one that contains the other, and of
      concurrent ones that of the greater author. */
  ghost predicate Beats(m: Note, k: Note) {
    || m.timestamp > k.timestamp
    || (m.timestamp == k.timestamp
        && (EditOf(k) in m.history || (EditOf(m) !in k.history && Less(k.peer, m.peer))))
  }

  /** The version held is not beaten by any seen version of another author. */
  ghost predicate HoldsWinner(l: Local, k: Note) {
    Holds(l, k) && forall m {:trigger Beats(m, k)} :: m in l.seen && m.peer != k.peer ==> !Beats(m, k)
  }

  /** What a decision has made of every foreign version seen. */
  ghost predicate Accounted(p: PeerId, l: Local, n: Note) {
    n.peer != p ==> EditOf(n) in l.history || n.timestamp < TimeOf(l) || Less(n.peer, p)
  }

  ghost predicate Settled(p: PeerId, l: Local, k: Note) {
    && HoldsWinner(l, k)
    && (k.peer == p ==> l.history == k.history)
    && forall n {:trigger Accounted(p, l, n)} :: n in l.seen ==> Accounted(p, l, n)
  }

  ghost predicate PeerSettled(p: PeerId, l: Local) {
    l.seen != {} ==> exists k :: Settled(p, l, k)
  }

  /** No two versions contain each other. */
  ghost predicate Acyclic(sent: set<Note>) {
    forall m, n {:trigger ContainEachOther(m, n)} :: m in sent && n in sent && m != n ==> !ContainEachOther(m, n)
  }

  ghost predicate ContainEachOther(m: Note, n: Note) {
    EditOf(m) in n.history && EditOf(n) in m.history
  }

  /** On top of chronology: two authors, no cycles, and a winner at each peer. */
  ghost predicate Paired(s: System, a: PeerId, b: PeerId) {
    Chronological(s) && PairOf(s, a, b)
  }

  ghost predicate PairOf(s: System, a: PeerId, b: PeerId) {
    && s.peers.Keys == {a, b} && Acyclic(s.sent)
    && (forall n :: n in s.sent ==> n.peer in {a, b})
    && (forall d :: d in s.pending ==> d.1.peer != d.0)
    && (forall p :: p in s.peers ==> PeerSettled(p, s.peers[p]))
  }

  // ---- Edits ----

  lemma EditedSettled(p: PeerId, l: Local, now: nat)
    requires Get(ClockOf(l), p) < U64_MAX && PeerSettled(p, l) && now >= TimeOf(l)
    requires forall m :: m in l.seen ==> Event(p, l.edits + 1) !in m.history
    requires Event(p, l.edits + 1) == EditOf(Announcement(p, Edited(p, l, now)))
    requires Holds(Edited(p, l, now), Announcement(p, Edited(p, l, now)))
    requires forall m :: m in l.seen && m.timestamp == now && m.peer != p ==> EditOf(m) in l.history || Less(m.peer, p)
    ensures Settled(p, Edited(p, l, now), Announcement(p, Edited(p, l, now)))
  {
    var l', x := Edited(p, l, now), Announcement(p, Edited(p, l, now));
    forall m | m in l'.seen && m.peer != x.peer
      ensures !Beats(m, x) && Accounted(p, l', m)
    {
      assert m in l.seen;
      assert m.timestamp <= now;
      if Less(m.peer, p) {
        LessAsymmetric(m.peer, p);
      }
    }
  }

  lemma SeenAccounted(p: PeerId, l: Local, now: nat)
    requires PeerSettled(p, l) && now >= TimeOf(l)
    ensures forall m :: m in l.seen && m.timestamp == now && m.peer != p ==> EditOf(m) in l.history || Less(m.peer, p)
  {
    forall m | m in l.seen && m.timestamp == now && m.peer != p
      ensures EditOf(m) in l.history || Less(m.peer, p)
    {
      var k :| Settled(p, l, k);
      assert Accounted(p, l, m);
    }
  }

  lemma EditHoldsOwn(s: System, p: PeerId, now: nat)
    requires Chronological(s) && Allowed(s, Edit(p, now)) && now >= TimeOf(s.peers[p])
    ensures var l' := Edited(p, s.peers[p], now);
      var x := Announcement(p, l');
      && EditOf(x) == Event(p, s.peers[p].edits + 1)
      && Holds(l', x)
      && x !in s.sent
      && (forall m :: m in s.sent ==> EditOf(x) !in m.history)
  {
    var l := s.peers[p];
    var l' := Edited(p, l, now);
    var x := Announcement(p, l');
    EditedTimed(s, p, now);
    FreshEdit(s, p);
    assert LocalTimed(s.sent, l);
    forall m | m in l'.seen
      ensures m.timestamp <= now
    {
      if m in l.seen {
        var k :| Holds(l, k);
      }
    }
  }

  lemma FreshAcyclic(sent: set<Note>, x: Note)
    requires Acyclic(sent) && forall m :: m in sent ==> EditOf(x) !in m.history
    ensures Acyclic(sent + {x})
  {
  }

  lemma EditSettled(s: System, a: PeerId, b: PeerId, p: PeerId, now: nat)
    requires Paired(s, a, b) && Allowed(s, Edit(p, now)) && now >= TimeOf(s.peers[p])
    ensures PeerSettled(p, Edited(p, s.peers[p], now))
  {
    var l := s.peers[p];
    EditHoldsOwn(s, p, now);
    SeenAccounted(p, l, now);
    assert l.seen <= s.sent by {
      assert LocalTimed(s.sent, l);
    }
    EditedSettled(p, l, now);
  }

  lemma EditPaired(s: System, a: PeerId, b: PeerId, p: PeerId, now: nat)
    requires Paired(s, a, b) && Allowed(s, Edit(p, now)) && now >= TimeOf(s.peers[p])
    ensures Paired(Next(s, Edit(p, now)), a, b)
  {
    var l', s' := Edited(p, s.peers[p], now), Next(s, Edit(p, now));
    EditTimed(s, p, now);
    EditHoldsOwn(s, p, now);
    FreshAcyclic(s.sent, Announcement(p, l'));
    EditSettled(s, a, b, p, now);
    assert s' == s.(peers := s.peers[p := l'], sent := s.sent + {Announcement(p, l')});
    AnnouncedPaired(s, a, b, p, l', Announcement(p, l'));
  }

  lemma AnnouncedPaired(s: System, a: PeerId, b: PeerId, p: PeerId, l: Local, x: Note)
    requires PairOf(s, a, b) && p in s.peers && PeerSettled(p, l) && x.peer == p && Acyclic(s.sent + {x})
    ensures PairOf(s.(peers := s.peers[p := l], sent := s.sent + {x}), a, b)
  {
    assert s.peers[p := l].Keys == s.peers.Keys;
  }

  // ---- Adopting and refusing ----

  /** A peer meets a version of the only other author. */
  ghost predicate Meets(s: System, p: PeerId, n: Note) {
    && Chronological(s) && Acyclic(s.sent) && p in s.peers && n in s.sent && n.peer != p
    && PeerSettled(p, s.peers[p])
    && forall m :: m in s.sent ==> m.peer == p || m.peer == n.peer
  }

  lemma PairMeets(s: System, a: PeerId, b: PeerId, p: PeerId, n: Note)
    requires Paired(s, a, b) && p in s.peers && n in s.sent && n.peer != p
    ensures Meets(s, p, n)
  {
  }

  ghost predicate Contained(l: Local, m: Note) {
    EditOf(m) in l.history && m.history <= l.history && m.timestamp <= TimeOf(l)
  }

  /** A peer's own versions are in its history. */
  lemma OwnKnown(s: System, p: PeerId, m: Note)
    requires Chronological(s) && p in s.peers && m in s.sent && m.peer == p
    ensures Contained(s.peers[p], m)
  {
    assert LocalOk(s, p) && NoteOk(s, m) && NoteTimed(s.sent, m) && LocalTimed(s.sent, s.peers[p]);
    assert EditOf(m) in m.history;
    assert Includes(s.peers[p].history, TimeOf(s.peers[p]), m);
  }

  /** What a decision about a foreign version says of histories and stamps. */
  ghost predicate DecidedBy(p: PeerId, l: Local, n: Note, adopts: bool) {
    && n.peer != p && EditOf(n) in n.history
    && (EditOf(n) in l.history <==> n.history <= l.history)
    && (adopts <==>
          EditOf(n) !in l.history
          && (l.history <= n.history || n.timestamp > TimeOf(l) || (n.timestamp == TimeOf(l) && Less(p, n.peer))))
    && (adopts && l.seen != {} ==> TimeOf(l) <= n.timestamp)
    && (!adopts ==> l.seen != {} && n.timestamp <= TimeOf(l))
  }

  lemma DecisionByHistory(s: System, p: PeerId, n: Note)
    requires Chronological(s) && p in s.peers && n in s.sent && n.peer != p
    ensures DecidedBy(p, s.peers[p], n, Adopts(Decision(p, s.peers[p], n), p))
  {
    HistoriesDecide(s, p, n);
    DecisionTimes(s, p, n);
    assert LocalTimed(s.sent, s.peers[p]) && NoteTimed(s.sent, n);
    DecisionInclusion(p, s.peers[p], n);
  }

  lemma DecisionInclusion(p: PeerId, l: Local, n: Note)
    requires Compared(ClockOf(l), n.clock) == HistoryOrder(l.history, n.history)
    requires n.peer != p && EditOf(n) in n.history && Includes(l.history, TimeOf(l), n)
    requires Adopts(Decision(p, l, n), p) && l.seen != {} ==> TimeOf(l) <= n.timestamp
    requires !Adopts(Decision(p, l, n), p) ==> l.seen != {} && n.timestamp <= TimeOf(l)
    ensures DecidedBy(p, l, n, Adopts(Decision(p, l, n), p))
  {
  }

  lemma AdoptedHolds(sent: set<Note>, l: Local, n: Note)
    requires LocalTimed(sent, l) && NoteTimed(sent, n) && (l.seen != {} ==> TimeOf(l) <= n.timestamp)
    ensures Holds(Adopted(l, n), n)
  {
    if l.seen != {} {
      var k :| Holds(l, k);
    }
  }

  /** An adopted version is not beaten by anything of the peer's own. */
  lemma AdoptedBeatsOwn(p: PeerId, l: Local, n: Note, m: Note)
    requires DecidedBy(p, l, n, true) && l.seen != {} && m.peer == p && Contained(l, m)
    ensures !Beats(m, n)
  {
    if Less(p, n.peer) {
      LessAsymmetric(p, n.peer);
    }
  }

  /** Every version seen is the peer's own and contained, or the other author's, and accounted for. */
  ghost predicate KnownSeen(p: PeerId, l: Local, other: PeerId) {
    forall m {:trigger Accounted(p, l, m)} :: m in l.seen ==>
      Accounted(p, l, m) && ((m.peer == p && Contained(l, m)) || m.peer == other)
  }

  lemma AdoptedLocalSettled(p: PeerId, l: Local, n: Note)
    requires DecidedBy(p, l, n, true) && Holds(Adopted(l, n), n) && KnownSeen(p, l, n.peer)
    ensures Settled(p, Adopted(l, n), n)
  {
    var l' := Adopted(l, n);
    forall m | m in l'.seen
      ensures (m.peer != n.peer ==> !Beats(m, n)) && Accounted(p, l', m)
    {
      if m in l.seen {
        assert Accounted(p, l, m);
        if m.peer == p {
          AdoptedBeatsOwn(p, l, n, m);
        }
      }
    }
  }

  lemma SettledAccounts(p: PeerId, l: Local, m: Note)
    requires PeerSettled(p, l) && m in l.seen
    ensures Accounted(p, l, m)
  {
    var k :| Settled(p, l, k);
  }

  lemma OneIsKnown(s: System, p: PeerId, m: Note)
    requires Chronological(s) && p in s.peers && m in s.peers[p].seen
    ensures m in s.sent && (m.peer == p ==> Contained(s.peers[p], m))
  {
    assert LocalTimed(s.sent, s.peers[p]);
    if m.peer == p {
      OwnKnown(s, p, m);
    }
  }

  lemma SeenIsKnown(s: System, p: PeerId, other: PeerId)
    requires Chronological(s) && p in s.peers && PeerSettled(p, s.peers[p])
    requires forall m :: m in s.sent ==> m.peer == p || m.peer == other
    ensures KnownSeen(p, s.peers[p], other)
  {
    forall m | m in s.peers[p].seen
      ensures Accounted(p, s.peers[p], m) && ((m.peer == p && Contained(s.peers[p], m)) || m.peer == other)
    {
      OneIsKnown(s, p, m);
      SettledAccounts(p, s.peers[p], m);
    }
  }

  lemma AdoptedSettled(s: System, p: PeerId, n: Note)
    requires Meets(s, p, n) && DecidedBy(p, s.peers[p], n, true)
    ensures Settled(p, Adopted(s.peers[p], n), n)
  {
    SeenIsKnown(s, p, n.peer);
    assert LocalTimed(s.sent, s.peers[p]) && NoteTimed(s.sent, n);
    AdoptedHolds(s.sent, s.peers[p], n);
    AdoptedLocalSettled(p, s.peers[p], n);
  }

  /** A refused version does not beat the peer's own that it holds. */
  lemma RefusedDoesNotBeat(p: PeerId, l: Local, n: Note, k: Note)
    requires DecidedBy(p, l, n, false) && Settled(p, l, k) && Against(p, n, k) && k.peer == p != n.peer
    ensures !Beats(n, k)
  {
    LessTotal(p, n.peer);
  }

  lemma RefusedLocalSettled(p: PeerId, l: Local, n: Note, k: Note)
    requires DecidedBy(p, l, n, false) && Settled(p, l, k) && Against(p, n, k)
    ensures Settled(p, l.(seen := l.seen + {n}), k)
  {
    LessTotal(p, n.peer);
    var l' := l.(seen := l.seen + {n});
    if k.peer == p {
      RefusedDoesNotBeat(p, l, n, k);
    }
    forall m | m in l'.seen
      ensures Accounted(p, l', m)
    {
      assert m in l.seen ==> Accounted(p, l, m);
    }
  }

  /** Between versions sent, containing one's edit is containing its history, and not the other way round. */
  lemma SentIncludes(s: System, n: Note, k: Note)
    requires Chronological(s) && Acyclic(s.sent) && n in s.sent && k in s.sent
    ensures EditOf(k) in n.history ==> k.history <= n.history && (k != n ==> EditOf(n) !in k.history)
  {
    assert NoteTimed(s.sent, n);
    assert Includes(n.history, n.timestamp, k);
    assert k != n ==> !ContainEachOther(k, n);
  }

  /** What is held where a foreign version meets it. */
  lemma HeldAgainst(s: System, p: PeerId, n: Note) returns (k: Note)
    requires Meets(s, p, n) && s.peers[p].seen != {}
    ensures Settled(p, s.peers[p], k) && Against(p, n, k)
  {
    k := HeldVersion(s, p);
    SentIncludes(s, n, k);
  }

  lemma HeldVersion(s: System, p: PeerId) returns (k: Note)
    requires Chronological(s) && p in s.peers && PeerSettled(p, s.peers[p]) && s.peers[p].seen != {}
    ensures Settled(p, s.peers[p], k) && k in s.sent
  {
    k :| Settled(p, s.peers[p], k);
    OneIsKnown(s, p, k);
  }

  ghost predicate Against(p: PeerId, n: Note, k: Note) {
    && (k.peer == p || k.peer == n.peer)
    && (EditOf(k) in n.history ==> k.history <= n.history && (k.peer == p ==> EditOf(n) !in k.history))
  }

  lemma RefusedSettled(s: System, p: PeerId, n: Note)
    requires Meets(s, p, n) && DecidedBy(p, s.peers[p], n, false)
    ensures PeerSettled(p, s.peers[p].(seen := s.peers[p].seen + {n}))
  {
    var k := HeldAgainst(s, p, n);
    RefusedLocalSettled(p, s.peers[p], n, k);
  }

  /** Another version of the stamp and author held changes nothing that matters. */
  lemma SameStampSettled(p: PeerId, l: Local, n: Note, k: Note)
    requires Settled(p, l, k) && n.peer != p && EditOf(n) in n.history
    requires SameStamp(l, n)
    ensures Settled(p, Adopted(l, n), k)
  {
    var l' := Adopted(l, n);
    forall m | m in l'.seen
      ensures Accounted(p, l', m)
    {
      assert m in l.seen ==> Accounted(p, l, m);
    }
  }

  // ---- Steps and runs ----

  lemma PeerReplaced(s: System, a: PeerId, b: PeerId, p: PeerId, l: Local)
    requires PairOf(s, a, b) && p in s.peers && PeerSettled(p, l)
    ensures PairOf(s.(peers := s.peers[p := l]), a, b)
  {
    assert s.peers[p := l].Keys == s.peers.Keys;
  }

  lemma DeliveredSettled(s: System, p: PeerId, n: Note)
    requires Meets(s, p, n)
    ensures PeerSettled(p, Delivered(p, s.peers[p], n))
  {
    DecisionByHistory(s, p, n);
    if Adopts(Decision(p, s.peers[p], n), p) {
      AdoptedSettled(s, p, n);
    } else {
      RefusedSettled(s, p, n);
    }
  }

  lemma DeliverPaired(s: System, a: PeerId, b: PeerId, p: PeerId, n: Note)
    requires Paired(s, a, b) && Allowed(s, Deliver(p, n))
    ensures Paired(Next(s, Deliver(p, n)), a, b)
  {
    DeliverTimed(s, p, n);
    PairMeets(s, a, b, p, n);
    DeliveredSettled(s, p, n);
    PeerReplaced(s, a, b, p, Delivered(p, s.peers[p], n));
  }

  lemma DecidePaired(s: System, a: PeerId, b: PeerId, p: PeerId, n: Note)
    requires Paired(s, a, b) && Allowed(s, Decide(p, n))
    ensures Paired(Next(s, Decide(p, n)), a, b)
  {
    if !Adopts(Decision(p, s.peers[p], n), p) {
      DeliverPaired(s, a, b, p, n);
    } else {
      DecideTimed(s, p, n);
      PendingPaired(s, a, b, p, n);
    }
  }

  lemma PendingPaired(s: System, a: PeerId, b: PeerId, p: PeerId, n: Note)
    requires PairOf(s, a, b) && n.peer != p
    ensures PairOf(s.(pending := s.pending + {(p, n)}), a, b)
  {
  }

  /** A version that still wins is not older than what is held. */
  lemma StillWinsMayReplace(s: System, p: PeerId, n: Note)
    requires Chronological(s) && p in s.peers && n in s.sent && n.peer != p && StillWins(p, s.peers[p], n)
    ensures MayReplace(s.peers[p], n)
  {
    DecisionTimes(s, p, n);
  }

  lemma AppliedSettled(s: System, p: PeerId, n: Note)
    requires Meets(s, p, n) && StillWins(p, s.peers[p], n)
    ensures PeerSettled(p, Adopted(s.peers[p], n))
  {
    DecisionByHistory(s, p, n);
    if Adopts(Decision(p, s.peers[p], n), p) {
      AdoptedSettled(s, p, n);
    } else {
      assert PeerSettled(p, s.peers[p]);
      var k :| Settled(p, s.peers[p], k);
      SameStampSettled(p, s.peers[p], n, k);
    }
  }

  lemma ApplyPaired(s: System, a: PeerId, b: PeerId, p: PeerId, n: Note)
    requires Paired(s, a, b) && Allowed(s, Apply(p, n)) && StillWins(p, s.peers[p], n)
    ensures Paired(Next(s, Apply(p, n)), a, b)
  {
    PendingNote(s, a, b, p, n);
    StillWinsMayReplace(s, p, n);
    ApplyTimed(s, p, n);
    AppliedSettled(s, p, n);
    PeerReplaced(s, a, b, p, Adopted(s.peers[p], n));
  }

  lemma PendingNote(s: System, a: PeerId, b: PeerId, p: PeerId, n: Note)
    requires Paired(s, a, b) && Allowed(s, Apply(p, n))
    ensures Meets(s, p, n)
  {
    assert (p, n).1 in s.sent && (p, n).1.peer != (p, n).0;
    PairMeets(s, a, b, p, n);
  }

  lemma StepPaired(s: System, step: Step, a: PeerId, b: PeerId)
    requires Paired(s, a, b) && Allowed(s, step) && Checked(s, step)
    ensures Paired(Next(s, step), a, b)
  {
    match step
    case Edit(p, now) => EditPaired(s, a, b, p, now);
    case Deliver(p, n) => DeliverPaired(s, a, b, p, n);
    case Decide(p, n) => DecidePaired(s, a, b, p, n);
    case Apply(p, n) => ApplyPaired(s, a, b, p, n);
  }

  lemma {:induction false} RunPaired(s: System, steps: seq<Step>, a: PeerId, b: PeerId)
    requires Paired(s, a, b) && IsCheckedRun(s, steps)
    ensures IsRun(s, steps) && Paired(Run(s, steps), a, b)
    decreases steps
  {
    if steps != [] {
      StepPaired(s, steps[0], a, b);
      RunPaired(Next(s, steps[0]), steps[1..], a, b);
    }
  }

  lemma InitialPaired(s: System, a: PeerId, b: PeerId)
    requires Initial(s) && s.peers.Keys == {a, b}
    ensures Paired(s, a, b)
  {
    InitialTimed(s);
  }

  // ---- Exactly when completing a fetch leaves the winner held ----

  /** In every state that checked runs of two peers reach, a peer that completes a fetch holds the winner
      of all it has seen afterwards if and only if the fetched version still wins when it completes. */
  lemma ApplyKeepsWinnerIff(s: System, a: PeerId, b: PeerId, p: PeerId, n: Note)
    requires Paired(s, a, b) && Allowed(s, Apply(p, n))
    ensures (exists k :: HoldsWinner(Next(s, Apply(p, n)).peers[p], k)) <==> StillWins(p, s.peers[p], n)
  {
    PendingNote(s, a, b, p, n);
    AdoptedWinnerIff(s, p, n);
    assert Next(s, Apply(p, n)).peers[p] == Adopted(s.peers[p], n);
  }

  lemma AdoptedWinnerIff(s: System, p: PeerId, n: Note)
    requires Meets(s, p, n)
    ensures (exists k :: HoldsWinner(Adopted(s.peers[p], n), k)) <==> StillWins(p, s.peers[p], n)
  {
    DecisionByHistory(s, p, n);
    if StillWins(p, s.peers[p], n) {
      AppliedSettled(s, p, n);
      SettledHolds(p, Adopted(s.peers[p], n));
    } else {
      var own := HeldAgainst(s, p, n);
      LoserIsBeaten(p, s.peers[p], n, own);
    }
  }

  lemma SettledHolds(p: PeerId, l: Local)
    requires PeerSettled(p, l) && l.seen != {}
    ensures exists k :: HoldsWinner(l, k)
  {
    var k :| Settled(p, l, k);
  }

  lemma LoserIsBeaten(p: PeerId, l: Local, n: Note, own: Note)
    requires DecidedBy(p, l, n, false) && !SameStamp(l, n) && Settled(p, l, own) && Against(p, n, own)
    ensures forall k :: !HoldsWinner(Adopted(l, n), k)
  {
    forall k
      ensures !HoldsWinner(Adopted(l, n), k)
    {
      LoserIsBeatenBy(p, l, n, own, k);
    }
  }

  /** If what was held is newer, it beats the fetched version; if it is the peer's own of the same
      stamp, it beats whatever the fetched author has. */
  lemma LoserIsBeatenBy(p: PeerId, l: Local, n: Note, own: Note, k: Note)
    requires DecidedBy(p, l, n, false) && !SameStamp(l, n) && Settled(p, l, own) && Against(p, n, own)
    ensures !HoldsWinner(Adopted(l, n), k)
  {
    LessTotal(p, n.peer);
    var l' := Adopted(l, n);
    assert own in l'.seen;
    if Holds(l', k) {
      assert own.timestamp == k.timestamp && own.peer == p && k.peer == n.peer;
      assert Beats(own, k) || (k in l.seen && Beats(k, own));
    }
  }

  // ---- Agreement ----

  lemma WinnersAgree(l: Local, m: Local, x: Note, y: Note)
    requires l.seen == m.seen && HoldsWinner(l, x) && HoldsWinner(m, y)
    ensures x.timestamp == y.timestamp && x.peer == y.peer
  {
    LessTotal(x.peer, y.peer);
    assert x.peer != y.peer ==> !Beats(x, y) && !Beats(y, x);
  }

  ghost predicate Agree(l: Local, m: Local) {
    && l.meta.Some? && m.meta.Some?
    && l.meta.value.modified == m.meta.value.modified
    && l.meta.value.modifiedBy == m.meta.value.modifiedBy
  }

  /** Two peers that have seen the same versions agree, in whatever order and however often the
      versions reached them, timestamp ties included, those between an edit and the version it replaces
      among them. */
  lemma TwoPeersAgree(s: System, steps: seq<Step>, a: PeerId, b: PeerId)
    requires Initial(s) && s.peers.Keys == {a, b} && IsCheckedRun(s, steps)
    ensures IsRun(s, steps) && Run(s, steps).peers.Keys == {a, b}
    ensures var l, m := Run(s, steps).peers[a], Run(s, steps).peers[b];
      l.seen == m.seen != {} ==> Agree(l, m)
  {
    InitialPaired(s, a, b);
    RunPaired(s, steps, a, b);
    var t := Run(s, steps);
    var l, m := t.peers[a], t.peers[b];
    if l.seen == m.seen != {} {
      assert PeerSettled(a, l) && PeerSettled(b, m);
      var x :| Settled(a, l, x);
      var y :| Settled(b, m, y);
      WinnersAgree(l, m, x, y);
    }
  }

  // ---- Two peers and no more ----

  /** If the run is checked and leaves two peers with the same versions seen, they agree. */
  ghost predicate AgreeAfter(s: System, steps: seq<Step>, p: PeerId, q: PeerId) {
    IsCheckedRun(s, steps) && IsRun(s, steps) && p in Run(s, steps).peers && q in Run(s, steps).peers
    && Run(s, steps).peers[p].seen == Run(s, steps).peers[q].seen != {} ==>
      Agree(Run(s, steps).peers[p], Run(s, steps).peers[q])
  }

  ghost predicate AlwaysAgree(s: System) {
    forall steps, p, q :: AgreeAfter(s, steps, p, q)
  }

  lemma {:induction false} AtomicIsChecked(s: System, steps: seq<Step>)
    requires IsTimedRun(s, steps) && WithoutApply(steps)
    ensures IsCheckedRun(s, steps)
    decreases steps
  {
    if steps != [] {
      assert !steps[0].Apply?;
      assert WithoutApply(steps[1..]) by {
        assert forall i :: 0 <= i < |steps[1..]| ==> steps[1..][i] == steps[i + 1];
      }
      AtomicIsChecked(Next(s, steps[0]), steps[1..]);
    }
  }

  lemma {:induction false} PeersStay(s: System, steps: seq<Step>)
    requires IsRun(s, steps)
    ensures Run(s, steps).peers.Keys == s.peers.Keys
    decreases steps
  {
    if steps != [] {
      PeersStay(Next(s, steps[0]), steps[1..]);
    }
  }

  lemma SelfAgrees(s: System, steps: seq<Step>, p: PeerId, b: PeerId)
    requires Initial(s) && s.peers.Keys == {p, b}
    ensures AgreeAfter(s, steps, p, p)
  {
    if IsCheckedRun(s, steps) {
      InitialPaired(s, p, b);
      RunPaired(s, steps, p, b);
      assert LocalTimed(Run(s, steps).sent, Run(s, steps).peers[p]);
    }
  }

  lemma FewPeersAgree(s: System, steps: seq<Step>, p: PeerId, q: PeerId)
    requires Initial(s) && |s.peers| <= 2
    ensures AgreeAfter(s, steps, p, q)
  {
    if IsCheckedRun(s, steps) && IsRun(s, steps) && p in Run(s, steps).peers && q in Run(s, steps).peers {
      PeersStay(s, steps);
      if p != q {
        TwoOfTwo(s.peers.Keys, p, q);
        TwoPeersAgree(s, steps, p, q);
      } else {
        var b := OtherOfTwo(s.peers.Keys, p);
        SelfAgrees(s, steps, p, b);
      }
    }
  }

  lemma TwoOfTwo(keys: set<PeerId>, p: PeerId, q: PeerId)
    requires |keys| <= 2 && p in keys && q in keys && p != q
    ensures keys == {p, q}
  {
    var rest := keys - {p} - {q};
    assert |rest| == 0;
  }

  lemma OtherOfTwo(keys: set<PeerId>, p: PeerId) returns (q: PeerId)
    requires |keys| <= 2 && p in keys
    ensures keys == {p, q}
  {
    if r :| r in keys && r != p {
      TwoOfTwo(keys, p, r);
      q := r;
    } else {
      q := p;
    }
  }

  lemma ThreeInOrder(keys: set<PeerId>) returns (a: PeerId, b: PeerId, c: PeerId)
    requires |keys| > 2
    ensures a in keys && b in keys && c in keys && Less(a, b) && Less(b, c)
  {
    a := Least(keys);
    assert |keys - {a}| > 0;
    b := Least(keys - {a});
    assert |keys - {a} - {b}| > 0;
    c :| c in keys - {a} - {b};
  }

  /** Whatever is announced and whenever it arrives, peers that have seen the same versions agree on
      stamp and author if and only if there are no more than two of them. */
  lemma AlwaysAgreeIff(s: System)
    requires Initial(s)
    ensures AlwaysAgree(s) <==> |s.peers| <= 2
  {
    if |s.peers| <= 2 {
      forall steps, p, q
        ensures AgreeAfter(s, steps, p, q)
      {
        FewPeersAgree(s, steps, p, q);
      }
    } else {
      var a, b, c := ThreeInOrder(s.peers.Keys);
      var t := TimeOf(s.peers[a]) + TimeOf(s.peers[b]);
      var steps := TieDiverges(s, a, b, c, t);
      AtomicIsChecked(s, steps);
      LessIrreflexive(a);
      assert !AgreeAfter(s, steps, b, c);
    }
  }
}
