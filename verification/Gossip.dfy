/** The file-change protocol for one path: peers edit, announce, decide and apply, in any
    interleaving, with notifications delivered in any order and any number of times. */
module Gossip {
  import opened ByteStrings
  import opened Clock

  /** The `ordinal`-th edit made by `author`. */
  datatype Event = Event(author: PeerId, ordinal: nat)

  /** A notification; `history` records the edits its version contains. */
  datatype Note = Note(clock: Counters, timestamp: nat, peer: PeerId, history: set<Event>)

  /** A peer's view of the path: its metadata, the edits its version contains, how often it has
      edited, and the versions it has made or been delivered: those it turned down and those whose
      fetch has completed. */
  datatype Local = Local(meta: Option<FileMeta>, history: set<Event>, edits: nat, seen: set<Note>)

  /** `sent` keeps every notification ever sent, `pending` every decision taken to adopt one. */
  datatype System = System(peers: map<PeerId, Local>, sent: set<Note>, pending: set<(PeerId, Note)>)

  datatype Step =
    | Edit(p: PeerId, now: nat)
    | Decide(p: PeerId, n: Note)
    | Apply(p: PeerId, n: Note)
    | Deliver(p: PeerId, n: Note)

  function ClockOf(l: Local): Counters {
    if l.meta.Some? then l.meta.value.clock else map[]
  }

  function TimeOf(l: Local): nat {
    if l.meta.Some? then l.meta.value.modified else 0
  }

  /** What the peer decides about a notification, from the metadata it holds. */
  function Decision(p: PeerId, l: Local, n: Note): Resolution {
    Resolve(ClockOf(l), n.clock, TimeOf(l), n.timestamp, n.peer, p)
  }

  function Edited(p: PeerId, l: Local, now: nat): Local
    requires Get(ClockOf(l), p) < U64_MAX
  {
    var history := l.history + {Event(p, l.edits + 1)};
    var clock := Ticked(ClockOf(l), p);
    Local(Some(FileMeta(clock, now, p)), history, l.edits + 1, l.seen + {Note(clock, now, p, history)})
  }

  function Announcement(p: PeerId, l: Local): Note
    requires l.meta.Some?
  {
    Note(l.meta.value.clock, l.meta.value.modified, p, l.history)
  }

  /** The metadata update at the end of `fetch_and_apply`. */
  function Adopted(l: Local, n: Note): Local {
    Local(Some(FileMeta(Merged(ClockOf(l), n.clock), n.timestamp, n.peer)), l.history + n.history, l.edits,
      l.seen + {n})
  }

  function Delivered(p: PeerId, l: Local, n: Note): Local {
    if Adopts(Decision(p, l, n), p) then Adopted(l, n) else l.(seen := l.seen + {n})
  }

  predicate Allowed(s: System, step: Step) {
    && step.p in s.peers
    && match step
       case Edit(p, _) => Get(ClockOf(s.peers[p]), p) < U64_MAX
       case Decide(p, n) => n in s.sent && n.peer != p
       case Apply(p, n) => (p, n) in s.pending
       case Deliver(p, n) => n in s.sent && n.peer != p
  }

  function Next(s: System, step: Step): System
    requires Allowed(s, step)
  {
    var l := s.peers[step.p];
    match step
    case Edit(p, now) =>
      var l' := Edited(p, l, now);
      s.(peers := s.peers[p := l'], sent := s.sent + {Announcement(p, l')})
    case Decide(p, n) =>
      if Adopts(Decision(p, l, n), p)
      then s.(pending := s.pending + {(p, n)})
      else s.(peers := s.peers[p := l.(seen := l.seen + {n})])
    case Apply(p, n) => s.(peers := s.peers[p := Adopted(l, n)])
    case Deliver(p, n) => s.(peers := s.peers[p := Delivered(p, l, n)])
  }

  /** Before the first edit: every clock is empty, whatever the index scan stamped. */
  ghost predicate Initial(s: System) {
    && s.sent == {} && s.pending == {}
    && forall p :: p in s.peers ==>
      var l := s.peers[p];
      l.history == {} && l.edits == 0 && l.seen == {} && ClockOf(l) == map[]
  }

  ghost predicate IsRun(s: System, steps: seq<Step>)
    decreases steps
  {
    steps == [] || (Allowed(s, steps[0]) && IsRun(Next(s, steps[0]), steps[1..]))
  }

  ghost function Run(s: System, steps: seq<Step>): System
    requires IsRun(s, steps)
    decreases steps
  {
    if steps == [] then s else Run(Next(s, steps[0]), steps[1..])
  }

  // ---- Clocks characterise causality exactly ----

  /** The clock counts exactly the edits in the history. */
  ghost predicate Represents(h: set<Event>, c: Counters) {
    forall e: Event :: e in h <==> 1 <= e.ordinal <= Get(c, e.author)
  }

  ghost predicate LocalOk(s: System, p: PeerId)
    requires p in s.peers
  {
    && Represents(s.peers[p].history, ClockOf(s.peers[p]))
    && Get(ClockOf(s.peers[p]), p) == s.peers[p].edits
    && forall q :: q in s.peers ==> Get(ClockOf(s.peers[p]), q) <= s.peers[q].edits
  }

  ghost predicate NoteOk(s: System, n: Note) {
    && Represents(n.history, n.clock)
    && forall q :: q in s.peers ==> Get(n.clock, q) <= s.peers[q].edits
  }

  ghost predicate Causal(s: System) {
    && (forall p :: p in s.peers ==> LocalOk(s, p))
    && (forall n :: n in s.sent ==> NoteOk(s, n))
    && (forall d :: d in s.pending ==> d.1 in s.sent)
  }

  lemma TickRepresents(h: set<Event>, c: Counters, p: PeerId)
    requires Represents(h, c) && Get(c, p) < U64_MAX
    ensures Represents(h + {Event(p, Get(c, p) + 1)}, Ticked(c, p))
  {
    var h', c' := h + {Event(p, Get(c, p) + 1)}, Ticked(c, p);
    forall e: Event
      ensures e in h' <==> 1 <= e.ordinal <= Get(c', e.author)
    {
      assert e in h <==> 1 <= e.ordinal <= Get(c, e.author);
    }
  }

  lemma MergeRepresents(g: set<Event>, a: Counters, h: set<Event>, b: Counters)
    requires Represents(g, a) && Represents(h, b)
    ensures Represents(g + h, Merged(a, b))
  {
    forall e: Event
      ensures e in g + h <==> 1 <= e.ordinal <= Get(Merged(a, b), e.author)
    {
      MergedGet(a, b, e.author);
    }
  }

  lemma EditCausal(s: System, p: PeerId, now: nat)
    requires Causal(s) && Allowed(s, Edit(p, now))
    ensures Causal(Next(s, Edit(p, now)))
  {
    var l, s' := s.peers[p], Next(s, Edit(p, now));
    assert LocalOk(s, p);
    TickRepresents(l.history, ClockOf(l), p);
    forall q | q in s'.peers
      ensures LocalOk(s', q)
    {
      assert LocalOk(s, q);
    }
    forall n | n in s'.sent
      ensures NoteOk(s', n)
    {
      if n in s.sent {
        assert NoteOk(s, n);
      } else {
        assert LocalOk(s', p);
      }
    }
  }

  lemma AdoptCausal(s: System, p: PeerId, n: Note)
    requires Causal(s) && p in s.peers && n in s.sent
    ensures Causal(s.(peers := s.peers[p := Adopted(s.peers[p], n)]))
  {
    var l := s.peers[p];
    var s' := s.(peers := s.peers[p := Adopted(l, n)]);
    assert LocalOk(s, p) && NoteOk(s, n);
    MergeRepresents(l.history, ClockOf(l), n.history, n.clock);
    forall q: PeerId
      ensures Get(ClockOf(s'.peers[p]), q) == Max(Get(ClockOf(l), q), Get(n.clock, q))
    {
      MergedGet(ClockOf(l), n.clock, q);
    }
    forall q | q in s'.peers
      ensures LocalOk(s', q)
    {
      assert LocalOk(s, q);
    }
    forall m | m in s'.sent
      ensures NoteOk(s', m)
    {
      assert NoteOk(s, m);
    }
  }

  lemma SeenCausal(s: System, p: PeerId, n: Note)
    requires Causal(s) && p in s.peers && n in s.sent
    ensures Causal(s.(peers := s.peers[p := s.peers[p].(seen := s.peers[p].seen + {n})]))
  {
    var s' := s.(peers := s.peers[p := s.peers[p].(seen := s.peers[p].seen + {n})]);
    forall q | q in s'.peers
      ensures LocalOk(s', q)
    {
      assert LocalOk(s, q);
    }
    forall m | m in s'.sent
      ensures NoteOk(s', m)
    {
      assert NoteOk(s, m);
    }
  }

  lemma StepCausal(s: System, step: Step)
    requires Causal(s) && Allowed(s, step)
    ensures Causal(Next(s, step))
  {
    match step
    case Edit(p, now) => EditCausal(s, p, now);
    case Decide(p, n) => DecideCausal(s, p, n);
    case Apply(p, n) => AdoptCausal(s, p, n);
    case Deliver(p, n) =>
      AdoptCausal(s, p, n);
      SeenCausal(s, p, n);
  }

  lemma DecideCausal(s: System, p: PeerId, n: Note)
    requires Causal(s) && Allowed(s, Decide(p, n))
    ensures Causal(Next(s, Decide(p, n)))
  {
    if Adopts(Decision(p, s.peers[p], n), p) {
      var s' := Next(s, Decide(p, n));
      forall q | q in s'.peers
        ensures LocalOk(s', q)
      {
        assert LocalOk(s, q);
      }
      forall m | m in s'.sent
        ensures NoteOk(s', m)
      {
        assert NoteOk(s, m);
      }
    } else {
      SeenCausal(s, p, n);
    }
  }

  lemma {:induction false} RunCausal(s: System, steps: seq<Step>)
    requires Causal(s) && IsRun(s, steps)
    ensures Causal(Run(s, steps))
    decreases steps
  {
    if steps != [] {
      StepCausal(s, steps[0]);
      RunCausal(Next(s, steps[0]), steps[1..]);
    }
  }

  lemma InitialCausal(s: System)
    requires Initial(s)
    ensures Causal(s)
  {
    forall p | p in s.peers
      ensures LocalOk(s, p)
    {
    }
  }

  /** A version someone holds or has announced: its clock and its history. */
  ghost predicate IsVersion(s: System, c: Counters, h: set<Event>) {
    || (exists p :: p in s.peers && c == ClockOf(s.peers[p]) && h == s.peers[p].history)
    || (exists n :: n in s.sent && c == n.clock && h == n.history)
  }

  lemma LeqIffIncluded(a: Counters, g: set<Event>, b: Counters, h: set<Event>)
    requires Represents(g, a) && Represents(h, b)
    ensures Leq(a, b) <==> g <= h
  {
    LeqPointwise(a, b);
    if Leq(a, b) {
      forall e | e in g
        ensures e in h
      {
        assert Get(a, e.author) <= Get(b, e.author);
      }
    }
    if g <= h {
      forall p: PeerId
        ensures Get(a, p) <= Get(b, p)
      {
        var e := Event(p, Get(a, p));
        assert e in g <==> 1 <= e.ordinal <= Get(a, p);
        assert e in h <==> 1 <= e.ordinal <= Get(b, p);
      }
    }
  }

  ghost function HistoryOrder(g: set<Event>, h: set<Event>): Ordering {
    if g == h then Equal else if g < h then Before else if h < g then After else Concurrent
  }

  /** In every reachable state, whatever the interleaving of decisions and applications, comparing
      two clocks is comparing the edit histories behind them: Before, Equal, After and Concurrent
      are strict inclusion, equality, strict containment and incomparability. */
  lemma ClocksAreCausality(s: System, steps: seq<Step>, a: Counters, g: set<Event>, b: Counters, h: set<Event>)
    requires Initial(s) && IsRun(s, steps)
    requires IsVersion(Run(s, steps), a, g) && IsVersion(Run(s, steps), b, h)
    ensures Compared(a, b) == HistoryOrder(g, h)
  {
    InitialCausal(s);
    RunCausal(s, steps);
    VersionRepresented(Run(s, steps), a, g);
    VersionRepresented(Run(s, steps), b, h);
    LeqIffIncluded(a, g, b, h);
    LeqIffIncluded(b, h, a, g);
  }

  lemma VersionRepresented(s: System, c: Counters, h: set<Event>)
    requires Causal(s) && IsVersion(s, c, h)
    ensures Represents(h, c)
    ensures forall q :: q in s.peers ==> Get(c, q) <= Get(ClockOf(s.peers[q]), q)
  {
    forall q | q in s.peers
      ensures Get(c, q) <= Get(ClockOf(s.peers[q]), q)
    {
      assert LocalOk(s, q);
      if p :| p in s.peers && c == ClockOf(s.peers[p]) && h == s.peers[p].history {
        assert LocalOk(s, p);
      } else {
        var n :| n in s.sent && c == n.clock && h == n.history;
        assert NoteOk(s, n);
      }
    }
    if p :| p in s.peers && c == ClockOf(s.peers[p]) && h == s.peers[p].history {
      assert LocalOk(s, p);
    } else {
      var n :| n in s.sent && c == n.clock && h == n.history;
      assert NoteOk(s, n);
    }
  }

  /** No clock anywhere counts more edits of a peer than that peer's own clock. */
  lemma OwnCounterIsLargest(s: System, steps: seq<Step>, c: Counters, h: set<Event>, q: PeerId)
    requires Initial(s) && IsRun(s, steps)
    requires IsVersion(Run(s, steps), c, h) && q in Run(s, steps).peers
    ensures Get(c, q) <= Get(ClockOf(Run(s, steps).peers[q]), q)
  {
    InitialCausal(s);
    RunCausal(s, steps);
    VersionRepresented(Run(s, steps), c, h);
  }

  // ---- Monotone and idempotent under interleaving ----

  lemma StepMonotone(s: System, step: Step, p: PeerId)
    requires Allowed(s, step) && p in s.peers
    ensures p in Next(s, step).peers
    ensures Leq(ClockOf(s.peers[p]), ClockOf(Next(s, step).peers[p]))
  {
    var c := ClockOf(s.peers[p]);
    match step
    case Edit(q, now) =>
      if p == q {
        TickStrictlyAbove(c, p);
      }
    case Decide(_, _) =>
    case Apply(_, n) => MergeIsLeastUpperBound(c, n.clock, c);
    case Deliver(_, n) => MergeIsLeastUpperBound(c, n.clock, c);
  }

  /** A peer's clock only grows, even with other events between a decision and its application. */
  lemma {:induction false} RunMonotone(s: System, steps: seq<Step>, p: PeerId)
    requires IsRun(s, steps) && p in s.peers
    ensures p in Run(s, steps).peers
    ensures Leq(ClockOf(s.peers[p]), ClockOf(Run(s, steps).peers[p]))
    decreases steps
  {
    if steps != [] {
      var s' := Next(s, steps[0]);
      StepMonotone(s, steps[0], p);
      RunMonotone(s', steps[1..], p);
      LeqTransitive(ClockOf(s.peers[p]), ClockOf(s'.peers[p]), ClockOf(Run(s', steps[1..]).peers[p]));
    }
  }

  /** Once an adopted notification has been applied, every later delivery of it is rejected. */
  lemma AppliedThenRejected(s: System, p: PeerId, n: Note, steps: seq<Step>)
    requires Allowed(s, Apply(p, n)) && IsRun(Next(s, Apply(p, n)), steps)
    ensures var t := Run(Next(s, Apply(p, n)), steps);
      p in t.peers && Decision(p, t.peers[p], n) == Reject
  {
    var s' := Next(s, Apply(p, n));
    var c := ClockOf(s.peers[p]);
    RunMonotone(s', steps, p);
    MergeIsLeastUpperBound(c, n.clock, c);
    LeqTransitive(n.clock, ClockOf(s'.peers[p]), ClockOf(Run(s', steps).peers[p]));
  }
}
